# JMdict term extraction, modelled in Dafny

This project models the JMdict part of the yomichan-import dictionary
converter (`edict.go`). That code turns one JMdict entry into flat, taggable
term records (`dbTerm`):

- `extractJmdictTerms` walks the entry's kanji spellings × readings ×
  senses, kanji-major. A kana-only entry walks readings × senses.
- Three restriction guards filter these combinations:
  - a reading's `Restrictions` limits which kanji it pairs with;
  - a sense's `RestrictedReadings` limits which readings it applies to;
  - a sense's `RestrictedKanji` limits which kanji it applies to.
- Each surviving (kanji, reading) pair gets a "term base". Its tags are the
  reading's information codes. With a kanji, it adds the kanji's information
  codes and the kanji priorities that the reading lists too. Without a kanji,
  it adds the reading's own priorities.
- Each surviving sense then yields one term: the base's tags plus the sense's
  codes, its glossary texts, and the rules and score computed from the final
  tags.
- `computeJmdictRules` derives conjugation-rule codes from the tags. Every
  `v5…` tag collapses to `v5`.
- `computeJmdictScore` scores a term: +5 per top-listing frequency tag and
  −1 per archaism tag.
- `computeJmdictTagMeta` builds the tag-metadata table. It starts from eight
  built-in frequency codes and then adds or overwrites one record per JMdict
  entity, classified by its name.

How the model is laid out:

- **Modules.**
  - `DbTerm` holds the term record and the tag-code sets.
  - `Jmdict` holds the entry's parts as plain datatypes.
  - `JmdictRules`, `JmdictScore`, `JmdictTagMeta`, `JmdictConvert` (the
    `convert` closure) and `JmdictExtract` model the Go functions. They are
    written as methods with the same loops, each proved against a
    specification function.
- **Reference description.** `JmdictOrigins` describes the output
  independently: the list of (kanji position, reading position, sense
  position) combinations in kanji-major order, filtered by the three guards,
  one term per surviving combination. It proves that the extraction is
  exactly that list.
- **Properties.** `JmdictProperties` derives what the source promises from
  that description: guards, provenance, priority intersection, tags,
  glossary, rules and score.
- **Value semantics.** A `dbTerm` is a value. The Go functions that update a
  term through a pointer are methods that take the term and return the
  updated one.
- **Nil lists.** A Go `nil` restriction list is `None`. It means "no
  restriction", whereas an empty list admits nothing.
- **Helpers whose bodies are not shown.**
  - `hasString(x, xs)` is `x in xs`.
  - `addTags` and `addRules` are `OrderedSet.InsertAll`: append each code
    that is not already present, in order.
- **The reading loop.** The reading loop, which both branches of
  `extractJmdictTerms` run, is one method, `JmdictExtract.ConvertReadings`.
- **Entity order.** `computeJmdictTagMeta` visits the entity map in Go's
  unspecified order. The model visits the codes in an arbitrary order, and
  `TagMetaUnique` shows that the result does not depend on it.

## Model

| member | source | states |
|---|---|---|
| OrderedSet.InsertAllMembers | edict.go:125-130 | adding codes the way `addTags` does keeps exactly the old codes and the added ones, leaves the old codes in front unchanged, and carries no code twice |
| OrderedSet.InsertAllDistinct | edict.go:125-126 | copying a duplicate-free tag list into a fresh term reproduces it exactly, in order |
| JmdictRules.ComputeJmdictRules | edict.go:32-43 | the loop over the tags changes only the rules; they become the rule list derived from the tags; nothing else in the term changes |
| JmdictRules.RulesForMembership | edict.go:32-43 | a code is among the resulting rules exactly when it was there before or some tag maps to it (`adj-i`, `v1`, `vk`, `vs` to themselves, a `v5…` tag to `v5`) |
| JmdictRules.VerbalTagBecomesRule | edict.go:34-36 | a tag `adj-i`, `v1`, `vk` or `vs` puts that same code in the rules |
| JmdictRules.FiveStepVerbCollapses | edict.go:37-40 | a tag starting with `v5` puts `v5` in the rules and never the tag itself (e.g. `v5s`) |
| JmdictRules.AddedRulesAreRuleCodes | edict.go:34-41 | every added rule is one of `adj-i`, `v1`, `vk`, `vs`, `v5`; tags that map to no rule (such as `exp`) leave the rules unchanged |
| JmdictRules.RulesExamples | edict.go:33-41 | tags `[v1, v5s]` give rules `[v1, v5]`; tags `[exp]` give none |
| JmdictRules.RulesForNoDup | edict.go:32-43 | rules that carry each code once still carry each code once after the loop |
| JmdictRules.RulesForPresent | edict.go:32-43 | when every code the tags call for is already among the rules, the loop leaves the rules unchanged |
| JmdictRules.RulesIdempotent | edict.go:32-43 | running the rule loop a second time over the same tags changes nothing |
| JmdictScore.ComputeJmdictScore | edict.go:45-55 | the score is overwritten, whatever it was before, with 5 × (top-listing frequency tags) − (archaism tags); nothing else changes |
| JmdictScore.ScoreAdditive | edict.go:47-54 | the score is the sum of per-tag weights (5 for `gai1`/`ichi1`/`news1`/`spec1`, −1 for `arch`/`iK`, 0 otherwise), so it is additive over concatenation and independent of tag order |
| JmdictScore.ScoreBounds | edict.go:47-54 | the score lies between minus the number of tags and five times the number of tags |
| JmdictScore.NoScoringTagsScoreZero | edict.go:46-54 | a term without scoring tags scores 0 |
| JmdictScore.ScoreExamples | edict.go:47-54 | `{news1, arch}` scores 4 and `{news1, gai1}` scores 10 |
| JmdictScore.CountAppend | edict.go:47-54 | counting the tags from a code set distributes over concatenation |
| JmdictTagMeta.ClassifyEntity | edict.go:70-82 | the switch on an entity code: the entity text as notes, and ("frequent", 1), ("expression", 2), ("archaism", 2) or ("", 0) by code |
| JmdictTagMeta.ComputeJmdictTagMeta | edict.go:57-88 | the result's codes are the baseline's and the entities'; each entity code holds its classified record; every other baseline code keeps its built-in record |
| JmdictTagMeta.VisitOne | edict.go:69-85 | one loop step writes one entity's record and keeps the records written so far |
| JmdictTagMeta.TagMetaUnique | edict.go:69-85 | only one map meets that description, so the order in which the entity map is visited does not matter |
| JmdictTagMeta.NoEntitiesGiveBaseline | edict.go:58-67 | without entities the table is exactly the eight frequency codes, each with Order 3 |
| JmdictTagMeta.BaselineCodes | edict.go:59-66 | a baseline code that no entity redefines has Order 3, Category "frequent" for `*1` codes and an empty Category for `*2` codes |
| JmdictTagMeta.EntityNotes | edict.go:69-84 | the codes are exactly the baseline ∪ entity codes, and each entity's text is its code's Notes |
| JmdictTagMeta.EntityClassification | edict.go:72-82 | an entity `gai1`/`ichi1`/`news1`/`spec1` gets ("frequent", 1) over the baseline's 3; `exp`/`id` gets ("expression", 2); `arch`/`iK` gets ("archaism", 2); any other code gets ("", 0) |
| JmdictConvert.BuildTermBase | edict.go:98-114 | the term base is built as described in `BaseOf` (reading information, then kanji information and shared priorities, or the reading's priorities) |
| JmdictConvert.BuildTerm | edict.go:125-137 | the term for one sense is the base's spelling with the sense's tags, glossary texts, rules and score (`TermOf`) |
| JmdictConvert.Convert | edict.go:93-141 | one call appends nothing for a reading restricted away from the kanji, and otherwise the term of each sense that passes both sense guards, in order |
| JmdictExtract.ConvertReadings | edict.go:143-153 | the loop over the readings appends the terms of every reading in turn for one kanji, or for none |
| JmdictExtract.ExtractJmdictTerms | edict.go:90-156 | the result is the terms of every kanji in turn with every reading when the entry has kanji, and of every reading alone otherwise |
| JmdictOrigins.ExtractedTermsFollowOrigins | edict.go:90-156 | the terms are, position by position, the terms of the surviving (kanji, reading, sense) combinations in kanji-major order |
| JmdictOrigins.OriginsAreSurvivors | edict.go:93-123 | a combination is listed exactly when it names positions of the entry and passes all three guards |
| JmdictOrigins.OriginsSorted | edict.go:116-153 | the listed combinations are ordered by kanji, then reading, then sense, each once |
| JmdictOrigins.TermCount | edict.go:116-153 | the number of terms equals the number of combinations that pass all guards |
| JmdictOrigins.ProductMembers | edict.go:143-153 | the loops visit exactly the combinations of the entry's positions, with a kanji position exactly when the entry has kanji |
| JmdictOrigins.ProductSorted | edict.go:143-153 | the loops visit the combinations kanji-major, then by reading, then by sense |
| JmdictOrigins.SelectMembers | edict.go:94-123 | filtering keeps exactly the combinations that pass the guards |
| JmdictOrigins.SelectSorted | edict.go:94-123 | filtering keeps the order |
| JmdictOrigins.ConvertMatches | edict.go:93-141 | one `convert` call yields the surviving combinations of its (kanji, reading) pair |
| JmdictOrigins.AdmittedPairTerms | edict.go:116-140 | for an admitted pair, the sense loop yields the term of each sense that passes the sense guards |
| JmdictOrigins.ReadingTermsMatch | edict.go:145-152 | the reading loop yields the surviving combinations of its kanji position |
| JmdictOrigins.KanjiTermsMatch | edict.go:144-148 | the kanji loop yields the surviving combinations of the kanji seen so far |
| JmdictProperties.SharedPrioritiesMembers | edict.go:109-113 | a kanji priority is kept exactly when the reading lists it too |
| JmdictProperties.ContentsOfGlossary | edict.go:132-134 | the glossary is the sense's glossary texts, one for one and in order |
| JmdictProperties.BaseShape | edict.go:98-114 | the base's expression and reading (the reading as expression and an empty reading without a kanji), and its tags, each once: reading information plus the reading's priorities, or plus kanji information and the priorities both list |
| JmdictProperties.PriorityIntersection | edict.go:109-113 | a kanji priority that no information list carries is on the base exactly when the reading lists it |
| JmdictProperties.KanaPrioritiesKept | edict.go:101-103 | without a kanji, all of the reading's priorities are on the base |
| JmdictProperties.TermShape | edict.go:125-137 | a term keeps the base's expression and reading and its tags in front; its tags are the base's and the sense's codes, each once; its glossary is the sense's texts; its rules follow from its tags, each code once; its score lies within the bounds its tags allow |
| JmdictProperties.TermsHaveOrigins | edict.go:90-156 | every term comes from a combination that passes all guards and is the term built for it; the combinations are kanji-major |
| JmdictProperties.SurvivorsYieldTerms | edict.go:93-153 | every combination that passes all guards yields its term at its place in the output |
| JmdictProperties.ReadingKanjiGuard | edict.go:94-96 | every term is the term of its combination, and no term pairs a kanji with a reading whose restriction list exists and does not list that kanji |
| JmdictProperties.SenseReadingGuard | edict.go:117-119 | every term is the term of its combination, and a sense with restricted readings contributes only to terms whose reading is in its list |
| JmdictProperties.SenseKanjiGuard | edict.go:121-123 | every term is the term of its combination, and a sense with restricted kanji contributes only to terms whose kanji is in its list, and only when kanji are present |
| JmdictProperties.KanaOnlyTerms | edict.go:101-103 | with no kanji, every term has an empty reading, has a reading's text as its expression, and carries all of that reading's priorities |
| JmdictProperties.KanjiSpelledTerms | edict.go:105-106 | with kanji, every term's expression is a kanji spelling of the entry and its reading a reading text of the entry |
| JmdictProperties.TermsAreWellFormed | edict.go:125-137 | every term carries each tag once and each rule once; its glossary is its sense's texts in order; its rules and score are those computed from its final tags |
| JmdictProperties.RestrictedReadingExample | edict.go:93-96 | with spellings 見る and 観る and a reading みる restricted to 見る, exactly one term is produced, for 見る |

## Left out

- `exportJmdictDb` (edict.go:158-177) is file and stream I/O. It parses the XML dictionary and entities, collects the terms and tag metadata, and writes the database. It is not modelled.
- `dbTermList.crush` and `writeDb` are defined outside `edict.go`. They are not part of this model.
- JMdict XML parsing and entity expansion belong to a foreign library. The entry and its parts are plain datatypes with the fields the extraction reads, and the entity map is an input.
- `addTags`, `addRules` and `hasString` are defined outside `edict.go`. They are modelled as append-if-absent and membership. Nothing else about them is claimed.
- `computeJmdictRules` and `computeJmdictScore` take a `*dbTerm`. The model passes the term by value and returns the updated copy. Aliasing is not captured; the source passes only the address of a local term.
- A Go `nil` slice and an empty slice are one value in the term's fields. The two are kept apart only in the restriction lists, where they differ in meaning.
- The `convert` closure appends to the captured `terms` slice. The model passes that slice in and returns the extended one.
- JmdictScore.ComputeJmdictScore: the score is an unbounded integer, whereas Go's `int` is 64-bit. The score stays within ±5·|tags|, so it never reaches the 64-bit limits.
- JmdictRules.ComputeJmdictRules: `strings.HasPrefix` compares UTF-8 bytes, whereas the model compares characters. The two agree for the ASCII prefix `v5`.
