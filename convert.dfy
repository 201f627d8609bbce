/**
 * The `convert` closure of `extractJmdictTerms`: the terms of one (reading,
 * kanji) pair, one per sense that passes the restriction guards.
 */
module JmdictConvert {
  import opened Wrappers
  import opened OrderedSet
  import opened DbTerm
  import opened Jmdict
  import opened JmdictRules
  import opened JmdictScore

  /** Reading-to-kanji guard: a restricted reading pairs only with its listed kanji. */
  predicate ReadingAdmits(reading: Reading, kanji: Option<Kanji>) {
    kanji.None? || reading.restrictions.None? || kanji.value.expression in reading.restrictions.value
  }

  /**
   * Sense guards: a sense restricted to readings applies only to those, and
   * one restricted to kanji applies only to those when a kanji is in play.
   */
  predicate SenseAdmits(sense: Sense, reading: Reading, kanji: Option<Kanji>) {
    && (sense.restrictedReadings.None? || reading.reading in sense.restrictedReadings.value)
    && (kanji.None? || sense.restrictedKanji.None? || kanji.value.expression in sense.restrictedKanji.value)
  }

  /** The kanji priorities that the reading lists too, in the kanji's order. */
  function SharedPriorities(kanjiPriorities: seq<string>, readingPriorities: seq<string>): (r: seq<string>)
    decreases |kanjiPriorities|
  {
    if kanjiPriorities == [] then []
    else
      var last := kanjiPriorities[|kanjiPriorities| - 1];
      SharedPriorities(kanjiPriorities[..|kanjiPriorities| - 1], readingPriorities)
        + (if last in readingPriorities then [last] else [])
  }

  /** The term base of a reading, paired with a kanji spelling or kana-only. */
  function BaseOf(reading: Reading, kanji: Option<Kanji>): Term {
    var informed := AddTags(Empty, reading.information);
    match kanji
    case None =>
      AddTags(informed.(expression := reading.reading), reading.priorities)
    case Some(k) =>
      AddTags(AddTags(informed.(expression := k.expression, reading := reading.reading), k.information),
              SharedPriorities(k.priorities, reading.priorities))
  }

  /** The glossary texts of a sense, in order. */
  function Contents(glossary: seq<Glossary>): (r: seq<string>)
    decreases |glossary|
  {
    if glossary == [] then []
    else Contents(glossary[..|glossary| - 1]) + [glossary[|glossary| - 1].content]
  }

  /** The tags of a term built from `base` for `sense`. */
  function SenseTags(base: Term, sense: Sense): seq<string> {
    InsertAll(InsertAll(InsertAll(InsertAll(InsertAll([], base.tags),
      sense.partsOfSpeech), sense.fields), sense.misc), sense.dialects)
  }

  /** The term for one surviving sense: tags, glossary, then rules and score. */
  function TermOf(base: Term, sense: Sense): Term {
    var tags := SenseTags(base, sense);
    Term(base.expression, base.reading, tags, RulesFor([], tags), ScoreOf(tags), Contents(sense.glossary))
  }

  /** The terms of the senses that pass the sense guards, in order. */
  function SenseTerms(base: Term, reading: Reading, kanji: Option<Kanji>, senses: seq<Sense>): seq<Term>
    decreases |senses|
  {
    if senses == [] then []
    else
      var last := senses[|senses| - 1];
      SenseTerms(base, reading, kanji, senses[..|senses| - 1])
        + (if SenseAdmits(last, reading, kanji) then [TermOf(base, last)] else [])
  }

  /** What one call of `convert` appends. */
  function ConvertTerms(reading: Reading, kanji: Option<Kanji>, senses: seq<Sense>): seq<Term> {
    if ReadingAdmits(reading, kanji) then SenseTerms(BaseOf(reading, kanji), reading, kanji, senses) else []
  }

  /** Builds the term base of `convert` step by step. */
  method BuildTermBase(reading: Reading, kanji: Option<Kanji>) returns (termBase: Term)
    ensures termBase == BaseOf(reading, kanji)
  {
    termBase := Empty;
    termBase := AddTags(termBase, reading.information);
    if kanji.None? {
      termBase := termBase.(expression := reading.reading);
      termBase := AddTags(termBase, reading.priorities);
    } else {
      var k := kanji.value;
      termBase := termBase.(expression := k.expression, reading := reading.reading);
      termBase := AddTags(termBase, k.information);
      ghost var informed := termBase;
      for i := 0 to |k.priorities|
        invariant termBase == informed.(tags := InsertAll(informed.tags, SharedPriorities(k.priorities[..i], reading.priorities)))
      {
        var priority := k.priorities[i];
        ghost var shared := SharedPriorities(k.priorities[..i], reading.priorities);
        assert k.priorities[..i + 1][..i] == k.priorities[..i];
        assert SharedPriorities(k.priorities[..i + 1], reading.priorities)
          == shared + (if priority in reading.priorities then [priority] else []);
        if priority in reading.priorities {
          InsertAllSnoc(informed.tags, shared, priority);
          InsertAllOne(termBase.tags, priority);
          termBase := AddTags(termBase, [priority]);
        } else {
          assert shared + [] == shared;
        }
      }
      assert k.priorities[..|k.priorities|] == k.priorities;
    }
  }

  /** Builds the term for one sense from the term base, as the loop body does. */
  method BuildTerm(termBase: Term, sense: Sense) returns (term: Term)
    ensures term == TermOf(termBase, sense)
  {
    term := Term(termBase.expression, termBase.reading, [], [], 0, []);
    term := AddTags(term, termBase.tags);
    term := AddTags(term, sense.partsOfSpeech);
    term := AddTags(term, sense.fields);
    term := AddTags(term, sense.misc);
    term := AddTags(term, sense.dialects);
    ghost var tagged := term;
    for j := 0 to |sense.glossary|
      invariant term == tagged.(glossary := Contents(sense.glossary[..j]))
    {
      assert sense.glossary[..j + 1][..j] == sense.glossary[..j];
      term := term.(glossary := term.glossary + [sense.glossary[j].content]);
    }
    assert sense.glossary[..|sense.glossary|] == sense.glossary;
    term := ComputeJmdictRules(term);
    term := ComputeJmdictScore(term);
  }

  /** The `convert` closure: appends the terms of one (reading, kanji) pair. */
  method Convert(senses: seq<Sense>, reading: Reading, kanji: Option<Kanji>, terms: seq<Term>)
    returns (out: seq<Term>)
    ensures out == terms + ConvertTerms(reading, kanji, senses)
  {
    out := terms;
    if kanji.Some? && reading.restrictions.Some? && kanji.value.expression !in reading.restrictions.value {
      return;
    }
    var termBase := BuildTermBase(reading, kanji);
    for i := 0 to |senses|
      invariant out == terms + SenseTerms(termBase, reading, kanji, senses[..i])
    {
      var sense := senses[i];
      assert senses[..i + 1][..i] == senses[..i];
      if sense.restrictedReadings.Some? && reading.reading !in sense.restrictedReadings.value {
        continue;
      }
      if kanji.Some? && sense.restrictedKanji.Some? && kanji.value.expression !in sense.restrictedKanji.value {
        continue;
      }
      var term := BuildTerm(termBase, sense);
      out := out + [term];
    }
    assert senses[..|senses|] == senses;
  }
}
