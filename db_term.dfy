/**
 * The term record `dbTerm` that the extraction produces, and the tag codes
 * the rule, score and tag-metadata functions of edict.go single out.
 */
module DbTerm {
  import opened OrderedSet

  /** One flat, taggable dictionary term. */
  datatype Term = Term(
    expression: string,
    reading: string,
    tags: seq<string>,
    rules: seq<string>,
    score: int,
    glossary: seq<string>)

  /** The zero value of the Go struct. */
  const Empty: Term := Term("", "", [], [], 0, [])

  /** Top-listing frequency markers. */
  const TopFrequencyCodes: set<string> := {"gai1", "ichi1", "news1", "spec1"}

  /** Archaism and irregular-kanji markers. */
  const ArchaismCodes: set<string> := {"arch", "iK"}

  /** Expression and idiom markers. */
  const ExpressionCodes: set<string> := {"exp", "id"}

  /** `addTags`: appends each code that the term does not carry yet. */
  function AddTags(term: Term, tags: seq<string>): (t: Term)
  {
    term.(tags := InsertAll(term.tags, tags))
  }

  /** `addRules`: appends each rule code that the term does not carry yet. */
  function AddRules(term: Term, rules: seq<string>): (t: Term)
  {
    term.(rules := InsertAll(term.rules, rules))
  }
}
