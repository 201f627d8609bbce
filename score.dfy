/** `computeJmdictScore`: an additive relevance score over a term's tags. */
module JmdictScore {
  import opened DbTerm

  /** How many entries of `tags` are among `codes`. */
  function Count(tags: seq<string>, codes: set<string>): (n: nat)
    decreases |tags|
    ensures n <= |tags|
  {
    if tags == [] then 0
    else Count(tags[..|tags| - 1], codes) + (if tags[|tags| - 1] in codes then 1 else 0)
  }

  /** Five points per top frequency tag, minus one per archaism tag. */
  function ScoreOf(tags: seq<string>): int {
    5 * Count(tags, TopFrequencyCodes) - Count(tags, ArchaismCodes)
  }

  /** The loop of edict.go: the score is reset to 0 and then accumulated. */
  method ComputeJmdictScore(term: Term) returns (t: Term)
    ensures t == term.(score := ScoreOf(term.tags))
  {
    t := term.(score := 0);
    for i := 0 to |term.tags|
      invariant t == term.(score := ScoreOf(term.tags[..i]))
    {
      assert term.tags[..i + 1][..i] == term.tags[..i];
      var tag := term.tags[i];
      if tag in TopFrequencyCodes {
        t := t.(score := t.score + 5);
      } else if tag in ArchaismCodes {
        t := t.(score := t.score - 1);
      }
    }
    assert term.tags[..|term.tags|] == term.tags;
  }

  /** The score lies between -|tags| and 5 * |tags|. */
  lemma ScoreBounds(tags: seq<string>)
    ensures -|tags| <= ScoreOf(tags) <= 5 * |tags|
  {
  }

  /** Tags without any scoring code score 0, whatever the prior score was. */
  lemma {:induction false} NoScoringTagsScoreZero(tags: seq<string>)
    requires forall i :: 0 <= i < |tags| ==> tags[i] !in TopFrequencyCodes && tags[i] !in ArchaismCodes
    ensures ScoreOf(tags) == 0
  {
    if tags != [] {
      NoScoringTagsScoreZero(tags[..|tags| - 1]);
    }
  }

  /** Counting distributes over concatenation. */
  lemma {:induction false} CountAppend(xs: seq<string>, ys: seq<string>, codes: set<string>)
    ensures Count(xs + ys, codes) == Count(xs, codes) + Count(ys, codes)
    decreases |ys|
  {
    if ys != [] {
      var init := ys[..|ys| - 1];
      assert (xs + ys)[..|xs + ys| - 1] == xs + init;
      CountAppend(xs, init, codes);
    } else {
      assert xs + ys == xs;
    }
  }

  /** The weight one tag adds to the score: 5, -1 or 0. */
  function Weight(tag: string): int {
    if tag in TopFrequencyCodes then 5 else if tag in ArchaismCodes then -1 else 0
  }

  /**
   * The score is additive over the tags, each tag adding its own weight, so
   * it does not depend on the order of the tags.
   */
  lemma ScoreAdditive(xs: seq<string>, ys: seq<string>, tag: string)
    ensures ScoreOf(xs + ys) == ScoreOf(xs) + ScoreOf(ys)
    ensures ScoreOf([tag]) == Weight(tag)
    ensures ScoreOf(xs + [tag] + ys) == ScoreOf([tag] + xs + ys)
  {
    CountAppend(xs, ys, TopFrequencyCodes);
    CountAppend(xs, ys, ArchaismCodes);
    assert [tag][..0] == [];
    CountAppend(xs + [tag], ys, TopFrequencyCodes);
    CountAppend(xs + [tag], ys, ArchaismCodes);
    CountAppend(xs, [tag], TopFrequencyCodes);
    CountAppend(xs, [tag], ArchaismCodes);
    CountAppend([tag] + xs, ys, TopFrequencyCodes);
    CountAppend([tag] + xs, ys, ArchaismCodes);
    CountAppend([tag], xs, TopFrequencyCodes);
    CountAppend([tag], xs, ArchaismCodes);
  }

  /** `{news1, arch}` scores 4; `{news1, gai1}` scores 10. */
  lemma ScoreExamples()
    ensures ScoreOf(["news1", "arch"]) == 4
    ensures ScoreOf(["news1", "gai1"]) == 10
  {
  }
}
