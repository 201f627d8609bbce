/**
 * `extractJmdictTerms`: the terms of a whole entry, kanji-major when the
 * entry has kanji spellings and reading by reading when it has none.
 */
module JmdictExtract {
  import opened Wrappers
  import opened DbTerm
  import opened Jmdict
  import opened JmdictConvert

  /** The terms of `convert` called for each reading in turn, with one kanji or none. */
  function ReadingTerms(readings: seq<Reading>, kanji: Option<Kanji>, senses: seq<Sense>): seq<Term>
    decreases |readings|
  {
    if readings == [] then []
    else ReadingTerms(readings[..|readings| - 1], kanji, senses) + ConvertTerms(readings[|readings| - 1], kanji, senses)
  }

  /** The terms of every kanji spelling in turn, each with every reading. */
  function KanjiTerms(kanji: seq<Kanji>, readings: seq<Reading>, senses: seq<Sense>): seq<Term>
    decreases |kanji|
  {
    if kanji == [] then []
    else KanjiTerms(kanji[..|kanji| - 1], readings, senses) + ReadingTerms(readings, Some(kanji[|kanji| - 1]), senses)
  }

  /** The terms of an entry. */
  function JmdictTerms(e: Entry): seq<Term> {
    if |e.kanji| > 0 then KanjiTerms(e.kanji, e.readings, e.sense)
    else ReadingTerms(e.readings, None, e.sense)
  }

  /** The terms of one more reading follow those of the readings before it. */
  lemma ReadingTermsStep(readings: seq<Reading>, j: nat, kanji: Option<Kanji>, senses: seq<Sense>)
    requires j < |readings|
    ensures ReadingTerms(readings[..j + 1], kanji, senses) == ReadingTerms(readings[..j], kanji, senses) + ConvertTerms(readings[j], kanji, senses)
  {
    assert readings[..j + 1][..j] == readings[..j];
  }

  /** The terms of one more kanji follow those of the kanji before it. */
  lemma KanjiTermsStep(kanji: seq<Kanji>, i: nat, readings: seq<Reading>, senses: seq<Sense>)
    requires i < |kanji|
    ensures KanjiTerms(kanji[..i + 1], readings, senses) == KanjiTerms(kanji[..i], readings, senses) + ReadingTerms(readings, Some(kanji[i]), senses)
  {
    assert kanji[..i + 1][..i] == kanji[..i];
  }

  /** One more `convert` call extends the terms of the readings before it. */
  lemma ReadingLoopStep(terms: seq<Term>, out: seq<Term>, readings: seq<Reading>, j: nat, kanji: Option<Kanji>, senses: seq<Sense>)
    requires j < |readings|
    requires out == terms + ReadingTerms(readings[..j], kanji, senses)
    ensures out + ConvertTerms(readings[j], kanji, senses) == terms + ReadingTerms(readings[..j + 1], kanji, senses)
  {
    ReadingTermsStep(readings, j, kanji, senses);
  }

  /** The reading loop that both branches of `extractJmdictTerms` run. */
  method ConvertReadings(e: Entry, kanji: Option<Kanji>, terms: seq<Term>) returns (out: seq<Term>)
    ensures out == terms + ReadingTerms(e.readings, kanji, e.sense)
  {
    out := terms;
    for j := 0 to |e.readings|
      invariant out == terms + ReadingTerms(e.readings[..j], kanji, e.sense)
    {
      ReadingLoopStep(terms, out, e.readings, j, kanji, e.sense);
      out := Convert(e.sense, e.readings[j], kanji, out);
    }
    assert e.readings[..|e.readings|] == e.readings;
  }

  /** `extractJmdictTerms`. */
  method ExtractJmdictTerms(e: Entry) returns (terms: seq<Term>)
    ensures terms == JmdictTerms(e)
  {
    terms := [];
    if |e.kanji| > 0 {
      for i := 0 to |e.kanji|
        invariant terms == KanjiTerms(e.kanji[..i], e.readings, e.sense)
      {
        KanjiTermsStep(e.kanji, i, e.readings, e.sense);
        terms := ConvertReadings(e, Some(e.kanji[i]), terms);
      }
      assert e.kanji[..|e.kanji|] == e.kanji;
    } else {
      terms := ConvertReadings(e, None, terms);
    }
  }
}
