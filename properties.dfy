/**
 * What `extractJmdictTerms` promises about the terms it returns: where each
 * term comes from, the restriction guards it has passed, how its tags,
 * glossary, rules and score are made, and how priorities are shared
 * between a kanji spelling and a reading.
 */
module JmdictProperties {
  import opened Wrappers
  import opened OrderedSet
  import opened DbTerm
  import opened Jmdict
  import opened JmdictRules
  import opened JmdictScore
  import opened JmdictConvert
  import opened JmdictExtract
  import opened JmdictOrigins

  /** A kanji's priority is kept exactly when the reading lists it too. */
  lemma {:induction false} SharedPrioritiesMembers(kanjiPriorities: seq<string>, readingPriorities: seq<string>)
    ensures forall p :: p in SharedPriorities(kanjiPriorities, readingPriorities) <==>
      p in kanjiPriorities && p in readingPriorities
    decreases |kanjiPriorities|
  {
    if kanjiPriorities != [] {
      var init, last := kanjiPriorities[..|kanjiPriorities| - 1], kanjiPriorities[|kanjiPriorities| - 1];
      SharedPrioritiesMembers(init, readingPriorities);
      assert kanjiPriorities == init + [last];
    }
  }

  /** The glossary of a term is the sense's glossary texts, one for one and in order. */
  lemma {:induction false} ContentsOfGlossary(glossary: seq<Glossary>)
    ensures |Contents(glossary)| == |glossary|
    ensures forall i :: 0 <= i < |glossary| ==> Contents(glossary)[i] == glossary[i].content
    decreases |glossary|
  {
    if glossary != [] {
      ContentsOfGlossary(glossary[..|glossary| - 1]);
    }
  }

  /**
   * The term base: its spelling and reading, and its tags, which are the
   * reading's information codes, then the kanji's information codes and
   * the priorities the kanji and the reading share, or, without a kanji,
   * the reading's own priorities; each code once.
   */
  lemma BaseShape(reading: Reading, kanji: Option<Kanji>)
    ensures kanji.None? ==> BaseOf(reading, kanji).expression == reading.reading && BaseOf(reading, kanji).reading == ""
    ensures kanji.Some? ==> BaseOf(reading, kanji).expression == kanji.value.expression && BaseOf(reading, kanji).reading == reading.reading
    ensures forall x :: x in BaseOf(reading, kanji).tags <==>
      || x in reading.information
      || (kanji.None? && x in reading.priorities)
      || (kanji.Some? && (x in kanji.value.information || (x in kanji.value.priorities && x in reading.priorities)))
    ensures NoDup(BaseOf(reading, kanji).tags)
  {
    InsertAllMembers([], reading.information);
    var informed := InsertAll([], reading.information);
    match kanji
    case None =>
      InsertAllMembers(informed, reading.priorities);
    case Some(k) =>
      InsertAllMembers(informed, k.information);
      SharedPrioritiesMembers(k.priorities, reading.priorities);
      InsertAllMembers(InsertAll(informed, k.information), SharedPriorities(k.priorities, reading.priorities));
  }

  /**
   * A priority code of a kanji spelling that no information list carries
   * is on the term base exactly when the reading lists it as well.
   */
  lemma PriorityIntersection(reading: Reading, k: Kanji, p: string)
    requires p in k.priorities
    requires p !in reading.information && p !in k.information
    ensures p in BaseOf(reading, Some(k)).tags <==> p in reading.priorities
  {
    BaseShape(reading, Some(k));
  }

  /** Without a kanji spelling, every priority of the reading is kept. */
  lemma KanaPrioritiesKept(reading: Reading)
    ensures forall p :: p in reading.priorities ==> p in BaseOf(reading, None).tags
  {
    BaseShape(reading, None);
  }

  /**
   * The term for one sense: the base's spelling and reading; tags that are
   * the base's tags followed by the sense's parts of speech, fields, misc
   * and dialect codes not seen before, each once; the sense's glossary
   * texts in order; rules derived from its tags, each once, and a score
   * within the bounds its tags allow.
   */
  lemma TermShape(base: Term, sense: Sense)
    requires NoDup(base.tags)
    ensures TermOf(base, sense).expression == base.expression && TermOf(base, sense).reading == base.reading
    ensures base.tags <= TermOf(base, sense).tags
    ensures forall x :: x in TermOf(base, sense).tags <==>
      x in base.tags || x in sense.partsOfSpeech || x in sense.fields || x in sense.misc || x in sense.dialects
    ensures NoDup(TermOf(base, sense).tags)
    ensures |TermOf(base, sense).glossary| == |sense.glossary|
    ensures forall i :: 0 <= i < |sense.glossary| ==> TermOf(base, sense).glossary[i] == sense.glossary[i].content
    ensures forall code :: code in TermOf(base, sense).rules <==>
      exists i :: 0 <= i < |TermOf(base, sense).tags| && RuleOf(TermOf(base, sense).tags[i]) == Some(code)
    ensures NoDup(TermOf(base, sense).rules)
    ensures -|TermOf(base, sense).tags| <= TermOf(base, sense).score <= 5 * |TermOf(base, sense).tags|
  {
    var t1 := InsertAll([], base.tags);
    InsertAllDistinct(base.tags);
    var t2 := InsertAll(t1, sense.partsOfSpeech);
    InsertAllMembers(t1, sense.partsOfSpeech);
    var t3 := InsertAll(t2, sense.fields);
    InsertAllMembers(t2, sense.fields);
    var t4 := InsertAll(t3, sense.misc);
    InsertAllMembers(t3, sense.misc);
    var tags := InsertAll(t4, sense.dialects);
    InsertAllMembers(t4, sense.dialects);
    assert tags == TermOf(base, sense).tags;
    forall code
      ensures code in TermOf(base, sense).rules <==> exists i :: 0 <= i < |tags| && RuleOf(tags[i]) == Some(code)
    {
      RulesForMembership([], tags, code);
    }
    RulesForNoDup([], tags);
    ContentsOfGlossary(sense.glossary);
    ScoreBounds(tags);
  }

  /**
   * Every term of an entry comes from a combination of one kanji position
   * (none for a kana-only entry), one reading and one sense that passes all
   * guards, and is the term built for that combination; the combinations
   * are taken kanji-major, then by reading, then by sense.
   */
  lemma TermsHaveOrigins(e: Entry)
    ensures |JmdictTerms(e)| == |Origins(e)|
    ensures forall i :: 0 <= i < |JmdictTerms(e)| ==>
      Survives(e, Origins(e)[i]) && JmdictTerms(e)[i] == TermAt(e, Origins(e)[i])
    ensures Sorted(Origins(e))
  {
    ExtractedTermsFollowOrigins(e);
    OriginsAreSurvivors(e);
    OriginsSorted(e);
  }

  /** Every combination that passes all guards yields a term, in its place. */
  lemma SurvivorsYieldTerms(e: Entry, o: Origin)
    requires ValidOrigin(e, o)
    requires ReadingAdmits(e.readings[o.reading], KanjiAt(e, o.kanji))
    requires SenseAdmits(e.sense[o.sense], e.readings[o.reading], KanjiAt(e, o.kanji))
    ensures |JmdictTerms(e)| == |Origins(e)|
    ensures exists i :: 0 <= i < |Origins(e)| && Origins(e)[i] == o && JmdictTerms(e)[i] == TermAt(e, o)
  {
    ExtractedTermsFollowOrigins(e);
    OriginsAreSurvivors(e);
    assert o in Origins(e);
    var i :| 0 <= i < |Origins(e)| && Origins(e)[i] == o;
    assert JmdictTerms(e)[i] == TermAt(e, o);
  }

  /**
   * A reading with a restriction list is paired only with the kanji
   * spellings it lists.
   */
  lemma ReadingKanjiGuard(e: Entry)
    ensures |JmdictTerms(e)| == |Origins(e)|
    ensures forall i :: 0 <= i < |JmdictTerms(e)| ==>
      var o := Origins(e)[i];
      JmdictTerms(e)[i] == TermAt(e, o) && o.reading < |e.readings| &&
      (o.kanji.Some? && e.readings[o.reading].restrictions.Some? ==>
        o.kanji.value < |e.kanji| &&
        e.kanji[o.kanji.value].expression in e.readings[o.reading].restrictions.value)
  {
    TermsHaveOrigins(e);
  }

  /** A sense restricted to readings yields terms only for those readings. */
  lemma SenseReadingGuard(e: Entry)
    ensures |JmdictTerms(e)| == |Origins(e)|
    ensures forall i :: 0 <= i < |JmdictTerms(e)| ==>
      var o := Origins(e)[i];
      JmdictTerms(e)[i] == TermAt(e, o) && o.reading < |e.readings| && o.sense < |e.sense| &&
      (e.sense[o.sense].restrictedReadings.Some? ==>
        e.readings[o.reading].reading in e.sense[o.sense].restrictedReadings.value)
  {
    TermsHaveOrigins(e);
  }

  /** A sense restricted to kanji spellings yields kanji terms only for those spellings. */
  lemma SenseKanjiGuard(e: Entry)
    ensures |JmdictTerms(e)| == |Origins(e)|
    ensures forall i :: 0 <= i < |JmdictTerms(e)| ==>
      var o := Origins(e)[i];
      JmdictTerms(e)[i] == TermAt(e, o) && o.sense < |e.sense| &&
      (o.kanji.Some? && e.sense[o.sense].restrictedKanji.Some? ==>
        o.kanji.value < |e.kanji| &&
        e.kanji[o.kanji.value].expression in e.sense[o.sense].restrictedKanji.value)
  {
    TermsHaveOrigins(e);
  }

  /**
   * An entry without kanji spellings yields kana-only terms: the reading is
   * the expression, the reading field is empty and all of the reading's
   * priorities are among the tags.
   */
  lemma KanaOnlyTerms(e: Entry)
    requires |e.kanji| == 0
    ensures |JmdictTerms(e)| == |Origins(e)|
    ensures forall i :: 0 <= i < |JmdictTerms(e)| ==>
      var o := Origins(e)[i];
      o.kanji.None? && o.reading < |e.readings| &&
      JmdictTerms(e)[i].expression == e.readings[o.reading].reading &&
      JmdictTerms(e)[i].reading == "" &&
      forall p :: p in e.readings[o.reading].priorities ==> p in JmdictTerms(e)[i].tags
  {
    TermsHaveOrigins(e);
    forall i | 0 <= i < |JmdictTerms(e)|
      ensures forall p :: p in e.readings[Origins(e)[i].reading].priorities ==> p in JmdictTerms(e)[i].tags
    {
      var o := Origins(e)[i];
      var reading := e.readings[o.reading];
      BaseShape(reading, None);
      TermShape(BaseOf(reading, None), e.sense[o.sense]);
    }
  }

  /**
   * An entry with kanji spellings yields only kanji terms: the spelling of
   * one of its kanji is the expression and the text of one of its readings
   * is the reading.
   */
  lemma KanjiSpelledTerms(e: Entry)
    requires |e.kanji| > 0
    ensures |JmdictTerms(e)| == |Origins(e)|
    ensures forall i :: 0 <= i < |JmdictTerms(e)| ==>
      var o := Origins(e)[i];
      o.kanji.Some? && o.kanji.value < |e.kanji| && o.reading < |e.readings| &&
      JmdictTerms(e)[i].expression == e.kanji[o.kanji.value].expression &&
      JmdictTerms(e)[i].reading == e.readings[o.reading].reading
  {
    TermsHaveOrigins(e);
    forall i | 0 <= i < |JmdictTerms(e)|
      ensures JmdictTerms(e)[i].expression == e.kanji[Origins(e)[i].kanji.value].expression
      ensures JmdictTerms(e)[i].reading == e.readings[Origins(e)[i].reading].reading
    {
      var o := Origins(e)[i];
      BaseShape(e.readings[o.reading], KanjiAt(e, o.kanji));
    }
  }

  /**
   * Every term carries each tag and each rule once, its glossary is the texts of its
   * sense's glossary, and its rules and score are those its final tags
   * call for.
   */
  lemma TermsAreWellFormed(e: Entry)
    ensures |JmdictTerms(e)| == |Origins(e)|
    ensures forall i :: 0 <= i < |JmdictTerms(e)| ==>
      var o := Origins(e)[i];
      var t := JmdictTerms(e)[i];
      o.sense < |e.sense| &&
      NoDup(t.tags) && NoDup(t.rules) &&
      |t.glossary| == |e.sense[o.sense].glossary| &&
      (forall j :: 0 <= j < |t.glossary| ==> t.glossary[j] == e.sense[o.sense].glossary[j].content) &&
      (forall code :: code in t.rules <==> exists j :: 0 <= j < |t.tags| && RuleOf(t.tags[j]) == Some(code)) &&
      t.rules == RulesFor([], t.tags) && t.score == ScoreOf(t.tags)
  {
    TermsHaveOrigins(e);
    forall i | 0 <= i < |JmdictTerms(e)|
      ensures var o := Origins(e)[i];
        var t := JmdictTerms(e)[i];
        NoDup(t.tags) && NoDup(t.rules) &&
        |t.glossary| == |e.sense[o.sense].glossary| &&
        (forall j :: 0 <= j < |t.glossary| ==> t.glossary[j] == e.sense[o.sense].glossary[j].content) &&
        (forall code :: code in t.rules <==> exists j :: 0 <= j < |t.tags| && RuleOf(t.tags[j]) == Some(code))
    {
      var o := Origins(e)[i];
      var base := BaseOf(e.readings[o.reading], KanjiAt(e, o.kanji));
      BaseShape(e.readings[o.reading], KanjiAt(e, o.kanji));
      TermShape(base, e.sense[o.sense]);
    }
  }

  /**
   * An entry with the spellings 見る and 観る whose only reading みる is
   * restricted to 見る yields a single term, for 見る.
   */
  lemma RestrictedReadingExample()
    ensures var e := Entry([Kanji("見る", [], []), Kanji("観る", [], [])],
                           [Reading("みる", [], [], Some(["見る"]))],
                           [Sense(None, None, ["v1"], [], [], [], [Glossary("to see")])]);
      && |JmdictTerms(e)| == 1
      && JmdictTerms(e)[0].expression == "見る"
      && JmdictTerms(e)[0].reading == "みる"
      && JmdictTerms(e)[0].glossary == ["to see"]
      && JmdictTerms(e)[0].rules == ["v1"]
  {
    var see, watch := Kanji("見る", [], []), Kanji("観る", [], []);
    var miru := Reading("みる", [], [], Some(["見る"]));
    var sense := Sense(None, None, ["v1"], [], [], [], [Glossary("to see")]);
    var e := Entry([see, watch], [miru], [sense]);
    assert "観る"[0] != "見る"[0];
    assert !ReadingAdmits(miru, Some(watch));
    assert ReadingAdmits(miru, Some(see));
    assert [miru][..0] == [];
    assert [see, watch][..1] == [see];
    assert [see][..0] == [];
    assert [sense][..0] == [];
    assert ReadingTerms([miru], Some(watch), [sense]) == [];
    var base := BaseOf(miru, Some(see));
    assert base.tags == [];
    var t := TermOf(base, sense);
    assert t.tags == ["v1"] by {
      assert ["v1"][..0] == [];
    }
    assert t.rules == ["v1"] by {
      RulesExamples();
      assert ["v1"][..0] == [];
    }
    assert t.glossary == ["to see"] by {
      assert [Glossary("to see")][..0] == [];
    }
    assert SenseAdmits(sense, miru, Some(see));
    assert SenseTerms(base, miru, Some(see), [sense]) == [t];
    assert ConvertTerms(miru, Some(see), [sense]) == [t];
    assert ReadingTerms([miru], Some(see), [sense]) == [t];
    assert KanjiTerms([see], [miru], [sense]) == [t];
    assert KanjiTerms([see, watch], [miru], [sense]) == [t];
  }
}
