/**
 * An independent description of what `extractJmdictTerms` returns: every
 * (kanji, reading, sense) combination of an entry, by position and in
 * kanji-major order, is kept when it passes the three restriction guards,
 * and each kept combination becomes one term.
 */
module JmdictOrigins {
  import opened Wrappers
  import opened DbTerm
  import opened Jmdict
  import opened JmdictConvert
  import opened JmdictExtract

  /** A combination by position; `kanji` is `None` for an entry without kanji. */
  datatype Origin = Origin(kanji: Option<nat>, reading: nat, sense: nat)

  /** A kanji position of `e`, present exactly when `e` has kanji spellings. */
  predicate KanjiSlot(e: Entry, k: Option<nat>) {
    k.Some? == (|e.kanji| > 0) && (k.Some? ==> k.value < |e.kanji|)
  }

  /** `o` names positions of `e`, with a kanji exactly when `e` has kanji. */
  predicate ValidOrigin(e: Entry, o: Origin) {
    && KanjiSlot(e, o.kanji)
    && o.reading < |e.readings|
    && o.sense < |e.sense|
  }

  /** The kanji spelling at an optional position. */
  function KanjiAt(e: Entry, k: Option<nat>): Option<Kanji>
    requires k.Some? ==> k.value < |e.kanji|
  {
    match k
    case None => None
    case Some(i) => Some(e.kanji[i])
  }

  /** The combination names positions of `e` and passes all three restriction guards. */
  predicate Survives(e: Entry, o: Origin) {
    && ValidOrigin(e, o)
    && ReadingAdmits(e.readings[o.reading], KanjiAt(e, o.kanji))
    && SenseAdmits(e.sense[o.sense], e.readings[o.reading], KanjiAt(e, o.kanji))
  }

  /** The term built for a combination (the zero term for positions outside `e`). */
  function TermAt(e: Entry, o: Origin): Term {
    if ValidOrigin(e, o) then TermOf(BaseOf(e.readings[o.reading], KanjiAt(e, o.kanji)), e.sense[o.sense])
    else Empty
  }

  /** Kanji position first, then reading, then sense. */
  function Rank(k: Option<nat>): int {
    if k.Some? then k.value else -1
  }

  /** `a` comes strictly before `b` in kanji-major, then reading, then sense order. */
  predicate Before(a: Origin, b: Origin) {
    || Rank(a.kanji) < Rank(b.kanji)
    || (a.kanji == b.kanji && a.reading < b.reading)
    || (a.kanji == b.kanji && a.reading == b.reading && a.sense < b.sense)
  }

  /** Strictly increasing in that order, so each combination occurs once. */
  predicate Sorted(os: seq<Origin>) {
    forall i, j :: 0 <= i < j < |os| ==> Before(os[i], os[j])
  }

  /** The senses `0 .. senses - 1` for one kanji and reading. */
  function SenseProduct(k: Option<nat>, r: nat, senses: nat): (os: seq<Origin>)
  {
    if senses == 0 then [] else SenseProduct(k, r, senses - 1) + [Origin(k, r, senses - 1)]
  }

  /** Every reading below `readings` with every sense, for one kanji. */
  function ReadingProduct(k: Option<nat>, readings: nat, senses: nat): (os: seq<Origin>)
  {
    if readings == 0 then [] else ReadingProduct(k, readings - 1, senses) + SenseProduct(k, readings - 1, senses)
  }

  /** Every kanji below `kanji` with every reading and sense. */
  function KanjiProduct(kanji: nat, readings: nat, senses: nat): (os: seq<Origin>)
  {
    if kanji == 0 then [] else KanjiProduct(kanji - 1, readings, senses) + ReadingProduct(Some(kanji - 1), readings, senses)
  }

  /** All combinations of `e`, kanji-major. */
  function Product(e: Entry): (os: seq<Origin>)
  {
    if |e.kanji| > 0 then KanjiProduct(|e.kanji|, |e.readings|, |e.sense|)
    else ReadingProduct(None, |e.readings|, |e.sense|)
  }

  /** The combinations of `os` that survive, in the order of `os`. */
  function Select(e: Entry, os: seq<Origin>): seq<Origin> {
    if os == [] then []
    else Select(e, os[..|os| - 1]) + (if Survives(e, os[|os| - 1]) then [os[|os| - 1]] else [])
  }

  /** One term per combination, in order. */
  function TermsAt(e: Entry, os: seq<Origin>): (ts: seq<Term>)
    ensures |ts| == |os|
  {
    if os == [] then []
    else TermsAt(e, os[..|os| - 1]) + [TermAt(e, os[|os| - 1])]
  }

  /** The term at each position is the term of the combination there. */
  lemma {:induction false} TermsAtIndex(e: Entry, os: seq<Origin>, i: nat)
    requires i < |os|
    ensures TermsAt(e, os)[i] == TermAt(e, os[i])
  {
    var init := os[..|os| - 1];
    if i < |init| {
      TermsAtIndex(e, init, i);
    }
  }

  /** The surviving combinations of `e`, kanji-major. */
  function Origins(e: Entry): seq<Origin> {
    Select(e, Product(e))
  }


  /** Filtering distributes over concatenation. */
  lemma SelectAppend(e: Entry, xs: seq<Origin>, ys: seq<Origin>)
    ensures Select(e, xs + ys) == Select(e, xs) + Select(e, ys)
    decreases |ys|
  {
    if ys != [] {
      var init := ys[..|ys| - 1];
      assert (xs + ys)[..|xs + ys| - 1] == xs + init;
      SelectAppend(e, xs, init);
    } else {
      assert xs + ys == xs;
    }
  }

  /** Building terms distributes over concatenation. */
  lemma {:induction false} TermsAtAppend(e: Entry, xs: seq<Origin>, ys: seq<Origin>)
    ensures TermsAt(e, xs + ys) == TermsAt(e, xs) + TermsAt(e, ys)
    decreases |ys|
  {
    if ys == [] {
      assert xs + ys == xs;
    } else {
      var init := ys[..|ys| - 1];
      assert (xs + ys)[..|xs + ys| - 1] == xs + init;
      TermsAtAppend(e, xs, init);
    }
  }

  /** A single combination is kept exactly when it survives. */
  lemma SelectOne(e: Entry, o: Origin)
    ensures TermsAt(e, Select(e, [o])) == if Survives(e, o) then [TermAt(e, o)] else []
  {
  }

  /** For an admitted pair, one sense yields its term exactly when the sense guards admit it. */
  lemma AdmittedSense(e: Entry, k: Option<nat>, r: nat, s: nat)
    requires KanjiSlot(e, k) && r < |e.readings| && s < |e.sense|
    requires ReadingAdmits(e.readings[r], KanjiAt(e, k))
    ensures TermsAt(e, Select(e, [Origin(k, r, s)])) ==
      if SenseAdmits(e.sense[s], e.readings[r], KanjiAt(e, k))
      then [TermOf(BaseOf(e.readings[r], KanjiAt(e, k)), e.sense[s])] else []
  {
    var o := Origin(k, r, s);
    SelectOne(e, o);
    assert ValidOrigin(e, o);
    assert Survives(e, o) <==> SenseAdmits(e.sense[s], e.readings[r], KanjiAt(e, k));
    assert TermAt(e, o) == TermOf(BaseOf(e.readings[r], KanjiAt(e, k)), e.sense[s]);
  }

  /**
   * For an admitted (reading, kanji) pair, the senses loop yields the terms
   * of the surviving combinations of that pair.
   */
  lemma {:induction false} AdmittedPairTerms(e: Entry, k: Option<nat>, r: nat, senses: nat)
    requires KanjiSlot(e, k) && r < |e.readings| && senses <= |e.sense|
    requires ReadingAdmits(e.readings[r], KanjiAt(e, k))
    ensures SenseTerms(BaseOf(e.readings[r], KanjiAt(e, k)), e.readings[r], KanjiAt(e, k), e.sense[..senses])
      == TermsAt(e, Select(e, SenseProduct(k, r, senses)))
  {
    var reading, kanji := e.readings[r], KanjiAt(e, k);
    var base := BaseOf(reading, kanji);
    if senses == 0 {
      assert e.sense[..0] == [];
    } else {
      var o := Origin(k, r, senses - 1);
      var prev, sense := e.sense[..senses - 1], e.sense[senses - 1];
      calc {
        SenseTerms(base, reading, kanji, e.sense[..senses]);
        { assert e.sense[..senses][..senses - 1] == prev; }
        SenseTerms(base, reading, kanji, prev) + (if SenseAdmits(sense, reading, kanji) then [TermOf(base, sense)] else []);
        { AdmittedPairTerms(e, k, r, senses - 1); AdmittedSense(e, k, r, senses - 1); }
        TermsAt(e, Select(e, SenseProduct(k, r, senses - 1))) + TermsAt(e, Select(e, [o]));
        { Step(e, SenseProduct(k, r, senses - 1), [o]); }
        TermsAt(e, Select(e, SenseProduct(k, r, senses)));
      }
    }
  }

  /** A rejected (reading, kanji) pair has no surviving combination. */
  lemma RejectedPairTerms(e: Entry, k: Option<nat>, r: nat, senses: nat)
    requires KanjiSlot(e, k) && r < |e.readings|
    requires !ReadingAdmits(e.readings[r], KanjiAt(e, k))
    requires senses <= |e.sense|
    ensures Select(e, SenseProduct(k, r, senses)) == []
  {
  }

  /**
   * One `convert` call for kanji position `k` and reading position `r`
   * appends the terms of the surviving combinations of that pair.
   */
  lemma ConvertMatches(e: Entry, k: Option<nat>, r: nat)
    requires KanjiSlot(e, k) && r < |e.readings|
    ensures ConvertTerms(e.readings[r], KanjiAt(e, k), e.sense) == TermsAt(e, Select(e, SenseProduct(k, r, |e.sense|)))
  {
    if ReadingAdmits(e.readings[r], KanjiAt(e, k)) {
      AdmittedPairTerms(e, k, r, |e.sense|);
      assert e.sense[..|e.sense|] == e.sense;
    } else {
      RejectedPairTerms(e, k, r, |e.sense|);
    }
  }

  /** Extending the enumerated combinations extends the terms accordingly. */
  lemma Step(e: Entry, xs: seq<Origin>, ys: seq<Origin>)
    ensures TermsAt(e, Select(e, xs + ys)) == TermsAt(e, Select(e, xs)) + TermsAt(e, Select(e, ys))
  {
    SelectAppend(e, xs, ys);
    TermsAtAppend(e, Select(e, xs), Select(e, ys));
  }

  /** No readings, no terms. */
  lemma ReadingBase(e: Entry, k: Option<nat>)
    requires KanjiSlot(e, k)
    ensures ReadingTerms(e.readings[..0], KanjiAt(e, k), e.sense) == TermsAt(e, Select(e, ReadingProduct(k, 0, |e.sense|)))
  {
  }

  /** One more reading extends the terms of the readings before it. */
  lemma ReadingStep(e: Entry, k: Option<nat>, j: nat)
    requires KanjiSlot(e, k) && 0 < j <= |e.readings|
    requires ReadingTerms(e.readings[..j - 1], KanjiAt(e, k), e.sense) == TermsAt(e, Select(e, ReadingProduct(k, j - 1, |e.sense|)))
    ensures ReadingTerms(e.readings[..j], KanjiAt(e, k), e.sense) == TermsAt(e, Select(e, ReadingProduct(k, j, |e.sense|)))
  {
    var prior, pair := ReadingProduct(k, j - 1, |e.sense|), SenseProduct(k, j - 1, |e.sense|);
    ReadingTermsStep(e.readings, j - 1, KanjiAt(e, k), e.sense);
    ConvertMatches(e, k, j - 1);
    Step(e, prior, pair);
  }

  /** The reading loop for kanji position `k` yields the surviving combinations of its readings. */
  lemma {:induction false} ReadingTermsMatch(e: Entry, k: Option<nat>, j: nat)
    requires KanjiSlot(e, k) && j <= |e.readings|
    ensures ReadingTerms(e.readings[..j], KanjiAt(e, k), e.sense) == TermsAt(e, Select(e, ReadingProduct(k, j, |e.sense|)))
  {
    if j == 0 {
      ReadingBase(e, k);
    } else {
      ReadingTermsMatch(e, k, j - 1);
      ReadingStep(e, k, j);
    }
  }

  /** The kanji loop yields the surviving combinations of the first `i` kanji. */
  lemma {:induction false} KanjiTermsMatch(e: Entry, i: nat)
    requires 0 < |e.kanji| && i <= |e.kanji|
    ensures KanjiTerms(e.kanji[..i], e.readings, e.sense) == TermsAt(e, Select(e, KanjiProduct(i, |e.readings|, |e.sense|)))
  {
    if i > 0 {
      KanjiTermsMatch(e, i - 1);
      assert e.kanji[..i][..i - 1] == e.kanji[..i - 1];
      ReadingTermsMatch(e, Some(i - 1), |e.readings|);
      assert e.readings[..|e.readings|] == e.readings;
      Step(e, KanjiProduct(i - 1, |e.readings|, |e.sense|), ReadingProduct(Some(i - 1), |e.readings|, |e.sense|));
    }
  }

  /**
   * The terms of an entry are, position by position, the terms of its
   * surviving combinations in kanji-major order.
   */
  lemma ExtractedTermsFollowOrigins(e: Entry)
    ensures JmdictTerms(e) == TermsAt(e, Origins(e))
    ensures |JmdictTerms(e)| == |Origins(e)|
    ensures forall i :: 0 <= i < |Origins(e)| ==> JmdictTerms(e)[i] == TermAt(e, Origins(e)[i])
  {
    if |e.kanji| > 0 {
      KanjiTermsMatch(e, |e.kanji|);
      assert e.kanji[..|e.kanji|] == e.kanji;
    } else {
      ReadingTermsMatch(e, None, |e.readings|);
      assert e.readings[..|e.readings|] == e.readings;
    }
    forall i | 0 <= i < |Origins(e)|
      ensures JmdictTerms(e)[i] == TermAt(e, Origins(e)[i])
    {
      TermsAtIndex(e, Origins(e), i);
    }
  }

  /** The sense layer holds one combination per sense position of one kanji and reading. */
  lemma {:induction false} SenseProductMembers(k: Option<nat>, r: nat, senses: nat)
    ensures forall o :: o in SenseProduct(k, r, senses) <==> o.kanji == k && o.reading == r && o.sense < senses
  {
    if senses > 0 {
      SenseProductMembers(k, r, senses - 1);
    }
  }

  /** The reading layer holds every reading and sense position for one kanji. */
  lemma {:induction false} ReadingProductMembers(k: Option<nat>, readings: nat, senses: nat)
    ensures forall o :: o in ReadingProduct(k, readings, senses) <==> o.kanji == k && o.reading < readings && o.sense < senses
  {
    if readings > 0 {
      ReadingProductMembers(k, readings - 1, senses);
      SenseProductMembers(k, readings - 1, senses);
    }
  }

  /** Adding the combinations of kanji `kanji - 1` to those of the kanji before it. */
  lemma KanjiLayer(kanji: nat, readings: nat, senses: nat, o: Origin, earlier: seq<Origin>, last: seq<Origin>)
    requires kanji > 0
    requires o in earlier <==> o.kanji.Some? && o.kanji.value < kanji - 1 && o.reading < readings && o.sense < senses
    requires o in last <==> o.kanji == Some(kanji - 1) && o.reading < readings && o.sense < senses
    ensures o in earlier + last <==> o.kanji.Some? && o.kanji.value < kanji && o.reading < readings && o.sense < senses
  {
  }

  /** One combination is in the kanji layer exactly when its positions are in range. */
  lemma {:induction false} KanjiProductMember(kanji: nat, readings: nat, senses: nat, o: Origin)
    ensures o in KanjiProduct(kanji, readings, senses) <==>
      o.kanji.Some? && o.kanji.value < kanji && o.reading < readings && o.sense < senses
  {
    if kanji > 0 {
      KanjiProductMember(kanji - 1, readings, senses, o);
      ReadingProductMembers(Some(kanji - 1), readings, senses);
      KanjiLayer(kanji, readings, senses, o, KanjiProduct(kanji - 1, readings, senses), ReadingProduct(Some(kanji - 1), readings, senses));
    }
  }

  /** The kanji layer holds every kanji, reading and sense position. */
  lemma KanjiProductMembers(kanji: nat, readings: nat, senses: nat)
    ensures forall o :: o in KanjiProduct(kanji, readings, senses) <==>
      o.kanji.Some? && o.kanji.value < kanji && o.reading < readings && o.sense < senses
  {
    forall o: Origin
      ensures o in KanjiProduct(kanji, readings, senses) <==>
        o.kanji.Some? && o.kanji.value < kanji && o.reading < readings && o.sense < senses
    {
      KanjiProductMember(kanji, readings, senses, o);
    }
  }

  /** The product holds exactly the combinations that name positions of `e`. */
  lemma ProductMembers(e: Entry)
    ensures forall o :: o in Product(e) <==> ValidOrigin(e, o)
  {
    if |e.kanji| > 0 {
      KanjiProductMembers(|e.kanji|, |e.readings|, |e.sense|);
    } else {
      ReadingProductMembers(None, |e.readings|, |e.sense|);
    }
  }

  /** Two sorted lists, the first wholly before the second, concatenate to a sorted list. */
  lemma SortedAppend(xs: seq<Origin>, ys: seq<Origin>)
    requires Sorted(xs) && Sorted(ys)
    requires forall x, y :: x in xs && y in ys ==> Before(x, y)
    ensures Sorted(xs + ys)
  {
    forall i, j | 0 <= i < j < |xs + ys|
      ensures Before((xs + ys)[i], (xs + ys)[j])
    {
      if j < |xs| {
      } else if i >= |xs| {
        assert (xs + ys)[i] == ys[i - |xs|] && (xs + ys)[j] == ys[j - |xs|];
      } else {
        assert (xs + ys)[i] in xs && (xs + ys)[j] in ys;
      }
    }
  }

  /** The sense layer is in sense order. */
  lemma {:induction false} SenseProductSorted(k: Option<nat>, r: nat, senses: nat)
    ensures Sorted(SenseProduct(k, r, senses))
  {
    if senses > 0 {
      SenseProductSorted(k, r, senses - 1);
      SenseProductMembers(k, r, senses - 1);
      SortedAppend(SenseProduct(k, r, senses - 1), [Origin(k, r, senses - 1)]);
    }
  }

  /** The reading layer is in reading, then sense order. */
  lemma {:induction false} ReadingProductSorted(k: Option<nat>, readings: nat, senses: nat)
    ensures Sorted(ReadingProduct(k, readings, senses))
  {
    if readings > 0 {
      ReadingProductSorted(k, readings - 1, senses);
      SenseProductSorted(k, readings - 1, senses);
      ReadingProductMembers(k, readings - 1, senses);
      SenseProductMembers(k, readings - 1, senses);
      SortedAppend(ReadingProduct(k, readings - 1, senses), SenseProduct(k, readings - 1, senses));
    }
  }

  /** The kanji layer is in kanji, then reading, then sense order. */
  lemma {:induction false} KanjiProductSorted(kanji: nat, readings: nat, senses: nat)
    ensures Sorted(KanjiProduct(kanji, readings, senses))
  {
    if kanji > 0 {
      KanjiProductSorted(kanji - 1, readings, senses);
      ReadingProductSorted(Some(kanji - 1), readings, senses);
      KanjiProductMembers(kanji - 1, readings, senses);
      ReadingProductMembers(Some(kanji - 1), readings, senses);
      SortedAppend(KanjiProduct(kanji - 1, readings, senses), ReadingProduct(Some(kanji - 1), readings, senses));
    }
  }

  /** The product lists the combinations kanji-major, then by reading, then by sense. */
  lemma ProductSorted(e: Entry)
    ensures Sorted(Product(e))
  {
    if |e.kanji| > 0 {
      KanjiProductSorted(|e.kanji|, |e.readings|, |e.sense|);
    } else {
      ReadingProductSorted(None, |e.readings|, |e.sense|);
    }
  }

  /** Selection keeps exactly the surviving combinations. */
  lemma {:induction false} SelectMembers(e: Entry, os: seq<Origin>)
    ensures forall o :: o in Select(e, os) <==> o in os && Survives(e, o)
  {
    if os != [] {
      var init := os[..|os| - 1];
      SelectMembers(e, init);
      assert os == init + [os[|os| - 1]];
    }
  }

  /** Selection keeps the order. */
  lemma {:induction false} SelectSorted(e: Entry, os: seq<Origin>)
    requires Sorted(os)
    ensures Sorted(Select(e, os))
  {
    if os != [] {
      var init, last := os[..|os| - 1], os[|os| - 1];
      assert Sorted(init);
      SelectSorted(e, init);
      SelectMembers(e, init);
      forall x | x in init
        ensures Before(x, last)
      {
        var i :| 0 <= i < |init| && init[i] == x;
        assert os[i] == x;
      }
      SortedAppend(Select(e, init), if Survives(e, last) then [last] else []);
    }
  }

  /** A combination is among the origins exactly when it names positions of `e` and survives. */
  lemma OriginsAreSurvivors(e: Entry)
    ensures forall o :: o in Origins(e) <==> Survives(e, o)
  {
    ProductMembers(e);
    SelectMembers(e, Product(e));
  }

  /** The origins are in kanji-major, then reading, then sense order, each once. */
  lemma OriginsSorted(e: Entry)
    ensures Sorted(Origins(e))
  {
    ProductSorted(e);
    SelectSorted(e, Product(e));
  }

  /** A sorted list of combinations has as many elements as its set. */
  lemma {:induction false} SortedCard(os: seq<Origin>)
    requires Sorted(os)
    ensures |set o | o in os| == |os|
  {
    if os != [] {
      var init, last := os[..|os| - 1], os[|os| - 1];
      assert Sorted(init);
      SortedCard(init);
      assert last !in init by {
        forall i | 0 <= i < |init|
          ensures init[i] != last
        {
          assert Before(os[i], os[|os| - 1]);
        }
      }
      assert (set o | o in os) == (set o | o in init) + {last};
    }
  }

  /**
   * An entry yields exactly one term per surviving combination: the number
   * of terms is the number of combinations that pass all guards.
   */
  lemma TermCount(e: Entry)
    ensures |JmdictTerms(e)| == |set o | o in Product(e) && Survives(e, o)|
  {
    ExtractedTermsFollowOrigins(e);
    OriginsSorted(e);
    SortedCard(Origins(e));
    SelectMembers(e, Product(e));
    assert (set o | o in Origins(e)) == (set o | o in Product(e) && Survives(e, o));
  }
}
