/**
 * Insertion-ordered sets of codes: the behaviour taken for `dbTerm.addTags`
 * and `dbTerm.addRules`, whose bodies are not part of this model.  Each code
 * is appended unless it is already present, so the first insertion decides
 * the position of a code and no code occurs twice.
 */
module OrderedSet {

  /** No code occurs twice in `s`. */
  predicate NoDup(s: seq<string>) {
    forall i, j :: 0 <= i < j < |s| ==> s[i] != s[j]
  }

  /** Appends `x` to `s` unless it is already there. */
  function Insert(s: seq<string>, x: string): (r: seq<string>)
    ensures forall y :: y in r <==> y in s || y == x
    ensures s <= r && |r| <= |s| + 1
    ensures NoDup(s) ==> NoDup(r)
  {
    if x in s then s else s + [x]
  }

  /** Inserts the codes of `xs` one after the other, in order. */
  function InsertAll(s: seq<string>, xs: seq<string>): (r: seq<string>)
    decreases |xs|
  {
    if xs == [] then s else Insert(InsertAll(s, xs[..|xs| - 1]), xs[|xs| - 1])
  }

  /**
   * After inserting `xs`, the set holds exactly the old codes and those of
   * `xs`, the old codes keep their positions, and no code is duplicated.
   */
  lemma {:induction false} InsertAllMembers(s: seq<string>, xs: seq<string>)
    ensures forall y :: y in InsertAll(s, xs) <==> y in s || y in xs
    ensures s <= InsertAll(s, xs) && |InsertAll(s, xs)| <= |s| + |xs|
    ensures NoDup(s) ==> NoDup(InsertAll(s, xs))
  {
    if xs != [] {
      var init := xs[..|xs| - 1];
      InsertAllMembers(s, init);
      assert forall y :: y in xs <==> y in init || y == xs[|xs| - 1];
    }
  }

  /** Inserting a one-code list is inserting that code. */
  lemma InsertAllOne(s: seq<string>, x: string)
    ensures InsertAll(s, [x]) == Insert(s, x)
  {
  }

  /** Inserting a list and then one more code is inserting the longer list. */
  lemma InsertAllSnoc(s: seq<string>, xs: seq<string>, x: string)
    ensures InsertAll(s, xs + [x]) == Insert(InsertAll(s, xs), x)
  {
  }

  /** Into an empty set, a list without duplicates is inserted as it is. */
  lemma {:induction false} InsertAllDistinct(xs: seq<string>)
    requires NoDup(xs)
    ensures InsertAll([], xs) == xs
  {
    if xs != [] {
      var init, last := xs[..|xs| - 1], xs[|xs| - 1];
      assert NoDup(init) by {
        forall i, j | 0 <= i < j < |init| ensures init[i] != init[j] {
          assert init[i] == xs[i] && init[j] == xs[j];
        }
      }
      InsertAllDistinct(init);
      assert last !in init by {
        forall i | 0 <= i < |init| ensures init[i] != last {
          assert init[i] == xs[i];
        }
      }
      assert init + [last] == xs;
    }
  }
}
