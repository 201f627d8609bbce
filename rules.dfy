/** `computeJmdictRules`: conjugation-rule codes derived from a term's tags. */
module JmdictRules {
  import opened Wrappers
  import opened OrderedSet
  import opened DbTerm

  /** Tags that are rule codes themselves. */
  const VerbalTags: set<string> := {"adj-i", "v1", "vk", "vs"}

  /** Every rule code the classifier can add. */
  const RuleCodes: set<string> := VerbalTags + {"v5"}

  /** Go's `strings.HasPrefix`. */
  predicate HasPrefix(s: string, prefix: string) {
    |prefix| <= |s| && s[..|prefix|] == prefix
  }

  /** The rule code one tag contributes, if any. */
  function RuleOf(tag: string): Option<string> {
    if tag in VerbalTags then Some(tag)
    else if HasPrefix(tag, "v5") then Some("v5")
    else None
  }

  /** The rules after the loop has visited every tag of `tags`, in order. */
  function RulesFor(rules: seq<string>, tags: seq<string>): (r: seq<string>)
    decreases |tags|
  {
    if tags == [] then rules
    else
      var prior := RulesFor(rules, tags[..|tags| - 1]);
      match RuleOf(tags[|tags| - 1])
      case Some(code) => Insert(prior, code)
      case None => prior
  }

  /** The loop of edict.go: only the rules change, to `RulesFor` of the tags. */
  method ComputeJmdictRules(term: Term) returns (t: Term)
    ensures t == term.(rules := RulesFor(term.rules, term.tags))
  {
    t := term;
    for i := 0 to |term.tags|
      invariant t == term.(rules := RulesFor(term.rules, term.tags[..i]))
    {
      var tag := term.tags[i];
      assert term.tags[..i + 1][..i] == term.tags[..i];
      if tag in VerbalTags {
        InsertAllOne(t.rules, tag);
        t := AddRules(t, [tag]);
      } else if HasPrefix(tag, "v5") {
        InsertAllOne(t.rules, "v5");
        t := AddRules(t, ["v5"]);
      }
    }
    assert term.tags[..|term.tags|] == term.tags;
  }

  /**
   * A code is among the rules afterwards exactly when it was there before
   * or some tag contributes it.
   */
  lemma {:induction false} RulesForMembership(rules: seq<string>, tags: seq<string>, code: string)
    ensures code in RulesFor(rules, tags) <==>
      code in rules || exists i :: 0 <= i < |tags| && RuleOf(tags[i]) == Some(code)
  {
    if tags != [] {
      var init := tags[..|tags| - 1];
      RulesForMembership(rules, init, code);
      if exists i :: 0 <= i < |tags| && RuleOf(tags[i]) == Some(code) {
        var i :| 0 <= i < |tags| && RuleOf(tags[i]) == Some(code);
        if i < |init| {
          assert RuleOf(init[i]) == Some(code);
        }
      }
      if exists i :: 0 <= i < |init| && RuleOf(init[i]) == Some(code) {
        var i :| 0 <= i < |init| && RuleOf(init[i]) == Some(code);
        assert RuleOf(tags[i]) == Some(code);
      }
    }
  }

  /** Each of `adj-i`, `v1`, `vk`, `vs` among the tags becomes that rule. */
  lemma VerbalTagBecomesRule(rules: seq<string>, tags: seq<string>, tag: string)
    requires tag in tags && tag in VerbalTags
    ensures tag in RulesFor(rules, tags)
  {
  }

  /**
   * Any tag starting with `v5` yields the single rule `v5`; a longer `v5`
   * subtag is never added literally.
   */
  lemma FiveStepVerbCollapses(rules: seq<string>, tags: seq<string>, tag: string)
    requires tag in tags && HasPrefix(tag, "v5")
    ensures "v5" in RulesFor(rules, tags)
    ensures tag != "v5" && tag !in rules ==> tag !in RulesFor(rules, tags)
  {
    var i :| 0 <= i < |tags| && tags[i] == tag;
    FiveStepIsNotVerbal(tag);
    RulesForMembership(rules, tags, "v5");
    RulesForMembership(rules, tags, tag);
  }

  /**
   * Every rule the function adds is one of the five rule codes, and a tag
   * such as `exp` contributes nothing.
   */
  lemma AddedRulesAreRuleCodes(rules: seq<string>, tags: seq<string>)
    ensures forall code :: code in RulesFor(rules, tags) && code !in rules ==> code in RuleCodes
    ensures (forall i :: 0 <= i < |tags| ==> RuleOf(tags[i]) == None) ==> RulesFor(rules, tags) == rules
    ensures RuleOf("exp") == None
  {
    forall code | code in RulesFor(rules, tags) && code !in rules
      ensures code in RuleCodes
    {
      RulesForMembership(rules, tags, code);
    }
    if forall i :: 0 <= i < |tags| ==> RuleOf(tags[i]) == None {
      NoRuleTagsKeepRules(rules, tags);
    }
    assert "exp"[..2][1] == 'x';
  }

  /** No tag of `VerbalTags` starts with `v5`. */
  lemma FiveStepIsNotVerbal(tag: string)
    requires HasPrefix(tag, "v5")
    ensures tag !in VerbalTags
  {
    assert tag[..2][1] == '5';
    assert tag[..2][0] == 'v';
  }

  /** Tags that contribute no rule leave the rules as they were. */
  lemma {:induction false} NoRuleTagsKeepRules(rules: seq<string>, tags: seq<string>)
    requires forall i :: 0 <= i < |tags| ==> RuleOf(tags[i]) == None
    ensures RulesFor(rules, tags) == rules
  {
    if tags != [] {
      NoRuleTagsKeepRules(rules, tags[..|tags| - 1]);
    }
  }

  /** Rules without duplicates stay without duplicates: each code is added once. */
  lemma {:induction false} RulesForNoDup(rules: seq<string>, tags: seq<string>)
    requires NoDup(rules)
    ensures NoDup(RulesFor(rules, tags))
    decreases |tags|
  {
    if tags != [] {
      RulesForNoDup(rules, tags[..|tags| - 1]);
    }
  }

  /** Tags whose codes are all present already leave the rules as they were. */
  lemma {:induction false} RulesForPresent(rules: seq<string>, tags: seq<string>)
    requires forall i :: 0 <= i < |tags| && RuleOf(tags[i]).Some? ==> RuleOf(tags[i]).value in rules
    ensures RulesFor(rules, tags) == rules
    decreases |tags|
  {
    if tags != [] {
      RulesForPresent(rules, tags[..|tags| - 1]);
    }
  }

  /** Running the rule loop again over the same tags changes nothing. */
  lemma RulesIdempotent(rules: seq<string>, tags: seq<string>)
    ensures RulesFor(RulesFor(rules, tags), tags) == RulesFor(rules, tags)
  {
    forall i | 0 <= i < |tags| && RuleOf(tags[i]).Some?
      ensures RuleOf(tags[i]).value in RulesFor(rules, tags)
    {
      RulesForMembership(rules, tags, RuleOf(tags[i]).value);
    }
    RulesForPresent(RulesFor(rules, tags), tags);
  }

  /** Tags `{v1, v5s}` yield the rules `[v1, v5]`; tags `{exp}` yield none. */
  lemma RulesExamples()
    ensures RulesFor([], ["v1", "v5s"]) == ["v1", "v5"]
    ensures RulesFor([], ["exp"]) == []
  {
  }
}
