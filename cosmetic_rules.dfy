/**
 * The per-host custom ad-block rules: CSS selectors to hide (cosmetic rules)
 * and URL wildcards to block (URL rules), each a map from host to a set.
 *
 * Hosts compare ignoring case, so a map is keyed by the lower-cased host.
 * Selectors and wildcards compare ordinally; a set is kept as the sequence of
 * its distinct members in the order they were added, the order a HashSet that
 * is never removed from enumerates them in.
 */
module CosmeticRules {
  import opened Text

  type RuleMap = map<string, seq<string>>

  predicate NoDuplicates(s: seq<string>)
  {
    forall i, j | 0 <= i < j < |s| :: s[i] != s[j]
  }

  /** TryGetValue on the host's entry, or nothing. */
  function RulesFor(m: RuleMap, host: string): (r: seq<string>)
    ensures Lower(host) !in m ==> r == []
  {
    if Lower(host) in m then m[Lower(host)] else []
  }

  /** HashSet.Add: the value appended unless already present. */
  function SetAdd(s: seq<string>, x: string): (r: seq<string>)
    ensures forall y :: y in r <==> y in s || y == x
    ensures x in s ==> r == s
    ensures NoDuplicates(s) ==> NoDuplicates(r)
  {
    if x in s then s else s + [x]
  }

  /**
   * AddRule and AddUrlRule on one map: nothing for a blank host or value;
   * otherwise the trimmed value joins the host's set, creating it when missing.
   */
  function WithRule(m: RuleMap, host: string, value: string): (r: RuleMap)
    ensures IsBlank(host) || IsBlank(value) ==> r == m
    ensures !IsBlank(host) && !IsBlank(value) ==>
              forall h | EqIgnoreCase(h, host) :: forall s :: s in RulesFor(r, h) <==> s in RulesFor(m, h) || s == Trim(value)
    ensures forall h | !EqIgnoreCase(h, host) :: RulesFor(r, h) == RulesFor(m, h)
    ensures Trim(value) in RulesFor(m, host) ==> r == m
  {
    if IsBlank(host) || IsBlank(value) then m
    else m[Lower(host) := SetAdd(RulesFor(m, host), Trim(value))]
  }

  /** Every host's set stays free of duplicates. */
  predicate SetsDistinct(m: RuleMap)
  {
    forall k | k in m :: NoDuplicates(m[k])
  }

  lemma WithRuleKeepsDistinct(m: RuleMap, host: string, value: string)
    requires SetsDistinct(m)
    ensures SetsDistinct(WithRule(m, host, value))
  {
  }

  /** The closing part of every CSS line. */
  const HideDeclaration: string := "{display:none !important;visibility:hidden !important;}"

  /** StringWriter.WriteLine on Windows ends a line with CR LF. */
  const NewLine: string := "\r\n"

  function CssLine(selector: string): (r: string)
    ensures |r| > |selector|
    ensures StartsWith(r, selector)
  {
    selector + HideDeclaration + NewLine
  }

  /** The style sheet for a list of selectors: one hiding line per selector, in order. */
  function Css(rules: seq<string>): (r: string)
  {
    if rules == [] then "" else Css(rules[..|rules| - 1]) + CssLine(rules[|rules| - 1])
  }

  /** Text found in a prefix is found in the whole, and so is the suffix. */
  lemma ContainsExtended(a: string, b: string, t: string)
    requires Contains(a, t) || t == b
    ensures Contains(a + b, t)
  {
    if Contains(a, t) {
      var i :| 0 <= i <= |a| - |t| && HasAt(a, t, i);
      assert (a + b)[i..i + |t|] == a[i..i + |t|];
      assert HasAt(a + b, t, i);
    } else {
      assert (a + b)[|a|..|a| + |b|] == b;
      assert HasAt(a + b, t, |a|);
    }
  }

  /** The style sheet is empty exactly when there are no selectors, and it holds a line for each of them. */
  lemma {:induction false} CssHasEveryLine(rules: seq<string>)
    ensures Css(rules) == "" <==> rules == []
    ensures forall k | 0 <= k < |rules| :: Contains(Css(rules), CssLine(rules[k]))
  {
    if rules != [] {
      var init := rules[..|rules| - 1];
      CssHasEveryLine(init);
      var prev := Css(init);
      var last := CssLine(rules[|rules| - 1]);
      var css := Css(rules);
      assert css == prev + last;
      forall k | 0 <= k < |rules| ensures Contains(css, CssLine(rules[k])) {
        if k < |init| {
          assert rules[k] == init[k];
          ContainsExtended(prev, last, CssLine(rules[k]));
        } else {
          ContainsExtended(prev, last, last);
        }
      }
    }
  }

  class CosmeticRuleStore {
    var cosmetic: RuleMap
    var urlRules: RuleMap
    /** The number of times the store was written to its file. */
    ghost var saves: nat

    /** A store with no rules; reading the rule file is not modelled. */
    constructor ()
      ensures cosmetic == map[] && urlRules == map[] && saves == 0
    {
      cosmetic := map[];
      urlRules := map[];
      saves := 0;
    }

    ghost predicate Valid()
      reads this
    {
      SetsDistinct(cosmetic) && SetsDistinct(urlRules)
    }

    method AddRule(host: string, cssSelector: string)
      requires Valid()
      modifies this
      ensures Valid()
      ensures cosmetic == WithRule(old(cosmetic), host, cssSelector)
      ensures urlRules == old(urlRules)
      ensures saves == old(saves) + (if IsBlank(host) || IsBlank(cssSelector) then 0 else 1)
    {
      if IsBlank(host) || IsBlank(cssSelector) {
        return;
      }
      var key := Lower(host);
      var selectors: seq<string> := [];
      if key in cosmetic {
        selectors := cosmetic[key];
      }
      var sel := Trim(cssSelector);
      if sel !in selectors {
        selectors := selectors + [sel];
      }
      cosmetic := cosmetic[key := selectors];
      WithRuleKeepsDistinct(old(cosmetic), host, cssSelector);
      saves := saves + 1;
    }

    method GetRules(host: string) returns (rules: seq<string>)
      ensures rules == RulesFor(cosmetic, host)
    {
      rules := [];
      if Lower(host) in cosmetic {
        rules := cosmetic[Lower(host)];
      }
    }

    /** The hiding style sheet for the host: "" when it has no selectors. */
    method BuildCssForHost(host: string) returns (css: string)
      ensures css == Css(RulesFor(cosmetic, host))
    {
      var rules := GetRules(host);
      if |rules| == 0 {
        return "";
      }
      css := "";
      for i := 0 to |rules|
        invariant css == Css(rules[..i])
      {
        assert rules[..i + 1][..i] == rules[..i];
        css := css + rules[i] + HideDeclaration + NewLine;
      }
      assert rules[..|rules|] == rules;
    }

    method AddUrlRule(host: string, pattern: string)
      requires Valid()
      modifies this
      ensures Valid()
      ensures urlRules == WithRule(old(urlRules), host, pattern)
      ensures cosmetic == old(cosmetic)
      ensures saves == old(saves) + (if IsBlank(host) || IsBlank(pattern) then 0 else 1)
    {
      if IsBlank(host) || IsBlank(pattern) {
        return;
      }
      var key := Lower(host);
      var patterns: seq<string> := [];
      if key in urlRules {
        patterns := urlRules[key];
      }
      var pat := Trim(pattern);
      if pat !in patterns {
        patterns := patterns + [pat];
      }
      urlRules := urlRules[key := patterns];
      WithRuleKeepsDistinct(old(urlRules), host, pattern);
      saves := saves + 1;
    }

    method GetUrlRules(host: string) returns (rules: seq<string>)
      ensures rules == RulesFor(urlRules, host)
    {
      rules := [];
      if Lower(host) in urlRules {
        rules := urlRules[Lower(host)];
      }
    }
  }

  /**
   * After AddRule(host, selector), every spelling of the host finds the trimmed
   * selector, and adding it a second time changes nothing.
   */
  lemma AddRuleThenGet(m: RuleMap, host: string, host2: string, selector: string)
    requires !IsBlank(host) && !IsBlank(selector) && EqIgnoreCase(host, host2)
    ensures Trim(selector) in RulesFor(WithRule(m, host, selector), host2)
    ensures WithRule(WithRule(m, host, selector), host, selector) == WithRule(m, host, selector)
  {
  }

  /** Selectors are compared by their exact text: two spellings of one selector are both kept. */
  lemma SelectorsAreCaseSensitive(m: RuleMap, host: string)
    requires !IsBlank(host) && RulesFor(m, host) == []
    ensures RulesFor(WithRule(WithRule(m, host, ".Ad"), host, ".ad"), host) == [".Ad", ".ad"]
  {
    TrimOfTrimmed(".Ad");
    TrimOfTrimmed(".ad");
    assert !IsBlank(".Ad") && !IsBlank(".ad") by {
      assert !IsWhiteSpace('.');
    }
    var m1 := WithRule(m, host, ".Ad");
    assert RulesFor(m1, host) == [".Ad"];
    assert ".ad" !in [".Ad"];
  }
}
