/**
 * HostStrategy: the persisted set of hosts that may only be read through the
 * embedded browser ("JS-only"). Hosts are kept normalized (trimmed, trailing
 * dots removed, lower case) in a case-insensitive set, mirrored into the
 * settings list AppSettings.JsOnlyHosts, which is saved on every new host.
 */
module HostStrategy {
  import opened Text
  import opened HostLists

  /** Norm: trim white space, drop trailing dots, lower-case. */
  function Norm(host: string): (r: string)
    ensures IsLowered(r)
    ensures |r| <= |host|
    ensures r == [] || r[|r| - 1] != '.'
  {
    LowerIsLowered(TrimEndChar(Trim(host), '.'));
    Lower(TrimEndChar(Trim(host), '.'))
  }

  /**
   * r is the lower-cased middle of host from offset i on: only white space is cut
   * off before it, and only white space and dots after it.
   */
  predicate LoweredCutAt(host: string, r: string, i: int)
  {
    0 <= i <= |host| - |r| && r == Lower(host[i..i + |r|]) &&
    (forall k | 0 <= k < i :: IsWhiteSpace(host[k])) &&
    (forall k | i + |r| <= k < |host| :: IsWhiteSpace(host[k]) || host[k] == '.')
  }

  /** Norm lower-cases the middle of the host left after cutting white space off both ends and dots off the end. */
  lemma NormIsMiddle(host: string)
    ensures exists i :: LoweredCutAt(host, Norm(host), i)
  {
    var i := |host| - |TrimStart(host)|;
    TrimIsMiddle(host);
    var t := Trim(host);
    assert SpaceCutAt(host, t, i);
    var d := TrimEndChar(t, '.');
    assert d == host[i..i + |d|] by {
      assert d == t[..|d|];
    }
    forall k | i + |d| <= k < |host| ensures IsWhiteSpace(host[k]) || host[k] == '.' {
      if k < i + |t| {
        assert host[k] == t[k - i];
      }
    }
    assert Norm(host) == Lower(d);
    assert LoweredCutAt(host, Norm(host), i);
  }

  predicate HasWhiteSpace(s: string)
  {
    exists i | 0 <= i < |s| :: IsWhiteSpace(s[i])
  }

  lemma TrimWithoutWhiteSpace(s: string)
    requires !HasWhiteSpace(s)
    ensures Trim(s) == s
  {
    if s != [] {
      assert !IsWhiteSpace(s[0]);
      assert !IsWhiteSpace(s[|s| - 1]);
    }
  }

  /** Normalizing a host without white space twice is normalizing it once. */
  lemma NormIdempotent(host: string)
    requires !HasWhiteSpace(host)
    ensures Norm(Norm(host)) == Norm(host)
  {
    TrimWithoutWhiteSpace(host);
    var t := TrimEndChar(host, '.');
    var n := Lower(t);
    assert n == Norm(host);
    assert !HasWhiteSpace(n) by {
      forall i | 0 <= i < |n| ensures !IsWhiteSpace(n[i]) {
        assert t[i] == host[i];
      }
    }
    TrimWithoutWhiteSpace(n);
    assert n == [] || n[|n| - 1] != '.';
    LowerIsLowered(t);
  }

  /** White space inside a host name makes Norm not idempotent. */
  lemma NormNotIdempotent()
    ensures Norm("a. .") == "a. "
    ensures Norm(Norm("a. .")) == "a"
  {
    NormKeepsInnerSpace();
    NormDropsTrailingSpace();
  }

  lemma NormKeepsInnerSpace()
    ensures Norm("a. .") == "a. "
  {
    var t := Trim("a. .");
    assert t == "a. ." by {
      assert TrimStart("a. .") == "a. .";
      assert TrimEnd("a. .") == "a. .";
    }
    var u := TrimEndChar(t, '.');
    assert u == "a. ";
    var l := Lower(u);
    assert l == "a. ";
  }

  lemma NormDropsTrailingSpace()
    ensures Norm("a. ") == "a"
  {
    var t := Trim("a. ");
    assert t == "a." by {
      assert TrimStart("a. ") == "a. ";
      assert "a. "[..2] == "a.";
      assert TrimEnd("a.") == "a.";
      assert TrimEnd("a. ") == TrimEnd("a.");
    }
    var u := TrimEndChar(t, '.');
    assert u == "a";
    var l := Lower(u);
    assert l == "a";
  }

  /**
   * The distinct normalized hosts of a settings list, non-blank entries only,
   * in the order of their first occurrence.
   */
  function NormalizedHosts(list: seq<string>): (r: seq<string>)
  {
    if list == [] then []
    else
      var prev := NormalizedHosts(list[..|list| - 1]);
      var h := list[|list| - 1];
      if IsBlank(h) || Norm(h) in prev then prev else prev + [Norm(h)]
  }

  predicate Distinct(s: seq<string>)
  {
    forall i, j | 0 <= i < j < |s| :: s[i] != s[j]
  }

  lemma {:induction false} NormalizedHostsSound(list: seq<string>)
    ensures Distinct(NormalizedHosts(list))
    ensures forall x | x in NormalizedHosts(list) :: IsLowered(x)
  {
    if list != [] {
      NormalizedHostsSound(list[..|list| - 1]);
    }
  }

  /** A normalized host comes from a non-blank entry, and every non-blank entry contributes its host. */
  lemma {:induction false} NormalizedHostsMembers(list: seq<string>, x: string)
    ensures x in NormalizedHosts(list) <==> exists k | 0 <= k < |list| :: Contributes(list[k], x)
  {
    if list != [] {
      var init := list[..|list| - 1];
      NormalizedHostsMembers(init, x);
      NormalizedHostsLast(list, x);
      ContributesSplit(list, init, x);
    }
  }

  /** The last entry adds its host, if any, to those of the entries before it. */
  lemma NormalizedHostsLast(list: seq<string>, x: string)
    requires list != []
    ensures x in NormalizedHosts(list) <==>
              x in NormalizedHosts(list[..|list| - 1]) || Contributes(list[|list| - 1], x)
  {
  }

  /** Some entry of a list contributes x exactly when one before the last does, or the last. */
  lemma ContributesSplit(list: seq<string>, init: seq<string>, x: string)
    requires list != [] && init == list[..|list| - 1]
    ensures (exists k | 0 <= k < |list| :: Contributes(list[k], x)) <==>
              (exists k | 0 <= k < |init| :: Contributes(init[k], x)) || Contributes(list[|list| - 1], x)
  {
    ExistsSplit(list, init, h => Contributes(h, x));
  }

  lemma ExistsSplit<T>(list: seq<T>, init: seq<T>, p: T -> bool)
    requires list != [] && init == list[..|list| - 1]
    ensures (exists k | 0 <= k < |list| :: p(list[k])) <==>
              (exists k | 0 <= k < |init| :: p(init[k])) || p(list[|list| - 1])
  {
    if exists k | 0 <= k < |list| :: p(list[k]) {
      var k :| 0 <= k < |list| && p(list[k]);
      if k < |init| {
        assert init[k] == list[k];
      }
    }
    if exists k | 0 <= k < |init| :: p(init[k]) {
      var k :| 0 <= k < |init| && p(init[k]);
      assert list[k] == init[k];
    }
  }

  /** A settings entry that normalizes to x. */
  predicate Contributes(h: string, x: string)
  {
    !IsBlank(h) && Norm(h) == x
  }

  /** A lowered host missing from a synced set is missing from its list, whatever the case. */
  lemma SyncedListLacks(list: seq<string>, hosts: set<string>, n: string)
    requires hosts == set x | x in list
    requires forall h | h in hosts :: IsLowered(h)
    requires IsLowered(n) && n !in hosts
    ensures !ListHasIgnoreCase(list, n)
  {
    forall k | 0 <= k < |list| ensures !EqIgnoreCase(list[k], n) {
      assert list[k] in hosts;
      EqIgnoreCaseOfLowered(list[k], n);
    }
  }

  /** Distinct lower-case hosts are distinct ignoring case too. */
  lemma DistinctLoweredNoCaseDuplicates(list: seq<string>)
    requires Distinct(list)
    requires forall x | x in list :: IsLowered(x)
    ensures NoCaseDuplicates(list)
  {
    forall i, j | 0 <= i < j < |list| ensures !EqIgnoreCase(list[i], list[j]) {
      EqIgnoreCaseOfLowered(list[i], list[j]);
    }
  }

  /** Membership in a StringComparer.OrdinalIgnoreCase set. */
  predicate InIgnoreCase(s: set<string>, x: string)
  {
    exists y | y in s :: EqIgnoreCase(y, x)
  }

  class HostStrategyStore {
    /** The case-insensitive set _jsOnly. */
    var jsOnly: set<string>
    /** AppSettings.JsOnlyHosts; None stands for a null list. */
    var settingsHosts: Option<seq<string>>
    /** How often AppSettings.Save has been called from here. */
    ghost var saves: nat

    /** The set holds normalized hosts only. */
    predicate Valid()
      reads this
    {
      forall h | h in jsOnly :: IsLowered(h)
    }

    /** The settings list holds exactly the hosts of the set, none twice ignoring case. */
    predicate Synced()
      reads this
    {
      settingsHosts.Some? && jsOnly == (set x | x in settingsHosts.value) && NoCaseDuplicates(settingsHosts.value)
    }

    constructor (settings: Option<seq<string>>)
      ensures Valid()
      ensures jsOnly == {} && settingsHosts == settings && saves == 0
    {
      jsOnly := {};
      settingsHosts := settings;
      saves := 0;
    }

    /** IsJsOnly: a non-blank host whose normalized form is in the set. */
    function IsJsOnly(host: string): (r: bool)
      reads this
      ensures IsBlank(host) ==> !r
    {
      !IsBlank(host) && InIgnoreCase(jsOnly, Norm(host))
    }

    /** Because the set holds normalized hosts, its case-insensitive lookup is plain membership. */
    lemma IsJsOnlyIsMembership(host: string)
      requires Valid()
      ensures IsJsOnly(host) <==> !IsBlank(host) && Norm(host) in jsOnly
    {
      if !IsBlank(host) && InIgnoreCase(jsOnly, Norm(host)) {
        var y :| y in jsOnly && EqIgnoreCase(y, Norm(host));
        EqIgnoreCaseOfLowered(y, Norm(host));
      }
    }

    /** InitializeFromSettings: rebuild the set from the settings list and write it back. */
    method InitializeFromSettings()
      modifies this
      ensures Valid() && Synced()
      ensures var list := if old(settingsHosts).Some? then old(settingsHosts).value else [];
              settingsHosts == Some(NormalizedHosts(list)) &&
              jsOnly == set x | x in NormalizedHosts(list)
      ensures saves == old(saves)
    {
      var list := if settingsHosts.Some? then settingsHosts.value else [];
      jsOnly := {};
      var order: seq<string> := [];
      NormalizedHostsSound(list);
      for i := 0 to |list|
        invariant order == NormalizedHosts(list[..i])
        invariant jsOnly == set x | x in order
        invariant saves == old(saves)
      {
        assert list[..i + 1][..i] == list[..i];
        NormalizedHostsSound(list[..i]);
        var h := list[i];
        if !IsBlank(h) {
          var n := Norm(h);
          if !InIgnoreCase(jsOnly, n) {
            jsOnly := jsOnly + {n};
            order := order + [n];
          } else {
            var y :| y in jsOnly && EqIgnoreCase(y, n);
            EqIgnoreCaseOfLowered(y, n);
          }
        }
      }
      assert list[..|list|] == list;
      assert forall x | x in jsOnly :: x in NormalizedHosts(list);
      NormalizedHostsSound(list);
      DistinctLoweredNoCaseDuplicates(order);
      settingsHosts := Some(order);
    }

    /**
     * MarkJsOnly: add the normalized host; on a new host, append it to the
     * settings list unless already there (ignoring case) and save.
     */
    method MarkJsOnly(host: string)
      requires Valid()
      modifies this
      ensures Valid()
      ensures !IsBlank(host) ==> IsJsOnly(host) && Norm(host) in jsOnly
      ensures var added := !IsBlank(host) && Norm(host) !in old(jsOnly);
              jsOnly == (if added then old(jsOnly) + {Norm(host)} else old(jsOnly)) &&
              saves == old(saves) + (if added then 1 else 0) &&
              (!added ==> settingsHosts == old(settingsHosts))
      // a new host is appended to the settings list (created when null) unless it is there already, ignoring case
      ensures var l := if old(settingsHosts).Some? then old(settingsHosts).value else [];
              var added := !IsBlank(host) && Norm(host) !in old(jsOnly);
              added ==> settingsHosts == Some(if ListHasIgnoreCase(l, Norm(host)) then l else l + [Norm(host)])
      ensures old(Synced()) ==> Synced()
    {
      if IsBlank(host) {
        return;
      }
      var n := Norm(host);
      IsJsOnlyIsMembership(host);
      if !InIgnoreCase(jsOnly, n) {
        jsOnly := jsOnly + {n};
        var list := if settingsHosts.Some? then settingsHosts.value else [];
        if old(Synced()) {
          SyncedListLacks(list, old(jsOnly), n);
          WithHostNoDuplicates(list, n);
        }
        if !ListHasIgnoreCase(list, n) {
          list := list + [n];
        }
        settingsHosts := Some(list);
        saves := saves + 1;
      }
      assert EqIgnoreCase(n, n);
    }
  }
}
