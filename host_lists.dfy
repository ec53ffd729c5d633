/**
 * The navigation allow and block lists (AppSettings.ExternalAllowedHosts and
 * ExternalBlockedHosts) and the helpers the browser window edits them with:
 * host names compare ignoring case, and a list is a mutable List<string>.
 */
module HostLists {
  import opened Text

  /** List.RemoveAll(h => h equals host ignoring case). */
  function Without(list: seq<string>, host: string): (r: seq<string>)
    ensures |r| <= |list|
    ensures !ListHasIgnoreCase(r, host)
    ensures forall x :: x in r <==> x in list && !EqIgnoreCase(x, host)
  {
    if list == [] then []
    else
      var init := Without(list[..|list| - 1], host);
      var x := list[|list| - 1];
      assert list == list[..|list| - 1] + [x];
      if EqIgnoreCase(x, host) then init else init + [x]
  }

  /** Removing from a concatenation removes from each part: the kept entries stay in order. */
  lemma {:induction false} WithoutAppend(a: seq<string>, b: seq<string>, host: string)
    ensures Without(a + b, host) == Without(a, host) + Without(b, host)
    decreases |b|
  {
    if b != [] {
      var b0 := b[..|b| - 1];
      assert (a + b)[..|a + b| - 1] == a + b0;
      WithoutAppend(a, b0, host);
    } else {
      assert a + b == a;
    }
  }

  /** A list without the host is left as it is. */
  lemma {:induction false} WithoutAbsent(list: seq<string>, host: string)
    requires !ListHasIgnoreCase(list, host)
    ensures Without(list, host) == list
  {
    if list != [] {
      var init := list[..|list| - 1];
      assert !ListHasIgnoreCase(init, host) by {
        forall k | 0 <= k < |init| ensures !EqIgnoreCase(init[k], host) {
          assert init[k] == list[k];
        }
      }
      WithoutAbsent(init, host);
      assert !EqIgnoreCase(list[|list| - 1], host);
      assert list == init + [list[|list| - 1]];
    }
  }

  /** AddHostUnique: the host appended unless the list has it already, ignoring case. */
  function WithHost(list: seq<string>, host: string): (r: seq<string>)
    ensures ListHasIgnoreCase(r, host)
    ensures ListHasIgnoreCase(list, host) ==> r == list
    ensures !ListHasIgnoreCase(list, host) ==> r == list + [host]
  {
    if ListHasIgnoreCase(list, host) then list
    else
      assert (list + [host])[|list|] == host;
      list + [host]
  }

  /** No two entries of the list are equal ignoring case. */
  predicate NoCaseDuplicates(list: seq<string>)
  {
    forall i, j | 0 <= i < j < |list| :: !EqIgnoreCase(list[i], list[j])
  }

  /** Distinct(StringComparer.OrdinalIgnoreCase): the first of each group of equal entries, in order. */
  function DistinctIgnoreCase(xs: seq<string>): (r: seq<string>)
  {
    if xs == [] then []
    else
      var prev := DistinctIgnoreCase(xs[..|xs| - 1]);
      var x := xs[|xs| - 1];
      if ListHasIgnoreCase(prev, x) then prev else prev + [x]
  }

  /** Deduplication keeps only given entries, keeps one of each, and drops no entry's case-insensitive class. */
  lemma {:induction false} DistinctIgnoreCaseSound(xs: seq<string>)
    ensures var r := DistinctIgnoreCase(xs);
            NoCaseDuplicates(r) &&
            (forall x :: x in r ==> x in xs) &&
            (forall j | 0 <= j < |xs| :: ListHasIgnoreCase(r, xs[j]))
  {
    if xs != [] {
      var init := xs[..|xs| - 1];
      var x := xs[|xs| - 1];
      DistinctIgnoreCaseSound(init);
      var prev := DistinctIgnoreCase(init);
      var r := DistinctIgnoreCase(xs);
      if !ListHasIgnoreCase(prev, x) {
        forall i, j | 0 <= i < j < |r| ensures !EqIgnoreCase(r[i], r[j]) {
          if j == |prev| {
            assert r[i] == prev[i];
          }
        }
        assert r[|prev|] == x;
      }
      forall j | 0 <= j < |xs| ensures ListHasIgnoreCase(r, xs[j]) {
        if j < |init| {
          assert xs[j] == init[j];
          var k :| 0 <= k < |prev| && EqIgnoreCase(prev[k], init[j]);
          assert r[k] == prev[k];
        }
      }
      forall y | y in r ensures y in xs {
        if y in prev {
          assert y in init;
        }
      }
    }
  }

  /** Whether xs[j] is the first entry of its class, comparing ignoring case. */
  predicate FirstOfItsCase(xs: seq<string>, j: int)
    requires 0 <= j < |xs|
  {
    forall i | 0 <= i < j :: !EqIgnoreCase(xs[i], xs[j])
  }

  /** The entries of xs that are the first of their class, in list order. */
  function FirstsIgnoreCase(xs: seq<string>): seq<string>
  {
    if xs == [] then []
    else FirstsIgnoreCase(xs[..|xs| - 1]) + (if FirstOfItsCase(xs, |xs| - 1) then [xs[|xs| - 1]] else [])
  }

  /** Deduplication keeps exactly the first entry of each class, and keeps them in list order. */
  lemma {:induction false} DistinctIgnoreCaseKeepsFirsts(xs: seq<string>)
    ensures DistinctIgnoreCase(xs) == FirstsIgnoreCase(xs)
  {
    if xs != [] {
      var init := xs[..|xs| - 1];
      var x := xs[|xs| - 1];
      DistinctIgnoreCaseKeepsFirsts(init);
      DistinctIgnoreCaseSound(init);
      var prev := DistinctIgnoreCase(init);
      if ListHasIgnoreCase(prev, x) {
        var k :| 0 <= k < |prev| && EqIgnoreCase(prev[k], x);
        assert prev[k] in init;
        var i :| 0 <= i < |init| && init[i] == prev[k];
        assert xs[i] == init[i];
      }
      if !FirstOfItsCase(xs, |xs| - 1) {
        var i :| 0 <= i < |xs| - 1 && EqIgnoreCase(xs[i], x);
        assert init[i] == xs[i];
        var k :| 0 <= k < |prev| && EqIgnoreCase(prev[k], init[i]);
      }
    }
  }

  /** An already distinct list is kept as it is. */
  lemma {:induction false} DistinctIgnoreCaseOfDistinct(xs: seq<string>)
    requires NoCaseDuplicates(xs)
    ensures DistinctIgnoreCase(xs) == xs
  {
    if xs != [] {
      var init := xs[..|xs| - 1];
      var x := xs[|xs| - 1];
      assert NoCaseDuplicates(init) by {
        forall i, j | 0 <= i < j < |init| ensures !EqIgnoreCase(init[i], init[j]) {
          assert init[i] == xs[i] && init[j] == xs[j];
        }
      }
      DistinctIgnoreCaseOfDistinct(init);
      assert !ListHasIgnoreCase(init, x) by {
        forall k | 0 <= k < |init| ensures !EqIgnoreCase(init[k], x) {
          assert init[k] == xs[k];
        }
      }
      assert xs == init + [x];
    }
  }

  /** AddHostUnique never creates a duplicate. */
  lemma WithHostNoDuplicates(list: seq<string>, host: string)
    requires NoCaseDuplicates(list)
    ensures NoCaseDuplicates(WithHost(list, host))
  {
    var r := WithHost(list, host);
    if !ListHasIgnoreCase(list, host) {
      forall i, j | 0 <= i < j < |r| ensures !EqIgnoreCase(r[i], r[j]) {
        if j == |list| {
          assert r[i] == list[i];
        }
      }
    }
  }

  /** Removal keeps a list free of duplicates. */
  lemma {:induction false} WithoutNoDuplicates(list: seq<string>, host: string)
    requires NoCaseDuplicates(list)
    ensures NoCaseDuplicates(Without(list, host))
  {
    if list != [] {
      var init := list[..|list| - 1];
      var x := list[|list| - 1];
      assert NoCaseDuplicates(init) by {
        forall i, j | 0 <= i < j < |init| ensures !EqIgnoreCase(init[i], init[j]) {
          assert init[i] == list[i] && init[j] == list[j];
        }
      }
      WithoutNoDuplicates(init, host);
      var w := Without(init, host);
      if !EqIgnoreCase(x, host) {
        var r := w + [x];
        forall i, j | 0 <= i < j < |r| ensures !EqIgnoreCase(r[i], r[j]) {
          if j == |w| {
            assert r[i] in init;
            var k :| 0 <= k < |init| && init[k] == r[i];
            assert list[k] == r[i];
          }
        }
      }
    }
  }

  /**
   * Preferring a host in one list and dropping it from the other (the Allow and
   * Block choices, AddAllowed and AddBlocked): afterwards exactly the first list
   * has it, and neither list gains a duplicate.
   */
  lemma PreferHost(keep: seq<string>, drop: seq<string>, host: string)
    ensures ListHasIgnoreCase(WithHost(keep, host), host)
    ensures !ListHasIgnoreCase(Without(drop, host), host)
    ensures NoCaseDuplicates(keep) ==> NoCaseDuplicates(WithHost(keep, host))
    ensures NoCaseDuplicates(drop) ==> NoCaseDuplicates(Without(drop, host))
  {
    if NoCaseDuplicates(keep) {
      WithHostNoDuplicates(keep, host);
    }
    if NoCaseDuplicates(drop) {
      WithoutNoDuplicates(drop, host);
    }
  }

  /** A List<string> of host names. */
  class HostList {
    var hosts: seq<string>

    constructor (hosts: seq<string>)
      ensures this.hosts == hosts
    {
      this.hosts := hosts;
    }
  }

  /** ContainsHost: the foreach that stops at the first entry equal to the host ignoring case. */
  method ContainsHost(list: HostList, host: string) returns (found: bool)
    ensures found == ListHasIgnoreCase(list.hosts, host)
  {
    var hs := list.hosts;
    var i := 0;
    while i < |hs|
      invariant 0 <= i <= |hs|
      invariant forall k | 0 <= k < i :: !EqIgnoreCase(hs[k], host)
    {
      if Lower(hs[i]) == Lower(host) {
        return true;
      }
      i := i + 1;
    }
    return false;
  }

  /** AddHostUnique: List.Add unless ContainsHost. */
  method AddHostUnique(list: HostList, host: string)
    modifies list
    ensures list.hosts == WithHost(old(list.hosts), host)
  {
    var present := ContainsHost(list, host);
    if !present {
      list.hosts := list.hosts + [host];
    }
  }

  /** RemoveHost: List.RemoveAll of the entries equal to the host ignoring case. */
  method RemoveHost(list: HostList, host: string)
    modifies list
    ensures list.hosts == Without(old(list.hosts), host)
  {
    list.hosts := Without(list.hosts, host);
  }
}
