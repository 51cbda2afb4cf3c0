/** Granted scopes: the allowed set, its sorted list, and the filtered request (section 3.3 of RFC 6749). */
module Scopes {
  import opened Strings

  /** The string order of Go: the first differing character decides, a proper prefix comes first. */
  predicate Less(a: string, b: string)
    decreases |a|
  {
    b != "" && (a == "" || a[0] < b[0] || (a[0] == b[0] && Less(a[1..], b[1..])))
  }

  /** `a` and `b` agree up to `k`, and there `a` ends first or has the smaller character. */
  predicate SmallerAt(a: string, b: string, k: nat) {
    && k <= |a| && k < |b| && a[..k] == b[..k]
    && (k < |a| ==> a[k] < b[k])
  }

  /** The order is the lexical one: the first difference decides, and a proper prefix comes first. */
  lemma {:induction false} LessIff(a: string, b: string)
    ensures Less(a, b) <==> exists k: nat :: SmallerAt(a, b, k)
    decreases |a|
  {
    if b == "" {
    } else if a == "" {
      assert SmallerAt(a, b, 0);
    } else if a[0] != b[0] {
      assert a[0] < b[0] ==> SmallerAt(a, b, 0);
      forall k: nat | SmallerAt(a, b, k) ensures a[0] < b[0] {
        if k > 0 { assert a[..k][0] == b[..k][0]; }
      }
    } else {
      LessIff(a[1..], b[1..]);
      if k: nat :| SmallerAt(a[1..], b[1..], k) {
        assert a[..k + 1] == [a[0]] + a[1..][..k] && b[..k + 1] == [b[0]] + b[1..][..k];
        assert SmallerAt(a, b, k + 1);
      }
      if k: nat :| SmallerAt(a, b, k) {
        assert k > 0;
        assert a[1..][..k - 1] == a[..k][1..] && b[1..][..k - 1] == b[..k][1..];
        assert SmallerAt(a[1..], b[1..], k - 1);
      }
    }
  }

  lemma {:induction false} LessTotal(a: string, b: string)
    ensures a == b || Less(a, b) || Less(b, a)
    ensures !(Less(a, b) && Less(b, a))
    ensures !Less(a, a)
    decreases |a|
  {
    if a != "" {
      LessTotal(a[1..], if b == "" then b else b[1..]);
      if b != "" && a[0] == b[0] && a[1..] == b[1..] { assert a == [a[0]] + a[1..] && b == [b[0]] + b[1..]; }
    }
  }

  lemma {:induction false} LessTransitive(a: string, b: string, c: string)
    requires Less(a, b) && Less(b, c)
    ensures Less(a, c)
    decreases |a|
  {
    if a != "" && a[0] == b[0] && b[0] == c[0] { LessTransitive(a[1..], b[1..], c[1..]); }
  }

  predicate AtMost(a: string, b: string) { !Less(b, a) }

  lemma AtMostTransitive(a: string, b: string, c: string)
    requires AtMost(a, b) && AtMost(b, c)
    ensures AtMost(a, c)
  {
    LessTotal(a, b);
    LessTotal(b, c);
    LessTotal(a, c);
    if Less(c, a) {
      if Less(a, b) { LessTransitive(c, a, b); }
    }
  }

  predicate Sorted(s: seq<string>) { forall i, j :: 0 <= i < j < |s| ==> AtMost(s[i], s[j]) }

  predicate StrictlySorted(s: seq<string>) { forall i, j :: 0 <= i < j < |s| ==> Less(s[i], s[j]) }

  /** Every string up to position `i` is at most every string from there on. */
  predicate Split(s: seq<string>, i: nat) {
    forall p, q :: 0 <= p < i <= q < |s| ==> AtMost(s[p], s[q])
  }

  /** The in-place exchange sort. */
  method SortStrings(a: array<string>)
    modifies a
    ensures Sorted(a[..]) && multiset(a[..]) == multiset(old(a[..]))
  {
    hide Less, AtMost;
    var i := 0;
    while i < a.Length
      invariant 0 <= i <= a.Length
      invariant Sorted(a[..i]) && Split(a[..], i)
      invariant multiset(a[..]) == multiset(old(a[..]))
    {
      ghost var before := a[..];
      ExchangePass(a, i);
      SplitGrows(before, a[..], i);
      assert a[..i] == before[..i];
      assert a[..i + 1] == a[..][..i + 1] && a[..i] == a[..][..i];
      i := i + 1;
    }
    assert a[..i] == a[..];
  }

  /** The inner loop: brings a least string of the rest to position `i` by exchanges. */
  method ExchangePass(a: array<string>, i: nat)
    requires i < a.Length
    modifies a
    ensures multiset(a[..]) == multiset(old(a[..])) && a[..i] == old(a[..i])
    ensures forall q :: i <= q < a.Length ==> a[q] in old(a[i..])
    ensures forall q :: i < q < a.Length ==> AtMost(a[i], a[q])
  {
    hide Less, AtMost;
    ghost var before := a[..];
    var j := i + 1;
    while j < a.Length
      invariant i < j <= a.Length
      invariant multiset(a[..]) == multiset(before) && a[..][..i] == before[..i]
      invariant forall q :: i < q < j ==> AtMost(a[i], a[q])
    {
      LessDecides(a[i], a[j]);
      if Less(a[j], a[i]) {
        forall q | i < q < j ensures AtMost(a[j], a[q]) { AtMostTransitive(a[j], a[i], a[q]); }
        Exchange(a, i, j);
      }
      j := j + 1;
    }
    PermutedTail(before, a[..], i);
    assert a[..][..i] == a[..i] && before[..i] == old(a[..i]) && before[i..] == old(a[i..]);
  }

  method Exchange(a: array<string>, i: nat, j: nat)
    requires i < j < a.Length
    modifies a
    ensures multiset(a[..]) == multiset(old(a[..])) && a[..][..i] == old(a[..])[..i]
    ensures a[i] == old(a[j]) && a[j] == old(a[i])
    ensures forall q :: 0 <= q < a.Length && q != i && q != j ==> a[q] == old(a[q])
  {
    a[i], a[j] := a[j], a[i];
  }

  lemma PermutedTail(s: seq<string>, t: seq<string>, i: nat)
    requires i <= |s| == |t| && multiset(s) == multiset(t) && s[..i] == t[..i]
    ensures forall q :: i <= q < |t| ==> t[q] in s[i..]
  {
    SplitCounts(s, i);
    SplitCounts(t, i);
    forall q | i <= q < |t| ensures t[q] in s[i..] {
      assert t[i..][q - i] == t[q];
      assert t[q] in multiset(t[i..]);
    }
  }

  lemma SplitCounts(s: seq<string>, i: nat)
    requires i <= |s|
    ensures multiset(s[i..]) == multiset(s) - multiset(s[..i])
  {
    assert s == s[..i] + s[i..];
  }

  lemma LessDecides(x: string, y: string)
    ensures if Less(y, x) then AtMost(y, x) else AtMost(x, y)
  {
    LessTotal(x, y);
  }

  lemma SplitGrows(s: seq<string>, t: seq<string>, i: nat)
    requires i < |s| == |t| && t[..i] == s[..i] && Sorted(s[..i]) && Split(s, i)
    requires forall q :: i <= q < |t| ==> t[q] in s[i..]
    requires forall q :: i < q < |t| ==> AtMost(t[i], t[q])
    ensures Sorted(t[..i + 1]) && Split(t, i + 1)
  {
    hide AtMost;
    forall p, q | 0 <= p < i <= q < |t| ensures AtMost(t[p], t[q]) {
      assert t[p] == t[..i][p] == s[p];
      var r :| 0 <= r < |s[i..]| && s[i..][r] == t[q];
      assert s[i + r] == t[q] && AtMost(s[p], s[i + r]);
    }
    var u := t[..i + 1];
    forall p, q | 0 <= p < q < |u| ensures AtMost(u[p], u[q]) {
      if q < i { assert t[..i][p] == s[..i][p] && t[..i][q] == s[..i][q]; }
    }
  }

  // ---------------------------------------------------------------- granting

  /** The distinct trimmed non-empty scopes a client is allowed. */
  function AllowedSet(allowed: seq<string>): set<string> {
    set s | s in allowed && Trim(s) != "" :: Trim(s)
  }

  /** The scopes of the request that are in the set, in request order, repeats included. */
  function Filter(requested: seq<string>, ok: set<string>): seq<string> {
    if requested == [] then [] else
    var n := |requested| - 1;
    Filter(requested[..n], ok) + (if requested[n] in ok then [requested[n]] else [])
  }

  /** `at` lists, in order, the positions of the request that hold allowed scopes, and `out` what is there. */
  ghost predicate Selects(at: seq<nat>, requested: seq<string>, ok: set<string>, out: seq<string>) {
    && |at| == |out|
    && (forall k :: 0 <= k < |at| ==> at[k] < |requested| && requested[at[k]] == out[k])
    && (forall k, l :: 0 <= k < l < |at| ==> at[k] < at[l])
    && (forall i :: 0 <= i < |requested| ==> (i in at <==> requested[i] in ok))
  }

  lemma SelectsMore(at: seq<nat>, requested: seq<string>, ok: set<string>, out: seq<string>, s: string)
    requires Selects(at, requested, ok, out)
    ensures s in ok ==> Selects(at + [|requested|], requested + [s], ok, out + [s])
    ensures s !in ok ==> Selects(at, requested + [s], ok, out)
  {
    var n := |requested|;
    forall i | 0 <= i < n + 1 ensures i in at + [n] <==> i in at || i == n {}
  }

  /** The filtered request is the subsequence at exactly the positions that hold allowed scopes. */
  lemma {:induction false} FilterIsSubsequence(requested: seq<string>, ok: set<string>) returns (at: seq<nat>)
    ensures Selects(at, requested, ok, Filter(requested, ok))
    decreases |requested|
  {
    if requested == [] {
      at := [];
    } else {
      hide Selects;
      var n := |requested| - 1;
      at := FilterIsSubsequence(requested[..n], ok);
      SelectsMore(at, requested[..n], ok, Filter(requested[..n], ok), requested[n]);
      assert requested == requested[..n] + [requested[n]];
      if requested[n] in ok { at := at + [n]; }
    }
  }

  /** A set has one strictly sorted list, so the order the map is walked in cannot show. */
  lemma {:induction false} SortedListUnique(s: seq<string>, t: seq<string>)
    requires StrictlySorted(s) && StrictlySorted(t) && forall x :: x in s <==> x in t
    ensures s == t
    decreases |s|
  {
    hide Less;
    BothEmpty(s, t);
    if s != [] {
      assert s[0] in t && t[0] in s;
      LessTotal(s[0], t[0]);
      FirstIsLeast(s, t[0]);
      FirstIsLeast(t, s[0]);
      assert s[0] == t[0];
      TailsAgree(s, t);
      SortedListUnique(s[1..], t[1..]);
    }
  }

  lemma BothEmpty(s: seq<string>, t: seq<string>)
    requires forall x :: x in s <==> x in t
    ensures s == [] <==> t == []
  {
    if s != [] { assert s[0] in s; }
    if t != [] { assert t[0] in t; }
  }

  lemma FirstIsLeast(s: seq<string>, x: string)
    requires StrictlySorted(s) && x in s
    ensures x == s[0] || Less(s[0], x)
  {}

  lemma TailsAgree(s: seq<string>, t: seq<string>)
    requires StrictlySorted(s) && StrictlySorted(t) && s != [] && t != [] && s[0] == t[0]
    requires forall x :: x in s <==> x in t
    ensures StrictlySorted(s[1..]) && StrictlySorted(t[1..]) && forall x :: x in s[1..] <==> x in t[1..]
  {
    hide Less;
    LessTotal(s[0], s[0]);
    assert s[0] !in s[1..];
    assert s[0] !in t[1..];
    forall x ensures x in s[1..] <==> x in t[1..] {
      assert x in s <==> x == s[0] || x in s[1..];
      assert x in t <==> x == t[0] || x in t[1..];
    }
  }

  /** The allowed scopes are what is left of the list's strings after trimming, if anything is. */
  lemma AllowedIff(allowed: seq<string>, x: string)
    ensures x in AllowedSet(allowed) <==> x != "" && exists i :: 0 <= i < |allowed| && Trim(allowed[i]) == x
  {
    if i :| 0 <= i < |allowed| && Trim(allowed[i]) == x && x != "" { assert allowed[i] in allowed; }
    if x in AllowedSet(allowed) {
      var t :| t in allowed && Trim(t) != "" && Trim(t) == x;
      var i :| 0 <= i < |allowed| && allowed[i] == t;
      assert Trim(allowed[i]) == x;
    }
  }

  /** The granted scopes. */
  method IntersectScopes(allowed: seq<string>, requested: seq<string>) returns (out: seq<string>)
    ensures requested != [] ==> out == Filter(requested, AllowedSet(allowed))
    ensures requested == [] ==> StrictlySorted(out) && forall x :: x in out <==> x in AllowedSet(allowed)
  {
    hide Less;
    var allowedSet: set<string> := {};
    for i := 0 to |allowed|
      invariant allowedSet == AllowedSet(allowed[..i])
    {
      var s := Trim(allowed[i]);
      AllowedStep(allowed, i);
      if s == "" { continue; }
      allowedSet := allowedSet + {s};
    }
    assert allowed[..|allowed|] == allowed;
    if |requested| == 0 {
      var order := [];
      var rest := allowedSet;
      while rest != {}
        invariant rest <= allowedSet
        invariant forall x :: x in order <==> x in allowedSet - rest
        invariant NoRepeats(order)
        decreases |rest|
      {
        var s :| s in rest;
        assert s !in order;
        order := order + [s];
        rest := rest - {s};
      }
      var a := new string[|order|](i requires 0 <= i < |order| => order[i]);
      assert a[..] == order;
      SortStrings(a);
      out := a[..];
      SortedOnce(order, out);
      return;
    }
    out := [];
    for i := 0 to |requested|
      invariant out == Filter(requested[..i], allowedSet)
    {
      assert requested[..i + 1][..i] == requested[..i];
      if requested[i] in allowedSet { out := out + [requested[i]]; }
    }
    assert requested[..|requested|] == requested;
  }

  predicate NoRepeats(s: seq<string>) { forall i, j :: 0 <= i < j < |s| ==> s[i] != s[j] }

  lemma AllowedStep(allowed: seq<string>, i: nat)
    requires i < |allowed|
    ensures AllowedSet(allowed[..i + 1]) ==
      AllowedSet(allowed[..i]) + (if Trim(allowed[i]) == "" then {} else {Trim(allowed[i])})
  {
    var xs, ys := AllowedSet(allowed[..i + 1]), AllowedSet(allowed[..i]);
    assert allowed[..i + 1] == allowed[..i] + [allowed[i]];
    forall x ensures x in xs <==> x in ys || (Trim(allowed[i]) != "" && x == Trim(allowed[i])) {
      if Trim(allowed[i]) != "" && x == Trim(allowed[i]) { assert allowed[i] in allowed[..i + 1]; }
    }
  }

  /** A sorted permutation of a list without repeats is strictly sorted and has the same elements. */
  lemma SortedOnce(order: seq<string>, out: seq<string>)
    requires NoRepeats(order) && Sorted(out) && multiset(out) == multiset(order)
    ensures StrictlySorted(out) && forall x :: x in out <==> x in order
  {
    hide Less;
    forall x ensures x in out <==> x in order { assert x in multiset(out) <==> x in multiset(order); }
    forall i, j | 0 <= i < j < |out| ensures Less(out[i], out[j]) {
      LessTotal(out[i], out[j]);
      if out[i] == out[j] {
        RepeatCounts(out, i, j);
        OnceCounts(order, out[i]);
        assert false;
      }
    }
  }

  lemma RepeatCounts(s: seq<string>, i: nat, j: nat)
    requires i < j < |s| && s[i] == s[j]
    ensures multiset(s)[s[i]] >= 2
  {
    assert s == s[..j] + s[j..];
    assert s[i] in s[..j] && s[j] in s[j..];
    assert multiset(s) == multiset(s[..j]) + multiset(s[j..]);
  }

  lemma {:induction false} OnceCounts(s: seq<string>, x: string)
    requires NoRepeats(s)
    ensures multiset(s)[x] <= 1
    decreases |s|
  {
    if s != [] {
      var n := |s| - 1;
      OnceCounts(s[..n], x);
      assert s == s[..n] + [s[n]];
      assert s[n] !in s[..n];
      assert s[n] !in multiset(s[..n]);
    }
  }
}
