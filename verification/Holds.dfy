/** The holds table and the journal entries that release holds: counts, totals, and who names whom. */
module Holds {
  datatype HoldStatus = Active | Released

  datatype Hold = Hold(dispute: string, account: string, amount: int, status: HoldStatus)

  /** The journal entry that gives a released hold back; `hold` is the row it names. */
  datatype Release = Release(dispute: string, hold: nat, account: string, amount: int)

  // ---------------------------------------------------------------- releasing the holds of a dispute

  /** Every ACTIVE hold of `d` becomes RELEASED. */
  function ReleasedHolds(holds: seq<Hold>, d: string): (r: seq<Hold>)
    ensures |r| == |holds|
  {
    if holds == [] then [] else
    var h := holds[|holds| - 1];
    ReleasedHolds(holds[..|holds| - 1], d) + [if h.dispute == d then h.(status := Released) else h]
  }

  lemma {:induction false} ReleasedEach(holds: seq<Hold>, d: string)
    ensures forall i :: 0 <= i < |holds| ==>
      ReleasedHolds(holds, d)[i] == if holds[i].dispute == d then holds[i].(status := Released) else holds[i]
    decreases |holds|
  {
    if holds != [] { ReleasedEach(holds[..|holds| - 1], d); }
  }

  /** One release entry for each hold of `d` that was still ACTIVE. */
  function NewReleases(holds: seq<Hold>, d: string): seq<Release> {
    if holds == [] then [] else
    var n := |holds| - 1;
    NewReleases(holds[..n], d) +
    (if holds[n].dispute == d && holds[n].status == Active
     then [Release(d, n, holds[n].account, holds[n].amount)] else [])
  }

  // ---------------------------------------------------------------- counts and sums

  function HoldCount(holds: seq<Hold>, d: string): nat {
    if holds == [] then 0 else
    HoldCount(holds[..|holds| - 1], d) + (if holds[|holds| - 1].dispute == d then 1 else 0)
  }

  predicate HasActive(holds: seq<Hold>, d: string) {
    exists i :: 0 <= i < |holds| && holds[i].dispute == d && holds[i].status == Active
  }

  predicate AllActive(holds: seq<Hold>, d: string) {
    forall i :: 0 <= i < |holds| && holds[i].dispute == d ==> holds[i].status == Active
  }

  /** Total of the RELEASED holds of a dispute. */
  function ReleasedTotal(holds: seq<Hold>, d: string): int {
    if holds == [] then 0 else
    var h := holds[|holds| - 1];
    ReleasedTotal(holds[..|holds| - 1], d) + (if h.dispute == d && h.status == Released then h.amount else 0)
  }

  /** Total of the release entries of a dispute. */
  function EntryTotal(releases: seq<Release>, d: string): int {
    if releases == [] then 0 else
    var r := releases[|releases| - 1];
    EntryTotal(releases[..|releases| - 1], d) + (if r.dispute == d then r.amount else 0)
  }

  function One(b: bool): nat { if b then 1 else 0 }

  lemma CountLast(holds: seq<Hold>, h: Hold, d: string)
    ensures HoldCount(holds + [h], d) == HoldCount(holds, d) + One(h.dispute == d)
    ensures ReleasedTotal(holds + [h], d) ==
      ReleasedTotal(holds, d) + (if h.dispute == d && h.status == Released then h.amount else 0)
  {
    assert (holds + [h])[..|holds|] == holds;
  }

  lemma {:induction false} CountReleased(holds: seq<Hold>, d: string, x: string)
    ensures HoldCount(ReleasedHolds(holds, d), x) == HoldCount(holds, x)
    ensures x != d ==> ReleasedTotal(ReleasedHolds(holds, d), x) == ReleasedTotal(holds, x)
    ensures x == d ==>
      ReleasedTotal(ReleasedHolds(holds, d), d) == ReleasedTotal(holds, d) + EntryTotal(NewReleases(holds, d), d)
    ensures x != d ==> EntryTotal(NewReleases(holds, d), x) == 0
    decreases |holds|
  {
    hide *;
    if holds == [] {
      NothingReleased(d, x);
    } else {
      var n := |holds| - 1;
      var pre, h := holds[..n], holds[n];
      CountReleased(pre, d, x);
      ReleaseLast(pre, h, d);
      assert holds == pre + [h];
      CountLast(pre, h, x);
      CountLast(ReleasedHolds(pre, d), if h.dispute == d then h.(status := Released) else h, x);
      EntryLast(NewReleases(pre, d), Release(d, n, h.account, h.amount), x);
    }
  }

  lemma NothingReleased(d: string, x: string)
    ensures ReleasedHolds([], d) == [] && NewReleases([], d) == []
    ensures HoldCount([], x) == 0 && ReleasedTotal([], x) == 0 && EntryTotal([], x) == 0
  {}

  lemma ReleaseLast(pre: seq<Hold>, h: Hold, d: string)
    ensures ReleasedHolds(pre + [h], d) ==
      ReleasedHolds(pre, d) + [if h.dispute == d then h.(status := Released) else h]
    ensures NewReleases(pre + [h], d) ==
      if h.dispute == d && h.status == Active then NewReleases(pre, d) + [Release(d, |pre|, h.account, h.amount)]
      else NewReleases(pre, d)
  {
    assert (pre + [h])[..|pre|] == pre;
  }

  lemma EntryLast(rs: seq<Release>, r: Release, x: string)
    ensures EntryTotal(rs + [r], x) == EntryTotal(rs, x) + (if r.dispute == x then r.amount else 0)
  {
    assert (rs + [r])[..|rs|] == rs;
  }

  lemma {:induction false} EntryConcat(xs: seq<Release>, ys: seq<Release>, d: string)
    ensures EntryTotal(xs + ys, d) == EntryTotal(xs, d) + EntryTotal(ys, d)
    decreases |ys|
  {
    if ys == [] {
      assert xs + ys == xs;
    } else {
      EntryConcat(xs, ys[..|ys| - 1], d);
      assert (xs + ys)[..|xs + ys| - 1] == xs + ys[..|ys| - 1];
    }
  }

  lemma ActiveAfterHold(holds: seq<Hold>, h: Hold, x: string)
    requires h.status == Active
    ensures AllActive(holds + [h], x) <==> AllActive(holds, x)
    ensures HasActive(holds + [h], x) <==> HasActive(holds, x) || h.dispute == x
  {
    var hs := holds + [h];
    assert hs[|holds|] == h;
    if HasActive(holds, x) {
      var i :| 0 <= i < |holds| && holds[i].dispute == x && holds[i].status == Active;
      assert hs[i] == holds[i];
    }
    if AllActive(hs, x) {
      forall i | 0 <= i < |holds| && holds[i].dispute == x ensures holds[i].status == Active {
        assert hs[i] == holds[i];
      }
    }
  }

  lemma ActiveAfterRelease(holds: seq<Hold>, d: string, x: string)
    ensures x != d ==> (AllActive(ReleasedHolds(holds, d), x) <==> AllActive(holds, x))
    ensures x != d ==> (HasActive(ReleasedHolds(holds, d), x) <==> HasActive(holds, x))
    ensures !HasActive(ReleasedHolds(holds, d), d)
  {
    var hs := ReleasedHolds(holds, d);
    ReleasedEach(holds, d);
    if x != d {
      if HasActive(holds, x) {
        var i :| 0 <= i < |holds| && holds[i].dispute == x && holds[i].status == Active;
        assert hs[i] == holds[i];
      }
      if AllActive(hs, x) {
        forall i | 0 <= i < |holds| && holds[i].dispute == x ensures holds[i].status == Active {
          assert hs[i] == holds[i];
        }
      }
    }
  }

  lemma {:induction false} SomeActive(holds: seq<Hold>, d: string)
    requires HoldCount(holds, d) > 0 && AllActive(holds, d)
    ensures HasActive(holds, d)
    decreases |holds|
  {
    var n := |holds| - 1;
    if holds[n].dispute != d {
      SomeActive(holds[..n], d);
      var i :| 0 <= i < n && holds[..n][i].dispute == d && holds[..n][i].status == Active;
      assert holds[i].dispute == d && holds[i].status == Active;
    } else {
      assert holds[n].status == Active;
    }
  }

  // ---------------------------------------------------------------- releases and RELEASED holds

  /** Some release entry names hold `i`. */
  predicate Named(releases: seq<Release>, i: int) {
    exists j :: 0 <= j < |releases| && releases[j].hold == i
  }

  /** Release entries and RELEASED holds correspond one to one. */
  ghost predicate ReleasesMatch(holds: seq<Hold>, releases: seq<Release>) {
    && (forall j :: 0 <= j < |releases| ==>
          && releases[j].hold < |holds| && holds[releases[j].hold].status == Released
          && holds[releases[j].hold].dispute == releases[j].dispute
          && holds[releases[j].hold].amount == releases[j].amount)
    && (forall i, j :: 0 <= i < j < |releases| ==> releases[i].hold != releases[j].hold)
    && (forall i :: 0 <= i < |holds| && holds[i].status == Released ==> Named(releases, i))
  }

  ghost predicate TotalsMatch(holds: seq<Hold>, releases: seq<Release>) {
    forall d :: EntryTotal(releases, d) == ReleasedTotal(holds, d)
  }

  /** `rs` names each ACTIVE hold of `d` once, with its amount, in order. */
  ghost predicate NamesActive(holds: seq<Hold>, rs: seq<Release>, d: string) {
    && (forall j :: 0 <= j < |rs| ==>
          && rs[j].dispute == d && rs[j].hold < |holds| && holds[rs[j].hold].dispute == d
          && holds[rs[j].hold].status == Active && holds[rs[j].hold].amount == rs[j].amount)
    && (forall i, j :: 0 <= i < j < |rs| ==> rs[i].hold < rs[j].hold)
    && (forall i :: 0 <= i < |holds| && holds[i].dispute == d && holds[i].status == Active ==> Named(rs, i))
  }

  lemma {:induction false} NewReleasesAre(holds: seq<Hold>, d: string)
    ensures NamesActive(holds, NewReleases(holds, d), d)
    decreases |holds|
  {
    hide NamesActive;
    if holds == [] {
      NothingNamed(d);
    } else {
      var n := |holds| - 1;
      NewReleasesAre(holds[..n], d);
      NamesOneMore(holds[..n], NewReleases(holds[..n], d), d, holds[n]);
      assert holds == holds[..n] + [holds[n]];
    }
  }

  lemma NothingNamed(d: string)
    ensures NamesActive([], [], d)
  {}

  lemma NamesOneMore(holds: seq<Hold>, rs: seq<Release>, d: string, h: Hold)
    requires NamesActive(holds, rs, d)
    ensures NamesActive(holds + [h],
      rs + (if h.dispute == d && h.status == Active then [Release(d, |holds|, h.account, h.amount)] else []), d)
  {
    hide Named;
    var r := Release(d, |holds|, h.account, h.amount);
    var last := if h.dispute == d && h.status == Active then [r] else [];
    var hs, all := holds + [h], rs + last;
    forall i | 0 <= i < |hs| && hs[i].dispute == d && hs[i].status == Active ensures Named(all, i) {
      if i == |holds| { NamedHere(r); }
      NamedLeft(rs, last, i);
    }
  }

  lemma NamedHere(r: Release)
    ensures Named([r], r.hold)
  {
    assert [r][0].hold == r.hold;
  }

  lemma NamedLeft(xs: seq<Release>, ys: seq<Release>, i: int)
    requires Named(xs, i) || Named(ys, i)
    ensures Named(xs + ys, i)
  {
    if Named(xs, i) {
      var j :| 0 <= j < |xs| && xs[j].hold == i;
      assert (xs + ys)[j].hold == i;
    } else {
      var j :| 0 <= j < |ys| && ys[j].hold == i;
      assert (xs + ys)[|xs| + j].hold == i;
    }
  }

  lemma ReversalKeepsReleases(holds: seq<Hold>, releases: seq<Release>, d: string)
    requires ReleasesMatch(holds, releases) && TotalsMatch(holds, releases)
    ensures ReleasesMatch(ReleasedHolds(holds, d), releases + NewReleases(holds, d))
    ensures TotalsMatch(ReleasedHolds(holds, d), releases + NewReleases(holds, d))
  {
    NewReleasesAre(holds, d);
    ReleasedEach(holds, d);
    hide ReleasesMatch, NamesActive, NewReleases, ReleasedHolds, EntryTotal, ReleasedTotal;
    JoinReleases(holds, releases, ReleasedHolds(holds, d), NewReleases(holds, d), d);
    forall x ensures EntryTotal(releases + NewReleases(holds, d), x) == ReleasedTotal(ReleasedHolds(holds, d), x) {
      EntryConcat(releases, NewReleases(holds, d), x);
      CountReleased(holds, d, x);
    }
  }

  lemma JoinReleases(holds: seq<Hold>, releases: seq<Release>, hs: seq<Hold>, rs: seq<Release>, d: string)
    requires ReleasesMatch(holds, releases)
    requires |hs| == |holds| && forall i :: 0 <= i < |hs| ==>
      hs[i] == if holds[i].dispute == d then holds[i].(status := Released) else holds[i]
    requires NamesActive(holds, rs, d)
    ensures ReleasesMatch(hs, releases + rs)
  {
    hide Named;
    var all, m := releases + rs, |releases|;
    forall j | 0 <= j < |all|
      ensures all[j].hold < |hs| && hs[all[j].hold].status == Released &&
        hs[all[j].hold].dispute == all[j].dispute && hs[all[j].hold].amount == all[j].amount
    {
      assert all[j] == if j < m then releases[j] else rs[j - m];
    }
    forall i, j | 0 <= i < j < |all| ensures all[i].hold != all[j].hold {
      assert all[i] == if i < m then releases[i] else rs[i - m];
      assert all[j] == if j < m then releases[j] else rs[j - m];
    }
    forall i | 0 <= i < |hs| && hs[i].status == Released ensures Named(all, i) {
      NamedLeft(releases, rs, i);
    }
  }

  lemma HoldKeepsReleases(holds: seq<Hold>, releases: seq<Release>, h: Hold)
    requires ReleasesMatch(holds, releases) && TotalsMatch(holds, releases) && h.status == Active
    ensures ReleasesMatch(holds + [h], releases) && TotalsMatch(holds + [h], releases)
  {
    forall x ensures EntryTotal(releases, x) == ReleasedTotal(holds + [h], x) { CountLast(holds, h, x); }
  }
}
