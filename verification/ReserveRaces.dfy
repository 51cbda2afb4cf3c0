/**
 * One merchant's reserve under overlapping transactions: each reads the stored amount and later commits
 * what it read plus its share, under an isolation level that lets others commit in between.
 */
module ReserveRaces {

  /** Transaction `tx` reads the reserve, or commits the amount it read plus `share`. */
  datatype Access = Read(tx: nat) | Write(tx: nat, share: nat)

  datatype Stored = Stored(reserve: int, seen: map<nat, int>)

  /** The access commits an update: its transaction has read and not yet written. */
  predicate Updates(s: Stored, a: Access) { a.Write? && a.tx in s.seen }

  function Next(s: Stored, a: Access): Stored {
    if a.Read? then s.(seen := s.seen[a.tx := s.reserve])
    else if Updates(s, a) then Stored(s.seen[a.tx] + a.share, s.seen - {a.tx})
    else s
  }

  function After(run: seq<Access>): Stored {
    if run == [] then Stored(0, map[]) else Next(After(run[..|run| - 1]), run[|run| - 1])
  }

  /** The shares of all committed updates. */
  function Shares(run: seq<Access>): nat {
    if run == [] then 0 else
    var n := |run| - 1;
    Shares(run[..n]) + if Updates(After(run[..n]), run[n]) then run[n].share else 0
  }

  /** No update was committed since `tx` last read. */
  predicate Fresh(run: seq<Access>, tx: nat) {
    run != [] &&
    var n := |run| - 1;
    run[n] == Read(tx) || (!Updates(After(run[..n]), run[n]) && Fresh(run[..n], tx))
  }

  /** The `k`-th access, if it commits an update, was not overtaken by another since its read. */
  predicate NotOvertaken(run: seq<Access>, k: int)
    requires 0 <= k < |run|
  {
    Updates(After(run[..k]), run[k]) ==> Fresh(run[..k], run[k].tx)
  }

  predicate NoneOvertaken(run: seq<Access>) { forall k :: 0 <= k < |run| ==> NotOvertaken(run, k) }

  predicate SharesPositive(run: seq<Access>) { forall k :: 0 <= k < |run| && run[k].Write? ==> run[k].share > 0 }

  lemma LastAccess(run: seq<Access>)
    requires run != []
    ensures var n := |run| - 1; NoneOvertaken(run) <==> NoneOvertaken(run[..n]) && NotOvertaken(run, n)
  {
    hide After, Fresh;
    var n := |run| - 1;
    forall k | 0 <= k < n ensures NotOvertaken(run[..n], k) <==> NotOvertaken(run, k) {
      assert run[..n][..k] == run[..k] && run[..n][k] == run[k];
    }
  }

  /** What is stored, and what each open transaction has seen, never exceeds the committed shares. */
  lemma {:induction false} NeverAboveShares(run: seq<Access>)
    ensures After(run).reserve <= Shares(run)
    ensures forall tx :: tx in After(run).seen ==> After(run).seen[tx] <= Shares(run)
    decreases |run|
  {
    if run != [] { NeverAboveShares(run[..|run| - 1]); }
  }

  /** With positive shares, the reserve is their sum exactly when no committed update was overtaken. */
  lemma {:induction false} ReserveIsSharesIff(run: seq<Access>)
    requires SharesPositive(run)
    ensures After(run).reserve == Shares(run) <==> NoneOvertaken(run)
    ensures forall tx :: tx in After(run).seen ==>
      (After(run).seen[tx] == Shares(run) <==> NoneOvertaken(run) && Fresh(run, tx))
    decreases |run|
  {
    if run != [] {
      var n := |run| - 1;
      ReserveIsSharesIff(run[..n]);
      NeverAboveShares(run[..n]);
      LastAccess(run);
      hide NoneOvertaken;
    }
  }

  /** Two overlapping updates store only one of two shares. */
  lemma OverlapLosesShare(x: nat, y: nat)
    ensures After([Read(0), Read(1), Write(0, x), Write(1, y)]).reserve == y
    ensures Shares([Read(0), Read(1), Write(0, x), Write(1, y)]) == x + y
  {
    var run := [Read(0), Read(1), Write(0, x), Write(1, y)];
    assert run[..3] == [Read(0), Read(1), Write(0, x)] && run[..3][..2] == [Read(0), Read(1)];
    assert run[..3][..2][..1] == [Read(0)] && run[..3][..2][..1][..0] == [];
    assert After([Read(0)]) == Stored(0, map[0 := 0]);
    assert After([Read(0), Read(1)]) == Stored(0, map[0 := 0, 1 := 0]);
    assert After(run[..3]) == Stored(x, map[1 := 0]);
    assert Shares(run[..3]) == Shares([Read(0), Read(1)]) + x && Shares([Read(0), Read(1)]) == 0;
    assert run[3] == Write(1, y);
  }
}
