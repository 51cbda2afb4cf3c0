/** Merchants' fraud reserves: what every run adds to them, and when the percentage bounds them. */
module Reserves {
  import opened Prelude
  import opened Transitions
  import opened Holds
  import opened DisputeFunds
  import DisputeCalls

  ghost function DisputesOf(f: Funds, m: string): set<string> {
    set d | d in f.info && f.info[d].merchant == m
  }

  /** What one update adds to a reserve: the percentage of the amount, rounded half up to a unit. */
  function Share(pct: int, amount: int): int { (amount * pct + 5000) / 10000 }

  /** The share is not rounded up. */
  predicate RoundsDown(pct: int, amount: int) { amount * pct % 10000 < 5000 }

  /** The column is whole before each update, so only the share itself is rounded: exact when it is whole. */
  lemma ShareRounds(pct: int, reserve: int, amount: int)
    ensures RoundedReserve(reserve, amount, pct) == reserve + Share(pct, amount)
    ensures Abs(10000 * Share(pct, amount) - amount * pct) <= 5000
    ensures 10000 * Share(pct, amount) == amount * pct <==> amount * pct % 10000 == 0
    ensures 10000 * Share(pct, amount) <= amount * pct <==> RoundsDown(pct, amount)
  {
    RoundWhole(reserve, amount * pct);
  }

  lemma RoundWhole(reserve: int, n: int)
    ensures (10000 * reserve + n + 5000) / 10000 == reserve + (n + 5000) / 10000
    ensures Abs(10000 * ((n + 5000) / 10000) - n) <= 5000
    ensures 10000 * ((n + 5000) / 10000) == n <==> n % 10000 == 0
    ensures 10000 * ((n + 5000) / 10000) <= n <==> n % 10000 < 5000
  {}

  ghost function SharesBy(pct: int, f: Funds): string -> int {
    d => if d in f.info then Share(pct, f.info[d].amount) * HoldCount(f.holds, d) else 0
  }

  /** The reserve is one share for every hold of the merchant's disputes. */
  ghost predicate ReserveInv(pct: int, f: Funds, m: string) {
    ReserveOf(f, m) == SumOver(DisputesOf(f, m), SharesBy(pct, f))
  }

  lemma SameSums(pct: int, f: Funds, g: Funds, m: string)
    requires ReserveInv(pct, f, m) && g.reserves == f.reserves && g.info == f.info
    requires forall d :: HoldCount(g.holds, d) == HoldCount(f.holds, d)
    ensures ReserveInv(pct, g, m)
  {
    hide HoldCount, Share;
    SumSame(DisputesOf(f, m), SharesBy(pct, f), SharesBy(pct, g));
  }

  lemma NewDisputeSums(pct: int, f: Funds, g: Funds, d: string, m: string)
    requires ReserveInv(pct, f, m) && g.reserves == f.reserves && g.holds == f.holds
    requires d !in f.info && d in g.info && g.info == f.info[d := g.info[d]] && HoldCount(f.holds, d) == 0
    ensures ReserveInv(pct, g, m)
  {
    hide HoldCount, Share;
    var xs, ys := DisputesOf(f, m), DisputesOf(g, m);
    if g.info[d].merchant == m {
      assert ys == xs + {d} && ys - {d} == xs;
      SumTakeOut(ys, d, SharesBy(pct, g));
    } else {
      assert ys == xs;
    }
    SumSame(xs, SharesBy(pct, f), SharesBy(pct, g));
  }

  lemma NewHoldSums(pct: int, f: Funds, d: string, m: string)
    requires ReserveInv(pct, f, m) && d in f.info
    ensures ReserveInv(pct, WithHold(f, d, pct), m)
  {
    var g, i := WithHold(f, d, pct), f.info[d];
    forall x ensures HoldCount(g.holds, x) == HoldCount(f.holds, x) + One(x == d) {
      CountLast(f.holds, HoldFor(d, i), x);
    }
    hide HoldCount, WithHold, ReleasedTotal, RoundedReserve, Share;
    var ds := DisputesOf(f, m);
    WithHoldFields(pct, f, d);
    assert g.info == f.info && DisputesOf(g, m) == ds;
    if i.merchant == m {
      SumChange(ds, d, SharesBy(pct, f), SharesBy(pct, g));
      ShareRounds(pct, ReserveOf(f, m), i.amount);
      OneMore(Share(pct, i.amount), HoldCount(f.holds, d));
    } else {
      SumSame(ds, SharesBy(pct, f), SharesBy(pct, g));
    }
  }

  lemma OneMore(x: int, n: int)
    ensures x * (n + 1) == x * n + x
  {}

  lemma WithHoldFields(pct: int, f: Funds, d: string)
    requires d in f.info
    ensures WithHold(f, d, pct).info == f.info
    ensures forall m :: ReserveOf(WithHold(f, d, pct), m) ==
                        if m == f.info[d].merchant then RoundedReserve(ReserveOf(f, m), f.info[d].amount, pct)
                        else ReserveOf(f, m)
  {
    hide RoundedReserve;
  }

  lemma StepKeepsReserves(pct: int, f: Funds, e: Event, m: string)
    requires Inv(f) && ReserveInv(pct, f, m)
    ensures ReserveInv(pct, DisputeFunds.Step(pct, f, e), m)
  {
    hide ReserveInv, Inv, HoldCount, MayExtend, WithHold, Reversal, Inserted;
    match e
    case StartCreate(d, info) =>
      if Takes(f, e) {
        UnknownUnheld(f, d);
        NewDisputeSums(pct, f, DisputeFunds.Step(pct, f, e), d, m);
      }
    case Commit(d, k) =>
      if (d, k) in f.open && d in f.info { CommitKeepsReserves(pct, f, d, k, m); }
    case _ => SameSums(pct, f, DisputeFunds.Step(pct, f, e), m);
  }

  lemma CommitKeepsReserves(pct: int, f: Funds, d: string, k: Kind, m: string)
    requires ReserveInv(pct, f, m) && (d, k) in f.open && d in f.info
    ensures ReserveInv(pct, DisputeFunds.Step(pct, f, Commit(d, k)), m)
  {
    hide ReserveInv, HoldCount, RoundedReserve, ReleasedHolds, NewReleases;
    var g := DisputeFunds.Step(pct, f, Commit(d, k));
    if k == ReverseTx {
      forall x ensures HoldCount(g.holds, x) == HoldCount(f.holds, x) { CountReleased(f.holds, d, x); }
      SameSums(pct, f, g, m);
    } else {
      NewHoldSums(pct, f, d, m);
      SameSums(pct, WithHold(f, d, pct), g, m);
    }
  }

  lemma UnknownUnheld(f: Funds, d: string)
    requires Inv(f)
    ensures MayExtend(StatesOf(f, d), Pending) ==> d !in f.info && HoldCount(f.holds, d) == 0
  {
    hide ReleasesMatch, TotalsMatch, HoldCount;
    assert DisputeInv(f, d);
    TablesAgree(Latest(StatesOf(f, d)), Pending);
  }

  lemma {:induction false} RunsKeepReserves(pct: int, es: seq<Event>, m: string)
    ensures ReserveInv(pct, DisputeFunds.After(pct, es), m)
    decreases |es|
  {
    hide Inv, DisputeFunds.Step, ReserveInv;
    if es == [] {
      NoReserves(pct, m);
    } else {
      RunsKeepInv(pct, es[..|es| - 1]);
      RunsKeepReserves(pct, es[..|es| - 1], m);
      StepKeepsReserves(pct, DisputeFunds.After(pct, es[..|es| - 1]), es[|es| - 1], m);
    }
  }

  lemma NoReserves(pct: int, m: string)
    ensures ReserveInv(pct, NO_FUNDS, m)
  {
    assert DisputesOf(NO_FUNDS, m) == {};
  }

  // ---------------------------------------------------------------- the bound

  /** How often a dispute raises its merchant's reserve: once, and once for each AUTHORIZED row. */
  function Raises(f: Funds, d: string): nat { 1 + Times(StatesOf(f, d), Authorized) }

  /** The most a dispute adds to its merchant's reserve. */
  ghost function ExposureBy(pct: int, f: Funds): string -> int {
    d => if d in f.info then Share(pct, f.info[d].amount) * Raises(f, d) else 0
  }

  /** The amounts behind it. */
  ghost function AmountsBy(f: Funds): string -> int {
    d => if d in f.info then f.info[d].amount * Raises(f, d) else 0
  }

  /** No funds transaction that holds money is open or was rolled back. */
  predicate AllHeld(f: Funds, ds: set<string>) {
    forall d :: d in ds ==> Unfinished(f, d, CreateTx) == Unfinished(f, d, AuthorizeTx) == 0
  }

  /**
   * In every run, wherever rows land, a merchant's reserve is at most the sum over its disputes of one
   * share, and one more for each AUTHORIZED row; and exactly that sum when all their funds transactions
   * committed.
   */
  lemma ReserveBound(pct: nat, es: seq<Event>, m: string)
    ensures var f := DisputeFunds.After(pct, es); var ds := DisputesOf(f, m);
      && ReserveOf(f, m) <= SumOver(ds, ExposureBy(pct, f))
      && (AllHeld(f, ds) ==> ReserveOf(f, m) == SumOver(ds, ExposureBy(pct, f)))
  {
    var f := DisputeFunds.After(pct, es);
    var ds := DisputesOf(f, m);
    RunsKeepReserves(pct, es, m);
    CountsAtMost(pct, es, m);
    hide *;
    ReserveInvDef(pct, f, m);
    SumMonotone(ds, SharesBy(pct, f), ExposureBy(pct, f));
    if AllHeld(f, ds) { SumSame(ds, SharesBy(pct, f), ExposureBy(pct, f)); }
  }

  lemma ReserveInvDef(pct: int, f: Funds, m: string)
    ensures ReserveInv(pct, f, m) ==> ReserveOf(f, m) == SumOver(DisputesOf(f, m), SharesBy(pct, f))
  {}

  lemma Scale(k: nat, x: int, y: int)
    requires x <= y
    ensures k * x <= k * y
  {}

  lemma CountsAtMost(pct: nat, es: seq<Event>, m: string)
    ensures var f := DisputeFunds.After(pct, es); var ds := DisputesOf(f, m);
      && (forall d :: d in ds ==> SharesBy(pct, f)(d) <= ExposureBy(pct, f)(d))
      && (AllHeld(f, ds) ==> forall d :: d in ds ==> SharesBy(pct, f)(d) == ExposureBy(pct, f)(d))
  {
    hide HoldCount, DisputeFunds.After, Unfinished, Raises;
    var f := DisputeFunds.After(pct, es);
    forall d | d in DisputesOf(f, m)
      ensures SharesBy(pct, f)(d) <= ExposureBy(pct, f)(d)
      ensures Unfinished(f, d, CreateTx) == Unfinished(f, d, AuthorizeTx) == 0 ==>
        SharesBy(pct, f)(d) == ExposureBy(pct, f)(d)
    {
      CountOf(pct, es, d);
      Scale(Share(pct, f.info[d].amount), HoldCount(f.holds, d), Raises(f, d));
    }
  }

  lemma CountOf(pct: nat, es: seq<Event>, d: string)
    requires d in DisputeFunds.After(pct, es).info
    ensures var f := DisputeFunds.After(pct, es);
      && f.info[d].amount > 0
      && HoldCount(f.holds, d) <= Raises(f, d)
      && (Unfinished(f, d, CreateTx) == Unfinished(f, d, AuthorizeTx) == 0 ==> HoldCount(f.holds, d) == Raises(f, d))
  {
    hide DisputeFunds.After, HoldCount, ReleasesMatch, TotalsMatch;
    RunsKeepInv(pct, es);
    assert DisputeInv(DisputeFunds.After(pct, es), d);
  }

  /** Where a dispute's authorizations land last, it raises the reserve at most twice. */
  lemma RaisesInOrder(pct: int, es: seq<Event>, d: string)
    requires forall k :: 0 <= k < |es| ==> AuthorizesLast(pct, es, k, d)
    ensures var f := DisputeFunds.After(pct, es); Raises(f, d) == 1 + One(Authorized in StatesOf(f, d))
  {
    hide DisputeFunds.After, AuthorizesLast;
    AuthorizedAtMostOnce(pct, es, d, |es|);
    assert es[..|es|] == es;
  }

  // ---------------------------------------------------------------- the plain percentage

  /** The reserve is at most the percentage of the amounts. */
  ghost predicate WithinPercentage(pct: int, f: Funds, m: string) {
    10000 * ReserveOf(f, m) <= pct * SumOver(DisputesOf(f, m), AmountsBy(f))
  }

  predicate AmountsAre(f: Funds, m: string, ok: int -> bool) {
    forall d :: d in f.info && f.info[d].merchant == m ==> ok(f.info[d].amount)
  }

  lemma ScaledShare(share: int, amount: int, pct: int, n: nat)
    ensures 10000 * share <= amount * pct ==> 10000 * (share * n) <= pct * (amount * n)
    ensures 10000 * share == amount * pct ==> 10000 * (share * n) == pct * (amount * n)
  {
    assert 10000 * (share * n) == (10000 * share) * n;
    assert pct * (amount * n) == (amount * pct) * n;
    if 10000 * share <= amount * pct { Scale(n, 10000 * share, amount * pct); }
  }

  lemma {:induction false} SumScaled(s: set<string>, f: string -> int, x: int, g: string -> int, y: int)
    requires forall d :: d in s ==> x * f(d) <= y * g(d)
    ensures x * SumOver(s, f) <= y * SumOver(s, g)
    decreases |s|
  {
    if s != {} {
      var d :| d in s;
      SumTakeOut(s, d, f);
      SumTakeOut(s, d, g);
      SumScaled(s - {d}, f, x, g, y);
      assert x * (f(d) + SumOver(s - {d}, f)) == x * f(d) + x * SumOver(s - {d}, f);
      assert y * (g(d) + SumOver(s - {d}, g)) == y * g(d) + y * SumOver(s - {d}, g);
    }
  }

  lemma ExposureScaled(pct: int, f: Funds, d: string)
    requires d in f.info
    ensures var e, g := 10000 * ExposureBy(pct, f)(d), pct * AmountsBy(f)(d);
      && (RoundsDown(pct, f.info[d].amount) ==> e <= g)
      && (f.info[d].amount * pct % 10000 == 0 ==> e == g)
  {
    hide Share, Raises, RoundsDown;
    ShareRounds(pct, 0, f.info[d].amount);
    ScaledShare(Share(pct, f.info[d].amount), f.info[d].amount, pct, Raises(f, d));
  }

  /** Where no share rounds up the percentage bounds the reserve; where shares are whole it can be reached. */
  lemma ReserveIsPercentage(pct: nat, es: seq<Event>, m: string)
    ensures var f := DisputeFunds.After(pct, es); var ds := DisputesOf(f, m);
      && (AmountsAre(f, m, a => RoundsDown(pct, a)) ==> WithinPercentage(pct, f, m))
      && (AmountsAre(f, m, a => a * pct % 10000 == 0) && AllHeld(f, ds) ==>
            10000 * ReserveOf(f, m) == pct * SumOver(ds, AmountsBy(f)))
  {
    hide DisputeFunds.After, AllHeld, RoundsDown, ExposureBy, AmountsBy, SumOver, ReserveOf;
    var f := DisputeFunds.After(pct, es);
    var ds := DisputesOf(f, m);
    var e, g := ExposureBy(pct, f), AmountsBy(f);
    ReserveBound(pct, es, m);
    if AmountsAre(f, m, a => RoundsDown(pct, a)) {
      forall d | d in ds ensures 10000 * e(d) <= pct * g(d) { ExposureScaled(pct, f, d); }
      SumScaled(ds, e, 10000, g, pct);
    }
    if AmountsAre(f, m, a => a * pct % 10000 == 0) {
      forall d | d in ds ensures 10000 * e(d) == pct * g(d) { ExposureScaled(pct, f, d); }
      SumScaled(ds, e, 10000, g, pct);
      SumScaled(ds, g, pct, e, 10000);
    }
  }

  /** One dispute whose share rounds up is enough to lift the reserve above the percentage. */
  lemma RoundingExceedsPercentage(pct: nat, a: int)
    requires a > 0 && !RoundsDown(pct, a)
    ensures var f := DisputeFunds.After(pct, [StartCreate("d", Info("m", "a", "je", a, a, 0)), Commit("d", CreateTx)]);
      DisputesOf(f, "m") == {"d"} && f.info["d"].amount == a && !WithinPercentage(pct, f, "m")
  {
    hide DisputeFunds.Step, Share, RoundsDown;
    var i := Info("m", "a", "je", a, a, 0);
    var es := [StartCreate("d", i), Commit("d", CreateTx)];
    var f := DisputeFunds.After(pct, es);
    AfterNth(pct, es, 0);
    AfterNth(pct, es, 1);
    assert es[..0] == [] && es[..2] == es;
    DisputeCalls.CreatedFunds(pct, i);
    assert DisputesOf(f, "m") == {"d"};
    ShareRounds(pct, 0, a);
    assert AmountsBy(f)("d") == a by { RaisedOnce(f); }
    SumTakeOut({"d"}, "d", AmountsBy(f));
    assert {"d"} - {"d"} == {};
    assert SumOver({}, AmountsBy(f)) == 0;
    assert a * pct == pct * a;
  }

  lemma RaisedOnce(f: Funds)
    requires f.states == map["d" := [Pending]]
    ensures Raises(f, "d") == 1
  {}

  /**
   * The percentage bounds every merchant's reserve in every run with amounts of a kind exactly when no
   * amount of that kind has a share that rounds up.
   */
  lemma PercentageBoundIff(pct: nat, ok: int -> bool)
    ensures
      (forall es, m :: AmountsAre(DisputeFunds.After(pct, es), m, ok) ==>
         WithinPercentage(pct, DisputeFunds.After(pct, es), m))
      <==> (forall a :: a > 0 && ok(a) ==> RoundsDown(pct, a))
  {
    hide DisputeFunds.After, WithinPercentage, RoundsDown, Inv;
    if forall a :: a > 0 && ok(a) ==> RoundsDown(pct, a) {
      forall es, m | AmountsAre(DisputeFunds.After(pct, es), m, ok)
        ensures WithinPercentage(pct, DisputeFunds.After(pct, es), m)
      {
        AmountsPositive(pct, es);
        ReserveIsPercentage(pct, es, m);
      }
    } else {
      var a :| a > 0 && ok(a) && !RoundsDown(pct, a);
      RoundingExceedsPercentage(pct, a);
      var es := [StartCreate("d", Info("m", "a", "je", a, a, 0)), Commit("d", CreateTx)];
      var f := DisputeFunds.After(pct, es);
      forall d | d in f.info && f.info[d].merchant == "m" ensures ok(f.info[d].amount) {
        assert d in DisputesOf(f, "m");
      }
      assert AmountsAre(f, "m", ok) && !WithinPercentage(pct, f, "m");
    }
  }

  lemma AmountsPositive(pct: int, es: seq<Event>)
    ensures forall d :: d in DisputeFunds.After(pct, es).info ==> DisputeFunds.After(pct, es).info[d].amount > 0
  {
    hide DisputeFunds.After, ReleasesMatch, TotalsMatch, HoldCount;
    RunsKeepInv(pct, es);
    var f := DisputeFunds.After(pct, es);
    forall d | d in f.info ensures f.info[d].amount > 0 { assert DisputeInv(f, d); }
  }
}
