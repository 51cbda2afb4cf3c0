/**
 * What happens to holds when transitions land last in their histories, in any interleaving and for
 * whole service calls one after another; and runs in which a hold is stranded or made too often.
 */
module DisputeCalls {
  import opened Prelude
  import opened Transitions
  import opened Holds
  import opened DisputeFunds

  type State = seq<DisputeState>

  /** The nine state sequences that transitions landing last can produce. */
  predicate Path(s: State) {
    || s == [] || s == [Pending] || s == [Pending, Authorized]
    || s == [Pending, Authorized, Settled] || s == [Pending, Authorized, Settled, Disputed]
    || s == [Pending, Reversed] || s == [Pending, Authorized, Reversed]
    || s == [Pending, Authorized, Settled, Reversed] || s == [Pending, Authorized, Settled, Disputed, Reversed]
  }

  lemma ExtendKeepsPath(s: State, to: DisputeState)
    requires Path(s) && MayExtend(s, to)
    ensures Path(s + [to]) && to !in s && Reversed !in s
    ensures to == Authorized ==> s == [Pending]
  {
    TablesAgree(Latest(s), to);
  }

  lemma PathTimes(s: State)
    requires Path(s)
    ensures forall x :: Times(s, x) == One(x in s)
    ensures Reversed in s ==> Latest(s) == Reversed && s != []
  {}

  /** A transition that is recorded lands last. */
  predicate LandsAtEnd(f: Funds, e: Event) {
    e.Start? && Takes(f, e) ==> e.p >= |StatesOf(f, e.d)|
  }

  predicate InOrder(pct: int, es: seq<Event>) {
    forall k :: 0 <= k < |es| ==> LandsAtEnd(DisputeFunds.After(pct, es[..k]), es[k])
  }

  ghost predicate AllPaths(f: Funds) { forall d :: Path(StatesOf(f, d)) }

  lemma StatesAfter(pct: int, f: Funds, e: Event, d: string)
    ensures StatesOf(DisputeFunds.Step(pct, f, e), d) ==
      if Takes(f, e) && e.d == d
      then Inserted(StatesOf(f, d), if e.Start? then e.p else 0, if e.Start? then e.to else Pending)
      else StatesOf(f, d)
  {
    hide RoundedReserve, ReleasedHolds, NewReleases, MayExtend, Inserted;
  }

  lemma StepKeepsPaths(pct: int, f: Funds, e: Event)
    requires AllPaths(f) && LandsAtEnd(f, e)
    ensures AllPaths(DisputeFunds.Step(pct, f, e))
  {
    hide DisputeFunds.Step, Path;
    forall d ensures Path(StatesOf(DisputeFunds.Step(pct, f, e), d)) {
      assert Path(StatesOf(f, d));
      StatesAfter(pct, f, e, d);
      if Takes(f, e) && e.d == d { ExtendKeepsPath(StatesOf(f, d), if e.Start? then e.to else Pending); }
      NoStates();
    }
  }

  lemma NoStates()
    ensures forall s: State, to :: MayExtend(s, Pending) ==> Inserted(s, 0, to) == s + [to]
  {
    forall s: State, to | MayExtend(s, Pending) ensures Inserted(s, 0, to) == s + [to] {
      TablesAgree(Latest(s), Pending);
    }
  }

  lemma {:induction false} PathsInOrder(pct: int, es: seq<Event>)
    requires InOrder(pct, es)
    ensures AllPaths(DisputeFunds.After(pct, es))
    decreases |es|
  {
    hide DisputeFunds.Step, LandsAtEnd, AllPaths;
    if es == [] {
      assert AllPaths(NO_FUNDS) by { NoPaths(); }
    } else {
      var n := |es| - 1;
      InOrderPrefix(pct, es, n);
      PathsInOrder(pct, es[..n]);
      StepKeepsPaths(pct, DisputeFunds.After(pct, es[..n]), es[n]);
    }
  }

  lemma NoPaths()
    ensures AllPaths(NO_FUNDS)
  {}

  // ---------------------------------------------------------------- reversed disputes, any interleaving

  function ReleaseCount(pct: int, es: seq<Event>, d: string): nat {
    if es == [] then 0 else
    ReleaseCount(pct, es[..|es| - 1], d) + One(ReleaseMade(pct, es, |es| - 1, d))
  }

  lemma ReverseStep(pct: int, f: Funds, e: Event, d: string)
    ensures var g := DisputeFunds.Step(pct, f, e);
      && var made := e == Commit(d, ReverseTx) && (d, ReverseTx) in f.open && d in f.info;
      Unfinished(g, d, ReverseTx) + One(made) - Unfinished(f, d, ReverseTx)
      == Times(StatesOf(g, d), Reversed) - Times(StatesOf(f, d), Reversed)
  {
    hide DisputeFunds.Step, MayExtend, Inserted, Times, Unfinished;
    StatesAfter(pct, f, e, d);
    UnfinishedAfter(pct, f, e, d);
    if Takes(f, e) && e.d == d {
      TimesInserted(StatesOf(f, d), if e.Start? then e.p else 0, if e.Start? then e.to else Pending);
    }
  }

  lemma UnfinishedAfter(pct: int, f: Funds, e: Event, d: string)
    ensures var g := DisputeFunds.Step(pct, f, e);
      Unfinished(g, d, ReverseTx) == Unfinished(f, d, ReverseTx)
        + One(Takes(f, e) && e.d == d && e.Start? && e.to == Reversed)
        - One(e == Commit(d, ReverseTx) && (d, ReverseTx) in f.open && d in f.info)
  {
    hide WithHold, Reversal, MayExtend, Inserted, Times;
    if Takes(f, e) { OpensFunds(f, e.d, if e.Start? then e.to else Pending, if e.Start? then e.p else 0, d); }
    if e.Commit? && (e.d, e.kind) in f.open && e.d in f.info { CommitFields(pct, f, e.d, e.kind); }
  }

  /** Every REVERSED row has its release, unless the transaction that should run it is unfinished. */
  lemma {:induction false} ReleaseAccount(pct: int, es: seq<Event>, d: string)
    ensures var f := DisputeFunds.After(pct, es);
      ReleaseCount(pct, es, d) + Unfinished(f, d, ReverseTx) == Times(StatesOf(f, d), Reversed)
    decreases |es|
  {
    hide DisputeFunds.Step, ReleaseMade, Unfinished, Times;
    if es == [] {
      NothingReversed(pct, d);
    } else {
      ReleaseAccount(pct, es[..|es| - 1], d);
      ReverseStep(pct, DisputeFunds.After(pct, es[..|es| - 1]), es[|es| - 1], d);
      LastMade(pct, es, d);
    }
  }

  lemma NothingReversed(pct: int, d: string)
    ensures Unfinished(NO_FUNDS, d, ReverseTx) == Times(StatesOf(NO_FUNDS, d), Reversed) == 0
  {}

  lemma {:induction false} CountedReleases(pct: int, es: seq<Event>, d: string)
    ensures ReleaseCount(pct, es, d) > 0 ==> exists k :: ReleaseMade(pct, es, k, d)
    ensures forall k :: ReleaseMade(pct, es, k, d) ==> ReleaseCount(pct, es, d) > 0
    ensures ReleaseCount(pct, es, d) <= 1 ==>
      forall i, j :: ReleaseMade(pct, es, i, d) && ReleaseMade(pct, es, j, d) ==> i == j
    decreases |es|
  {
    if es != [] {
      var n := |es| - 1;
      CountedReleases(pct, es[..n], d);
      SameEarlier(pct, es, d);
      forall k ensures ReleaseMade(pct, es, k, d) ==> k == n || ReleaseMade(pct, es[..n], k, d) {
        InRange(pct, es, k, d);
      }
      if ReleaseCount(pct, es[..n], d) > 0 {
        var k :| ReleaseMade(pct, es[..n], k, d);
        InRange(pct, es[..n], k, d);
        assert ReleaseMade(pct, es, k, d);
      }
    } else {
      forall k ensures !ReleaseMade(pct, es, k, d) { InRange(pct, es, k, d); }
    }
  }

  /** A hold of `d` is committed after a release of `d`. */
  ghost predicate HeldAfterRelease(pct: int, es: seq<Event>, d: string) {
    exists i, j :: i < j && ReleaseMade(pct, es, i, d) && HoldMade(pct, es, j, d)
  }

  lemma UncommittedIsShort(f: Funds, d: string)
    requires Inv(f)
    ensures Unfinished(f, d, CreateTx) > 0 ==> Times(StatesOf(f, d), Reversed) == 0
  {
    hide ReleasesMatch, TotalsMatch, HoldCount;
    ShortHistories();
    assert DisputeInv(f, d);
  }

  lemma ShortHistories()
    ensures forall s: State :: |s| <= 1 ==> Times(s, Pending) + Times(s, Reversed) <= 1
  {
    forall s: State | |s| <= 1 ensures Times(s, Pending) + Times(s, Reversed) <= 1 {
      if |s| == 1 { assert s == [s[0]]; }
    }
  }

  /** Such a hold is an authorization's: a dispute is created before it can be reversed. */
  lemma CreateComesFirst(pct: int, es: seq<Event>, i: int, j: int, d: string)
    requires i < j && ReleaseMade(pct, es, i, d) && HoldMade(pct, es, j, d)
    ensures es[j] == Commit(d, AuthorizeTx)
  {
    if es[j].kind == CreateTx {
      var pre := es[..j];
      var f := DisputeFunds.After(pct, pre);
      var s := StatesOf(f, d);
      RunsKeepInv(pct, pre);
      ReleaseAccount(pct, pre, d);
      hide Inv;
      hide DisputeFunds.After, Times;
      assert pre[..i] == es[..i] && pre[i] == es[i];
      assert ReleaseMade(pct, pre, i, d);
      CountedReleases(pct, pre, d);
      UncommittedIsShort(f, d);
      assert false;
    }
  }

  /** What an in-order run that reversed `d` says about its releases. */
  lemma ReleasesOfReversed(pct: int, es: seq<Event>, d: string)
    requires InOrder(pct, es) && Reversed in StatesOf(DisputeFunds.After(pct, es), d)
    ensures var f := DisputeFunds.After(pct, es);
      var waiting := (d, ReverseTx) in f.open || (d, ReverseTx) in f.aborted;
      && (waiting ==> forall k :: !ReleaseMade(pct, es, k, d))
      && (!waiting ==> exists k :: ReleaseMade(pct, es, k, d))
      && (forall i, j :: ReleaseMade(pct, es, i, d) && ReleaseMade(pct, es, j, d) ==> i == j)
  {
    var f := DisputeFunds.After(pct, es);
    PathsInOrder(pct, es);
    assert Path(StatesOf(f, d));
    PathTimes(StatesOf(f, d));
    hide Path, Times, ReleaseMade, DisputeFunds.After, InOrder, ReleaseCount;
    ReleaseAccount(pct, es, d);
    CountedReleases(pct, es, d);
  }

  /**
   * While transitions land last, a REVERSED dispute has an ACTIVE hold exactly when its release is still
   * open or was rolled back, or a hold was committed after the release.
   */
  lemma ReversedHoldsActiveIff(pct: int, es: seq<Event>, d: string)
    requires InOrder(pct, es) && Reversed in StatesOf(DisputeFunds.After(pct, es), d)
    ensures var f := DisputeFunds.After(pct, es);
      HasActive(f.holds, d) <==>
        (d, ReverseTx) in f.open || (d, ReverseTx) in f.aborted || HeldAfterRelease(pct, es, d)
  {
    hide HoldMade, ReleaseMade, HasActive, DisputeFunds.After, InOrder;
    ReleasesOfReversed(pct, es, d);
    ActiveIff(pct, es, d);
    if HeldAfterRelease(pct, es, d) {
      var i, j :| i < j && ReleaseMade(pct, es, i, d) && HoldMade(pct, es, j, d);
      assert StandingHold(pct, es, j, d);
    } else if exists k :: ReleaseMade(pct, es, k, d) {
      var i :| ReleaseMade(pct, es, i, d);
      InRange(pct, es, i, d);
      NotBoth(pct, es, i, d);
      assert forall k :: !StandingHold(pct, es, k, d);
    } else {
      var k := FirstHold(pct, es, d);
      assert StandingHold(pct, es, k, d);
    }
  }

  lemma {:induction false} HoldsAreMade(pct: int, es: seq<Event>, d: string) returns (k: int)
    requires HoldCount(DisputeFunds.After(pct, es).holds, d) > 0
    ensures HoldMade(pct, es, k, d)
    decreases |es|
  {
    hide DisputeFunds.Step, HoldMade;
    assert es != [] by { NoHolds(d); }
    var n := |es| - 1;
    var f := DisputeFunds.After(pct, es[..n]);
    HoldCountStep(pct, f, es[n], d);
    LastMade(pct, es, d);
    SameEarlier(pct, es, d);
    if HoldMade(pct, es, n, d) {
      k := n;
    } else {
      k := HoldsAreMade(pct, es[..n], d);
      InRange(pct, es[..n], k, d);
    }
  }

  lemma NoHolds(d: string)
    ensures HoldCount(NO_FUNDS.holds, d) == 0
  {}

  lemma HoldCountStep(pct: int, f: Funds, e: Event, d: string)
    ensures HoldCount(DisputeFunds.Step(pct, f, e).holds, d) == HoldCount(f.holds, d) +
      One(e.Commit? && e.d == d && e.kind != ReverseTx && (d, e.kind) in f.open && d in f.info)
  {
    hide HoldCount, RoundedReserve, ReleasedHolds, NewReleases, MayExtend, Inserted;
    if e.Commit? && (e.d, e.kind) in f.open && e.d in f.info {
      if e.kind == ReverseTx {
        CountReleased(f.holds, e.d, d);
      } else {
        CountLast(f.holds, HoldFor(e.d, f.info[e.d]), d);
      }
    }
  }

  /** A dispute that was reversed had been held. */
  lemma FirstHold(pct: int, es: seq<Event>, d: string) returns (k: int)
    requires InOrder(pct, es) && Reversed in StatesOf(DisputeFunds.After(pct, es), d)
    ensures HoldMade(pct, es, k, d)
  {
    var f := DisputeFunds.After(pct, es);
    PathsInOrder(pct, es);
    assert Path(StatesOf(f, d));
    PathTimes(StatesOf(f, d));
    RunsKeepInv(pct, es);
    assert DisputeInv(f, d);
    k := HoldsAreMade(pct, es, d);
  }

  /** Once reversed, a dispute takes no transition, and no authorization opens a funds transaction. */
  lemma ReversedStep(pct: int, f: Funds, e: Event, d: string)
    requires Path(StatesOf(f, d)) && Reversed in StatesOf(f, d)
    ensures var g := DisputeFunds.Step(pct, f, e);
      StatesOf(g, d) == StatesOf(f, d) && ((d, AuthorizeTx) in g.open ==> (d, AuthorizeTx) in f.open)
  {
    hide WithHold, Reversal, Inserted, MayExtend, Path;
    StatesAfter(pct, f, e, d);
    if Takes(f, e) && e.d == d { ExtendKeepsPath(StatesOf(f, d), if e.Start? then e.to else Pending); }
    if Takes(f, e) { assert (d, AuthorizeTx) !in Opening(e.d, if e.Start? then e.to else Pending); }
    if e.Commit? && (e.d, e.kind) in f.open && e.d in f.info { CommitFields(pct, f, e.d, e.kind); }
  }

  lemma InOrderPrefix(pct: int, es: seq<Event>, n: nat)
    requires InOrder(pct, es) && n <= |es|
    ensures InOrder(pct, es[..n])
  {
    hide DisputeFunds.After, LandsAtEnd;
    var pre := es[..n];
    forall k | 0 <= k < |pre| ensures LandsAtEnd(DisputeFunds.After(pct, pre[..k]), pre[k]) {
      assert pre[..k] == es[..k] && pre[k] == es[k];
    }
  }

  lemma {:induction false} OpenBefore(pct: int, es: seq<Event>, i: int, j: int, d: string)
    requires 0 <= i <= j <= |es| && InOrder(pct, es)
    requires Reversed in StatesOf(DisputeFunds.After(pct, es[..i]), d)
    ensures Reversed in StatesOf(DisputeFunds.After(pct, es[..j]), d)
    ensures (d, AuthorizeTx) in DisputeFunds.After(pct, es[..j]).open ==>
      (d, AuthorizeTx) in DisputeFunds.After(pct, es[..i]).open
    decreases j
  {
    hide DisputeFunds.After, DisputeFunds.Step, LandsAtEnd, Path;
    if i < j {
      OpenBefore(pct, es, i, j - 1, d);
      InOrderPrefix(pct, es, j - 1);
      PathsInOrder(pct, es[..j - 1]);
      AfterNth(pct, es, j - 1);
      ReversedStep(pct, DisputeFunds.After(pct, es[..j - 1]), es[j - 1], d);
    }
  }

  /** What can be seen when the release runs: a hold committed after it belongs to an authorization open then. */
  lemma LateHoldWasOpen(pct: int, es: seq<Event>, i: int, j: int, d: string)
    requires InOrder(pct, es) && i < j && ReleaseMade(pct, es, i, d) && HoldMade(pct, es, j, d)
    ensures (d, AuthorizeTx) in DisputeFunds.After(pct, es[..i]).open
  {
    CreateComesFirst(pct, es, i, j, d);
    RunsKeepInv(pct, es[..i]);
    hide DisputeFunds.After, InOrder, ReleasesMatch, TotalsMatch, HoldCount;
    var f := DisputeFunds.After(pct, es[..i]);
    assert DisputeInv(f, d) && Unfinished(f, d, ReverseTx) > 0;
    assert Times(StatesOf(f, d), Reversed) > 0;
    OpenBefore(pct, es, i, j, d);
  }

  // ---------------------------------------------------------------- calls that are not interleaved

  /** The funds transaction that a call opens. */
  function KindOf(start: Event): Option<Kind> {
    if start.StartCreate? then Some(CreateTx)
    else if start.Start? && start.to == Authorized then Some(AuthorizeTx)
    else if start.Start? && start.to == Reversed then Some(ReverseTx)
    else None
  }

  /** One whole service call: its transition, then its funds transaction, which commits or fails. */
  function RunCall(pct: int, f: Funds, start: Event, fails: bool): Funds {
    var g := DisputeFunds.Step(pct, f, start);
    match KindOf(start)
    case None => g
    case Some(k) => DisputeFunds.Step(pct, g, if fails then Abort(start.d, k) else Commit(start.d, k))
  }

  predicate IsStart(e: Event) { e.StartCreate? || e.Start? }

  datatype ServiceCall = ServiceCall(start: Event, fails: bool)

  function RunCalls(pct: int, calls: seq<ServiceCall>): Funds {
    if calls == [] then NO_FUNDS else
    var c := calls[|calls| - 1];
    RunCall(pct, RunCalls(pct, calls[..|calls| - 1]), c.start, c.fails)
  }

  predicate AllStarts(calls: seq<ServiceCall>) { forall i :: 0 <= i < |calls| ==> IsStart(calls[i].start) }

  /** Every call's transition lands last. */
  predicate CallsInOrder(pct: int, calls: seq<ServiceCall>) {
    forall k :: 0 <= k < |calls| ==> LandsAtEnd(RunCalls(pct, calls[..k]), calls[k].start)
  }

  /** What a call amounts to when nothing else is open. */
  lemma CallOutcome(pct: int, f: Funds, start: Event, fails: bool)
    requires Inv(f) && f.open == multiset{} && IsStart(start)
    ensures var g := RunCall(pct, f, start, fails);
      && Inv(g) && g.open == multiset{}
      && g.states == DisputeFunds.Step(pct, f, start).states
      && g.aborted == (if fails && Takes(f, start) && KindOf(start).Some?
                       then f.aborted + multiset{(start.d, KindOf(start).value)} else f.aborted)
      && (!Takes(f, start) ==> g == f)
      && (Takes(f, start) ==> start.d in g.info)
      && g.holds == if !Takes(f, start) || fails || KindOf(start).None? then f.holds
                    else if KindOf(start) == Some(ReverseTx) then ReleasedHolds(f.holds, start.d)
                    else f.holds + [HoldFor(start.d, g.info[start.d])]
  {
    hide DisputeFunds.Step, Inv, MayExtend, Opening, Takes, ReleasedHolds, KindOf;
    var g := DisputeFunds.Step(pct, f, start);
    StepKeepsInv(pct, f, start);
    KnownInfo(f, start.d);
    StartFields(pct, f, start);
    if KindOf(start).Some? {
      var k := KindOf(start).value;
      StepKeepsInv(pct, g, if fails then Abort(start.d, k) else Commit(start.d, k));
      EndFields(pct, g, start.d, k, fails);
    } else if Takes(f, start) {
      NoOpening(f, start);
    }
  }

  lemma StartFields(pct: int, f: Funds, start: Event)
    requires IsStart(start) && f.open == multiset{} && (start.d in f.committed ==> start.d in f.info)
    ensures var g := DisputeFunds.Step(pct, f, start);
      && (!Takes(f, start) ==> g == f)
      && (Takes(f, start) ==>
            && start.d in g.info && g.holds == f.holds && g.aborted == f.aborted
            && g.open == Opening(start.d, if start.Start? then start.to else Pending)
            && (KindOf(start).Some? ==> g.open == multiset{(start.d, KindOf(start).value)}))
  {
    hide MayExtend, Inserted;
  }

  lemma EndFields(pct: int, g: Funds, d: string, k: Kind, fails: bool)
    requires g.open == multiset{} || (g.open == multiset{(d, k)} && d in g.info)
    ensures var r := DisputeFunds.Step(pct, g, if fails then Abort(d, k) else Commit(d, k));
      && r.open == multiset{} && r.states == g.states && r.info == g.info
      && (g.open == multiset{} ==> r == g)
      && (g.open != multiset{} ==>
            && r.aborted == (if fails then g.aborted + multiset{(d, k)} else g.aborted)
            && r.holds == if fails then g.holds
                          else if k == ReverseTx then ReleasedHolds(g.holds, d) else g.holds + [HoldFor(d, g.info[d])])
  {
    hide RoundedReserve, ReleasedHolds, NewReleases;
    assert (d, k) in multiset{(d, k)} && multiset{(d, k)} - multiset{(d, k)} == multiset{};
  }

  lemma KnownInfo(f: Funds, d: string)
    requires Inv(f)
    ensures d in f.committed ==> d in f.info && StatesOf(f, d) != []
  {
    hide ReleasesMatch, TotalsMatch, HoldCount;
    assert DisputeInv(f, d);
  }

  lemma NoOpening(f: Funds, start: Event)
    requires Inv(f) && Takes(f, start) && IsStart(start) && KindOf(start).None?
    ensures Opening(start.d, if start.Start? then start.to else Pending) == multiset{}
  {
    KnownInfo(f, start.d);
    TablesAgree(Latest(StatesOf(f, start.d)), start.to);
  }

  /** Where a dispute stands between calls: all its holds ACTIVE, or all RELEASED by a committed reversal. */
  ghost predicate Quiet(f: Funds, d: string) {
    var s := StatesOf(f, d);
    && Path(s)
    && (if Reversed in s && (d, ReverseTx) !in f.aborted then !HasActive(f.holds, d) else AllActive(f.holds, d))
  }

  lemma CallKeepsQuiet(pct: int, f: Funds, start: Event, fails: bool, d: string)
    requires Inv(f) && f.open == multiset{} && IsStart(start) && Quiet(f, d) && LandsAtEnd(f, start)
    ensures Quiet(RunCall(pct, f, start, fails), d)
  {
    hide RunCall, DisputeFunds.Step, Inv, HasActive, AllActive, ReleasedHolds, Path, Inserted, Takes, LandsAtEnd;
    var g := RunCall(pct, f, start, fails);
    CallOutcome(pct, f, start, fails);
    if Takes(f, start) {
      StatesAfter(pct, f, start, d);
      NotYetAborted(f, d);
      ActiveAfterRelease(f.holds, start.d, d);
      ActiveAfterHold(f.holds, HoldFor(start.d, g.info[start.d]), d);
      assert StatesOf(g, d) == StatesOf(DisputeFunds.Step(pct, f, start), d);
      if start.d == d { OwnQuiet(f, g, start, fails, d); }
    }
  }

  lemma OwnQuiet(f: Funds, g: Funds, start: Event, fails: bool, d: string)
    requires IsStart(start) && Quiet(f, d) && LandsAtEnd(f, start) && Takes(f, start) && start.d == d
    requires StatesOf(g, d) ==
      Inserted(StatesOf(f, d), if start.Start? then start.p else 0, if start.Start? then start.to else Pending)
    requires Reversed !in StatesOf(f, d) ==> (d, ReverseTx) !in f.aborted
    requires var reversing := KindOf(start) == Some(ReverseTx);
      && ((d, ReverseTx) in g.aborted <==> (d, ReverseTx) in f.aborted || (fails && reversing))
      && (!fails && reversing ==> !HasActive(g.holds, d))
      && (fails || !reversing ==> (AllActive(f.holds, d) ==> AllActive(g.holds, d)))
    ensures Quiet(g, d)
  {
    hide HasActive, AllActive, Path, Inserted;
    var s, to := StatesOf(f, d), if start.Start? then start.to else Pending;
    ExtendKeepsPath(s, to);
    LandingLast(s, if start.Start? then start.p else 0, to);
  }

  lemma LandingLast(s: State, p: nat, to: DisputeState)
    requires p >= |s| || MayExtend(s, Pending)
    ensures Inserted(s, p, to) == s + [to]
    ensures Reversed in Inserted(s, p, to) <==> Reversed in s || to == Reversed
  {
    NoStates();
    TablesAgree(Latest(s), Pending);
  }

  lemma NotYetAborted(f: Funds, d: string)
    requires Inv(f)
    ensures Reversed !in StatesOf(f, d) ==> (d, ReverseTx) !in f.aborted
  {
    assert DisputeInv(f, d);
  }

  lemma {:induction false} CallsKeepQuiet(pct: int, calls: seq<ServiceCall>, d: string)
    requires AllStarts(calls)
    ensures var f := RunCalls(pct, calls);
      Inv(f) && f.open == multiset{} && (CallsInOrder(pct, calls) ==> Quiet(f, d))
    decreases |calls|
  {
    hide Inv, RunCall, Quiet, LandsAtEnd;
    if calls == [] {
      NoFundsInv();
      assert Quiet(NO_FUNDS, d) by { NothingQuiet(d); }
    } else {
      var n := |calls| - 1;
      var f, c := RunCalls(pct, calls[..n]), calls[n];
      CallsKeepQuiet(pct, calls[..n], d);
      CallOutcome(pct, f, c.start, c.fails);
      if CallsInOrder(pct, calls) {
        forall k | 0 <= k < n ensures LandsAtEnd(RunCalls(pct, calls[..n][..k]), calls[..n][k].start) {
          assert calls[..n][..k] == calls[..k] && calls[..n][k] == calls[k];
        }
        CallKeepsQuiet(pct, f, c.start, c.fails, d);
      }
    }
  }

  lemma NothingQuiet(d: string)
    ensures Quiet(NO_FUNDS, d)
  {}

  /**
   * With calls one after another, each landing last, a REVERSED dispute has an ACTIVE hold exactly when
   * the database transaction of its reversal failed after the transition was recorded.
   */
  lemma SequentialReversals(pct: int, calls: seq<ServiceCall>, d: string)
    requires AllStarts(calls) && CallsInOrder(pct, calls)
    ensures var f := RunCalls(pct, calls);
      Reversed in StatesOf(f, d) ==> (HasActive(f.holds, d) <==> (d, ReverseTx) in f.aborted)
  {
    hide RunCalls, CallsInOrder, Inv;
    var f := RunCalls(pct, calls);
    CallsKeepQuiet(pct, calls, d);
    if Reversed in StatesOf(f, d) {
      PathTimes(StatesOf(f, d));
      HeldOnce(f, d);
      if (d, ReverseTx) in f.aborted { SomeActive(f.holds, d); }
    }
  }

  lemma HeldOnce(f: Funds, d: string)
    requires Inv(f) && StatesOf(f, d) != [] && Times(StatesOf(f, d), Reversed) == 1
    ensures HoldCount(f.holds, d) > 0
  {
    hide ReleasesMatch, TotalsMatch, HoldCount;
    ShortHistories();
    assert DisputeInv(f, d);
  }

  /** A rolled-back funds transaction is that of a call that failed. */
  lemma {:induction false} AbortedByFailure(pct: int, calls: seq<ServiceCall>, d: string, k: Kind)
    requires AllStarts(calls) && (d, k) in RunCalls(pct, calls).aborted
    ensures exists i :: 0 <= i < |calls| && calls[i].fails && calls[i].start.d == d && KindOf(calls[i].start) == Some(k)
    decreases |calls|
  {
    hide RunCall, Inv, KindOf;
    if calls != [] {
      var n := |calls| - 1;
      CallsKeepQuiet(pct, calls[..n], d);
      CallOutcome(pct, RunCalls(pct, calls[..n]), calls[n].start, calls[n].fails);
      if (d, k) in RunCalls(pct, calls[..n]).aborted {
        AbortedByFailure(pct, calls[..n], d, k);
        var i :| 0 <= i < n && calls[..n][i].fails && calls[..n][i].start.d == d &&
                 KindOf(calls[..n][i].start) == Some(k);
        assert calls[i] == calls[..n][i];
      }
    }
  }

  lemma {:induction false} NothingAborted(pct: int, calls: seq<ServiceCall>)
    requires AllStarts(calls) && forall i :: 0 <= i < |calls| ==> !calls[i].fails
    ensures RunCalls(pct, calls).aborted == multiset{}
    decreases |calls|
  {
    hide RunCall, Inv;
    if calls != [] {
      var n := |calls| - 1;
      NothingAborted(pct, calls[..n]);
      CallsKeepQuiet(pct, calls[..n], "");
      CallOutcome(pct, RunCalls(pct, calls[..n]), calls[n].start, calls[n].fails);
    }
  }

  /**
   * When no database transaction fails midway: one hold for the creation and one for each AUTHORIZED row,
   * wherever rows land; and no ACTIVE hold once REVERSED, if they land last.
   */
  lemma FaultFreeCalls(pct: int, calls: seq<ServiceCall>, d: string)
    requires AllStarts(calls) && forall i :: 0 <= i < |calls| ==> !calls[i].fails
    ensures var f := RunCalls(pct, calls); var s := StatesOf(f, d);
      && HoldCount(f.holds, d) == One(s != []) + Times(s, Authorized)
      && (CallsInOrder(pct, calls) ==>
            Times(s, Authorized) == One(Authorized in s) && (Reversed in s ==> !HasActive(f.holds, d)))
  {
    hide RunCalls, CallsInOrder, ReleasesMatch, TotalsMatch, HoldCount, HasActive;
    var f := RunCalls(pct, calls);
    CallsKeepQuiet(pct, calls, d);
    NothingAborted(pct, calls);
    assert DisputeInv(f, d);
    if CallsInOrder(pct, calls) { PathTimes(StatesOf(f, d)); }
  }

  // ---------------------------------------------------------------- runs to beware of

  const SOME_INFO := Info("m", "a", "je", 10, 10, 0)

  /** The tables after dispute "d" was created and its funds were held. */
  function Created(pct: int, i: Info): Funds {
    DisputeFunds.Step(pct, DisputeFunds.Step(pct, NO_FUNDS, StartCreate("d", i)), Commit("d", CreateTx))
  }

  lemma CreatedFunds(pct: int, i: Info)
    requires ValidInfo(i)
    ensures var f := Created(pct, i);
      && f.states == map["d" := [Pending]] && f.info == map["d" := i] && f.committed == {"d"}
      && f.open == multiset{} == f.aborted && f.holds == [Hold("d", i.account, i.amount + i.fee, Active)]
      && f.reserves == map[i.merchant := RoundedReserve(0, i.amount, pct)]
  {
    hide RoundedReserve;
    assert Inserted([], 0, Pending) == [Pending];
    var f := DisputeFunds.Step(pct, NO_FUNDS, StartCreate("d", i));
    assert f.states == map["d" := [Pending]] && f.open == multiset{("d", CreateTx)} && f.info == map["d" := i];
    var g := DisputeFunds.Step(pct, f, Commit("d", CreateTx));
    assert g.states == f.states && g.info == f.info && g.open == multiset{};
  }

  /** The start of a call on dispute "d", which is visible. */
  lemma CallStarts(pct: int, f: Funds, to: DisputeState, p: nat)
    requires "d" in f.committed && "d" in f.states && MayExtend(f.states["d"], to)
    ensures DisputeFunds.Step(pct, f, Start("d", to, p)) ==
      f.(states := f.states["d" := Inserted(f.states["d"], p, to)], open := f.open + Opening("d", to))
  {}

  /** A reversal whose transaction fails leaves a REVERSED dispute with its hold ACTIVE, and no way to reverse again. */
  lemma FailedReversalStrandsHold(pct: int)
    ensures var f := RunCalls(pct, [ServiceCall(StartCreate("d", SOME_INFO), false),
                                    ServiceCall(Start("d", Reversed, 1), true)]);
      && StatesOf(f, "d") == [Pending, Reversed] && HasActive(f.holds, "d")
      && forall p :: !Takes(f, Start("d", Reversed, p))
  {
    hide DisputeFunds.Step, RoundedReserve;
    var c1, c2 := ServiceCall(StartCreate("d", SOME_INFO), false), ServiceCall(Start("d", Reversed, 1), true);
    var f := DisputeFunds.Step(pct, DisputeFunds.Step(pct, NO_FUNDS, c1.start), Commit("d", CreateTx));
    assert [c1, c2][..1] == [c1] && [c1][..0] == [];
    assert RunCalls(pct, [c1]) == RunCall(pct, NO_FUNDS, c1.start, false) == f;
    CreatedFunds(pct, SOME_INFO);
    CallStarts(pct, f, Reversed, 1);
    assert Inserted([Pending], 1, Reversed) == [Pending, Reversed];
    var g := DisputeFunds.Step(pct, f, c2.start);
    AbortKeepsTables(pct, g, "d", ReverseTx);
    assert f.holds[0].dispute == "d";
  }

  lemma AbortKeepsTables(pct: int, g: Funds, d: string, k: Kind)
    ensures var r := DisputeFunds.Step(pct, g, Abort(d, k)); r.states == g.states && r.holds == g.holds
  {}

  /** A clock that lags makes three holds, with calls one after another and nothing failed. */
  lemma LaggingClockHoldsThrice(pct: int)
    ensures var f := RunCalls(pct, [ServiceCall(StartCreate("d", SOME_INFO), false),
                                    ServiceCall(Start("d", Authorized, 0), false),
                                    ServiceCall(Start("d", Authorized, 2), false)]);
      && StatesOf(f, "d") == [Authorized, Pending, Authorized] && HoldCount(f.holds, "d") == 3
      && f.open == multiset{} == f.aborted
  {
    hide RunCall, HoldCount, Inv, ReleasesMatch, TotalsMatch;
    var c1 := ServiceCall(StartCreate("d", SOME_INFO), false);
    var c2, c3 := ServiceCall(Start("d", Authorized, 0), false), ServiceCall(Start("d", Authorized, 2), false);
    var calls := [c1, c2, c3];
    assert calls[..2] == [c1, c2] && [c1, c2][..1] == [c1] && [c1][..0] == [];
    var f1, f2, f3 := RunCalls(pct, [c1]), RunCalls(pct, [c1, c2]), RunCalls(pct, calls);
    FirstCall(pct, SOME_INFO);
    assert RunCalls(pct, []) == NO_FUNDS && [c1][0] == c1;
    assert f1 == RunCall(pct, NO_FUNDS, c1.start, false);
    CallsKeepQuiet(pct, [c1], "d");
    CallsKeepQuiet(pct, [c1, c2], "d");
    NextAuthorization(pct, f1, 0);
    assert Inserted([Pending], 0, Authorized) == [Authorized, Pending];
    assert f2 == RunCall(pct, f1, c2.start, false);
    NextAuthorization(pct, f2, 2);
    assert Inserted([Authorized, Pending], 2, Authorized) == [Authorized, Pending, Authorized];
    assert f3 == RunCall(pct, f2, c3.start, false);
    CallsKeepQuiet(pct, calls, "d");
    NothingAborted(pct, calls);
    FaultFreeCalls(pct, calls, "d");
  }

  lemma FirstCall(pct: int, i: Info)
    requires ValidInfo(i)
    ensures var f := RunCall(pct, NO_FUNDS, StartCreate("d", i), false);
      f.states == map["d" := [Pending]] && "d" in f.committed
  {
    hide DisputeFunds.Step;
    CreatedFunds(pct, i);
  }

  /** An authorization of the visible dispute "d", whose latest state is PENDING. */
  lemma NextAuthorization(pct: int, f: Funds, p: nat)
    requires "d" in f.committed && "d" in f.states && Latest(f.states["d"]) == Pending
    ensures var g := RunCall(pct, f, Start("d", Authorized, p), false);
      g.states == f.states["d" := Inserted(f.states["d"], p, Authorized)] && g.committed == f.committed
  {
    hide DisputeFunds.Step, Inserted;
    assert f.states["d"] != [];
    CallStarts(pct, f, Authorized, p);
    CommitHolds(pct, DisputeFunds.Step(pct, f, Start("d", Authorized, p)), "d");
  }

  lemma CommitHolds(pct: int, g: Funds, d: string)
    ensures var r := DisputeFunds.Step(pct, g, Commit(d, AuthorizeTx));
      r.states == g.states && r.committed == g.committed && r.info == g.info
  {}

  /**
   * Nothing needs to fail or to lag: a reversal that runs between an authorization's transition and its
   * funds transaction leaves the second hold ACTIVE for good.
   */
  lemma OvertakenAuthorizationStrandsHold(pct: int)
    ensures var es := [StartCreate("d", SOME_INFO), Commit("d", CreateTx), Start("d", Authorized, 1),
                       Start("d", Reversed, 2), Commit("d", ReverseTx), Commit("d", AuthorizeTx)];
      var f := DisputeFunds.After(pct, es);
      && StatesOf(f, "d") == [Pending, Authorized, Reversed] && f.open == multiset{} == f.aborted
      && HasActive(f.holds, "d") && HeldAfterRelease(pct, es, "d")
  {
    hide DisputeFunds.Step, DisputeFunds.After, HasActive, RoundedReserve, ReleaseMade, HoldMade;
    var es := [StartCreate("d", SOME_INFO), Commit("d", CreateTx), Start("d", Authorized, 1),
               Start("d", Reversed, 2), Commit("d", ReverseTx), Commit("d", AuthorizeTx)];
    AfterSteps(pct, es);
    OvertakenStart(pct);
    OvertakenEnd(pct, DisputeFunds.After(pct, es[..4]));
    assert ReleaseMade(pct, es, 4, "d") by { Made(pct, es); }
    assert HoldMade(pct, es, 5, "d") by { Made(pct, es); }
  }

  lemma Made(pct: int, es: seq<Event>)
    requires |es| == 6 && es[4] == Commit("d", ReverseTx) && es[5] == Commit("d", AuthorizeTx)
    ensures var f4, f5 := DisputeFunds.After(pct, es[..4]), DisputeFunds.After(pct, es[..5]);
      && (("d", ReverseTx) in f4.open && "d" in f4.info ==> ReleaseMade(pct, es, 4, "d"))
      && (("d", AuthorizeTx) in f5.open && "d" in f5.info ==> HoldMade(pct, es, 5, "d"))
  {
    hide DisputeFunds.After;
  }

  lemma OvertakenStart(pct: int)
    ensures
      var f2 := Created(pct, SOME_INFO);
      var f4 := DisputeFunds.Step(pct, DisputeFunds.Step(pct, f2, Start("d", Authorized, 1)), Start("d", Reversed, 2));
      && StatesOf(f4, "d") == [Pending, Authorized, Reversed] && "d" in f4.info && f4.aborted == multiset{}
      && f4.open == multiset{("d", AuthorizeTx), ("d", ReverseTx)}
  {
    hide DisputeFunds.Step, RoundedReserve;
    CreatedFunds(pct, SOME_INFO);
    var f2 := Created(pct, SOME_INFO);
    CallStarts(pct, f2, Authorized, 1);
    assert Inserted([Pending], 1, Authorized) == [Pending, Authorized];
    var f3 := DisputeFunds.Step(pct, f2, Start("d", Authorized, 1));
    CallStarts(pct, f3, Reversed, 2);
    assert Inserted([Pending, Authorized], 2, Reversed) == [Pending, Authorized, Reversed];
  }

  lemma OvertakenEnd(pct: int, f: Funds)
    requires "d" in f.info && f.open == multiset{("d", AuthorizeTx), ("d", ReverseTx)}
    ensures var f' := DisputeFunds.Step(pct, f, Commit("d", ReverseTx));
      var g := DisputeFunds.Step(pct, f', Commit("d", AuthorizeTx));
      && f'.open == multiset{("d", AuthorizeTx)} && f'.info == f.info
      && g.open == multiset{} && g.aborted == f.aborted && g.states == f.states && HasActive(g.holds, "d")
  {
    hide RoundedReserve, ReleasedHolds, NewReleases;
    var f' := DisputeFunds.Step(pct, f, Commit("d", ReverseTx));
    assert f'.open == multiset{("d", AuthorizeTx)} && f'.info == f.info;
    var g := DisputeFunds.Step(pct, f', Commit("d", AuthorizeTx));
    assert g.holds[|f'.holds|].dispute == "d" && g.holds[|f'.holds|].status == Active;
  }

  lemma AfterSteps(pct: int, es: seq<Event>)
    requires |es| == 6
    ensures var f2 := DisputeFunds.Step(pct, DisputeFunds.Step(pct, NO_FUNDS, es[0]), es[1]);
      var f4 := DisputeFunds.Step(pct, DisputeFunds.Step(pct, f2, es[2]), es[3]);
      && DisputeFunds.After(pct, es[..4]) == f4
      && DisputeFunds.After(pct, es[..5]) == DisputeFunds.Step(pct, f4, es[4])
      && DisputeFunds.After(pct, es) == DisputeFunds.Step(pct, DisputeFunds.Step(pct, f4, es[4]), es[5])
  {
    hide DisputeFunds.Step;
    assert es[..0] == [] && es[..6] == es;
    AfterNth(pct, es, 0);
    AfterNth(pct, es, 1);
    AfterNth(pct, es, 2);
    AfterNth(pct, es, 3);
    AfterNth(pct, es, 4);
    AfterNth(pct, es, 5);
  }
}
