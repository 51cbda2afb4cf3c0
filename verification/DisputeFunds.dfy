/**
 * Holds and hold releases of disputes, next to their states. A service call commits its state
 * transition on its own connection and its funds in a database transaction of its own, so the two are
 * separate steps and the second may fail. A transition's row lands wherever its creation time puts it.
 * Amounts are in units of 1e-8, percentages in units of 1e-4.
 */
module DisputeFunds {
  import opened Prelude
  import opened Hashing
  import opened Transitions
  import opened Holds

  datatype Info =
    Info(merchant: string, account: string, journalEntry: string, original: int, amount: int, fee: int)

  datatype Kind = CreateTx | AuthorizeTx | ReverseTx

  /**
   * `states` has each dispute's states in the order of its history. `info` has every dispute whose
   * first transition was recorded, `committed` those whose record is visible. `open` and `aborted` count
   * the funds transactions not yet finished and those rolled back.
   */
  datatype Funds = Funds(states: map<string, seq<DisputeState>>, info: map<string, Info>, committed: set<string>,
                         holds: seq<Hold>, releases: seq<Release>, reserves: map<string, int>,
                         open: multiset<(string, Kind)>, aborted: multiset<(string, Kind)>)

  const NO_FUNDS := Funds(map[], map[], {}, [], [], map[], multiset{}, multiset{})

  function StatesOf(f: Funds, d: string): seq<DisputeState> { if d in f.states then f.states[d] else [] }

  function Latest(s: seq<DisputeState>): DisputeState { if s == [] then Blank else s[|s| - 1] }

  /** How often a dispute was moved to `x`. */
  function Times(s: seq<DisputeState>, x: DisputeState): nat { multiset(s)[x] }

  /** Whether the database takes a transition to `to`. */
  predicate MayExtend(s: seq<DisputeState>, to: DisputeState) {
    if s == [] then to == Pending else Allowed(Latest(s), to)
  }

  /** The states with a row that lands at position `p`, or last. */
  function Inserted(s: seq<DisputeState>, p: nat, to: DisputeState): seq<DisputeState> {
    if p < |s| then s[..p] + [to] + s[p..] else s + [to]
  }

  // ---------------------------------------------------------------- the transition protocol behind it

  function ToStates(h: seq<Row>): seq<DisputeState> { seq(|h|, i requires 0 <= i < |h| => h[i].to) }

  /** An insert that the protocol accepts is such an insertion, at the end exactly when its row lands last. */
  lemma AcceptedInsertLands(h: seq<Row>, r: Row)
    requires Backed(h, r) && Accepts(h, r)
    ensures MayExtend(ToStates(h), r.to)
    ensures ToStates(Placed(h, r)) == Inserted(ToStates(h), Position(h, r), r.to)
    ensures Position(h, r) == |h| <==> LandsLast(h, r)
  {
    hide Allowed, TriggerAllows;
    if h != [] { TablesAgree(LatestState(h), r.to); }
    PlacedForm(h, r);
  }

  /** Every accepted insert of a run of the protocol is one. */
  lemma ProtocolInsertLands(hash: Hash, run: seq<Transitions.Step>, k: int)
    requires 0 <= k < |run| && TakesEffect(Transitions.After(hash, run[..k]), run[k])
    ensures var r := run[k].row;
      var h := History(Transitions.After(hash, run[..k]).table, r.disputeId);
      var h' := History(Transitions.After(hash, run[..k + 1]).table, r.disputeId);
      && MayExtend(ToStates(h), r.to) && ToStates(h') == Inserted(ToStates(h), Position(h, r), r.to)
      && (Position(h, r) == |h| <==> StepInOrder(hash, run, k))
  {
    hide Placed, Position, Accepts, Backed, ToStates, MayExtend, Inserted, LandsLast;
    RunsStayBacked(hash, run[..k]);
    AfterStep(hash, run, k);
    AcceptedInsertLands(History(Transitions.After(hash, run[..k]).table, run[k].row.disputeId), run[k].row);
  }

  lemma {:induction false} FreshId(h: seq<Row>) returns (id: int)
    ensures forall i :: 0 <= i < |h| ==> h[i].id < id
    decreases |h|
  {
    id := 0;
    if h != [] {
      var n := |h| - 1;
      var m := FreshId(h[..n]);
      id := if h[n].id < m then m else h[n].id + 1;
      assert forall i :: 0 <= i < n ==> h[i] == h[..n][i];
    }
  }

  /** And every transition to an allowed state can be requested, prepared and inserted last. */
  lemma ExtensionIsAccepted(hash: Hash, h: seq<Row>, d: string, to: DisputeState)
    returns (req: Request, id: int, at: int, r: Row)
    requires MayExtend(ToStates(h), to) && d != ""
    ensures req.disputeId == d && req.to == to && Prepare(hash, h, req, id, at, "t") == Some(r)
    ensures Accepts(h, r) && LandsLast(h, r) && ToStates(Placed(h, r)) == ToStates(h) + [to]
  {
    hide HashInput;
    req := Request(d, to, "r", "u");
    id := FreshId(h);
    at := if h == [] then 0 else h[|h| - 1].at + 1;
    assert h != [] ==> Latest(ToStates(h)) == LatestState(h);
    TablesAgree(LatestState(h), to);
    var from := if to == Pending then Blank else LatestState(h);
    var prev := if to == Pending then "" else LatestHash(h);
    r := NewRow(hash, req, id, at, "t", from, prev);
    assert Placed(h, r) == h + [r];
  }

  /**
   * A clock that lags puts the AUTHORIZED row before the PENDING one. PENDING stays the latest state,
   * and a second authorization is prepared and accepted.
   */
  lemma LaggingClockAuthorizesTwice(hash: Hash)
    ensures var p := NewRow(hash, Asking(Pending), 1, 10, "t", Blank, "");
      var a := NewRow(hash, Asking(Authorized), 2, 5, "t", Pending, p.hash);
      var b := NewRow(hash, Asking(Authorized), 3, 11, "t", Pending, p.hash);
      && Prepare(hash, [p], Asking(Authorized), 2, 5, "t") == Some(a)
      && Accepts([p], a) && Placed([p], a) == [a, p]
      && Prepare(hash, [a, p], Asking(Authorized), 3, 11, "t") == Some(b)
      && Accepts([a, p], b) && Placed([a, p], b) == [a, p, b]
  {
    hide HashInput;
    var p := NewRow(hash, Asking(Pending), 1, 10, "t", Blank, "");
    var a := NewRow(hash, Asking(Authorized), 2, 5, "t", Pending, p.hash);
    assert [p][..0] == [] && Placed([], a) == [a];
    assert LatestState([a, p]) == Pending && LatestHash([a, p]) == p.hash;
  }

  // ---------------------------------------------------------------- steps

  /** `p` is where the transition's row lands in the dispute's history. */
  datatype Event =
    | StartCreate(d: string, info: Info)
    | Start(d: string, to: DisputeState, p: nat)
    | Commit(d: string, kind: Kind)
    | Abort(d: string, kind: Kind)

  predicate ValidInfo(i: Info) { 0 < i.amount <= i.original && i.fee >= 0 }

  /** The funds transaction that goes with a transition, if any. */
  function Opening(d: string, to: DisputeState): multiset<(string, Kind)> {
    match to
    case Pending => multiset{(d, CreateTx)}
    case Authorized => multiset{(d, AuthorizeTx)}
    case Reversed => multiset{(d, ReverseTx)}
    case _ => multiset{}
  }

  /** Records a transition and opens its funds transaction. */
  function Transitioned(f: Funds, d: string, to: DisputeState, p: nat): Funds {
    f.(states := f.states[d := Inserted(StatesOf(f, d), p, to)], open := f.open + Opening(d, to))
  }

  /** The column keeps eight decimals: the product is rounded half up. */
  function RoundedReserve(reserve: int, amount: int, pct: int): int {
    (10000 * reserve + amount * pct + 5000) / 10000
  }

  function ReserveOf(f: Funds, m: string): int { if m in f.reserves then f.reserves[m] else 0 }

  /** The hold for a dispute: the disputed amount and the fee, on the journal entry's account. */
  function HoldFor(d: string, i: Info): Hold { Hold(d, i.account, i.amount + i.fee, Active) }

  /** Creates the dispute's hold and raises the merchant's reserve. */
  function WithHold(f: Funds, d: string, pct: int): Funds
    requires d in f.info
  {
    var i := f.info[d];
    f.(holds := f.holds + [HoldFor(d, i)],
       reserves := f.reserves[i.merchant := RoundedReserve(ReserveOf(f, i.merchant), i.amount, pct)])
  }

  function Reversal(f: Funds, d: string): Funds {
    f.(holds := ReleasedHolds(f.holds, d), releases := f.releases + NewReleases(f.holds, d))
  }

  /** A transition that is recorded: a valid new dispute, or an allowed move of a visible one. */
  predicate Takes(f: Funds, e: Event) {
    match e
    case StartCreate(d, info) => ValidInfo(info) && MayExtend(StatesOf(f, d), Pending)
    case Start(d, to, _) => d in f.committed && MayExtend(StatesOf(f, d), to)
    case _ => false
  }

  function Step(pct: int, f: Funds, e: Event): Funds {
    match e
    case StartCreate(d, info) =>
      if !Takes(f, e) then f else Transitioned(f, d, Pending, 0).(info := f.info[d := info])
    case Start(d, to, p) =>
      if !Takes(f, e) then f else Transitioned(f, d, to, p)
    case Abort(d, k) =>
      if (d, k) !in f.open then f
      else f.(open := f.open - multiset{(d, k)}, aborted := f.aborted + multiset{(d, k)})
    case Commit(d, k) =>
      if (d, k) !in f.open || d !in f.info then f else
      var g := f.(open := f.open - multiset{(d, k)});
      (match k
       case CreateTx => WithHold(g, d, pct).(committed := f.committed + {d})
       case AuthorizeTx => WithHold(g, d, pct)
       case ReverseTx => Reversal(g, d))
  }

  function After(pct: int, es: seq<Event>): Funds {
    if es == [] then NO_FUNDS else Step(pct, After(pct, es[..|es| - 1]), es[|es| - 1])
  }

  lemma AfterNth(pct: int, es: seq<Event>, k: int)
    requires 0 <= k < |es|
    ensures After(pct, es[..k + 1]) == Step(pct, After(pct, es[..k]), es[k])
  {
    hide Step;
    assert es[..k + 1][..k] == es[..k];
  }

  /** Funds transactions of a dispute that are open or were rolled back. */
  function Unfinished(f: Funds, d: string, k: Kind): nat { f.open[(d, k)] + f.aborted[(d, k)] }

  // ---------------------------------------------------------------- the invariant, wherever rows land

  /** The holds of a dispute are its own. */
  predicate HoldsFit(f: Funds, d: string) {
    forall i :: 0 <= i < |f.holds| && f.holds[i].dispute == d ==>
      && d in f.info && f.holds[i].account == f.info[d].account
      && f.holds[i].amount == f.info[d].amount + f.info[d].fee
  }

  /**
   * There is one PENDING row, and every PENDING or AUTHORIZED row has its hold, unless the transaction
   * that should make it is unfinished.
   */
  ghost predicate DisputeInv(f: Funds, d: string) {
    var s := StatesOf(f, d);
    && Times(s, Pending) == One(s != [])
    && (d in f.info <==> s != [])
    && (d in f.info ==> ValidInfo(f.info[d]))
    && (d in f.committed <==> s != [] && Unfinished(f, d, CreateTx) == 0)
    && (d !in f.committed ==> |s| <= 1)
    && Unfinished(f, d, CreateTx) <= One(s != [])
    && Unfinished(f, d, AuthorizeTx) <= Times(s, Authorized)
    && Unfinished(f, d, ReverseTx) <= Times(s, Reversed)
    && HoldCount(f.holds, d) + Unfinished(f, d, CreateTx) + Unfinished(f, d, AuthorizeTx)
       == Times(s, Pending) + Times(s, Authorized)
    && HoldsFit(f, d)
  }

  ghost predicate Inv(f: Funds) {
    && (forall d :: DisputeInv(f, d))
    && ReleasesMatch(f.holds, f.releases)
    && TotalsMatch(f.holds, f.releases)
  }

  lemma TimesInserted(s: seq<DisputeState>, p: nat, to: DisputeState)
    ensures forall x :: Times(Inserted(s, p, to), x) == Times(s, x) + One(x == to)
    ensures |Inserted(s, p, to)| == |s| + 1
    ensures Times([], Pending) == Times([], Authorized) == Times([], Reversed) == 0
  {
    if p < |s| { assert s == s[..p] + s[p..]; }
    assert multiset(Inserted(s, p, to)) == multiset(s) + multiset{to};
  }

  lemma OpensFunds(f: Funds, d: string, to: DisputeState, p: nat, x: string)
    ensures var g := Transitioned(f, d, to, p);
      && Unfinished(g, x, CreateTx) == Unfinished(f, x, CreateTx) + One(x == d && to == Pending)
      && Unfinished(g, x, AuthorizeTx) == Unfinished(f, x, AuthorizeTx) + One(x == d && to == Authorized)
      && Unfinished(g, x, ReverseTx) == Unfinished(f, x, ReverseTx) + One(x == d && to == Reversed)
      && StatesOf(g, x) == if x == d then Inserted(StatesOf(f, d), p, to) else StatesOf(f, x)
  {
    hide Inserted;
  }

  lemma TransitionKeepsFit(f: Funds, d: string, to: DisputeState, p: nat, info: Info, x: string)
    requires HoldsFit(f, x) && (d in f.info ==> info == f.info[d])
    ensures HoldsFit(Transitioned(f, d, to, p).(info := f.info[d := info]), x)
  {}

  lemma TransitionKeepsDispute(f: Funds, d: string, to: DisputeState, p: nat, info: Info, x: string)
    requires DisputeInv(f, x) && DisputeInv(f, d) && MayExtend(StatesOf(f, d), to) && ValidInfo(info)
    requires to != Pending ==> d in f.committed && d in f.info && info == f.info[d]
    ensures DisputeInv(Transitioned(f, d, to, p).(info := f.info[d := info]), x)
  {
    hide HoldCount, Inserted, HoldsFit, Times, Unfinished, Transitioned;
    TimesInserted(StatesOf(f, d), p, to);
    TablesAgree(Latest(StatesOf(f, d)), to);
    OpensFunds(f, d, to, p, x);
    TransitionKeepsFit(f, d, to, p, info, x);
    var h := Transitioned(f, d, to, p);
    var g := h.(info := f.info[d := info]);
    assert h.committed == f.committed && h.holds == f.holds by { SameTables(f, d, to, p); }
    InfoHidden(h, f.info[d := info], x);
  }

  lemma SameTables(f: Funds, d: string, to: DisputeState, p: nat)
    ensures var h := Transitioned(f, d, to, p); h.committed == f.committed && h.holds == f.holds && h.info == f.info
  {}

  lemma InfoHidden(h: Funds, info: map<string, Info>, x: string)
    ensures var g := h.(info := info);
      StatesOf(g, x) == StatesOf(h, x) && forall k :: Unfinished(g, x, k) == Unfinished(h, x, k)
  {}

  lemma CommitKeepsDispute(pct: int, f: Funds, d: string, k: Kind, x: string)
    requires DisputeInv(f, d) && DisputeInv(f, x) && (d, k) in f.open && d in f.info
    ensures DisputeInv(Step(pct, f, Commit(d, k)), x)
  {
    hide HoldCount, HoldsFit, Times, Step, Unfinished;
    CommitKeepsHolds(pct, f, d, k, x);
    CommitFields(pct, f, d, k);
  }

  lemma CommitFields(pct: int, f: Funds, d: string, k: Kind)
    requires (d, k) in f.open && d in f.info
    ensures var g := Step(pct, f, Commit(d, k));
      && g.states == f.states && g.info == f.info && g.aborted == f.aborted && g.open == f.open - multiset{(d, k)}
      && g.committed == (if k == CreateTx then f.committed + {d} else f.committed)
      && (forall x, y :: Unfinished(g, x, y) == Unfinished(f, x, y) - One((x, y) == (d, k)))
  {
    hide RoundedReserve, ReleasedHolds, NewReleases;
  }

  lemma CommitKeepsHolds(pct: int, f: Funds, d: string, k: Kind, x: string)
    requires HoldsFit(f, x) && (d, k) in f.open && d in f.info
    ensures var g := Step(pct, f, Commit(d, k));
      HoldsFit(g, x) && HoldCount(g.holds, x) == HoldCount(f.holds, x) + One(x == d && k != ReverseTx)
  {
    hide HoldCount, RoundedReserve, ReleasedHolds, NewReleases, ReleasedTotal, EntryTotal;
    if k == ReverseTx {
      CountReleased(f.holds, d, x);
      ReleasedEach(f.holds, d);
    } else {
      CountLast(f.holds, HoldFor(d, f.info[d]), x);
    }
  }

  lemma StepKeepsDispute(pct: int, f: Funds, e: Event, x: string)
    requires DisputeInv(f, e.d) && DisputeInv(f, x)
    ensures DisputeInv(Step(pct, f, e), x)
  {
    hide HoldCount, HoldsFit, Inserted, Times, Transitioned, WithHold, Reversal;
    match e
    case StartCreate(d, info) =>
      if Takes(f, e) { TransitionKeepsDispute(f, d, Pending, 0, info, x); }
    case Start(d, to, p) =>
      if Takes(f, e) {
        TablesAgree(Latest(StatesOf(f, d)), to);
        TransitionKeepsDispute(f, d, to, p, f.info[d], x);
        SameInfo(f, d, to, p);
      }
    case Abort(d, k) => AbortKeepsDispute(pct, f, d, k, x);
    case Commit(d, k) =>
      if (d, k) in f.open && d in f.info { CommitKeepsDispute(pct, f, d, k, x); }
  }

  lemma SameInfo(f: Funds, d: string, to: DisputeState, p: nat)
    requires d in f.info
    ensures Transitioned(f, d, to, p).(info := f.info[d := f.info[d]]) == Transitioned(f, d, to, p)
  {
    assert f.info[d := f.info[d]] == f.info;
  }

  lemma AbortKeepsDispute(pct: int, f: Funds, d: string, k: Kind, x: string)
    requires DisputeInv(f, x)
    ensures DisputeInv(Step(pct, f, Abort(d, k)), x)
  {
    hide HoldCount, Times;
  }

  lemma StepKeepsInv(pct: int, f: Funds, e: Event)
    requires Inv(f)
    ensures Inv(Step(pct, f, e))
  {
    hide ReleasesMatch, TotalsMatch, DisputeInv, RoundedReserve, NewReleases, ReleasedHolds;
    var g := Step(pct, f, e);
    forall x ensures DisputeInv(g, x) {
      assert DisputeInv(f, x) && DisputeInv(f, e.d);
      StepKeepsDispute(pct, f, e, x);
    }
    if e.Commit? && (e.d, e.kind) in f.open && e.d in f.info {
      if e.kind == ReverseTx {
        ReversalKeepsReleases(f.holds, f.releases, e.d);
      } else {
        HoldKeepsReleases(f.holds, f.releases, HoldFor(e.d, f.info[e.d]));
      }
    }
  }

  /** Every interleaving of calls and funds transactions, with any failures and landings, keeps the invariant. */
  lemma {:induction false} RunsKeepInv(pct: int, es: seq<Event>)
    ensures Inv(After(pct, es))
    decreases |es|
  {
    hide Inv, Step;
    if es == [] {
      NoFundsInv();
    } else {
      RunsKeepInv(pct, es[..|es| - 1]);
      StepKeepsInv(pct, After(pct, es[..|es| - 1]), es[|es| - 1]);
    }
  }

  lemma NoFundsInv()
    ensures Inv(NO_FUNDS)
  {
    forall d ensures DisputeInv(NO_FUNDS, d) {}
  }

  // ---------------------------------------------------------------- holds per dispute

  /**
   * In every run, wherever rows land: a dispute's holds, with its funds transactions still open or
   * rolled back, number exactly one for its creation and one for each AUTHORIZED row; each hold is the
   * disputed amount plus the fee.
   */
  lemma HoldsPerDispute(pct: int, es: seq<Event>, d: string)
    ensures var f := After(pct, es); var s := StatesOf(f, d);
      && HoldCount(f.holds, d) + Unfinished(f, d, CreateTx) + Unfinished(f, d, AuthorizeTx)
         == One(s != []) + Times(s, Authorized)
      && HoldsFit(f, d)
  {
    RunsKeepInv(pct, es);
    assert DisputeInv(After(pct, es), d);
  }

  /** An authorization of `d` at step `k`, if it is recorded, lands last. */
  predicate AuthorizesLast(pct: int, es: seq<Event>, k: int, d: string)
    requires 0 <= k < |es|
  {
    var f := After(pct, es[..k]);
    es[k].Start? && es[k].d == d && es[k].to == Authorized && Takes(f, es[k]) ==> es[k].p >= |StatesOf(f, d)|
  }

  /** An AUTHORIZED row comes at most once, and after it PENDING is not the latest state. */
  predicate AuthorizedOnce(s: seq<DisputeState>) {
    Times(s, Authorized) <= 1 && (Times(s, Authorized) == 1 ==> Latest(s) != Pending)
  }

  lemma InsertedLatest(s: seq<DisputeState>, p: nat, to: DisputeState)
    ensures Latest(Inserted(s, p, to)) == if p < |s| then Latest(s) else to
  {}

  lemma AuthorizedStep(pct: int, f: Funds, e: Event, d: string)
    requires DisputeInv(f, d) && AuthorizedOnce(StatesOf(f, d))
    requires e.Start? && e.d == d && e.to == Authorized && Takes(f, e) ==> e.p >= |StatesOf(f, d)|
    ensures AuthorizedOnce(StatesOf(Step(pct, f, e), d))
  {
    hide HoldCount, HoldsFit, Inserted, Times, DisputeInv, RoundedReserve, ReleasedHolds, NewReleases;
    var s := StatesOf(f, d);
    if e.d == d && Takes(f, e) {
      var p, to := if e.Start? then e.p else 0, if e.Start? then e.to else Pending;
      TimesInserted(s, p, to);
      InsertedLatest(s, p, to);
      TablesAgree(Latest(s), to);
    }
  }

  lemma {:induction false} AuthorizedAtMostOnce(pct: int, es: seq<Event>, d: string, n: int)
    requires 0 <= n <= |es| && forall k :: 0 <= k < n ==> AuthorizesLast(pct, es, k, d)
    ensures forall k :: 0 <= k <= n ==> AuthorizedOnce(StatesOf(After(pct, es[..k]), d))
    decreases n
  {
    hide Step, DisputeInv;
    if n == 0 {
      assert es[..0] == [];
    } else {
      AuthorizedAtMostOnce(pct, es, d, n - 1);
      RunsKeepInv(pct, es[..n - 1]);
      AfterNth(pct, es, n - 1);
      assert AuthorizesLast(pct, es, n - 1, d) && DisputeInv(After(pct, es[..n - 1]), d);
      AuthorizedStep(pct, After(pct, es[..n - 1]), es[n - 1], d);
    }
  }

  /**
   * When the bound of two holds is safe: no point of a run leaves room for a second AUTHORIZED row,
   * then or by one more authorization, exactly when every authorization landed last.
   */
  lemma OneAuthorizationIff(pct: int, es: seq<Event>, d: string)
    ensures
      (forall k, q :: 0 <= k <= |es| ==>
         Times(StatesOf(Step(pct, After(pct, es[..k]), Start(d, Authorized, q)), d), Authorized) <= 1)
      <==> (forall k :: 0 <= k < |es| ==> AuthorizesLast(pct, es, k, d))
  {
    hide After, DisputeInv, Step, Times, AuthorizesLast;
    if forall k :: 0 <= k < |es| ==> AuthorizesLast(pct, es, k, d) {
      AuthorizedAtMostOnce(pct, es, d, |es|);
      forall k, q | 0 <= k <= |es|
        ensures Times(StatesOf(Step(pct, After(pct, es[..k]), Start(d, Authorized, q)), d), Authorized) <= 1
      {
        OneMoreAuthorization(pct, After(pct, es[..k]), d, q);
      }
    } else {
      var k :| 0 <= k < |es| && !AuthorizesLast(pct, es, k, d);
      EarlyAuthorization(pct, es, k, d);
      assert Times(StatesOf(Step(pct, After(pct, es[..k + 1]), Start(d, Authorized, 0)), d), Authorized) > 1;
    }
  }

  lemma OneMoreAuthorization(pct: int, f: Funds, d: string, q: nat)
    requires AuthorizedOnce(StatesOf(f, d))
    ensures Times(StatesOf(Step(pct, f, Start(d, Authorized, q)), d), Authorized) <= 1
  {
    hide Times, Inserted;
    TimesInserted(StatesOf(f, d), q, Authorized);
    TablesAgree(Latest(StatesOf(f, d)), Authorized);
  }

  lemma EarlyAuthorization(pct: int, es: seq<Event>, k: int, d: string)
    requires 0 <= k < |es| && !AuthorizesLast(pct, es, k, d)
    ensures Times(StatesOf(Step(pct, After(pct, es[..k + 1]), Start(d, Authorized, 0)), d), Authorized) > 1
  {
    hide After, Times, Inserted;
    AfterNth(pct, es, k);
    var f := After(pct, es[..k]);
    var s := StatesOf(f, d);
    TimesInserted(s, es[k].p, Authorized);
    InsertedLatest(s, es[k].p, Authorized);
    TimesInserted(Inserted(s, es[k].p, Authorized), 0, Authorized);
  }

  /** Then a dispute has at most two holds: one, and one more if it was ever AUTHORIZED. */
  lemma AtMostTwoHolds(pct: int, es: seq<Event>, d: string)
    requires forall k :: 0 <= k < |es| ==> AuthorizesLast(pct, es, k, d)
    ensures var f := After(pct, es); var s := StatesOf(f, d);
      HoldCount(f.holds, d) + Unfinished(f, d, CreateTx) + Unfinished(f, d, AuthorizeTx)
      == One(s != []) + One(Authorized in s)
  {
    hide After, AuthorizesLast, HoldCount, HoldsFit;
    HoldsPerDispute(pct, es, d);
    AuthorizedAtMostOnce(pct, es, d, |es|);
    assert es[..|es|] == es;
  }

  // ---------------------------------------------------------------- releases and ACTIVE holds

  /**
   * In every run: a dispute's release entries total exactly its RELEASED holds, and no hold is
   * released twice.
   */
  lemma ReleasesConserve(pct: int, es: seq<Event>, d: string)
    ensures var f := After(pct, es);
      && EntryTotal(f.releases, d) == ReleasedTotal(f.holds, d)
      && (forall i, j :: 0 <= i < j < |f.releases| ==> f.releases[i].hold != f.releases[j].hold)
      && (forall i :: 0 <= i < |f.holds| && f.holds[i].status == Released ==> Named(f.releases, i))
  {
    RunsKeepInv(pct, es);
  }

  /** A finished release leaves the dispute's holds RELEASED and every other hold as it was. */
  lemma ReversalTouchesOnly(pct: int, f: Funds, d: string)
    requires (d, ReverseTx) in f.open && d in f.info
    ensures var g := Step(pct, f, Commit(d, ReverseTx));
      && |g.holds| == |f.holds| && !HasActive(g.holds, d)
      && (forall i :: 0 <= i < |f.holds| && f.holds[i].dispute != d ==> g.holds[i] == f.holds[i])
      && EntryTotal(g.releases, d)
         == EntryTotal(f.releases, d) + ReleasedTotal(g.holds, d) - ReleasedTotal(f.holds, d)
      && g.reserves == f.reserves && g.states == f.states
  {
    hide HoldCount, HasActive, ReleasedTotal, EntryTotal, NewReleases, ReleasedHolds;
    ReleasedEach(f.holds, d);
    ActiveAfterRelease(f.holds, d, d);
    CountReleased(f.holds, d, d);
    EntryConcat(f.releases, NewReleases(f.holds, d), d);
  }

  /** Step `k` commits a hold of `d`. */
  predicate HoldMade(pct: int, es: seq<Event>, k: int, d: string) {
    0 <= k < |es| && es[k].Commit? && es[k].d == d && es[k].kind != ReverseTx &&
    var f := After(pct, es[..k]); (d, es[k].kind) in f.open && d in f.info
  }

  /** Step `k` commits a release of the holds of `d`. */
  predicate ReleaseMade(pct: int, es: seq<Event>, k: int, d: string) {
    0 <= k < |es| && es[k] == Commit(d, ReverseTx) &&
    var f := After(pct, es[..k]); (d, ReverseTx) in f.open && d in f.info
  }

  /** Step `k` commits a hold that no later step releases. */
  ghost predicate StandingHold(pct: int, es: seq<Event>, k: int, d: string) {
    HoldMade(pct, es, k, d) && forall j :: k < j < |es| ==> !ReleaseMade(pct, es, j, d)
  }

  lemma SameEarlier(pct: int, es: seq<Event>, d: string)
    requires es != []
    ensures var n := |es| - 1; forall k :: 0 <= k < n ==>
      && (HoldMade(pct, es, k, d) <==> HoldMade(pct, es[..n], k, d))
      && (ReleaseMade(pct, es, k, d) <==> ReleaseMade(pct, es[..n], k, d))
  {
    hide After;
    var n := |es| - 1;
    forall k | 0 <= k < n ensures es[..n][..k] == es[..k] && es[..n][k] == es[k] {}
  }

  lemma ActiveStep(pct: int, f: Funds, e: Event, d: string)
    ensures var hit := e.Commit? && e.d == d && (d, e.kind) in f.open && d in f.info;
      HasActive(Step(pct, f, e).holds, d) <==>
        if hit && e.kind == ReverseTx then false else HasActive(f.holds, d) || hit
  {
    hide HasActive, RoundedReserve, ReleasedHolds, NewReleases, Inserted;
    if e.Commit? && (e.d, e.kind) in f.open && e.d in f.info {
      if e.kind == ReverseTx {
        ActiveAfterRelease(f.holds, e.d, d);
      } else {
        ActiveAfterHold(f.holds, HoldFor(e.d, f.info[e.d]), d);
      }
    }
  }

  /**
   * In every run a dispute has an ACTIVE hold exactly when some hold was committed after which no release
   * was. For any interleaving, any failures and any landings.
   */
  lemma {:induction false} ActiveIff(pct: int, es: seq<Event>, d: string)
    ensures HasActive(After(pct, es).holds, d) <==> exists k :: StandingHold(pct, es, k, d)
    decreases |es|
  {
    hide HasActive, Step, HoldMade, ReleaseMade;
    if es == [] {
      NothingActive(d);
      assert forall k :: !StandingHold(pct, es, k, d) by { NothingMade(pct, d); }
    } else {
      var n := |es| - 1;
      ActiveIff(pct, es[..n], d);
      ActiveStep(pct, After(pct, es[..n]), es[n], d);
      LastMade(pct, es, d);
      StandingStep(pct, es, d);
    }
  }

  lemma NothingMade(pct: int, d: string)
    ensures forall k :: !HoldMade(pct, [], k, d)
  {}

  lemma StandingBefore(pct: int, es: seq<Event>, k: int, d: string)
    requires es != [] && StandingHold(pct, es, k, d) && k < |es| - 1
    ensures StandingHold(pct, es[..|es| - 1], k, d) && !ReleaseMade(pct, es, |es| - 1, d)
  {
    SameEarlier(pct, es, d);
    InRange(pct, es, k, d);
    hide HoldMade, ReleaseMade, After;
    assert forall j :: k < j < |es| - 1 ==> !ReleaseMade(pct, es, j, d);
  }

  lemma StillStanding(pct: int, es: seq<Event>, k: int, d: string)
    requires es != [] && StandingHold(pct, es[..|es| - 1], k, d) && !ReleaseMade(pct, es, |es| - 1, d)
    ensures StandingHold(pct, es, k, d)
  {
    SameEarlier(pct, es, d);
    InRange(pct, es[..|es| - 1], k, d);
    hide HoldMade, ReleaseMade, After;
    forall j | k < j < |es| ensures !ReleaseMade(pct, es, j, d) {
      if j < |es| - 1 { assert !ReleaseMade(pct, es[..|es| - 1], j, d); }
    }
  }

  lemma StandingLast(pct: int, es: seq<Event>, k: int, d: string)
    ensures StandingHold(pct, es, k, d) ==> 0 <= k < |es| && HoldMade(pct, es, k, d)
    ensures k == |es| - 1 && HoldMade(pct, es, k, d) ==> StandingHold(pct, es, k, d)
  {
    InRange(pct, es, k, d);
    hide HoldMade, ReleaseMade, After;
  }

  lemma StandingStep(pct: int, es: seq<Event>, d: string)
    requires es != []
    ensures var n := |es| - 1;
      (exists k :: StandingHold(pct, es, k, d)) <==>
      if ReleaseMade(pct, es, n, d) then false
      else HoldMade(pct, es, n, d) || exists k :: StandingHold(pct, es[..n], k, d)
  {
    var n := |es| - 1;
    NotBoth(pct, es, n, d);
    StandingLast(pct, es, n, d);
    hide HoldMade, ReleaseMade, StandingHold, After;
    if k :| StandingHold(pct, es, k, d) {
      StandingLast(pct, es, k, d);
      if k < n { StandingBefore(pct, es, k, d); }
    }
    if k :| StandingHold(pct, es[..n], k, d) && !ReleaseMade(pct, es, n, d) { StillStanding(pct, es, k, d); }
  }

  lemma NotBoth(pct: int, es: seq<Event>, k: int, d: string)
    ensures !(HoldMade(pct, es, k, d) && ReleaseMade(pct, es, k, d))
  {}

  lemma NothingActive(d: string)
    ensures !HasActive(NO_FUNDS.holds, d)
  {}

  lemma InRange(pct: int, es: seq<Event>, k: int, d: string)
    ensures HoldMade(pct, es, k, d) || ReleaseMade(pct, es, k, d) ==> 0 <= k < |es|
  {}

  lemma LastMade(pct: int, es: seq<Event>, d: string)
    requires es != []
    ensures var n := |es| - 1; var f := After(pct, es[..n]);
      && After(pct, es) == Step(pct, f, es[n])
      && (HoldMade(pct, es, n, d) <==>
            es[n].Commit? && es[n].d == d && es[n].kind != ReverseTx && (d, es[n].kind) in f.open && d in f.info)
      && (ReleaseMade(pct, es, n, d) <==> es[n] == Commit(d, ReverseTx) && (d, ReverseTx) in f.open && d in f.info)
  {
    hide Step;
  }
}
