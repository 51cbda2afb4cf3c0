/**
 * Dispute state transitions: a read and an insert as two separate steps, Go checks on the read and
 * an insert trigger on the table, for any number of concurrent requests.
 */
module Transitions {
  import opened Prelude
  import opened Hashing

  /** `Blank` is the empty string of a dispute with no history. */
  datatype DisputeState = Blank | Pending | Authorized | Settled | Disputed | Reversed | Unknown(name: string)

  function Text(s: DisputeState): string {
    match s
    case Blank => "" case Pending => "PENDING" case Authorized => "AUTHORIZED" case Settled => "SETTLED"
    case Disputed => "DISPUTED" case Reversed => "REVERSED" case Unknown(name) => name
  }

  function AllowedTransitions(from: DisputeState): seq<DisputeState> {
    match from
    case Pending => [Authorized, Reversed]
    case Authorized => [Settled, Reversed]
    case Settled => [Disputed, Reversed]
    case Disputed => [Reversed]
    case Reversed => []
    case Blank => []
    case Unknown(_) => []
  }

  predicate Allowed(from: DisputeState, to: DisputeState) { to in AllowedTransitions(from) }

  method IsValidTransition(from: DisputeState, to: DisputeState) returns (ok: bool)
    ensures ok <==> Allowed(from, to)
  {
    var allowed := AllowedTransitions(from);
    for i := 0 to |allowed|
      invariant to !in allowed[..i]
    {
      if allowed[i] == to { return true; }
    }
    ok := false;
  }

  datatype Operation = Authorize | Settle | Dispute | Reverse | Create | NoOperation

  predicate ValidateOperation(state: DisputeState, op: Operation) {
    match op
    case Authorize => state == Pending
    case Settle => state == Authorized
    case Dispute => state == Settled
    case Reverse => state in [Disputed, Settled, Authorized, Pending]
    case Create => state == Blank
    case NoOperation => false
  }

  function OperationFor(to: DisputeState): Operation {
    match to
    case Authorized => Authorize case Settled => Settle case Disputed => Dispute case Reversed => Reverse
    case _ => NoOperation
  }

  /** The table check of the insert trigger, for a dispute that has a latest state. */
  predicate TriggerAllows(latest: DisputeState, to: DisputeState) {
    match latest
    case Pending => to in {Authorized, Reversed}
    case Authorized => to in {Settled, Reversed}
    case Settled => to in {Disputed, Reversed}
    case Disputed => to == Reversed
    case _ => false
  }

  /** The check on updates of the disputes table. */
  predicate StatusUpdateAllowed(from: DisputeState, to: DisputeState) {
    match from
    case Pending => to in {Authorized, Reversed}
    case Authorized => to in {Settled, Reversed}
    case Settled => to in {Disputed, Reversed}
    case Disputed => to in {Reversed}
    case _ => false
  }

  function Rank(s: DisputeState): int {
    match s
    case Pending => 1 case Authorized => 2 case Settled => 3 case Disputed => 4 case Reversed => 5
    case _ => 0
  }

  /** The Go table, the operation table and both SQL tables say the same, and every step raises the rank. */
  lemma TablesAgree(from: DisputeState, to: DisputeState)
    ensures Allowed(from, to) <==> TriggerAllows(from, to)
    ensures Allowed(from, to) <==> StatusUpdateAllowed(from, to)
    ensures Allowed(from, to) <==> ValidateOperation(from, OperationFor(to))
    ensures Allowed(from, to) ==> 1 <= Rank(from) < Rank(to) <= 5
    ensures Allowed(from, to) && to != Reversed ==> Rank(from) == Rank(to) - 1
  {}

  // ---------------------------------------------------------------- rows and their order

  /**
   * One transition row. `hashedAt` is the clock text that went into `hash`; the code reads the clock
   * for it separately from `at`, the recorded creation time.
   */
  datatype Row = Row(id: int, disputeId: string, from: DisputeState, to: DisputeState, reason: string,
                     createdBy: string, at: int, hashedAt: string, prevHash: string, hash: string)

  /** The order of the latest-row queries: creation time, then row id. The history query ignores the id. */
  predicate Before(a: Row, b: Row) { a.at < b.at || (a.at == b.at && a.id < b.id) }

  /** Where a new row appears in its dispute's ordered history. */
  function Placed(h: seq<Row>, r: Row): seq<Row> {
    if h == [] then [r] else
    var n := |h| - 1;
    if Before(h[n], r) then h + [r] else Placed(h[..n], r) + [h[n]]
  }

  function HashInput(r: Row, time: string): string {
    r.disputeId + "|" + Text(r.from) + "|" + Text(r.to) + "|" + r.reason + "|" + r.createdBy + "|" +
    time + "|" + r.prevHash
  }

  type Table = map<string, seq<Row>>

  function History(t: Table, d: string): seq<Row> { if d in t then t[d] else [] }

  function LatestState(h: seq<Row>): DisputeState { if h == [] then Blank else h[|h| - 1].to }

  function LatestHash(h: seq<Row>): string { if h == [] then "" else h[|h| - 1].hash }

  datatype Request = Request(disputeId: string, to: DisputeState, reason: string, createdBy: string)

  /** The row of a request that names `from` and `prev`, with its hash over the clock text `hashedAt`. */
  function NewRow(hash: Hash, req: Request, id: int, at: int, hashedAt: string, from: DisputeState, prev: string): Row {
    var r := Row(id, req.disputeId, from, req.to, req.reason, req.createdBy, at, hashedAt, prev, "");
    r.(hash := hash(HashInput(r, hashedAt)))
  }

  /** The Go side: read the latest row unless the target is PENDING, check, and build the new row. */
  function Prepare(hash: Hash, h: seq<Row>, req: Request, id: int, at: int, hashedAt: string): Option<Row> {
    if req.disputeId == "" || req.to == Blank || req.createdBy == "" then None else
    var from := if req.to == Pending then Blank else LatestState(h);
    var prev := if req.to == Pending then "" else LatestHash(h);
    if req.to != Pending && !(Allowed(from, req.to) && ValidateOperation(from, OperationFor(req.to))) then None else
    Some(NewRow(hash, req, id, at, hashedAt, from, prev))
  }

  /** The database side: column checks and the sequence trigger. */
  predicate Accepts(h: seq<Row>, r: Row) {
    && Rank(r.to) >= 1 && r.reason != ""
    && (forall i :: 0 <= i < |h| ==> h[i].id != r.id)
    && if h == [] then r.from in {Blank, Pending} else TriggerAllows(LatestState(h), r.to)
  }

  // ---------------------------------------------------------------- the protocol

  datatype Sys = Sys(table: Table, inflight: set<Row>)

  datatype Step =
    | Begin(req: Request, id: int, at: int, hashedAt: string)
    | Finish(row: Row)
    | Crash(row: Row)

  const START := Sys(map[], {})

  function Next(hash: Hash, s: Sys, e: Step): Sys {
    match e
    case Begin(req, id, at, hashedAt) =>
      (match Prepare(hash, History(s.table, req.disputeId), req, id, at, hashedAt)
       case None => s
       case Some(r) => s.(inflight := s.inflight + {r}))
    case Finish(r) =>
      if r !in s.inflight then s
      else if !Accepts(History(s.table, r.disputeId), r) then s.(inflight := s.inflight - {r})
      else Sys(s.table[r.disputeId := Placed(History(s.table, r.disputeId), r)], s.inflight - {r})
    case Crash(r) => s.(inflight := s.inflight - {r})
  }

  function After(hash: Hash, run: seq<Step>): Sys {
    if run == [] then START else Next(hash, After(hash, run[..|run| - 1]), run[|run| - 1])
  }

  /** The history starts at PENDING and follows the allowed transitions. */
  predicate Good(h: seq<Row>) {
    h != [] ==>
      && h[0].to == Pending
      && forall i :: 0 <= i < |h| - 1 ==> Allowed(h[i].to, h[i + 1].to)
  }

  ghost predicate AllGood(t: Table) { forall d :: d in t ==> Good(t[d]) }

  /** Ranks rise along a good history: at most five rows, and nothing follows REVERSED. */
  lemma {:induction false} RanksRise(h: seq<Row>, i: int, j: int)
    requires Good(h) && 0 <= i <= j < |h|
    ensures Rank(h[i].to) + (j - i) <= Rank(h[j].to) <= 5 && 1 + i <= Rank(h[i].to)
    decreases j
  {
    if j > 0 {
      TablesAgree(h[j - 1].to, h[j].to);
      assert h[j] == h[j - 1 + 1];
      if i < j { RanksRise(h, i, j - 1); } else { RanksRise(h, 0, j - 1); }
    }
  }

  lemma GoodHistoryIsShort(h: seq<Row>)
    requires Good(h)
    ensures |h| <= 5
    ensures forall i :: 0 <= i < |h| && h[i].to == Reversed ==> i == |h| - 1
    ensures forall i, j :: 0 <= i < j < |h| ==> h[i].to != h[j].to
  {
    if h != [] { RanksRise(h, 0, |h| - 1); }
    forall i | 0 <= i < |h| && h[i].to == Reversed ensures i == |h| - 1 { RanksRise(h, i, |h| - 1); }
    forall i, j | 0 <= i < j < |h| ensures h[i].to != h[j].to { RanksRise(h, i, j); }
  }

  /** A prepared row either starts a dispute, or continues some row its dispute already has. */
  ghost predicate Backed(h: seq<Row>, r: Row) {
    || (r.to == Pending && r.from == Blank && r.prevHash == "")
    || (Allowed(r.from, r.to) && exists k :: 0 <= k < |h| && h[k].to == r.from && h[k].hash == r.prevHash)
  }

  ghost predicate AllBacked(s: Sys) { forall r :: r in s.inflight ==> Backed(History(s.table, r.disputeId), r) }

  /** How many rows of its history come before a new row. */
  function Position(h: seq<Row>, r: Row): (p: nat)
    ensures p <= |h|
  {
    if h == [] || Before(h[|h| - 1], r) then |h| else Position(h[..|h| - 1], r)
  }

  lemma {:induction false} PlacedForm(h: seq<Row>, r: Row)
    ensures Placed(h, r) == h[..Position(h, r)] + [r] + h[Position(h, r)..]
    ensures Position(h, r) == |h| <==> LandsLast(h, r)
    decreases |h|
  {
    if !(h == [] || Before(h[|h| - 1], r)) {
      var n := |h| - 1;
      PlacedForm(h[..n], r);
      var p := Position(h[..n], r);
      assert h[..n][..p] == h[..p] && h[..n][p..] + [h[n]] == h[p..];
    }
  }

  /** Whether an accepted row lands at the end of its history. */
  predicate LandsLast(h: seq<Row>, r: Row) { h == [] || Before(h[|h| - 1], r) }

  /** One accepted insert keeps a good history good exactly when its row lands last. */
  lemma InsertGoodIffLast(h: seq<Row>, r: Row)
    requires Good(h) && Backed(h, r) && Accepts(h, r)
    ensures Good(Placed(h, r)) <==> LandsLast(h, r)
  {
    var p := Position(h, r);
    PlacedForm(h, r);
    var h' := Placed(h, r);
    if h != [] { TablesAgree(LatestState(h), r.to); }
    if LandsLast(h, r) {
      assert h' == h + [r];
      forall i | 0 <= i < |h'| - 1 ensures Allowed(h'[i].to, h'[i + 1].to) {
        if i < |h| - 1 { assert h'[i] == h[i] && h'[i + 1] == h[i + 1]; }
      }
    } else if Good(h') {
      assert h'[p] == r && h'[p + 1] == h[p] && Allowed(h'[p].to, h'[p + 1].to);
      TablesAgree(r.to, h[p].to);
      RanksRise(h, p, |h| - 1);
      assert false;
    }
  }

  lemma PlacedKeepsBacked(h: seq<Row>, r: Row, other: Row)
    requires Backed(h, other)
    ensures Backed(Placed(h, r), other)
  {
    var p := Position(h, r);
    PlacedForm(h, r);
    if !(other.to == Pending && other.from == Blank && other.prevHash == "") {
      var k :| 0 <= k < |h| && h[k].to == other.from && h[k].hash == other.prevHash;
      var k' := if k < p then k else k + 1;
      assert Placed(h, r)[k'] == h[k];
    }
  }

  lemma PreparedIsBacked(hash: Hash, h: seq<Row>, req: Request, id: int, at: int, hashedAt: string)
    requires Prepare(hash, h, req, id, at, hashedAt).Some?
    ensures Backed(h, Prepare(hash, h, req, id, at, hashedAt).value)
  {
    var r := Prepare(hash, h, req, id, at, hashedAt).value;
    if req.to != Pending { assert h != [] && h[|h| - 1].to == r.from && h[|h| - 1].hash == r.prevHash; }
  }

  lemma NextKeepsBacked(hash: Hash, s: Sys, e: Step)
    requires AllBacked(s)
    ensures AllBacked(Next(hash, s, e))
  {
    hide Backed, Prepare, Accepts, Placed;
    var s' := Next(hash, s, e);
    forall r | r in s'.inflight ensures Backed(History(s'.table, r.disputeId), r) {
      match e
      case Begin(req, id, at, hashedAt) =>
        if r !in s.inflight {
          PreparedIsBacked(hash, History(s.table, req.disputeId), req, id, at, hashedAt);
          PreparedFields(hash, History(s.table, req.disputeId), req, id, at, hashedAt);
        }
      case Finish(x) =>
        if r.disputeId == x.disputeId { PlacedKeepsBacked(History(s.table, x.disputeId), x, r); }
      case Crash(_) =>
    }
  }

  lemma PreparedFields(hash: Hash, h: seq<Row>, req: Request, id: int, at: int, hashedAt: string)
    requires Prepare(hash, h, req, id, at, hashedAt).Some?
    ensures var r := Prepare(hash, h, req, id, at, hashedAt).value;
      && r.disputeId == req.disputeId && r.hash == hash(HashInput(r, r.hashedAt))
      && r.at == at && r.id == id && r.to == req.to && r.hashedAt == hashedAt
  {}

  lemma {:induction false} RunsStayBacked(hash: Hash, run: seq<Step>)
    ensures AllBacked(After(hash, run))
    decreases |run|
  {
    hide Next, AllBacked;
    if run != [] {
      RunsStayBacked(hash, run[..|run| - 1]);
      NextKeepsBacked(hash, After(hash, run[..|run| - 1]), run[|run| - 1]);
    } else {
      StartBacked();
    }
  }

  lemma StartBacked()
    ensures AllBacked(START)
  {}

  /** An insert that the database will take. */
  predicate TakesEffect(s: Sys, e: Step) {
    e.Finish? && e.row in s.inflight && Accepts(History(s.table, e.row.disputeId), e.row)
  }

  /** The k-th step of the run, if it is an accepted insert, lands last in its dispute's history. */
  predicate StepInOrder(hash: Hash, run: seq<Step>, k: int)
    requires 0 <= k < |run|
  {
    var s := After(hash, run[..k]);
    TakesEffect(s, run[k]) ==> LandsLast(History(s.table, run[k].row.disputeId), run[k].row)
  }

  lemma NextGoodIffInOrder(hash: Hash, s: Sys, e: Step)
    requires AllBacked(s) && AllGood(s.table)
    ensures AllGood(Next(hash, s, e).table) <==>
      (TakesEffect(s, e) ==> LandsLast(History(s.table, e.row.disputeId), e.row))
  {
    hide Good, Backed, Accepts, Placed, Prepare, LandsLast;
    if TakesEffect(s, e) {
      var h := History(s.table, e.row.disputeId);
      assert Good(h) by { GoodEmpty(); }
      InsertGoodIffLast(h, e.row);
      assert Next(hash, s, e).table[e.row.disputeId] == Placed(h, e.row);
    }
  }

  lemma GoodEmpty()
    ensures Good([])
  {}

  lemma AfterStep(hash: Hash, run: seq<Step>, k: int)
    requires 0 <= k < |run|
    ensures After(hash, run[..k + 1]) == Next(hash, After(hash, run[..k]), run[k])
  {
    hide Next;
    assert run[..k + 1][..k] == run[..k];
  }

  /**
   * For any number of concurrent requests on any number of disputes: every state of a run has only
   * good histories if and only if every accepted insert landed last in its dispute's history.
   */
  lemma HistoriesGoodIffInOrder(hash: Hash, run: seq<Step>)
    ensures (forall k :: 0 <= k <= |run| ==> AllGood(After(hash, run[..k]).table)) <==>
            (forall k :: 0 <= k < |run| ==> StepInOrder(hash, run, k))
  {
    hide Next, After, AllGood, TakesEffect, LandsLast;
    if forall k :: 0 <= k <= |run| ==> AllGood(After(hash, run[..k]).table) {
      forall k | 0 <= k < |run| ensures StepInOrder(hash, run, k) {
        RunsStayBacked(hash, run[..k]);
        AfterStep(hash, run, k);
        assert AllGood(After(hash, run[..k]).table) && AllGood(After(hash, run[..k + 1]).table);
        NextGoodIffInOrder(hash, After(hash, run[..k]), run[k]);
      }
    }
    if forall k :: 0 <= k < |run| ==> StepInOrder(hash, run, k) {
      InOrderPrefixesGood(hash, run, |run|);
    }
  }

  lemma {:induction false} InOrderPrefixesGood(hash: Hash, run: seq<Step>, n: int)
    requires 0 <= n <= |run| && forall k :: 0 <= k < n ==> StepInOrder(hash, run, k)
    ensures forall k :: 0 <= k <= n ==> AllGood(After(hash, run[..k]).table)
    decreases n
  {
    hide Next, AllGood, TakesEffect, LandsLast;
    if n == 0 {
      assert AllGood(START.table) by { StartGood(); }
    } else {
      InOrderPrefixesGood(hash, run, n - 1);
      RunsStayBacked(hash, run[..n - 1]);
      AfterStep(hash, run, n - 1);
      assert StepInOrder(hash, run, n - 1) && AllGood(After(hash, run[..n - 1]).table);
      NextGoodIffInOrder(hash, After(hash, run[..n - 1]), run[n - 1]);
    }
  }

  lemma StartGood()
    ensures AllGood(START.table)
  {}

  /**
   * While inserts land last, every dispute's states start at PENDING, follow the allowed transitions,
   * never repeat, number at most five, and end at REVERSED once it is reached.
   */
  lemma ConcurrentHistories(hash: Hash, run: seq<Step>, d: string)
    requires forall k :: 0 <= k < |run| ==> StepInOrder(hash, run, k)
    ensures var h := History(After(hash, run).table, d);
      && Good(h) && |h| <= 5
      && (forall i :: 0 <= i < |h| && h[i].to == Reversed ==> i == |h| - 1)
      && (forall i, j :: 0 <= i < j < |h| ==> h[i].to != h[j].to)
  {
    hide StepInOrder, Next, After, Good;
    HistoriesGoodIffInOrder(hash, run);
    assert run[..|run|] == run;
    assert AllGood(After(hash, run[..|run|]).table);
    GoodEmpty();
    GoodHistoryIsShort(History(After(hash, run).table, d));
  }

  function Asking(to: DisputeState): Request { Request("d", to, "x", "u") }

  /** Two requests prepared together and inserted against their creation times reopen a reversed dispute. */
  lemma LateInsertReopensReversed(hash: Hash)
    ensures var p := NewRow(hash, Asking(Pending), 1, 1, "t", Blank, "");
      var a := NewRow(hash, Asking(Authorized), 3, 5, "t", Pending, p.hash);
      var r := NewRow(hash, Asking(Reversed), 2, 4, "t", Pending, p.hash);
      && Prepare(hash, [p], Asking(Authorized), 3, 5, "t") == Some(a)
      && Prepare(hash, [p], Asking(Reversed), 2, 4, "t") == Some(r)
      && Accepts([p], a) && Placed([p], a) == [p, a]
      && Accepts([p, a], r) && Placed([p, a], r) == [p, r, a]
      && !Good([p, r, a])
      && Prepare(hash, [p, r, a], Asking(Settled), 4, 6, "t").Some?
  {
    hide HashInput;
    var p := NewRow(hash, Asking(Pending), 1, 1, "t", Blank, "");
    var a := NewRow(hash, Asking(Authorized), 3, 5, "t", Pending, p.hash);
    var r := NewRow(hash, Asking(Reversed), 2, 4, "t", Pending, p.hash);
    assert [p, a][..1] == [p];
    assert Placed([p], r) == [p, r];
    assert [p, r, a][1] == r && [p, r, a][1 + 1] == a;
    assert !Allowed(r.to, a.to);
  }

  // ---------------------------------------------------------------- links between rows

  /** Row `i` names the state and the hash of row `k`. */
  predicate Continues(h: seq<Row>, i: int, k: int)
    requires 0 <= k < |h| && 0 <= i < |h|
  {
    h[i].from == h[k].to && h[i].prevHash == h[k].hash
  }

  predicate Opens(h: seq<Row>) { h != [] ==> h[0].from == Blank && h[0].prevHash == "" }

  /** Every row continues the one before it, except that a reversal may continue an earlier one. */
  ghost predicate LinkedButReversal(h: seq<Row>) {
    && Opens(h)
    && forall i :: 0 < i < |h| ==>
         Continues(h, i, i - 1) || (h[i].to == Reversed && exists k :: 0 <= k < i && Continues(h, i, k))
  }

  ghost predicate AllLinked(t: Table) { forall d :: d in t ==> LinkedButReversal(t[d]) }

  lemma AppendKeepsLinks(h: seq<Row>, r: Row)
    requires Good(h) && LinkedButReversal(h) && Backed(h, r) && Accepts(h, r)
    ensures LinkedButReversal(h + [r])
  {
    var h' := h + [r];
    forall i | 0 < i < |h'|
      ensures Continues(h', i, i - 1) || (h'[i].to == Reversed && exists k :: 0 <= k < i && Continues(h', i, k))
    {
      if i < |h| {
        assert Continues(h, i, i - 1) || (h[i].to == Reversed && exists k :: 0 <= k < i && Continues(h, i, k));
        if !Continues(h, i, i - 1) {
          var k :| 0 <= k < i && Continues(h, i, k);
          assert Continues(h', i, k);
        }
      } else {
        LastLinks(h, r);
        var k :| 0 <= k < |h| && h[k].to == r.from && h[k].hash == r.prevHash && (r.to == Reversed || k == |h| - 1);
        assert Continues(h', i, k);
      }
    }
  }

  lemma LastLinks(h: seq<Row>, r: Row)
    requires Good(h) && h != [] && Backed(h, r) && Accepts(h, r)
    ensures exists k ::
      0 <= k < |h| && h[k].to == r.from && h[k].hash == r.prevHash && (r.to == Reversed || k == |h| - 1)
  {
    TablesAgree(LatestState(h), r.to);
    var k :| 0 <= k < |h| && h[k].to == r.from && h[k].hash == r.prevHash;
    TablesAgree(r.from, r.to);
    RanksRise(h, k, |h| - 1);
  }

  lemma NextKeepsLinks(hash: Hash, s: Sys, e: Step)
    requires AllBacked(s) && AllGood(s.table) && AllLinked(s.table)
    requires TakesEffect(s, e) ==> LandsLast(History(s.table, e.row.disputeId), e.row)
    ensures AllLinked(Next(hash, s, e).table)
  {
    hide Good, Backed, Accepts, Prepare, LinkedButReversal;
    if TakesEffect(s, e) {
      var h := History(s.table, e.row.disputeId);
      GoodEmpty();
      assert LinkedButReversal(h) by { LinkedEmpty(); }
      AppendKeepsLinks(h, e.row);
      assert Placed(h, e.row) == h + [e.row];
    }
  }

  lemma LinkedEmpty()
    ensures LinkedButReversal([])
  {}

  /** While inserts land last, a row can name a stale predecessor only if it is a reversal. */
  lemma {:induction false} OnlyReversalsAreStale(hash: Hash, run: seq<Step>)
    requires forall k :: 0 <= k < |run| ==> StepInOrder(hash, run, k)
    ensures AllLinked(After(hash, run).table)
    decreases |run|
  {
    hide Next, AllGood, AllLinked, TakesEffect, LandsLast;
    if run == [] {
      StartLinked();
    } else {
      var n := |run| - 1;
      var pre := run[..n];
      forall k | 0 <= k < n ensures StepInOrder(hash, pre, k) {
        assert StepInOrder(hash, run, k) && pre[..k] == run[..k];
      }
      OnlyReversalsAreStale(hash, pre);
      InOrderPrefixesGood(hash, pre, n);
      assert pre[..n] == pre;
      RunsStayBacked(hash, pre);
      assert StepInOrder(hash, run, n) && AllGood(After(hash, pre[..n]).table);
      NextKeepsLinks(hash, After(hash, pre), run[n]);
    }
  }

  lemma StartLinked()
    ensures AllLinked(START.table)
  {}

  // ---------------------------------------------------------------- one request at a time

  /** A call with what it draws: the row's id, its creation time and the clock text it hashes. */
  datatype Call = Call(req: Request, id: int, at: int, hashedAt: string)

  /** The row that a call inserts with nothing in between its read and its insert, if it succeeds. */
  function Answer(hash: Hash, t: Table, c: Call): Option<Row> {
    var h := History(t, c.req.disputeId);
    var r := Prepare(hash, h, c.req, c.id, c.at, c.hashedAt);
    if r.Some? && Accepts(h, r.value) then r else None
  }

  function Serve(hash: Hash, t: Table, c: Call): Table {
    match Answer(hash, t, c)
    case None => t
    case Some(r) => t[c.req.disputeId := Placed(History(t, c.req.disputeId), r)]
  }

  /**
   * The call's fields are filled, its row id is new, and its target state is PENDING for a dispute without
   * rows and one the table allows after the latest state for any other.
   */
  predicate CanAnswer(h: seq<Row>, c: Call) {
    && c.req.disputeId != "" && c.req.createdBy != "" && c.req.reason != ""
    && (forall i :: 0 <= i < |h| ==> h[i].id != c.id)
    && (if h == [] then c.req.to == Pending else c.req.to in AllowedTransitions(h[|h| - 1].to))
  }

  /** The row says what was asked, and its hash is over the seven texts joined by bars. */
  predicate RowSays(hash: Hash, r: Row, c: Call) {
    && r.disputeId == c.req.disputeId && r.to == c.req.to && r.reason == c.req.reason
    && r.createdBy == c.req.createdBy && r.id == c.id && r.at == c.at
    && r.hash == hash(c.req.disputeId + "|" + Text(r.from) + "|" + Text(c.req.to) + "|" + c.req.reason + "|" +
                      c.req.createdBy + "|" + c.hashedAt + "|" + r.prevHash)
  }

  /** A call succeeds exactly when it can be answered, with a row that says what was asked. */
  lemma AnsweredIff(hash: Hash, t: Table, c: Call)
    ensures Answer(hash, t, c).Some? <==> CanAnswer(History(t, c.req.disputeId), c)
    ensures Answer(hash, t, c).Some? ==> RowSays(hash, Answer(hash, t, c).value, c)
  {
    var h := History(t, c.req.disputeId);
    if h != [] { TablesAgree(h[|h| - 1].to, c.req.to); }
  }

  /** The call's row, if it is inserted, lands last in its dispute's history. */
  predicate CallInOrder(hash: Hash, t: Table, c: Call) {
    var r := Answer(hash, t, c);
    r.Some? ==> LandsLast(History(t, c.req.disputeId), r.value)
  }

  predicate FollowsOn(h: seq<Row>, i: int)
    requires 0 < i < |h|
  {
    Continues(h, i, i - 1)
  }

  /** Every row continues the one before it. */
  predicate FullyLinked(h: seq<Row>) {
    Opens(h) && forall i :: 0 < i < |h| ==> FollowsOn(h, i)
  }

  /** Every hash is the one computed over the row at its hash time. */
  predicate Hashed(hash: Hash, h: seq<Row>) {
    forall i :: 0 <= i < |h| ==> h[i].hash == hash(HashInput(h[i], h[i].hashedAt))
  }

  predicate Chain(hash: Hash, h: seq<Row>) { Good(h) && FullyLinked(h) && Hashed(hash, h) }

  predicate AllChains(hash: Hash, t: Table) { forall d :: d in t ==> Chain(hash, t[d]) }

  /** One call keeps the chains exactly when its row lands last; then the row continues the latest one. */
  lemma ServeKeepsChainsIff(hash: Hash, t: Table, c: Call)
    requires AllChains(hash, t)
    ensures AllChains(hash, Serve(hash, t, c)) <==> CallInOrder(hash, t, c)
    ensures var h := History(t, c.req.disputeId); var r := Answer(hash, t, c);
      r.Some? && LandsLast(h, r.value) ==>
        Placed(h, r.value) == h + [r.value] && r.value.prevHash == LatestHash(h) && r.value.from == LatestState(h)
  {
    hide HashInput, FollowsOn, Good, Prepare;
    var h := History(t, c.req.disputeId);
    var a := Answer(hash, t, c);
    if a.Some? {
      var r := a.value;
      PreparedIsBacked(hash, h, c.req, c.id, c.at, c.hashedAt);
      PreparedFields(hash, h, c.req, c.id, c.at, c.hashedAt);
      ChainEmpty(hash);
      InsertGoodIffLast(h, r);
      AcceptedContinues(hash, h, c);
      assert Serve(hash, t, c)[c.req.disputeId] == Placed(h, r);
      if LandsLast(h, r) { AppendKeepsChain(hash, h, r); }
    }
  }

  lemma AcceptedContinues(hash: Hash, h: seq<Row>, c: Call)
    requires Prepare(hash, h, c.req, c.id, c.at, c.hashedAt).Some?
    requires Accepts(h, Prepare(hash, h, c.req, c.id, c.at, c.hashedAt).value)
    ensures var r := Prepare(hash, h, c.req, c.id, c.at, c.hashedAt).value;
      r.from == LatestState(h) && r.prevHash == LatestHash(h)
  {
    if h != [] { TablesAgree(LatestState(h), c.req.to); }
  }

  lemma AppendKeepsChain(hash: Hash, h: seq<Row>, r: Row)
    requires FullyLinked(h) && Hashed(hash, h) && r.hash == hash(HashInput(r, r.hashedAt))
    requires h == [] ==> r.from == Blank && r.prevHash == ""
    requires h != [] ==> r.from == LatestState(h) && r.prevHash == LatestHash(h)
    ensures FullyLinked(h + [r]) && Hashed(hash, h + [r])
  {
    var h' := h + [r];
    forall i | 0 < i < |h'| ensures FollowsOn(h', i) {
      if i < |h| { assert FollowsOn(h, i); }
    }
  }

  function ServeAll(hash: Hash, calls: seq<Call>): Table {
    if calls == [] then map[] else
    Serve(hash, ServeAll(hash, calls[..|calls| - 1]), calls[|calls| - 1])
  }

  predicate NthInOrder(hash: Hash, calls: seq<Call>, k: int)
    requires 0 <= k < |calls|
  {
    CallInOrder(hash, ServeAll(hash, calls[..k]), calls[k])
  }

  lemma ServeNth(hash: Hash, calls: seq<Call>, k: int)
    requires 0 <= k < |calls|
    ensures ServeAll(hash, calls[..k + 1]) == Serve(hash, ServeAll(hash, calls[..k]), calls[k])
  {
    hide Serve;
    assert calls[..k + 1][..k] == calls[..k];
  }

  /** For one-at-a-time calls, all rows chain at every point exactly when every inserted row landed last. */
  lemma SequentialCallsChain(hash: Hash, calls: seq<Call>)
    ensures (forall k :: 0 <= k <= |calls| ==> AllChains(hash, ServeAll(hash, calls[..k]))) <==>
            (forall k :: 0 <= k < |calls| ==> NthInOrder(hash, calls, k))
  {
    hide AllChains, CallInOrder, Serve, ServeAll;
    if forall k :: 0 <= k <= |calls| ==> AllChains(hash, ServeAll(hash, calls[..k])) {
      forall k | 0 <= k < |calls| ensures NthInOrder(hash, calls, k) {
        assert AllChains(hash, ServeAll(hash, calls[..k])) && AllChains(hash, ServeAll(hash, calls[..k + 1]));
        ServeNth(hash, calls, k);
        ServeKeepsChainsIff(hash, ServeAll(hash, calls[..k]), calls[k]);
      }
    }
    if forall k :: 0 <= k < |calls| ==> NthInOrder(hash, calls, k) { InOrderCallsChain(hash, calls, |calls|); }
  }

  lemma {:induction false} InOrderCallsChain(hash: Hash, calls: seq<Call>, n: int)
    requires 0 <= n <= |calls| && forall k :: 0 <= k < n ==> NthInOrder(hash, calls, k)
    ensures forall k :: 0 <= k <= n ==> AllChains(hash, ServeAll(hash, calls[..k]))
    decreases n
  {
    hide AllChains, CallInOrder, Serve, ServeAll;
    if n == 0 {
      NothingServed(hash);
      assert calls[..0] == [];
    } else {
      InOrderCallsChain(hash, calls, n - 1);
      assert NthInOrder(hash, calls, n - 1);
      ServeNth(hash, calls, n - 1);
      ServeKeepsChainsIff(hash, ServeAll(hash, calls[..n - 1]), calls[n - 1]);
    }
  }

  lemma NothingServed(hash: Hash)
    ensures ServeAll(hash, []) == map[] && AllChains(hash, map[])
  {}

  /** A stored row and the call that made it. */
  predicate MadeBy(r: Row, c: Call) {
    r.disputeId == c.req.disputeId && r.at == c.at && r.id == c.id && r.hashedAt == c.hashedAt
  }

  lemma PlacedRows(h: seq<Row>, r: Row, x: Row)
    ensures x in Placed(h, r) <==> x in h || x == r
  {
    PlacedForm(h, r);
    var p := Position(h, r);
    assert h == h[..p] + h[p..];
  }

  /** A row that a call adds to a history is the call's. */
  lemma ServedRow(hash: Hash, t: Table, c: Call, d: string, r: Row)
    requires r in History(Serve(hash, t, c), d) && r !in History(t, d)
    ensures r.disputeId == d && MadeBy(r, c)
  {
    hide Prepare, Accepts, Placed;
    var h := History(t, c.req.disputeId);
    PreparedFields(hash, h, c.req, c.id, c.at, c.hashedAt);
    PlacedRows(h, Answer(hash, t, c).value, r);
  }

  predicate MadeByOne(r: Row, calls: seq<Call>) { exists i :: 0 <= i < |calls| && MadeBy(r, calls[i]) }

  lemma MadeEarlier(r: Row, calls: seq<Call>, n: int)
    requires 0 <= n <= |calls| && MadeByOne(r, calls[..n])
    ensures MadeByOne(r, calls)
  {
    var i :| 0 <= i < n && MadeBy(r, calls[..n][i]);
    assert MadeBy(r, calls[i]);
  }

  lemma {:induction false} RowsAreCalls(hash: Hash, calls: seq<Call>, d: string)
    ensures forall r :: r in History(ServeAll(hash, calls), d) ==> r.disputeId == d && MadeByOne(r, calls)
    decreases |calls|
  {
    hide Serve, MadeBy, MadeByOne;
    if calls != [] {
      var n := |calls| - 1;
      var t := ServeAll(hash, calls[..n]);
      RowsAreCalls(hash, calls[..n], d);
      forall r | r in History(ServeAll(hash, calls), d) ensures r.disputeId == d && MadeByOne(r, calls) {
        if r in History(t, d) {
          MadeEarlier(r, calls, n);
        } else {
          ServedRow(hash, t, calls[n], d, r);
          MadeLast(r, calls, n);
        }
      }
    }
  }

  lemma MadeLast(r: Row, calls: seq<Call>, n: int)
    requires 0 <= n < |calls| && MadeBy(r, calls[n])
    ensures MadeByOne(r, calls)
  {}

  /** Calls of one dispute whose times advance insert in order, whatever other disputes do. */
  lemma AdvancingCallsChain(hash: Hash, calls: seq<Call>, k: int)
    requires 0 <= k < |calls|
    requires forall i :: 0 <= i < k && calls[i].req.disputeId == calls[k].req.disputeId ==> calls[i].at < calls[k].at
    ensures NthInOrder(hash, calls, k)
  {
    hide ServeAll, Accepts;
    var t, c := ServeAll(hash, calls[..k]), calls[k];
    var h := History(t, c.req.disputeId);
    if Answer(hash, t, c).Some? && h != [] {
      PreparedFields(hash, h, c.req, c.id, c.at, c.hashedAt);
      RowsAreCalls(hash, calls[..k], c.req.disputeId);
      assert h[|h| - 1] in h;
      var i :| 0 <= i < k && MadeBy(h[|h| - 1], calls[..k][i]);
      assert calls[i] == calls[..k][i];
    }
  }

  // ---------------------------------------------------------------- verifying a chain

  /** The check of the stored hashes against the clock texts read while verifying. */
  predicate ChainVerifies(hash: Hash, h: seq<Row>, clock: seq<string>)
    requires |clock| == |h|
  {
    forall i :: 0 <= i < |h| ==>
      (i > 0 ==> h[i].prevHash == h[i - 1].hash) && h[i].hash == hash(HashInput(h[i], clock[i]))
  }

  ghost function VerifiedInputs(h: seq<Row>, clock: seq<string>): set<string>
    requires |clock| == |h|
  {
    (set i | 0 <= i < |h| :: HashInput(h[i], clock[i])) + (set i | 0 <= i < |h| :: HashInput(h[i], h[i].hashedAt))
  }

  lemma SameMiddle(p: string, x: string, y: string, s: string)
    requires p + x + s == p + y + s
    ensures x == y
  {
    assert |x| == |y|;
    assert (p + x + s)[|p|..|p| + |x|] == x;
    assert (p + y + s)[|p|..|p| + |y|] == y;
  }

  lemma TimeIsHashed(r: Row, x: string, y: string)
    requires HashInput(r, x) == HashInput(r, y)
    ensures x == y
  {
    var p := r.disputeId + "|" + Text(r.from) + "|" + Text(r.to) + "|" + r.reason + "|" + r.createdBy + "|";
    var s := "|" + r.prevHash;
    assert HashInput(r, x) == p + x + s && HashInput(r, y) == p + y + s;
    SameMiddle(p, x, y, s);
  }

  /**
   * A chain built one call at a time verifies if and only if each clock text read while verifying is
   * the text that was hashed when the row was made.
   */
  lemma VerifiesIffSameTimes(hash: Hash, h: seq<Row>, clock: seq<string>)
    requires |clock| == |h| && Chain(hash, h) && CollisionFree(hash, VerifiedInputs(h, clock))
    ensures ChainVerifies(hash, h, clock) <==> forall i :: 0 <= i < |h| ==> clock[i] == h[i].hashedAt
  {
    hide HashInput;
    forall i | 0 <= i < |h| ensures h[i].hash == hash(HashInput(h[i], clock[i])) <==> clock[i] == h[i].hashedAt {
      var x, y := HashInput(h[i], clock[i]), HashInput(h[i], h[i].hashedAt);
      assert x in VerifiedInputs(h, clock) && y in VerifiedInputs(h, clock);
      if hash(x) == hash(y) { TimeIsHashed(h[i], clock[i], h[i].hashedAt); }
    }
    forall i | 0 < i < |h| ensures h[i].prevHash == h[i - 1].hash { assert FollowsOn(h, i); }
  }

  /** Readings that all differ from the hashed ones, as on an advancing clock, reject all but the empty chain. */
  lemma FreshReadingsReject(hash: Hash, h: seq<Row>, clock: seq<string>)
    requires |clock| == |h| && Chain(hash, h) && CollisionFree(hash, VerifiedInputs(h, clock))
    requires forall i, j :: 0 <= i < |h| && 0 <= j < |h| ==> clock[i] != h[j].hashedAt
    ensures ChainVerifies(hash, h, clock) <==> h == []
  {
    hide Chain, CollisionFree;
    VerifiesIffSameTimes(hash, h, clock);
    if h != [] { assert clock[0] != h[0].hashedAt; }
  }

  /** The shortest honest chain that is turned down: one call, verified a second later. */
  lemma HonestRowRejected(hash: Hash)
    requires var r := NewRow(hash, Asking(Pending), 1, 1, "2024-01-01T00:00:00Z", Blank, "");
      CollisionFree(hash, {HashInput(r, "2024-01-01T00:00:00Z"), HashInput(r, "2024-01-01T00:00:01Z")})
    ensures var h := History(ServeAll(hash, [Call(Asking(Pending), 1, 1, "2024-01-01T00:00:00Z")]), "d");
      |h| == 1 && Chain(hash, h) && !ChainVerifies(hash, h, ["2024-01-01T00:00:01Z"])
  {
    hide HashInput;
    var c := Call(Asking(Pending), 1, 1, "2024-01-01T00:00:00Z");
    var r := NewRow(hash, Asking(Pending), 1, 1, "2024-01-01T00:00:00Z", Blank, "");
    assert [c][..0] == [] && ServeAll(hash, [c][..0]) == map[];
    assert ServeAll(hash, [c]) == Serve(hash, map[], c) == map["d" := [r]];
    var x, y := "2024-01-01T00:00:00Z", "2024-01-01T00:00:01Z";
    assert HashInput(r, x) == HashInput(r.(hash := ""), x) by { HashSkipsHash(r, x); }
    assert x[18] == '0' && y[18] == '1';
    if HashInput(r, x) == HashInput(r, y) { TimeIsHashed(r, x, y); }
  }

  lemma HashSkipsHash(r: Row, time: string)
    ensures HashInput(r, time) == HashInput(r.(hash := ""), time)
  {}

  /** Were the recorded creation time hashed and read back, every chain of in-order calls would verify. */
  lemma RecordedTimesVerify(hash: Hash, calls: seq<Call>, stamp: int -> string, d: string)
    requires forall k :: 0 <= k < |calls| ==> NthInOrder(hash, calls, k)
    requires forall k :: 0 <= k < |calls| ==> calls[k].hashedAt == stamp(calls[k].at)
    ensures var h := History(ServeAll(hash, calls), d);
      ChainVerifies(hash, h, seq(|h|, i requires 0 <= i < |h| => stamp(h[i].at)))
  {
    hide ServeAll, HashInput, NthInOrder, Good;
    var h := History(ServeAll(hash, calls), d);
    InOrderCallsChain(hash, calls, |calls|);
    assert calls[..|calls|] == calls;
    ChainEmpty(hash);
    assert Chain(hash, h);
    RowsAreCalls(hash, calls, d);
    forall i | 0 <= i < |h|
      ensures (i > 0 ==> h[i].prevHash == h[i - 1].hash) && h[i].hash == hash(HashInput(h[i], stamp(h[i].at)))
    {
      assert h[i] in h;
      if i > 0 { assert FollowsOn(h, i); }
    }
  }

  // ---------------------------------------------------------------- what verification rejects

  predicate Known(s: DisputeState) { !s.Unknown? }

  lemma TextsKnown(s: DisputeState, t: DisputeState)
    requires Known(s) && Known(t)
    ensures BarFree(Text(s)) && (Text(s) == Text(t) <==> s == t)
  {
    assert Text(s) != "" ==> Text(s)[0] in {'P', 'A', 'S', 'D', 'R'};
    assert Text(t) != "" ==> Text(t)[0] in {'P', 'A', 'S', 'D', 'R'};
  }

  /** Nothing that goes into a row's hash has a bar, except its previous hash. */
  predicate Plain(r: Row, time: string) {
    BarFree(r.disputeId) && Known(r.from) && Known(r.to) && BarFree(r.reason) && BarFree(r.createdBy) && BarFree(time)
  }

  /** The hashed text after the dispute's id. */
  function AfterId(r: Row, time: string): string {
    Text(r.from) + "|" + (Text(r.to) + "|" + (r.reason + "|" + (r.createdBy + "|" + (time + "|" + r.prevHash))))
  }

  lemma InputSplits(r: Row, time: string)
    ensures HashInput(r, time) == r.disputeId + "|" + AfterId(r, time)
  {}

  /** The hash covers every field: where no field has a bar, equal hashed texts mean equal fields. */
  lemma HashCovers(r: Row, time: string, x: Row, time': string)
    requires Plain(r, time) && Plain(x, time') && HashInput(r, time) == HashInput(x, time')
    ensures r.disputeId == x.disputeId && r.from == x.from && r.to == x.to && r.reason == x.reason
    ensures r.createdBy == x.createdBy && time == time' && r.prevHash == x.prevHash
  {
    hide HashInput, Text, BarFree;
    InputSplits(r, time);
    InputSplits(x, time');
    TextsKnown(r.from, x.from);
    TextsKnown(x.from, r.from);
    TextsKnown(r.to, x.to);
    TextsKnown(x.to, r.to);
    var r4, x4 := time + "|" + r.prevHash, time' + "|" + x.prevHash;
    var r3, x3 := r.createdBy + "|" + r4, x.createdBy + "|" + x4;
    var r2, x2 := r.reason + "|" + r3, x.reason + "|" + x3;
    var r1, x1 := Text(r.to) + "|" + r2, Text(x.to) + "|" + x2;
    FirstBar(r.disputeId, AfterId(r, time), x.disputeId, AfterId(x, time'));
    FirstBar(Text(r.from), r1, Text(x.from), x1);
    FirstBar(Text(r.to), r2, Text(x.to), x2);
    FirstBar(r.reason, r3, x.reason, x3);
    FirstBar(r.createdBy, r4, x.createdBy, x4);
    FirstBar(time, r.prevHash, time', x.prevHash);
  }

  /** With a bar in a reason two different rows have one hash. */
  lemma BarredReasonsCollide(hash: Hash)
    ensures var r := NewRow(hash, Request("d", Pending, "a|b", "c"), 1, 1, "t", Blank, "");
      var x := NewRow(hash, Request("d", Pending, "a", "b|c"), 1, 1, "t", Blank, "");
      r.hash == x.hash && r.reason != x.reason
  {
    var r := Row(1, "d", Blank, Pending, "a|b", "c", 1, "t", "", "");
    var x := Row(1, "d", Blank, Pending, "a", "b|c", 1, "t", "", "");
    assert "a|b" + "|" + "c" == "a" + "|" + "b|c";
    var front, back := "d" + "|" + "" + "|" + "PENDING" + "|", "|" + "t" + "|" + "";
    assert HashInput(r, "t") == front + ("a|b" + "|" + "c") + back;
    assert HashInput(x, "t") == front + ("a" + "|" + "b|c") + back;
    assert |"a|b"| != |"a"|;
  }

  predicate OneDispute(h: seq<Row>) { forall i :: 0 <= i < |h| ==> h[i].disputeId == h[0].disputeId }

  /** Histories that calls make are of one dispute. */
  lemma ServedOneDispute(hash: Hash, calls: seq<Call>, d: string)
    ensures OneDispute(History(ServeAll(hash, calls), d))
  {
    hide ServeAll;
    RowsAreCalls(hash, calls, d);
    var h := History(ServeAll(hash, calls), d);
    forall i | 0 <= i < |h| ensures h[i].disputeId == h[0].disputeId { assert h[i] in h && h[0] in h; }
  }

  function Stamps(h: seq<Row>): seq<string> { seq(|h|, i requires 0 <= i < |h| => h[i].hashedAt) }

  lemma FromsDiffer(hash: Hash, h: seq<Row>, i: int, j: int)
    requires Chain(hash, h) && 0 <= i < j < |h|
    ensures Known(h[i].from) && Known(h[j].from) && h[i].from != h[j].from
  {
    GoodHistoryIsShort(h);
    RanksRise(h, 0, |h| - 1);
    assert FollowsOn(h, j);
    RanksRise(h, j - 1, |h| - 1);
    if i > 0 {
      assert FollowsOn(h, i);
      RanksRise(h, i - 1, |h| - 1);
    }
  }

  /** The rows of an honest chain have different hashes. */
  lemma HashesDiffer(hash: Hash, h: seq<Row>, i: int, j: int)
    requires Chain(hash, h) && OneDispute(h) && CollisionFree(hash, VerifiedInputs(h, Stamps(h)))
    requires 0 <= i < |h| && 0 <= j < |h| && i != j
    ensures h[i].hash != h[j].hash
  {
    var a, b := if i < j then i else j, if i < j then j else i;
    FromsDiffer(hash, h, a, b);
    var x, y := HashInput(h[a], h[a].hashedAt), HashInput(h[b], h[b].hashedAt);
    assert x in VerifiedInputs(h, Stamps(h)) && y in VerifiedInputs(h, Stamps(h));
    assert x != y by { InputsDiffer(h[a], h[b]); }
  }

  lemma InputsDiffer(r: Row, x: Row)
    requires r.disputeId == x.disputeId && Known(r.from) && Known(x.from) && r.from != x.from
    ensures HashInput(r, r.hashedAt) != HashInput(x, x.hashedAt)
  {
    hide HashInput, Text, BarFree;
    InputSplits(r, r.hashedAt);
    InputSplits(x, x.hashedAt);
    TextsKnown(r.from, x.from);
    TextsKnown(x.from, r.from);
    if HashInput(r, r.hashedAt) == HashInput(x, x.hashedAt) {
      var n := |r.disputeId| + 1;
      assert HashInput(r, r.hashedAt)[n..] == AfterId(r, r.hashedAt);
      assert HashInput(x, x.hashedAt)[n..] == AfterId(x, x.hashedAt);
      FirstBar(Text(r.from), AfterId(r, r.hashedAt)[|Text(r.from)| + 1..],
               Text(x.from), AfterId(x, x.hashedAt)[|Text(x.from)| + 1..]);
    }
  }

  /** Rows of `h` in the order of `at`: some may be missing, swapped or repeated. */
  function Picked(h: seq<Row>, at: seq<nat>): seq<Row>
    requires forall k :: 0 <= k < |at| ==> at[k] < |h|
  {
    seq(|at|, k requires 0 <= k < |at| => h[at[k]])
  }

  /** The rows picked are a stretch of the history without a gap. */
  predicate Stretch(at: seq<nat>) { forall k :: 0 < k < |at| ==> at[k] == at[k - 1] + 1 }

  /**
   * Rows taken from an honest chain in any way, read with the clock texts that were hashed, verify exactly
   * when they are a stretch of it: a row missing inside, a swap or a repetition is rejected, rows missing at
   * either end are not noticed.
   */
  lemma RearrangedVerifiesIff(hash: Hash, h: seq<Row>, at: seq<nat>)
    requires Chain(hash, h) && OneDispute(h) && CollisionFree(hash, VerifiedInputs(h, Stamps(h)))
    requires forall k :: 0 <= k < |at| ==> at[k] < |h|
    ensures ChainVerifies(hash, Picked(h, at), Stamps(Picked(h, at))) <==> Stretch(at)
  {
    hide HashInput, VerifiedInputs, CollisionFree, Good;
    var g := Picked(h, at);
    forall k | 0 < k < |at| ensures g[k].prevHash == g[k - 1].hash <==> at[k] == at[k - 1] + 1 {
      if at[k] > 0 {
        assert FollowsOn(h, at[k]);
        if at[k - 1] != at[k] - 1 { HashesDiffer(hash, h, at[k] - 1, at[k - 1]); }
      }
    }
    forall k | 0 <= k < |at| ensures g[k].hash == hash(HashInput(g[k], Stamps(g)[k])) {
      assert g[k] == h[at[k]];
    }
  }

  /** What the verification sees of a row that replaces row `i`. */
  lemma ReplacedVerifiesIff(hash: Hash, h: seq<Row>, i: nat, r: Row, time: string)
    requires Chain(hash, h) && i < |h|
    ensures ChainVerifies(hash, h[i := r], Stamps(h)[i := time]) <==>
      && r.hash == hash(HashInput(r, time))
      && (i > 0 ==> r.prevHash == h[i].prevHash)
      && (i < |h| - 1 ==> r.hash == h[i].hash)
  {
    hide HashInput, Good;
    var g, clock := h[i := r], Stamps(h)[i := time];
    if i > 0 { assert FollowsOn(h, i); }
    if i < |h| - 1 { assert FollowsOn(h, i + 1) && g[i + 1] == h[i + 1]; }
    if ChainVerifies(hash, g, clock) {
      assert g[i] == r && clock[i] == time;
      if i > 0 { assert g[i].prevHash == g[i - 1].hash && g[i - 1] == h[i - 1]; }
      if i < |h| - 1 { assert g[i + 1].prevHash == g[i].hash; }
    } else if r.hash == hash(HashInput(r, time)) && (i > 0 ==> r.prevHash == h[i].prevHash) &&
              (i < |h| - 1 ==> r.hash == h[i].hash) {
      forall j | 0 <= j < |g|
        ensures (j > 0 ==> g[j].prevHash == g[j - 1].hash) && g[j].hash == hash(HashInput(g[j], clock[j]))
      {
        if j > 0 { assert FollowsOn(h, j); }
      }
    }
  }

  /**
   * A row before the last that is replaced goes undetected exactly when its hashed text, its hash and,
   * unless it is the first, its link are the old ones; where no field has a bar, when every hashed field is.
   */
  lemma ReplacementUndetectedIff(hash: Hash, h: seq<Row>, i: nat, r: Row, time: string)
    requires Chain(hash, h) && i < |h| - 1
    requires CollisionFree(hash, {HashInput(r, time), HashInput(h[i], h[i].hashedAt)})
    ensures ChainVerifies(hash, h[i := r], Stamps(h)[i := time]) <==>
      && HashInput(r, time) == HashInput(h[i], h[i].hashedAt) && r.hash == h[i].hash
      && (i > 0 ==> r.prevHash == h[i].prevHash)
    ensures Plain(r, time) && Plain(h[i], h[i].hashedAt) ==>
      (ChainVerifies(hash, h[i := r], Stamps(h)[i := time]) <==>
        && r.hash == h[i].hash && r.disputeId == h[i].disputeId && r.from == h[i].from && r.to == h[i].to
        && r.reason == h[i].reason && r.createdBy == h[i].createdBy && time == h[i].hashedAt
        && r.prevHash == h[i].prevHash)
  {
    hide Good, ChainVerifies, Plain;
    ReplacedVerifiesIff(hash, h, i, r, time);
    assert h[i].hash == hash(HashInput(h[i], h[i].hashedAt));
    if Plain(r, time) && Plain(h[i], h[i].hashedAt) && HashInput(r, time) == HashInput(h[i], h[i].hashedAt) {
      HashCovers(r, time, h[i], h[i].hashedAt);
    }
  }

  // ---------------------------------------------------------------- the state machine object

  class StateMachine {
    const hash: Hash
    var table: Table

    constructor (hash: Hash)
      ensures this.hash == hash && table == map[] && Valid()
    {
      this.hash, table := hash, map[];
    }

    /** Every stored history is a chain. */
    predicate Valid()
      reads this
    {
      AllChains(hash, table)
    }

    /** One transition call with nothing in between its read and its insert. */
    method Transition(c: Call) returns (r: Result<Row, string>)
      modifies this
      ensures table == Serve(hash, old(table), c)
      ensures match Answer(hash, old(table), c) case Some(row) => r == Ok(row) case None => r.Err?
      ensures r.Err? ==> table == old(table)
      ensures r.Ok? <==> CanAnswer(History(old(table), c.req.disputeId), c)
      ensures r.Ok? ==> RowSays(hash, r.value, c)
      ensures old(Valid()) ==> (Valid() <==> CallInOrder(hash, old(table), c))
      ensures old(Valid()) && r.Ok? && CallInOrder(hash, old(table), c) ==>
        var h := History(old(table), c.req.disputeId);
        table[c.req.disputeId] == h + [r.value] && r.value.prevHash == LatestHash(h) && r.value.from == LatestState(h)
    {
      hide Chain, HashInput, AllChains, Accepts, LandsLast, Placed, NewRow, Text, CanAnswer, RowSays;
      if old(Valid()) { ServeKeepsChainsIff(hash, table, c); }
      AnsweredIff(hash, table, c);
      var req := c.req;
      if req.disputeId == "" { return Err("dispute ID is required"); }
      if req.to == Blank { return Err("target state is required"); }
      if req.createdBy == "" { return Err("created_by is required"); }
      var currentState, prevHash := Blank, "";
      var h := History(table, req.disputeId);
      if req.to != Pending {
        if h != [] { currentState, prevHash := h[|h| - 1].to, h[|h| - 1].hash; }
        var ok := IsValidTransition(currentState, req.to);
        if !ok { return Err("invalid state transition"); }
        if !ValidateOperation(currentState, OperationFor(req.to)) { return Err("invalid operation"); }
      }
      var row := NewRow(hash, req, c.id, c.at, c.hashedAt, currentState, prevHash);
      if !Accepts(h, row) { return Err("failed to create transition"); }
      table := table[req.disputeId := Placed(h, row)];
      r := Ok(row);
    }

    /** The latest row's state, or PENDING for a dispute with no rows. */
    method GetCurrentState(d: string) returns (r: Result<DisputeState, string>)
      ensures d == "" <==> r.Err?
      ensures d != "" && History(table, d) == [] ==> r == Ok(Pending)
      ensures d != "" && History(table, d) != [] ==> r == Ok(LatestState(History(table, d)))
    {
      if d == "" { return Err("dispute ID is required"); }
      if d !in table || table[d] == [] { return Ok(Pending); }
      return Ok(table[d][|table[d]| - 1].to);
    }

    /**
     * Walks the history, checking each link and each recomputed hash. `read` rows were read; a read error
     * looks like the end of the history.
     */
    method VerifyChainIntegrity(d: string, read: nat, clock: seq<string>) returns (ok: bool)
      requires |clock| == read <= |History(table, d)|
      ensures ok <==> d != "" && ChainVerifies(hash, History(table, d)[..read], clock)
      ensures Valid() && d != "" && CollisionFree(hash, VerifiedInputs(History(table, d)[..read], clock)) ==>
        (ok <==> forall i :: 0 <= i < read ==> clock[i] == History(table, d)[i].hashedAt)
    {
      hide HashInput, Chain, ChainVerifies;
      if d == "" { return false; }
      var h := History(table, d)[..read];
      if Valid() && CollisionFree(hash, VerifiedInputs(h, clock)) {
        ChainEmpty(hash);
        ChainPrefix(hash, History(table, d), read);
        VerifiesIffSameTimes(hash, h, clock);
      }
      ok := CheckRows(hash, h, clock);
    }
  }

  lemma ChainPrefix(hash: Hash, h: seq<Row>, n: nat)
    requires Chain(hash, h) && n <= |h|
    ensures Chain(hash, h[..n])
  {
    hide HashInput;
    forall i | 0 < i < n ensures FollowsOn(h[..n], i) { assert FollowsOn(h, i); }
  }

  /** The verification loop over one history. */
  method CheckRows(hash: Hash, h: seq<Row>, clock: seq<string>) returns (ok: bool)
    requires |clock| == |h|
    ensures ok <==> ChainVerifies(hash, h, clock)
  {
    hide HashInput;
    for i := 0 to |h|
      invariant forall j :: 0 <= j < i ==>
        (j > 0 ==> h[j].prevHash == h[j - 1].hash) && h[j].hash == hash(HashInput(h[j], clock[j]))
    {
      if i > 0 && h[i].prevHash != h[i - 1].hash { return false; }
      var expected := hash(HashInput(h[i], clock[i]));
      if h[i].hash != expected { return false; }
    }
    ok := true;
  }

  lemma ChainEmpty(hash: Hash)
    ensures Chain(hash, [])
  {}
}
