/** Posting one entry and transferring between two accounts, with retries and other posters' commits. */
module Posting {
  import opened Prelude
  import opened Ledger

  /** What the environment does to a transaction; when the acknowledgement is lost it has committed. */
  datatype Fault = NoFault | AtStart(f: Failure) | AtCommit(f: Failure) | AckLost

  datatype Posted = Posted(db: Db, err: Option<Failure>)

  /** Whether the transaction commits. */
  predicate Commits(db: Db, e: Entry, now: int, fault: Fault) {
    !fault.AtStart? && !fault.AtCommit? && PostTx(db, e, now).Ok?
  }

  /** One transaction as its caller sees it. */
  function AttemptTx(db: Db, e: Entry, now: int, fault: Fault): Posted {
    if fault.AtStart? then Posted(db, Some(fault.f)) else
    match PostTx(db, e, now)
    case Err(f) => Posted(db, Some(f))
    case Ok(db') =>
      if fault.AtCommit? then Posted(db, Some(fault.f))
      else if fault.AckLost? then Posted(db', Some(Unavailable))
      else Posted(db', None)
  }

  /** One trip through the retry loop: what others commit first, then our transaction. */
  datatype Attempt = Attempt(others: seq<Command>, now: int, fault: Fault)

  /** The retry loop: only a serialization failure is tried again; the schedule's length is the limit. */
  function PostRun(db: Db, e: Entry, sched: seq<Attempt>): Posted
    decreases |sched|
  {
    if sched == [] then Posted(db, None) else
    var a := sched[0];
    var r := AttemptTx(ExecAll(db, a.others), e, a.now, a.fault);
    if r.err != Some(Serialization) then r
    else if |sched| == 1 then Posted(r.db, Some(RetriesExhausted))
    else PostRun(r.db, e, sched[1..])
  }

  /**
   * What others committed while our loop ran, whether one of our attempts committed, and whether the
   * acknowledgement of the last attempt was lost.
   */
  datatype Trace = Trace(others: seq<Command>, ours: seq<Command>, lost: bool)

  function PostTrace(db: Db, e: Entry, sched: seq<Attempt>): Trace
    decreases |sched|
  {
    if sched == [] then Trace([], [], false) else
    var a := sched[0];
    var db1 := ExecAll(db, a.others);
    if Commits(db1, e, a.now, a.fault) then Trace(a.others, [Post(e, a.now)], a.fault.AckLost?)
    else if AttemptTx(db1, e, a.now, a.fault).err == Some(Serialization) && |sched| > 1
    then var t := PostTrace(db1, e, sched[1..]); Trace(a.others + t.others, t.ours, t.lost)
    else Trace(a.others, [], false)
  }

  lemma CommittedIsExec(db: Db, e: Entry, now: int)
    ensures ExecAll(db, [Post(e, now)]) == if PostTx(db, e, now).Ok? then PostTx(db, e, now).value else db
  {
    hide PostTx;
    var cs := [Post(e, now)];
    assert cs[..0] == [] && ExecAll(db, []) == db;
  }

  lemma AttemptOutcome(db: Db, e: Entry, a: Attempt)
    ensures var r := AttemptTx(db, e, a.now, a.fault);
      && r.db == (if Commits(db, e, a.now, a.fault) then PostTx(db, e, a.now).value else db)
      && (r.err.None? <==> Commits(db, e, a.now, a.fault) && !a.fault.AckLost?)
      && (Commits(db, e, a.now, a.fault) ==> r.err != Some(Serialization))
  {
    hide PostTx;
  }

  /**
   * The database ends as if the others' commits had run, followed by ours at most once: exactly once when
   * the loop returns nil; and when it returns an error, once if the acknowledgement of the last attempt
   * was lost and otherwise not at all. For every retry limit.
   */
  lemma {:induction false} PostsExactlyOnce(db: Db, e: Entry, sched: seq<Attempt>)
    requires sched != []
    ensures var r, t := PostRun(db, e, sched), PostTrace(db, e, sched);
      && r.db == ExecAll(ExecAll(db, t.others), t.ours)
      && |t.ours| <= 1
      && (r.err.None? <==> |t.ours| == 1 && !t.lost)
      && (t.lost ==> |t.ours| == 1)
      && (forall c :: c in t.ours ==> c.Post? && c.e == e)
      && (|t.ours| == 1 ==> PostTx(ExecAll(db, t.others), e, t.ours[0].now) == Ok(r.db))
    decreases |sched|
  {
    hide PostTx, Exec, AttemptTx, Commits, ExecAll;
    var a := sched[0];
    var db1 := ExecAll(db, a.others);
    AttemptOutcome(db1, e, a);
    CommittedIsExec(db1, e, a.now);
    ExecNone(db1, []);
    CommitsPosts(db1, e, a);
    if AttemptTx(db1, e, a.now, a.fault).err == Some(Serialization) && |sched| > 1 {
      PostsExactlyOnce(db1, e, sched[1..]);
      ExecAllConcat(db, a.others, PostTrace(db1, e, sched[1..]).others);
    }
  }

  lemma CommitsPosts(db: Db, e: Entry, a: Attempt)
    ensures Commits(db, e, a.now, a.fault) ==> PostTx(db, e, a.now).Ok?
  {}

  /** The database that attempt `k` meets when the attempts before it committed nothing. */
  function Met(db: Db, sched: seq<Attempt>, k: nat): Db
    requires k < |sched|
  {
    ExecAll(if k == 0 then db else Met(db, sched, k - 1), sched[k].others)
  }

  function Tried(db: Db, e: Entry, sched: seq<Attempt>, k: nat): Posted
    requires k < |sched|
  {
    AttemptTx(Met(db, sched, k), e, sched[k].now, sched[k].fault)
  }

  lemma {:induction false} MetShift(db: Db, sched: seq<Attempt>, k: nat)
    requires 0 < k < |sched|
    ensures Met(db, sched, k) == Met(ExecAll(db, sched[0].others), sched[1..], k - 1)
    decreases k
  {
    hide ExecAll;
    if k > 1 { MetShift(db, sched, k - 1); }
  }

  /**
   * The loop goes on after serialization failures and after nothing else: it returns what the first other
   * attempt returns, and gives up after a last serialization failure.
   */
  lemma {:induction false} LoopStopsAt(db: Db, e: Entry, sched: seq<Attempt>, k: nat)
    requires k < |sched| && forall j: nat :: j < k ==> Tried(db, e, sched, j).err == Some(Serialization)
    ensures Tried(db, e, sched, k).err != Some(Serialization) ==> PostRun(db, e, sched) == Tried(db, e, sched, k)
    ensures Tried(db, e, sched, k).err == Some(Serialization) && k == |sched| - 1 ==>
      PostRun(db, e, sched) == Posted(Met(db, sched, k), Some(RetriesExhausted))
    decreases k
  {
    hide AttemptTx, Commits, ExecAll;
    var db1 := ExecAll(db, sched[0].others);
    AttemptOutcome(db1, e, sched[0]);
    if k > 0 {
      assert Tried(db, e, sched, 0).err == Some(Serialization);
      forall j: nat | j < k ensures Tried(db1, e, sched[1..], j) == Tried(db, e, sched, j + 1) {
        MetShift(db, sched, j + 1);
      }
      MetShift(db, sched, k);
      LoopStopsAt(db1, e, sched[1..], k - 1);
    }
  }

  // ---------------------------------------------------------------- rows of one transaction id

  function RowsOf(journal: seq<Row>, txId: string): seq<Row> {
    if journal == [] then [] else
    var r := journal[|journal| - 1];
    RowsOf(journal[..|journal| - 1], txId) + (if r.txId == txId then [r] else [])
  }

  /** None of the commands posts under `txId`. */
  predicate Avoids(cs: seq<Command>, txId: string) {
    forall i :: 0 <= i < |cs| && cs[i].Post? ==> cs[i].e.txId != txId
  }

  predicate ScheduleAvoids(sched: seq<Attempt>, txId: string) {
    forall i :: 0 <= i < |sched| ==> Avoids(sched[i].others, txId)
  }

  lemma ExecRows(db: Db, c: Command, txId: string)
    ensures RowsOf(Exec(db, c).journal, txId) == RowsOf(db.journal, txId) ||
      (c.Post? && c.e.txId == txId)
  {
    var j, j' := db.journal, Exec(db, c).journal;
    if j' != j { assert j'[..|j'| - 1] == j; }
  }

  lemma {:induction false} OthersKeepRows(db: Db, cs: seq<Command>, txId: string)
    requires Avoids(cs, txId)
    ensures RowsOf(ExecAll(db, cs).journal, txId) == RowsOf(db.journal, txId)
    decreases |cs|
  {
    hide Exec, RowsOf;
    if cs != [] {
      OthersKeepRows(db, cs[..|cs| - 1], txId);
      ExecRows(ExecAll(db, cs[..|cs| - 1]), cs[|cs| - 1], txId);
    }
  }

  lemma {:induction false} TraceAvoids(db: Db, e: Entry, sched: seq<Attempt>, txId: string)
    requires ScheduleAvoids(sched, txId)
    ensures Avoids(PostTrace(db, e, sched).others, txId)
    decreases |sched|
  {
    hide AttemptTx;
    if sched != [] {
      var a := sched[0];
      assert Avoids(a.others, txId);
      TraceAvoids(ExecAll(db, a.others), e, sched[1..], txId);
    }
  }

  lemma {:induction false} AccountsPersist(db: Db, cs: seq<Command>, id: string)
    requires id in db.accounts
    ensures id in ExecAll(db, cs).accounts && ExecAll(db, cs).accounts[id] == db.accounts[id]
    decreases |cs|
  {
    if cs != [] { AccountsPersist(db, cs[..|cs| - 1], id); }
  }

  /**
   * Posting one entry among others' commits adds its row to its transaction exactly when it returns nil
   * or the acknowledgement of its last attempt was lost.
   */
  lemma PostAddsRow(db: Db, e: Entry, sched: seq<Attempt>)
    requires sched != [] && ScheduleAvoids(sched, e.txId)
    ensures var r := PostRun(db, e, sched);
      && var posted := r.err.None? || PostTrace(db, e, sched).lost;
      && (!posted ==> RowsOf(r.db.journal, e.txId) == RowsOf(db.journal, e.txId))
      && (posted ==>
            && e.accountId in r.db.accounts
            && RowsOf(r.db.journal, e.txId) == RowsOf(db.journal, e.txId) +
               [Row(e.number, e.txId, e.side, e.accountId, r.db.accounts[e.accountId].accountType,
                    e.amount, e.currency)])
      && (forall id :: id in db.accounts ==> id in r.db.accounts && r.db.accounts[id] == db.accounts[id])
  {
    hide *;
    PostsExactlyOnce(db, e, sched);
    TraceAvoids(db, e, sched, e.txId);
    var t := PostTrace(db, e, sched);
    var mid := ExecAll(db, t.others);
    OthersKeepRows(db, t.others, e.txId);
    ExecNone(mid, t.ours);
    if |t.ours| == 1 { PostTxRow(mid, e, t.ours[0].now); }
    forall id | id in db.accounts
      ensures id in PostRun(db, e, sched).db.accounts && PostRun(db, e, sched).db.accounts[id] == db.accounts[id]
    {
      AccountsPersist(db, t.others, id);
      AccountsPersist(mid, t.ours, id);
    }
  }

  lemma ExecNone(db: Db, cs: seq<Command>)
    ensures cs == [] ==> ExecAll(db, cs) == db
  {}

  lemma PostTxRow(db: Db, e: Entry, now: int)
    requires PostTx(db, e, now).Ok?
    ensures var db' := PostTx(db, e, now).value;
      && e.accountId in db'.accounts
      && RowsOf(db'.journal, e.txId) == RowsOf(db.journal, e.txId) +
         [Row(e.number, e.txId, e.side, e.accountId, db'.accounts[e.accountId].accountType, e.amount, e.currency)]
  {
    var j' := PostTx(db, e, now).value.journal;
    assert j'[..|j'| - 1] == db.journal;
  }

  // ---------------------------------------------------------------- transfers

  datatype TransferRequest =
    TransferRequest(from: string, to: string, amount: int, description: string, currency: string)

  /** One call of the transfer body: its fresh transaction id, what others commit first, and both legs' schedules. */
  datatype TransferAttempt = TransferAttempt(txId: string, others: seq<Command>, readFault: Option<Failure>,
                                             debit: seq<Attempt>, credit: seq<Attempt>)

  /** Transaction ids are UUIDs, so eight characters can be cut off; each leg has a positive retry limit. */
  predicate WellFormed(a: TransferAttempt) { |a.txId| >= 8 && a.debit != [] && a.credit != [] }

  function DebitLeg(req: TransferRequest, txId: string): Entry
    requires |txId| >= 8
  {
    Entry("JE-" + txId[..8] + "-debit", txId, Debit, req.from, req.amount,
          "Transfer to " + req.to + ": " + req.description, req.currency)
  }

  function CreditLeg(req: TransferRequest, txId: string): Entry
    requires |txId| >= 8
  {
    Entry("JE-" + txId[..8] + "-credit", txId, Credit, req.to, req.amount,
          "Transfer from " + req.from + ": " + req.description, req.currency)
  }

  /** The checks made before anything is posted: on the request, then reading the tables. */
  function TransferCheck(db: Db, req: TransferRequest, readFault: Option<Failure>): Option<Failure> {
    if req.from == "" || req.to == "" then Some(Invalid("accounts required"))
    else if req.from == req.to then Some(Invalid("accounts must differ"))
    else if req.amount <= 0 then Some(Invalid("amount must be positive"))
    else if readFault.Some? then readFault
    else if req.from !in db.accounts || req.to !in db.accounts then Some(NoAccount)
    else if db.accounts[req.from].currency != db.accounts[req.to].currency then Some(Invalid("currency mismatch"))
    else if req.from !in db.balances then Some(NoAccount)
    else if db.accounts[req.from].accountType.Asset? && db.balances[req.from] < req.amount
    then Some(Invalid("insufficient balance"))
    else None
  }

  /**
   * `legs` says how many of the two entries were committed; after an error, the second can have been only
   * if its acknowledgement was lost.
   */
  datatype Transferred = Transferred(db: Db, err: Option<Failure>, legs: nat)

  function TransferOnce(db: Db, req: TransferRequest, a: TransferAttempt): Transferred
    requires WellFormed(a)
  {
    var db0 := ExecAll(db, a.others);
    var bad := TransferCheck(db0, req, a.readFault);
    if bad.Some? then Transferred(db0, bad, 0) else
    var d := PostRun(db0, DebitLeg(req, a.txId), a.debit);
    if d.err.Some? then Transferred(d.db, d.err, |PostTrace(db0, DebitLeg(req, a.txId), a.debit).ours|) else
    var c := PostRun(d.db, CreditLeg(req, a.txId), a.credit);
    if c.err.None? then Transferred(c.db, None, 2)
    else Transferred(c.db, c.err, 1 + |PostTrace(d.db, CreditLeg(req, a.txId), a.credit).ours|)
  }

  /** The acknowledgement of the last attempt of the last leg that was tried was lost. */
  predicate LastAckLost(db: Db, req: TransferRequest, a: TransferAttempt)
    requires WellFormed(a)
  {
    var db0 := ExecAll(db, a.others);
    TransferCheck(db0, req, a.readFault).None? &&
    var d := PostRun(db0, DebitLeg(req, a.txId), a.debit);
    if d.err.Some? then PostTrace(db0, DebitLeg(req, a.txId), a.debit).lost
    else PostTrace(d.db, CreditLeg(req, a.txId), a.credit).lost
  }

  predicate AttemptAvoids(a: TransferAttempt, txId: string) {
    Avoids(a.others, txId) && ScheduleAvoids(a.debit, txId) && ScheduleAvoids(a.credit, txId)
  }

  /** Debits less credits of one transaction. */
  function TxSkew(journal: seq<Row>, txId: string): int {
    TxTotal(journal, txId, Debit) - TxTotal(journal, txId, Credit)
  }

  lemma {:induction false} TotalsAreOverRows(journal: seq<Row>, txId: string, side: Side)
    ensures TxTotal(journal, txId, side) == TxTotal(RowsOf(journal, txId), txId, side)
    ensures forall r :: r in RowsOf(journal, txId) ==> r.txId == txId
    decreases |journal|
  {
    if journal != [] {
      var pre, r := journal[..|journal| - 1], journal[|journal| - 1];
      TotalsAreOverRows(pre, txId, side);
      if r.txId == txId {
        var rows := RowsOf(pre, txId);
        assert (rows + [r])[..|rows|] == rows;
      } else {
        assert RowsOf(journal, txId) == RowsOf(pre, txId);
      }
    }
  }

  lemma TwoRowTotals(rows: seq<Row>, txId: string)
    requires |rows| <= 2 && forall i :: 0 <= i < |rows| ==> rows[i].txId == txId && (rows[i].side == Debit <==> i == 0)
    ensures TxTotal(rows, txId, Debit) == if |rows| >= 1 then rows[0].amount else 0
    ensures TxTotal(rows, txId, Credit) == if |rows| == 2 then rows[1].amount else 0
  {
    if |rows| == 2 {
      assert rows[..1][..0] == [];
      assert TxTotal(rows[..1], txId, Credit) == 0;
      assert TxTotal(rows[..1], txId, Debit) == rows[0].amount;
    } else if |rows| == 1 {
      assert rows[..0] == [];
    }
  }

  /**
   * One transfer under a fresh id: nil exactly when both legs are in the journal and the last
   * acknowledgement arrived. The imbalance of its transaction is exactly the amount when only the first
   * leg was committed and 0 otherwise; the double-entry check fails in that case only.
   */
  lemma TransferLegs(db: Db, req: TransferRequest, a: TransferAttempt)
    requires WellFormed(a) && AttemptAvoids(a, a.txId) && RowsOf(db.journal, a.txId) == []
    ensures var r := TransferOnce(db, req, a);
      && r.legs <= 2 && (r.err.None? <==> r.legs == 2 && !LastAckLost(db, req, a))
      && |RowsOf(r.db.journal, a.txId)| == r.legs
      && TxSkew(r.db.journal, a.txId) == (if r.legs == 1 then req.amount else 0)
      && (DoubleEntryValidates(r.db.journal, a.txId) <==> r.legs != 1)
      && (r.legs > 0 ==>
            && req.from in r.db.accounts && req.to in r.db.accounts
            && r.db.accounts[req.from].currency == r.db.accounts[req.to].currency
            && var row := RowsOf(r.db.journal, a.txId)[0];
              && row.accountId == req.from && row.side == Debit
              && row.amount == req.amount && row.currency == req.currency)
      && (r.legs == 2 ==>
            var row := RowsOf(r.db.journal, a.txId)[1];
            row.accountId == req.to && row.side == Credit && row.amount == req.amount && row.currency == req.currency)
  {
    hide PostRun, PostTrace, ExecAll, RowsOf, TxTotal, Avoids, ScheduleAvoids;
    var r := TransferOnce(db, req, a);
    var db0 := ExecAll(db, a.others);
    OthersKeepRows(db, a.others, a.txId);
    if TransferCheck(db0, req, a.readFault).None? {
      var d := PostRun(db0, DebitLeg(req, a.txId), a.debit);
      PostsExactlyOnce(db0, DebitLeg(req, a.txId), a.debit);
      PostsExactlyOnce(d.db, CreditLeg(req, a.txId), a.credit);
      PostAddsRow(db0, DebitLeg(req, a.txId), a.debit);
      PostAddsRow(d.db, CreditLeg(req, a.txId), a.credit);
    }
    var rows := RowsOf(r.db.journal, a.txId);
    TotalsAreOverRows(r.db.journal, a.txId, Debit);
    TotalsAreOverRows(r.db.journal, a.txId, Credit);
    TwoRowTotals(rows, a.txId);
  }

  /**
   * Without faults a transfer returns nil exactly when its accounts differ, exist and share a currency, an
   * asset account holds the amount, the tables allow both legs, and both accounts' folds with their leg are
   * not negative and fit.
   */
  lemma FaultFreeTransferIff(db: Db, req: TransferRequest, a: TransferAttempt, t1: int, t2: int)
    requires WellFormed(a) && a.readFault == None && Sound(ExecAll(db, a.others))
    requires a.debit == [Attempt([], t1, NoFault)] && a.credit == [Attempt([], t2, NoFault)]
    ensures var d := ExecAll(db, a.others); var x, y := DebitLeg(req, a.txId), CreditLeg(req, a.txId);
      TransferOnce(db, req, a).err.None? <==>
        && req.from != "" && req.to != "" && req.from != req.to
        && WellPosted(d, x) && WellPosted(d, y)
        && d.accounts[req.from].currency == d.accounts[req.to].currency
        && (d.accounts[req.from].accountType == Asset ==> Fold(d.journal, req.from) >= req.amount)
        && 0 <= Fold(d.journal + [RowFor(d, x)], req.from) < NUMERIC_LIMIT
        && 0 <= Fold(d.journal + [RowFor(d, y)], req.to) < NUMERIC_LIMIT
  {
    hide PostTx, PostRun, PostTrace, Sound, WellPosted, ExecAll, Fold, DebitLeg, CreditLeg;
    var d := ExecAll(db, a.others);
    var x, y := DebitLeg(req, a.txId), CreditLeg(req, a.txId);
    KnownBalances(d);
    WellPostedKnown(d, x);
    WellPostedKnown(d, y);
    LegAccounts(req, a.txId);
    SinglePost(d, x, t1);
    if PostTx(d, x, t1).Ok? { SinglePost(PostTx(d, x, t1).value, y, t2); }
    if req.from != req.to && req.from in d.accounts && req.to in d.accounts { TwoLegs(d, x, y, t1, t2); }
  }

  lemma TwoLegs(d: Db, x: Entry, y: Entry, t1: int, t2: int)
    requires Sound(d) && x.accountId in d.accounts && y.accountId in d.accounts
    requires x.accountId != y.accountId && |x.number| != |y.number|
    ensures PostTx(d, x, t1).Ok? && PostTx(PostTx(d, x, t1).value, y, t2).Ok? <==>
      && WellPosted(d, x) && WellPosted(d, y)
      && 0 <= Fold(d.journal + [Ledger.RowFor(d, x)], x.accountId) < NUMERIC_LIMIT
      && 0 <= Fold(d.journal + [Ledger.RowFor(d, y)], y.accountId) < NUMERIC_LIMIT
  {
    hide PostTx, Sound, WellPosted, Fold;
    AcceptedIff(d, x, t1);
    if PostTx(d, x, t1).Ok? {
      PostKeepsSound(d, x, t1);
      AcceptedIff(PostTx(d, x, t1).value, y, t2);
      SecondLeg(d, x, y);
    }
  }

  lemma LegAccounts(req: TransferRequest, txId: string)
    requires |txId| >= 8
    ensures DebitLeg(req, txId).accountId == req.from && CreditLeg(req, txId).accountId == req.to
    ensures DebitLeg(req, txId).amount == CreditLeg(req, txId).amount == req.amount
    ensures |DebitLeg(req, txId).number| != |CreditLeg(req, txId).number|
  {}

  lemma WellPostedKnown(db: Db, e: Entry)
    ensures WellPosted(db, e) ==> e.accountId in db.accounts && e.amount > 0
  {}

  lemma KnownBalances(db: Db)
    requires Sound(db)
    ensures forall id :: id in db.accounts ==> id in db.balances && db.balances[id] == Fold(db.journal, id)
  {}

  lemma SinglePost(db: Db, e: Entry, now: int)
    ensures PostRun(db, e, [Attempt([], now, NoFault)]) ==
      match PostTx(db, e, now)
      case Ok(db') => Posted(db', None)
      case Err(f) => Posted(db, Some(if f == Serialization then RetriesExhausted else f))
  {
    hide PostTx;
    assert ExecAll(db, []) == db;
  }

  /** The debit's row changes neither what the tables ask of the credit nor the fold of its account. */
  lemma SecondLeg(db: Db, x: Entry, y: Entry)
    requires x.accountId in db.accounts && y.accountId in db.accounts && x.accountId != y.accountId
    requires |x.number| != |y.number|
    ensures var rx, ry := Ledger.RowFor(db, x), Ledger.RowFor(db, y);
      Fold(db.journal + [rx] + [ry], y.accountId) == Fold(db.journal + [ry], y.accountId)
    ensures forall db': Db :: db'.accounts == db.accounts && db'.journal == db.journal + [Ledger.RowFor(db, x)] ==>
      Ledger.RowFor(db', y) == Ledger.RowFor(db, y) && (WellPosted(db', y) <==> WellPosted(db, y))
  {
    var rx, ry := Ledger.RowFor(db, x), Ledger.RowFor(db, y);
    Ledger.LastRow(db.journal, rx, [], SOME_SNAPSHOT, y.accountId);
    Ledger.LastRow(db.journal + [rx], ry, [], SOME_SNAPSHOT, y.accountId);
    Ledger.LastRow(db.journal, ry, [], SOME_SNAPSHOT, y.accountId);
    forall db': Db | db'.accounts == db.accounts && db'.journal == db.journal + [rx]
      ensures WellPosted(db', y) <==> WellPosted(db, y)
    {
      if WellPosted(db', y) {
        forall i | 0 <= i < |db.journal| ensures db.journal[i].number != y.number {
          assert db'.journal[i] == db.journal[i];
        }
      }
    }
  }

  const SOME_SNAPSHOT := Snapshot("", 0, 0, 0, 0, Asset, Debit, 0)

  lemma {:induction false} SkewOfRows(accounts: map<string, Account>, rows: seq<Row>, txId: string,
                                      currency: string, home: string)
    requires forall i :: 0 <= i < |rows| ==>
      rows[i].txId == txId && rows[i].accountId in accounts && accounts[rows[i].accountId].currency == home
    ensures Skew(accounts, rows, currency) == if home == currency then TxSkew(rows, txId) else 0
    decreases |rows|
  {
    if rows != [] { SkewOfRows(accounts, rows[..|rows| - 1], txId, currency, home); }
  }

  /**
   * What one transfer contributes to the accounting equation of a currency, now and after any later
   * commits of others: nothing if it completed or posted nothing, its amount if it stopped between
   * the legs.
   */
  lemma TransferContribution(db: Db, req: TransferRequest, a: TransferAttempt, later: seq<Command>, currency: string)
    requires WellFormed(a) && AttemptAvoids(a, a.txId) && RowsOf(db.journal, a.txId) == []
    requires Avoids(later, a.txId)
    ensures var r := TransferOnce(db, req, a); var end := ExecAll(r.db, later);
      Skew(end.accounts, RowsOf(end.journal, a.txId), currency) ==
      if r.legs == 1 && AccountIn(r.db.accounts, req.from, currency) then req.amount else 0
  {
    hide TransferOnce, RowsOf, TxTotal, Skew, ExecAll, WellFormed, AttemptAvoids, Avoids;
    TransferLegs(db, req, a);
    var r := TransferOnce(db, req, a);
    var end := ExecAll(r.db, later);
    var rows := RowsOf(r.db.journal, a.txId);
    OthersKeepRows(r.db, later, a.txId);
    TotalsAreOverRows(r.db.journal, a.txId, Debit);
    TotalsAreOverRows(r.db.journal, a.txId, Credit);
    if r.legs == 0 {
      assert rows == [];
      SkewEmpty(end.accounts, currency);
    } else {
      AccountsPersist(r.db, later, req.from);
      AccountsPersist(r.db, later, req.to);
      assert |rows| == r.legs;
      SkewOfRows(end.accounts, rows, a.txId, currency, r.db.accounts[req.from].currency);
    }
  }

  lemma SkewEmpty(accounts: map<string, Account>, currency: string)
    ensures Skew(accounts, [], currency) == 0
  {}

  /** The rows that belong to none of the given transactions. */
  function Outside(journal: seq<Row>, ids: set<string>): seq<Row> {
    if journal == [] then [] else
    var r := journal[|journal| - 1];
    Outside(journal[..|journal| - 1], ids) + (if r.txId in ids then [] else [r])
  }

  ghost function SkewByTx(accounts: map<string, Account>, journal: seq<Row>, currency: string): string -> int {
    t => Skew(accounts, RowsOf(journal, t), currency)
  }

  lemma SkewLast(accounts: map<string, Account>, rows: seq<Row>, r: Row, currency: string)
    ensures Skew(accounts, rows + [r], currency) - Skew(accounts, rows, currency) ==
      if AccountIn(accounts, r.accountId, currency) then (if r.side == Debit then r.amount else -r.amount) else 0
  {
    assert (rows + [r])[..|rows|] == rows;
  }

  lemma LastRow(journal: seq<Row>, r: Row)
    ensures (journal + [r])[..|journal|] == journal
    ensures forall t :: RowsOf(journal + [r], t) == RowsOf(journal, t) + (if r.txId == t then [r] else [])
    ensures forall ids :: Outside(journal + [r], ids) == Outside(journal, ids) + (if r.txId in ids then [] else [r])
  {
    assert (journal + [r])[..|journal|] == journal;
  }

  lemma {:induction false} SkewSplitsByTransaction(accounts: map<string, Account>, journal: seq<Row>,
                                                   currency: string, ids: set<string>)
    ensures Skew(accounts, journal, currency) ==
      Skew(accounts, Outside(journal, ids), currency) + SumOver(ids, SkewByTx(accounts, journal, currency))
    decreases |journal|
  {
    hide RowsOf, AccountIn;
    if journal == [] {
      assert forall t :: RowsOf([], t) == [] by { RowsOfNothing(); }
      SumZero(ids, SkewByTx(accounts, journal, currency));
    } else {
      var pre, r := journal[..|journal| - 1], journal[|journal| - 1];
      SkewSplitsByTransaction(accounts, pre, currency, ids);
      assert journal == pre + [r];
      SplitStep(accounts, pre, r, currency, ids);
    }
  }

  lemma RowsOfNothing()
    ensures forall t :: RowsOf([], t) == []
  {}

  lemma SplitStep(accounts: map<string, Account>, pre: seq<Row>, r: Row, currency: string, ids: set<string>)
    requires Skew(accounts, pre, currency) ==
      Skew(accounts, Outside(pre, ids), currency) + SumOver(ids, SkewByTx(accounts, pre, currency))
    ensures Skew(accounts, pre + [r], currency) ==
      Skew(accounts, Outside(pre + [r], ids), currency) + SumOver(ids, SkewByTx(accounts, pre + [r], currency))
  {
    hide RowsOf, AccountIn, Outside, Skew;
    var f, g := SkewByTx(accounts, pre, currency), SkewByTx(accounts, pre + [r], currency);
    LastRow(pre, r);
    SkewLast(accounts, pre, r, currency);
    forall t | t in ids && t != r.txId ensures f(t) == g(t) {
      assert RowsOf(pre + [r], t) == RowsOf(pre, t);
    }
    if r.txId in ids {
      SkewLast(accounts, RowsOf(pre, r.txId), r, currency);
      SumChange(ids, r.txId, f, g);
      assert Outside(pre + [r], ids) == Outside(pre, ids);
    } else {
      SumSame(ids, f, g);
      SkewLast(accounts, Outside(pre, ids), r, currency);
    }
  }

  /**
   * After any run of commits, for each currency, the net position is the imbalance of the single
   * postings plus the contribution of each transfer.
   */
  lemma NetPositionByTransaction(cs: seq<Command>, currency: string, transfers: set<string>)
    ensures var db := ExecAll(EMPTY_DB, cs);
      NetPosition(db, currency) ==
        Skew(db.accounts, Outside(db.journal, transfers), currency) +
        SumOver(transfers, SkewByTx(db.accounts, db.journal, currency))
  {
    var db := ExecAll(EMPTY_DB, cs);
    AccountingEquation(cs, currency);
    SkewSplitsByTransaction(db.accounts, db.journal, currency, transfers);
  }

  // ---------------------------------------------------------------- the transfer's own retry loop

  datatype Looped = Looped(db: Db, err: Option<Failure>, halves: nat)

  /**
   * `retry` says which errors the loop recognises as serialization failures. `halves` counts the
   * attempts that stopped between their legs.
   */
  function TransferLoop(db: Db, req: TransferRequest, tries: seq<TransferAttempt>, retry: Failure -> bool): Looped
    requires forall i :: 0 <= i < |tries| ==> WellFormed(tries[i])
    decreases |tries|
  {
    if tries == [] then Looped(db, None, 0) else
    var r := TransferOnce(db, req, tries[0]);
    var half := if r.legs == 1 then 1 else 0;
    if r.err.None? then Looped(r.db, None, half)
    else if !retry(r.err.value) then Looped(r.db, r.err, half)
    else if |tries| == 1 then Looped(r.db, Some(RetriesExhausted), half)
    else
      var rest := TransferLoop(r.db, req, tries[1..], retry);
      Looped(rest.db, rest.err, half + rest.halves)
  }

  /** The database after the first `k` attempts. */
  function AfterTries(db: Db, req: TransferRequest, tries: seq<TransferAttempt>, k: nat): Db
    requires k <= |tries| && forall i :: 0 <= i < |tries| ==> WellFormed(tries[i])
  {
    if k == 0 then db else TransferOnce(AfterTries(db, req, tries, k - 1), req, tries[k - 1]).db
  }

  /** What attempt `k` returns when all before it were made. */
  function NthTry(db: Db, req: TransferRequest, tries: seq<TransferAttempt>, k: nat): Transferred
    requires k < |tries| && forall i :: 0 <= i < |tries| ==> WellFormed(tries[i])
  {
    TransferOnce(AfterTries(db, req, tries, k), req, tries[k])
  }

  lemma {:induction false} TriesShift(db: Db, req: TransferRequest, tries: seq<TransferAttempt>, k: nat)
    requires 0 < k <= |tries| && forall i :: 0 <= i < |tries| ==> WellFormed(tries[i])
    ensures AfterTries(db, req, tries, k) == AfterTries(TransferOnce(db, req, tries[0]).db, req, tries[1..], k - 1)
    decreases k
  {
    hide TransferOnce, WellFormed;
    if k > 1 { TriesShift(db, req, tries, k - 1); }
  }

  /** The transfer's loop goes on after errors it recognises and after nothing else. */
  lemma {:induction false} TransferStopsAt(db: Db, req: TransferRequest, tries: seq<TransferAttempt>,
                                           retry: Failure -> bool, k: nat)
    requires k < |tries| && forall i :: 0 <= i < |tries| ==> WellFormed(tries[i])
    requires forall j: nat :: j < k ==>
      NthTry(db, req, tries, j).err.Some? && retry(NthTry(db, req, tries, j).err.value)
    ensures var r, all := NthTry(db, req, tries, k), TransferLoop(db, req, tries, retry);
      && (r.err.None? || !retry(r.err.value) ==> all.db == r.db && all.err == r.err)
      && (r.err.Some? && retry(r.err.value) && k == |tries| - 1 ==> all.db == r.db && all.err == Some(RetriesExhausted))
    decreases k
  {
    hide TransferOnce, WellFormed;
    if k > 0 {
      var db1 := TransferOnce(db, req, tries[0]).db;
      assert NthTry(db, req, tries, 0) == TransferOnce(db, req, tries[0]);
      forall j: nat | j < k ensures NthTry(db1, req, tries[1..], j) == NthTry(db, req, tries, j + 1) {
        TriesShift(db, req, tries, j + 1);
      }
      TransferStopsAt(db1, req, tries[1..], retry, k - 1);
    }
  }

  /** The imbalance left by all the transactions of a transfer's attempts. */
  function TotalSkew(journal: seq<Row>, tries: seq<TransferAttempt>): int
  {
    if tries == [] then 0 else TxSkew(journal, tries[0].txId) + TotalSkew(journal, tries[1..])
  }

  /** Fresh, distinct ids that nobody else posts under. */
  predicate FreshIds(db: Db, tries: seq<TransferAttempt>) {
    && (forall i :: 0 <= i < |tries| ==> WellFormed(tries[i]) && RowsOf(db.journal, tries[i].txId) == [])
    && (forall i, j :: 0 <= i < |tries| && 0 <= j < |tries| ==> AttemptAvoids(tries[i], tries[j].txId))
    && (forall i, j :: 0 <= i < j < |tries| ==> tries[i].txId != tries[j].txId)
  }

  lemma PostKeepsOtherRows(db: Db, e: Entry, sched: seq<Attempt>, txId: string)
    requires sched != [] && ScheduleAvoids(sched, txId) && e.txId != txId
    ensures RowsOf(PostRun(db, e, sched).db.journal, txId) == RowsOf(db.journal, txId)
  {
    hide *;
    PostsExactlyOnce(db, e, sched);
    TraceAvoids(db, e, sched, txId);
    var t := PostTrace(db, e, sched);
    OthersKeepRows(db, t.others, txId);
    assert Avoids(t.ours, txId) by { OursAvoid(t.ours, e, txId); }
    OthersKeepRows(ExecAll(db, t.others), t.ours, txId);
  }

  lemma OursAvoid(cs: seq<Command>, e: Entry, txId: string)
    requires e.txId != txId && forall c :: c in cs ==> c.Post? && c.e == e
    ensures Avoids(cs, txId)
  {}

  lemma TransferKeepsOtherRows(db: Db, req: TransferRequest, a: TransferAttempt, txId: string)
    requires WellFormed(a) && AttemptAvoids(a, txId) && a.txId != txId
    ensures RowsOf(TransferOnce(db, req, a).db.journal, txId) == RowsOf(db.journal, txId)
  {
    hide PostRun, ExecAll, RowsOf, Avoids, ScheduleAvoids, TransferCheck;
    var db0 := ExecAll(db, a.others);
    OthersKeepRows(db, a.others, txId);
    PostKeepsOtherRows(db0, DebitLeg(req, a.txId), a.debit, txId);
    PostKeepsOtherRows(PostRun(db0, DebitLeg(req, a.txId), a.debit).db, CreditLeg(req, a.txId), a.credit, txId);
  }

  lemma {:induction false} LoopKeepsOtherRows(db: Db, req: TransferRequest, tries: seq<TransferAttempt>,
                                              retry: Failure -> bool, txId: string)
    requires forall i :: 0 <= i < |tries| ==>
      WellFormed(tries[i]) && AttemptAvoids(tries[i], txId) && tries[i].txId != txId
    ensures RowsOf(TransferLoop(db, req, tries, retry).db.journal, txId) == RowsOf(db.journal, txId)
    decreases |tries|
  {
    hide TransferOnce, RowsOf, AttemptAvoids, WellFormed;
    if tries != [] {
      TransferKeepsOtherRows(db, req, tries[0], txId);
      LoopKeepsOtherRows(TransferOnce(db, req, tries[0]).db, req, tries[1..], retry, txId);
    }
  }

  lemma {:induction false} NoRowsNoSkew(journal: seq<Row>, tries: seq<TransferAttempt>)
    requires forall i :: 0 <= i < |tries| ==> RowsOf(journal, tries[i].txId) == []
    ensures TotalSkew(journal, tries) == 0
    decreases |tries|
  {
    hide RowsOf, TxTotal;
    if tries != [] {
      EmptyRowsNoSkew(journal, tries[0].txId);
      NoRowsNoSkew(journal, tries[1..]);
    }
  }

  lemma EmptyRowsNoSkew(journal: seq<Row>, txId: string)
    requires RowsOf(journal, txId) == []
    ensures TxSkew(journal, txId) == 0
  {
    TotalsAreOverRows(journal, txId, Debit);
    TotalsAreOverRows(journal, txId, Credit);
  }

  lemma FreshTail(db: Db, req: TransferRequest, tries: seq<TransferAttempt>)
    requires tries != [] && FreshIds(db, tries)
    ensures FreshIds(TransferOnce(db, req, tries[0]).db, tries[1..])
  {
    hide RowsOf, TransferOnce, AttemptAvoids, WellFormed;
    var rest := tries[1..];
    forall i | 0 <= i < |rest| ensures RowsOf(TransferOnce(db, req, tries[0]).db.journal, rest[i].txId) == [] {
      assert rest[i] == tries[i + 1];
      TransferKeepsOtherRows(db, req, tries[0], rest[i].txId);
    }
    forall i, j | 0 <= i < |rest| && 0 <= j < |rest| ensures AttemptAvoids(rest[i], rest[j].txId) {
      assert rest[i] == tries[i + 1] && rest[j] == tries[j + 1];
    }
  }

  /** Equal journals, as far as one transaction is concerned, have equal skew for it. */
  lemma SameRowsSameSkew(j: seq<Row>, j': seq<Row>, txId: string)
    requires RowsOf(j, txId) == RowsOf(j', txId)
    ensures TxSkew(j, txId) == TxSkew(j', txId)
  {
    hide RowsOf;
    TotalsAreOverRows(j, txId, Debit);
    TotalsAreOverRows(j, txId, Credit);
    TotalsAreOverRows(j', txId, Debit);
    TotalsAreOverRows(j', txId, Credit);
  }

  /**
   * A transfer with its retries leaves exactly its amount of imbalance for each attempt that stopped
   * between its legs. If no error is recognised as retryable there is at most one such attempt, and
   * none when nil is returned.
   */
  lemma {:induction false} TransferLoopSkew(db: Db, req: TransferRequest, tries: seq<TransferAttempt>,
                                            retry: Failure -> bool)
    requires (forall i :: 0 <= i < |tries| ==> WellFormed(tries[i])) && FreshIds(db, tries)
    ensures var r := TransferLoop(db, req, tries, retry);
      && TotalSkew(r.db.journal, tries) == req.amount * r.halves
      && ((forall f :: !retry(f)) ==> r.halves <= 1 && (r.err.None? ==> r.halves == 0))
    decreases |tries|
  {
    hide RowsOf, TransferOnce, AttemptAvoids, WellFormed, TxTotal, FreshIds;
    if tries != [] {
      var a, rest := tries[0], tries[1..];
      FreshHead(db, tries);
      var r, all := TransferOnce(db, req, a), TransferLoop(db, req, tries, retry);
      FreshTail(db, req, tries);
      TransferLegs(db, req, a);
      if r.err.Some? && retry(r.err.value) && |tries| > 1 {
        TransferLoopSkew(r.db, req, rest, retry);
        LoopKeepsOtherRows(r.db, req, rest, retry, a.txId);
        SameRowsSameSkew(r.db.journal, all.db.journal, a.txId);
        var half := if r.legs == 1 then 1 else 0;
        assert req.amount * all.halves == req.amount * half + req.amount * (all.halves - half);
      } else {
        FreshNoRows(r.db, rest);
        NoRowsNoSkew(all.db.journal, rest);
      }
    }
  }

  lemma FreshHead(db: Db, tries: seq<TransferAttempt>)
    requires tries != [] && FreshIds(db, tries)
    ensures var a := tries[0]; WellFormed(a) && AttemptAvoids(a, a.txId) && RowsOf(db.journal, a.txId) == []
    ensures forall i :: 0 <= i < |tries| ==> WellFormed(tries[i])
    ensures forall i :: 0 <= i < |tries[1..]| ==>
      WellFormed(tries[1..][i]) && AttemptAvoids(tries[1..][i], tries[0].txId) && tries[1..][i].txId != tries[0].txId
  {
    hide RowsOf, AttemptAvoids, WellFormed;
  }

  lemma FreshNoRows(db: Db, tries: seq<TransferAttempt>)
    requires FreshIds(db, tries)
    ensures forall i :: 0 <= i < |tries| ==> RowsOf(db.journal, tries[i].txId) == []
  {
    hide RowsOf, AttemptAvoids, WellFormed;
  }

  const REQ := TransferRequest("a", "b", 5, "", "USD")
  const OPEN := [Create("a", Expense, "A", "USD"), Create("b", Liability, "B", "USD")]
  const HALF_WAY :=
    TransferAttempt("11111111", OPEN, None, [Attempt([], 0, NoFault)], [Attempt([], 0, AtCommit(Serialization))])
  const SECOND := TransferAttempt("22222222", [], None, [Attempt([], 0, NoFault)], [Attempt([], 0, NoFault)])

  /** The two accounts with their balances, and the entries posted so far. */
  ghost predicate Holds(db: Db, a: int, b: int, numbers: seq<string>) {
    && db.accounts == map["a" := Account(Expense, "USD", true), "b" := Account(Liability, "USD", true)]
    && db.balances == map["a" := a, "b" := b]
    && |db.journal| == |numbers| && forall i :: 0 <= i < |numbers| ==> db.journal[i].number == numbers[i]
  }

  lemma OpenHolds()
    ensures Holds(ExecAll(EMPTY_DB, OPEN), 0, 0, [])
  {
    assert OPEN[..1][..0] == [] && OPEN[..1] == [OPEN[0]];
    assert ExecAll(EMPTY_DB, OPEN[..1]) == Exec(EMPTY_DB, OPEN[0]);
  }

  lemma LegPosts(db: Db, e: Entry, fault: Fault, a: int, b: int, numbers: seq<string>)
    requires Holds(db, a, b, numbers) && 0 <= a < 100 && 0 <= b < 100 && e.number !in numbers
    requires e.amount == 5 && |e.currency| == 3 && e.description != ""
    requires (e.accountId == "a" && e.side == Debit) || (e.accountId == "b" && e.side == Credit)
    ensures var r := PostRun(db, e, [Attempt([], 0, fault)]);
      && (fault == NoFault ==>
            && r.err == None
            && Holds(r.db, if e.side == Debit then a + 5 else a, if e.side == Credit then b + 5 else b,
                     numbers + [e.number]))
      && (fault == AtCommit(Serialization) ==>
            && r.err == Some(RetriesExhausted) && r.db == db
            && PostTrace(db, e, [Attempt([], 0, fault)]).ours == [])
  {
    assert ExecAll(db, []) == db;
    assert !NumberTaken(db.journal, e.number);
    assert "a" != "b";
  }

  lemma FirstStopsHalfWay()
    ensures var r := TransferOnce(EMPTY_DB, REQ, HALF_WAY);
      r.legs == 1 && r.err == Some(RetriesExhausted) && Holds(r.db, 5, 0, ["JE-11111111-debit"])
  {
    hide PostRun, PostTrace, ExecAll;
    OpenHolds();
    var db0 := ExecAll(EMPTY_DB, OPEN);
    assert "11111111"[..8] == "11111111" && "a" != "b";
    var d, c := DebitLeg(REQ, "11111111"), CreditLeg(REQ, "11111111");
    assert d.number == "JE-11111111-debit" && c.number[12] == 'c' && d.number[12] == 'd';
    LegPosts(db0, d, NoFault, 0, 0, []);
    LegPosts(PostRun(db0, d, HALF_WAY.debit).db, c, AtCommit(Serialization), 5, 0, [d.number]);
    assert [] + [d.number] == [d.number];
  }

  lemma SecondCompletes(db: Db)
    requires Holds(db, 5, 0, ["JE-11111111-debit"])
    ensures TransferOnce(db, REQ, SECOND).legs == 2 && TransferOnce(db, REQ, SECOND).err == None
  {
    hide PostRun, PostTrace;
    assert ExecAll(db, []) == db;
    assert "22222222"[..8] == "22222222" && "a" != "b";
    var d, c := DebitLeg(REQ, "22222222"), CreditLeg(REQ, "22222222");
    assert "JE-11111111-debit"[3] == '1' && d.number[3] == '2' && c.number[3] == '2';
    assert c.number[12] == 'c' && d.number[12] == 'd';
    LegPosts(db, d, NoFault, 5, 0, ["JE-11111111-debit"]);
    LegPosts(PostRun(db, d, SECOND.debit).db, c, NoFault, 10, 0, ["JE-11111111-debit"] + [d.number]);
  }

  /** Were a lost serialization race on the second leg recognised, a retried transfer could return nil unbalanced. */
  lemma RetriedTransferUnbalances()
    ensures var r := TransferLoop(EMPTY_DB, REQ, [HALF_WAY, SECOND], f => f == RetriesExhausted);
      r.err.None? && r.halves == 1
  {
    hide TransferOnce;
    FirstStopsHalfWay();
    var r1 := TransferOnce(EMPTY_DB, REQ, HALF_WAY);
    SecondCompletes(r1.db);
    assert [HALF_WAY, SECOND][1..] == [SECOND];
  }
}
