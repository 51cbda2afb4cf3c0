/**
 * Whole runs of the ledger service: account creations, single postings and transfers, each with its
 * own retries, faults and other clients' commits, and the accounting equation over all of them.
 */
module LedgerRuns {
  import opened Prelude
  import opened Ledger
  import opened Posting

  datatype Action =
    | Open(id: string, t: AccountType, name: string, currency: string)
    | PostOne(e: Entry, sched: seq<Attempt>)
    | Move(req: TransferRequest, tries: seq<TransferAttempt>)

  /** The schedules have positive limits, and a transfer's attempts draw different ids. */
  predicate Proper(a: Action) {
    a.Move? ==>
      && (forall i :: 0 <= i < |a.tries| ==> WellFormed(a.tries[i]))
      && (forall i, j :: 0 <= i < |a.tries| && 0 <= j < |a.tries| ==> AttemptAvoids(a.tries[i], a.tries[j].txId))
      && (forall i, j :: 0 <= i < j < |a.tries| ==> a.tries[i].txId != a.tries[j].txId)
  }

  /** `retry` says which errors a transfer's loop recognises as serialization failures. */
  function RunAction(db: Db, a: Action, retry: Failure -> bool): Db
    requires Proper(a)
  {
    match a
    case Open(id, t, name, currency) => Exec(db, Create(id, t, name, currency))
    case PostOne(e, sched) => PostRun(db, e, sched).db
    case Move(req, tries) => TransferLoop(db, req, tries, retry).db
  }

  predicate AllProper(acts: seq<Action>) { forall k :: 0 <= k < |acts| ==> Proper(acts[k]) }

  function RunActions(db: Db, acts: seq<Action>, retry: Failure -> bool): Db
    requires AllProper(acts)
  {
    if acts == [] then db else
    RunAction(RunActions(db, acts[..|acts| - 1], retry), acts[|acts| - 1], retry)
  }

  /** The transaction ids of a transfer's attempts. */
  function TryIds(tries: seq<TransferAttempt>): set<string> { set i | 0 <= i < |tries| :: tries[i].txId }

  function IdsOf(a: Action): set<string> { if a.Move? then TryIds(a.tries) else {} }

  function TransferIds(acts: seq<Action>): set<string> {
    if acts == [] then {} else TransferIds(acts[..|acts| - 1]) + IdsOf(acts[|acts| - 1])
  }

  /** Nothing that is committed while the action runs is posted under `x`. */
  predicate ActionAvoids(a: Action, x: string) {
    match a
    case Open(_, _, _, _) => true
    case PostOne(e, sched) => e.txId != x && ScheduleAvoids(sched, x)
    case Move(_, tries) => forall i :: 0 <= i < |tries| ==> AttemptAvoids(tries[i], x) && tries[i].txId != x
  }

  /** Transfer ids are fresh: no other action, and no other client, posts under them. */
  predicate FreshRun(acts: seq<Action>) {
    && AllProper(acts)
    && forall k, l, x :: 0 <= k < |acts| && 0 <= l < |acts| && k != l && x in IdsOf(acts[l]) ==>
         ActionAvoids(acts[k], x)
  }

  // ---------------------------------------------------------------- every action is a list of commits

  lemma PostCommits(db: Db, e: Entry, sched: seq<Attempt>) returns (cs: seq<Command>)
    ensures PostRun(db, e, sched).db == ExecAll(db, cs)
    ensures forall x :: e.txId != x && ScheduleAvoids(sched, x) ==> Avoids(cs, x)
  {
    hide AttemptTx, Commits, Exec, ScheduleAvoids;
    if sched == [] {
      cs := [];
    } else {
      var t := PostTrace(db, e, sched);
      PostsExactlyOnce(db, e, sched);
      ExecAllConcat(db, t.others, t.ours);
      cs := t.others + t.ours;
      forall x | e.txId != x && ScheduleAvoids(sched, x) ensures Avoids(cs, x) {
        TraceAvoids(db, e, sched, x);
        OursAvoid(t.ours, e, x);
      }
    }
  }

  lemma Together(db: Db, xs: seq<Command>, ys: seq<Command>)
    ensures ExecAll(db, xs + ys) == ExecAll(ExecAll(db, xs), ys)
    ensures forall x :: Avoids(xs, x) && Avoids(ys, x) ==> Avoids(xs + ys, x)
  {
    ExecAllConcat(db, xs, ys);
  }

  /** One attempt of a transfer is a list of commits. */
  lemma TransferCommits(db: Db, req: TransferRequest, a: TransferAttempt) returns (cs: seq<Command>)
    requires WellFormed(a)
    ensures TransferOnce(db, req, a).db == ExecAll(db, cs)
    ensures forall x :: AttemptAvoids(a, x) && a.txId != x ==> Avoids(cs, x)
  {
    hide ExecAll, PostRun, PostTrace, Avoids, ScheduleAvoids, TransferCheck;
    var db0 := ExecAll(db, a.others);
    if TransferCheck(db0, req, a.readFault).Some? { return a.others; }
    var d := PostRun(db0, DebitLeg(req, a.txId), a.debit);
    var ds := PostCommits(db0, DebitLeg(req, a.txId), a.debit);
    Together(db, a.others, ds);
    if d.err.Some? { return a.others + ds; }
    var es := PostCommits(d.db, CreditLeg(req, a.txId), a.credit);
    Together(db, a.others + ds, es);
    cs := a.others + ds + es;
  }

  lemma {:induction false} LoopCommits(db: Db, req: TransferRequest, tries: seq<TransferAttempt>,
                                       retry: Failure -> bool)
    returns (cs: seq<Command>)
    requires forall i :: 0 <= i < |tries| ==> WellFormed(tries[i])
    ensures TransferLoop(db, req, tries, retry).db == ExecAll(db, cs)
    ensures forall x :: ActionAvoids(Move(req, tries), x) ==> Avoids(cs, x)
    decreases |tries|
  {
    hide TransferOnce, WellFormed, AttemptAvoids, Avoids;
    if tries == [] {
      cs := [];
      NoCommits(db);
    } else {
      cs := TransferCommits(db, req, tries[0]);
      var r := TransferOnce(db, req, tries[0]);
      if r.err.Some? && retry(r.err.value) && |tries| > 1 {
        var rest := LoopCommits(r.db, req, tries[1..], retry);
        Together(db, cs, rest);
        cs := cs + rest;
      }
    }
  }

  lemma NoCommits(db: Db)
    ensures ExecAll(db, []) == db && forall x :: Avoids([], x)
  {}

  lemma ActionCommits(db: Db, a: Action, retry: Failure -> bool) returns (cs: seq<Command>)
    requires Proper(a)
    ensures RunAction(db, a, retry) == ExecAll(db, cs)
    ensures forall x :: ActionAvoids(a, x) ==> Avoids(cs, x)
  {
    hide PostRun, TransferLoop, Exec, AttemptAvoids, WellFormed;
    match a
    case Open(id, t, name, currency) =>
      cs := [Create(id, t, name, currency)];
      assert cs[..0] == [] && ExecAll(db, []) == db;
    case PostOne(e, sched) => cs := PostCommits(db, e, sched);
    case Move(req, tries) => cs := LoopCommits(db, req, tries, retry);
  }

  /** A whole run of actions is a list of commits. */
  lemma {:induction false} ActionsCommit(db: Db, acts: seq<Action>, retry: Failure -> bool) returns (cs: seq<Command>)
    requires AllProper(acts)
    ensures RunActions(db, acts, retry) == ExecAll(db, cs)
    ensures forall x :: (forall k :: 0 <= k < |acts| ==> ActionAvoids(acts[k], x)) ==> Avoids(cs, x)
    decreases |acts|
  {
    hide RunAction, Proper, ActionAvoids, Avoids;
    if acts == [] {
      cs := [];
      NoCommits(db);
    } else {
      var n := |acts| - 1;
      cs := ActionsCommit(db, acts[..n], retry);
      var last := ActionCommits(RunActions(db, acts[..n], retry), acts[n], retry);
      Together(db, cs, last);
      forall x | forall k :: 0 <= k < |acts| ==> ActionAvoids(acts[k], x) ensures Avoids(cs + last, x) {
        assert forall k :: 0 <= k < n ==> ActionAvoids(acts[..n][k], x);
      }
      cs := cs + last;
    }
  }

  // ---------------------------------------------------------------- what a transfer leaves behind

  /** The rows under `x` are on accounts of the currency of account `from`. */
  ghost predicate AtHome(db: Db, from: string, x: string) {
    forall r :: r in RowsOf(db.journal, x) ==>
      && r.txId == x && from in db.accounts && r.accountId in db.accounts
      && db.accounts[r.accountId].currency == db.accounts[from].currency
  }

  lemma CommitsKeepHome(db: Db, cs: seq<Command>, from: string, x: string)
    requires AtHome(db, from, x) && Avoids(cs, x)
    ensures AtHome(ExecAll(db, cs), from, x)
    ensures RowsOf(ExecAll(db, cs).journal, x) == RowsOf(db.journal, x)
  {
    hide RowsOf, ExecAll, Avoids;
    OthersKeepRows(db, cs, x);
    forall r | r in RowsOf(db.journal, x)
      ensures var db' := ExecAll(db, cs);
        && from in db'.accounts && r.accountId in db'.accounts
        && db'.accounts[r.accountId].currency == db'.accounts[from].currency
    {
      AccountsPersist(db, cs, from);
      AccountsPersist(db, cs, r.accountId);
    }
  }

  lemma TransferAtHome(db: Db, req: TransferRequest, a: TransferAttempt)
    requires WellFormed(a) && AttemptAvoids(a, a.txId) && RowsOf(db.journal, a.txId) == []
    ensures AtHome(TransferOnce(db, req, a).db, req.from, a.txId)
  {
    hide TransferOnce, RowsOf, WellFormed, AttemptAvoids;
    TransferLegs(db, req, a);
    var r := TransferOnce(db, req, a);
    TotalsAreOverRows(r.db.journal, a.txId, Debit);
  }

  lemma {:induction false} LoopAtHome(db: Db, req: TransferRequest, tries: seq<TransferAttempt>, retry: Failure -> bool)
    requires (forall i :: 0 <= i < |tries| ==> WellFormed(tries[i])) && FreshIds(db, tries)
    ensures forall i :: 0 <= i < |tries| ==> AtHome(TransferLoop(db, req, tries, retry).db, req.from, tries[i].txId)
    decreases |tries|
  {
    hide RowsOf, TransferOnce, AttemptAvoids, WellFormed, FreshIds, AtHome, Avoids;
    if tries != [] {
      var a, rest := tries[0], tries[1..];
      FreshHead(db, tries);
      var r := TransferOnce(db, req, a);
      FreshTail(db, req, tries);
      TransferAtHome(db, req, a);
      if r.err.Some? && retry(r.err.value) && |tries| > 1 {
        LoopAtHome(r.db, req, rest, retry);
        var cs := LoopCommits(r.db, req, rest, retry);
        assert ActionAvoids(Move(req, rest), a.txId);
        CommitsKeepHome(r.db, cs, req.from, a.txId);
        forall i | 0 <= i < |tries| ensures AtHome(TransferLoop(db, req, tries, retry).db, req.from, tries[i].txId) {
          if i > 0 { assert tries[i] == rest[i - 1]; }
        }
      } else {
        FreshNoRows(r.db, rest);
        forall i | 0 < i < |tries| ensures AtHome(r.db, req.from, tries[i].txId) {
          assert tries[i] == rest[i - 1];
          EmptyAtHome(r.db, req.from, tries[i].txId);
        }
      }
    }
  }

  lemma EmptyAtHome(db: Db, from: string, x: string)
    requires RowsOf(db.journal, x) == []
    ensures AtHome(db, from, x)
  {}

  /** The imbalance of one transaction counts in the currency of its accounts only. */
  lemma HomeSkew(db: Db, from: string, x: string, currency: string)
    requires AtHome(db, from, x)
    ensures SkewByTx(db.accounts, db.journal, currency)(x) ==
      if AccountIn(db.accounts, from, currency) then TxSkew(db.journal, x) else 0
  {
    hide RowsOf, TxTotal, Skew;
    var rows := RowsOf(db.journal, x);
    TotalsAreOverRows(db.journal, x, Debit);
    TotalsAreOverRows(db.journal, x, Credit);
    if rows == [] {
      SkewEmpty(db.accounts, currency);
      EmptyRowsNoSkew(db.journal, x);
    } else {
      assert rows[0] in rows;
      SkewOfRows(db.accounts, rows, x, currency, db.accounts[from].currency);
    }
  }

  lemma {:induction false} TriesSkew(db: Db, from: string, tries: seq<TransferAttempt>, currency: string)
    requires forall i :: 0 <= i < |tries| ==> AtHome(db, from, tries[i].txId)
    requires forall i, j :: 0 <= i < j < |tries| ==> tries[i].txId != tries[j].txId
    ensures SumOver(TryIds(tries), SkewByTx(db.accounts, db.journal, currency)) ==
      if AccountIn(db.accounts, from, currency) then TotalSkew(db.journal, tries) else 0
    decreases |tries|
  {
    hide AtHome, TxTotal, RowsOf, Skew;
    if tries != [] {
      var x, rest := tries[0].txId, tries[1..];
      TriesSkew(db, from, rest, currency);
      HomeSkew(db, from, x, currency);
      assert TryIds(tries) - {x} == TryIds(rest) by {
        forall i | 0 <= i < |rest| ensures rest[i].txId in TryIds(tries) - {x} { assert tries[i + 1] == rest[i]; }
        forall i | 0 < i < |tries| ensures tries[i].txId in TryIds(rest) { assert rest[i - 1] == tries[i]; }
      }
      SumTakeOut(TryIds(tries), x, SkewByTx(db.accounts, db.journal, currency));
    }
  }

  // ---------------------------------------------------------------- the accounting equation of a run

  /** Over the transfers of one currency: the amount, once for every attempt that stopped between its legs. */
  function HalfDone(db: Db, acts: seq<Action>, retry: Failure -> bool, currency: string): int
    requires AllProper(acts)
  {
    if acts == [] then 0 else
    var n := |acts| - 1;
    var a := acts[n];
    HalfDone(db, acts[..n], retry, currency) +
    (if !a.Move? then 0 else
     var r := TransferLoop(RunActions(db, acts[..n], retry), a.req, a.tries, retry);
     if AccountIn(r.db.accounts, a.req.from, currency) then a.req.amount * r.halves else 0)
  }

  lemma {:induction false} SumDisjoint(s: set<string>, t: set<string>, f: string -> int)
    requires s !! t
    ensures SumOver(s + t, f) == SumOver(s, f) + SumOver(t, f)
    decreases |t|
  {
    if t == {} {
      assert s + t == s;
    } else {
      var x :| x in t;
      SumDisjoint(s, t - {x}, f);
      SumTakeOut(s + t, x, f);
      SumTakeOut(t, x, f);
      assert s + t - {x} == s + (t - {x});
    }
  }

  lemma {:induction false} IdsAreActions(acts: seq<Action>, x: string)
    requires x in TransferIds(acts)
    ensures exists k :: 0 <= k < |acts| && x in IdsOf(acts[k])
    decreases |acts|
  {
    var n := |acts| - 1;
    if x in IdsOf(acts[n]) { return; }
    IdsAreActions(acts[..n], x);
    var k :| 0 <= k < n && x in IdsOf(acts[..n][k]);
    assert x in IdsOf(acts[k]);
  }

  /** Every id of a run's transfers has its rows on accounts of one currency. */
  ghost predicate AllAtHome(db: Db, ids: set<string>) { forall x :: x in ids ==> exists from :: AtHome(db, from, x) }

  lemma CommitsKeepSkews(db: Db, cs: seq<Command>, ids: set<string>, currency: string)
    requires AllAtHome(db, ids) && forall x :: x in ids ==> Avoids(cs, x)
    ensures var db' := ExecAll(db, cs);
      && AllAtHome(db', ids)
      && SumOver(ids, SkewByTx(db'.accounts, db'.journal, currency)) ==
         SumOver(ids, SkewByTx(db.accounts, db.journal, currency))
  {
    hide AtHome, ExecAll, Avoids;
    var db' := ExecAll(db, cs);
    var f, g := SkewByTx(db.accounts, db.journal, currency), SkewByTx(db'.accounts, db'.journal, currency);
    forall x | x in ids ensures f(x) == g(x) && exists from :: AtHome(db', from, x) {
      var from :| AtHome(db, from, x);
      CommitsKeepHome(db, cs, from, x);
      SameSkew(db, cs, from, x, currency);
    }
    SumSame(ids, g, f);
  }

  lemma SameSkew(db: Db, cs: seq<Command>, from: string, x: string, currency: string)
    requires AtHome(db, from, x) && AtHome(ExecAll(db, cs), from, x)
    requires RowsOf(ExecAll(db, cs).journal, x) == RowsOf(db.journal, x)
    ensures SkewByTx(ExecAll(db, cs).accounts, ExecAll(db, cs).journal, currency)(x) ==
      SkewByTx(db.accounts, db.journal, currency)(x)
  {
    hide RowsOf, ExecAll, TxTotal, Skew;
    var db' := ExecAll(db, cs);
    HomeSkew(db, from, x, currency);
    HomeSkew(db', from, x, currency);
    SameRowsSameSkew(db.journal, db'.journal, x);
    var rows := RowsOf(db.journal, x);
    if rows == [] {
      EmptyRowsNoSkew(db.journal, x);
    } else {
      assert rows[0] in rows;
      AccountsPersist(db, cs, from);
    }
  }

  lemma FreshPrefix(acts: seq<Action>)
    requires acts != [] && FreshRun(acts)
    ensures var n := |acts| - 1;
      && FreshRun(acts[..n]) && Proper(acts[n])
      && TransferIds(acts[..n]) !! IdsOf(acts[n])
      && (forall x :: x in TransferIds(acts[..n]) ==> ActionAvoids(acts[n], x))
      && (forall x, k :: x in IdsOf(acts[n]) && 0 <= k < n ==> ActionAvoids(acts[..n][k], x))
  {
    hide Proper, TransferIds, ActionAvoids;
    var n := |acts| - 1;
    forall x | x in TransferIds(acts[..n]) ensures ActionAvoids(acts[n], x) && x !in IdsOf(acts[n]) {
      IdsAreActions(acts[..n], x);
      var k :| 0 <= k < n && x in IdsOf(acts[..n][k]);
      assert acts[..n][k] == acts[k] && x in IdsOf(acts[k]);
      OwnIdsNotAvoided(acts[n], x);
    }
    assert forall k, l, x :: 0 <= k < n && 0 <= l < n && k != l && x in IdsOf(acts[..n][l]) ==>
      ActionAvoids(acts[..n][k], x);
  }

  lemma OwnIdsNotAvoided(a: Action, x: string)
    requires ActionAvoids(a, x)
    ensures x !in IdsOf(a)
  {}

  /** A transfer under fresh ids adds its amount for each half, in its own currency. */
  lemma MoveSkew(db: Db, req: TransferRequest, tries: seq<TransferAttempt>, retry: Failure -> bool, currency: string)
    requires Proper(Move(req, tries)) && forall x :: x in TryIds(tries) ==> RowsOf(db.journal, x) == []
    ensures var r := TransferLoop(db, req, tries, retry);
      && AllAtHome(r.db, TryIds(tries))
      && SumOver(TryIds(tries), SkewByTx(r.db.accounts, r.db.journal, currency)) ==
         if AccountIn(r.db.accounts, req.from, currency) then req.amount * r.halves else 0
  {
    hide TransferLoop, RowsOf, WellFormed, AttemptAvoids, AtHome, SkewByTx;
    assert FreshIds(db, tries) by {
      forall i | 0 <= i < |tries| ensures RowsOf(db.journal, tries[i].txId) == [] {
        assert tries[i].txId in TryIds(tries);
      }
    }
    var r := TransferLoop(db, req, tries, retry);
    TransferLoopSkew(db, req, tries, retry);
    LoopAtHome(db, req, tries, retry);
    TriesSkew(r.db, req.from, tries, currency);
  }

  lemma {:induction false} TransfersLeave(acts: seq<Action>, retry: Failure -> bool, currency: string)
    requires FreshRun(acts)
    ensures var db := RunActions(EMPTY_DB, acts, retry); var ids := TransferIds(acts);
      && AllAtHome(db, ids)
      && SumOver(ids, SkewByTx(db.accounts, db.journal, currency)) == HalfDone(EMPTY_DB, acts, retry, currency)
    decreases |acts|
  {
    hide RunAction, ActionAvoids, Proper, SkewByTx, AllAtHome, ExecAll, Avoids, FreshRun, IdsOf;
    if acts == [] {
      NothingMoved(retry, currency);
    } else {
      var n := |acts| - 1;
      var pre, a := acts[..n], acts[n];
      FreshPrefix(acts);
      FreshIsProper(acts);
      FreshIsProper(pre);
      TransfersLeave(pre, retry, currency);
      var db := RunActions(EMPTY_DB, pre, retry);
      var cs := ActionCommits(db, a, retry);
      CommitsKeepSkews(db, cs, TransferIds(pre), currency);
      ActionLeaves(pre, a, retry, currency);
      var db' := RunAction(db, a, retry);
      SumDisjoint(TransferIds(pre), IdsOf(a), SkewByTx(db'.accounts, db'.journal, currency));
      BothAtHome(db', TransferIds(pre), IdsOf(a));
    }
  }

  lemma NothingMoved(retry: Failure -> bool, currency: string)
    ensures AllAtHome(RunActions(EMPTY_DB, [], retry), TransferIds([]))
    ensures HalfDone(EMPTY_DB, [], retry, currency) == 0
  {}

  lemma BothAtHome(db: Db, s: set<string>, t: set<string>)
    requires AllAtHome(db, s) && AllAtHome(db, t)
    ensures AllAtHome(db, s + t)
  {
    hide AtHome;
  }

  lemma ActionLeaves(pre: seq<Action>, a: Action, retry: Failure -> bool, currency: string)
    requires AllProper(pre) && Proper(a)
    requires forall x, k :: x in IdsOf(a) && 0 <= k < |pre| ==> ActionAvoids(pre[k], x)
    ensures var db := RunActions(EMPTY_DB, pre, retry); var db' := RunAction(db, a, retry);
      && (a.Move? ==> db' == TransferLoop(db, a.req, a.tries, retry).db)
      && AllAtHome(db', IdsOf(a))
      && SumOver(IdsOf(a), SkewByTx(db'.accounts, db'.journal, currency)) ==
         if !a.Move? then 0
         else if AccountIn(db'.accounts, a.req.from, currency)
         then a.req.amount * TransferLoop(db, a.req, a.tries, retry).halves else 0
  {
    hide RunActions, TransferLoop, PostRun, Exec, ActionAvoids, AtHome, ExecAll, Avoids, SkewByTx, RowsOf;
    hide WellFormed, AttemptAvoids;
    if a.Move? {
      var db := RunActions(EMPTY_DB, pre, retry);
      var cs := ActionsCommit(EMPTY_DB, pre, retry);
      forall x | x in TryIds(a.tries) ensures RowsOf(db.journal, x) == [] {
        assert x in IdsOf(a);
        assert forall k :: 0 <= k < |pre| ==> ActionAvoids(pre[k], x);
        OthersKeepRows(EMPTY_DB, cs, x);
        RowsOfNothing();
      }
      MoveSkew(db, a.req, a.tries, retry, currency);
    }
  }

  /**
   * The accounting equation of every run, whatever fails in it: for each currency the net position is
   * the debits less the credits of the single postings, plus, for each transfer of that currency, its
   * amount once for every attempt that stopped between its legs.
   */
  lemma BooksOfRuns(acts: seq<Action>, retry: Failure -> bool, currency: string)
    requires FreshRun(acts)
    ensures var db := RunActions(EMPTY_DB, acts, retry);
      NetPosition(db, currency) ==
        Skew(db.accounts, Outside(db.journal, TransferIds(acts)), currency) +
        HalfDone(EMPTY_DB, acts, retry, currency)
  {
    hide *;
    assert AllProper(acts) by { FreshIsProper(acts); }
    var cs := ActionsCommit(EMPTY_DB, acts, retry);
    NetPositionByTransaction(cs, currency, TransferIds(acts));
    TransfersLeave(acts, retry, currency);
  }

  /** The transfers of the run that were told nil. */
  predicate AllNil(db: Db, acts: seq<Action>, retry: Failure -> bool)
    requires AllProper(acts)
  {
    forall k :: 0 <= k < |acts| && acts[k].Move? ==>
      TransferLoop(RunActions(db, acts[..k], retry), acts[k].req, acts[k].tries, retry).err.None?
  }

  lemma NilMeansNoHalf(db: Db, req: TransferRequest, tries: seq<TransferAttempt>, retry: Failure -> bool)
    requires (forall i :: 0 <= i < |tries| ==> WellFormed(tries[i])) && forall f :: !retry(f)
    requires TransferLoop(db, req, tries, retry).err.None?
    ensures TransferLoop(db, req, tries, retry).halves == 0
  {
    hide ExecAll, PostRun, PostTrace, TransferCheck;
  }

  /** As long as no error is recognised as retryable, transfers that all return nil leave nothing behind. */
  lemma {:induction false} NilTransfersCancel(db: Db, acts: seq<Action>, retry: Failure -> bool, currency: string)
    requires AllProper(acts) && (forall f :: !retry(f)) && AllNil(db, acts, retry)
    ensures HalfDone(db, acts, retry, currency) == 0
    decreases |acts|
  {
    hide RunAction, TransferLoop, WellFormed, AttemptAvoids;
    if acts != [] {
      var n := |acts| - 1;
      forall k | 0 <= k < n && acts[..n][k].Move?
        ensures TransferLoop(RunActions(db, acts[..n][..k], retry), acts[k].req, acts[k].tries, retry).err.None?
      {
        assert acts[..n][..k] == acts[..k];
      }
      NilTransfersCancel(db, acts[..n], retry, currency);
      if acts[n].Move? { NilMeansNoHalf(RunActions(db, acts[..n], retry), acts[n].req, acts[n].tries, retry); }
    }
  }

  lemma FreshIsProper(acts: seq<Action>)
    ensures FreshRun(acts) ==> AllProper(acts)
  {}
}
