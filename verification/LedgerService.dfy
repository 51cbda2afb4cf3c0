/** The ledger as an object: tables updated in place by transactions that commit or roll back. */
module LedgerService {
  import opened Prelude
  import opened Ledger
  import opened Posting

  class PostgresLedger {
    var accounts: map<string, Account>
    var balances: map<string, int>
    var journal: seq<Row>
    var snapshots: seq<Snapshot>

    ghost function State(): Db
      reads this
    {
      Db(accounts, balances, journal, snapshots)
    }

    constructor ()
      ensures State() == EMPTY_DB && Sound(State())
    {
      accounts, balances, journal, snapshots := map[], map[], [], [];
      new;
      EmptyIsSound();
    }

    /** Inserts the account and its zero balance, or changes nothing. */
    method CreateAccountTx(id: string, t: AccountType, name: string, currency: string) returns (err: Option<Failure>)
      modifies this
      ensures State() == Exec(old(State()), Create(id, t, name, currency))
      ensures err == match CreateTx(old(State()), id, t, name, currency) case Ok(_) => None case Err(f) => Some(f)
      ensures old(Sound(State())) ==>
        && (err.None? <==> id !in old(accounts) && id != "" && name != "" && |currency| == 3)
        && (err.None? ==> id in accounts && accounts[id].accountType == t && accounts[id].currency == currency)
    {
      hide Sound;
      if Sound(State()) { CreatedIff(State(), id, t, name, currency); }
      if id in accounts { return Some(UniqueViolation); }
      if id == "" { return Some(CheckViolation("account_number")); }
      if name == "" { return Some(CheckViolation("name")); }
      if |currency| != 3 { return Some(CheckViolation("currency_code")); }
      if id in balances { return Some(UniqueViolation); }
      accounts := accounts[id := Account(t, currency, true)];
      balances := balances[id := 0];
      err := None;
    }

    /**
     * One posting transaction: lock the account, insert the row, let the snapshot trigger and then
     * the balance trigger fire, check, and commit. Any failure before the commit restores every table;
     * a lost acknowledgement is an error after it.
     */
    method PostJournalEntryTx(e: Entry, now: int, fault: Fault) returns (err: Option<Failure>)
      modifies this
      ensures Posted(State(), err) == AttemptTx(old(State()), e, now, fault)
      ensures err.Some? && !(fault.AckLost? && err == Some(Unavailable)) ==> State() == old(State())
      ensures old(Sound(State())) ==> Sound(State())
      ensures old(Sound(State())) && fault == NoFault ==>
        (err.None? <==>
          && WellPosted(old(State()), e)
          && 0 <= Fold(old(journal) + [RowFor(old(State()), e)], e.accountId) < NUMERIC_LIMIT)
    {
      hide Signed, NumberTaken, Sound, WellPosted, Fold;
      ghost var before := State();
      if Sound(before) { AcceptedIff(before, e, now); }
      if fault.AtStart? { return Some(fault.f); }
      if e.accountId !in accounts { return Some(NoAccount); }
      var account := accounts[e.accountId];
      if !account.active { return Some(Inactive); }
      if !FitsNumeric(e.amount) { return Some(Overflow); }
      if e.amount <= 0 { return Some(CheckViolation("amount")); }
      if e.description == "" { return Some(CheckViolation("description")); }
      if |e.currency| != 3 { return Some(CheckViolation("currency_code")); }
      if NumberTaken(journal, e.number) { return Some(UniqueViolation); }
      var savedJournal, savedSnapshots, savedBalances := journal, snapshots, balances;
      journal := journal + [Row(e.number, e.txId, e.side, e.accountId, account.accountType, e.amount, e.currency)];
      err := CreateBalanceSnapshot(e, account.accountType, now);
      if err == None { err := UpdateAccountBalance(e, account.accountType); }
      if err == None && fault.AtCommit? { err := Some(fault.f); }
      if err != None {
        journal, snapshots, balances := savedJournal, savedSnapshots, savedBalances;
        return err;
      }
      if old(Sound(State())) { PostKeepsSound(before, e, now); }
      if fault.AckLost? { err := Some(Unavailable); }
    }

    /** The snapshot trigger: it runs first and sees the balance before the entry. */
    method CreateBalanceSnapshot(e: Entry, t: AccountType, now: int) returns (err: Option<Failure>)
      modifies this`snapshots
      ensures err == if e.accountId !in balances then Some(CheckViolation("balance_before"))
                     else if !FitsNumeric(balances[e.accountId] + Signed(t, e.side, e.amount)) then Some(Overflow)
                     else None
      ensures err == None ==>
        var change := Signed(t, e.side, e.amount); var b := balances[e.accountId];
        snapshots == old(snapshots) + [Snapshot(e.accountId, now, b, b + change, change, t, e.side, e.amount)]
      ensures err != None ==> snapshots == old(snapshots)
    {
      if e.accountId !in balances { return Some(CheckViolation("balance_before")); }
      var before := balances[e.accountId];
      var change := Signed(t, e.side, e.amount);
      if !FitsNumeric(before + change) { return Some(Overflow); }
      snapshots := snapshots + [Snapshot(e.accountId, now, before, before + change, change, t, e.side, e.amount)];
      err := None;
    }

    /** The balance trigger: adds the signed change to the row, or makes the row; refuses a negative result. */
    method UpdateAccountBalance(e: Entry, t: AccountType) returns (err: Option<Failure>)
      modifies this`balances
      ensures var before := if e.accountId in old(balances) then old(balances)[e.accountId] else 0;
        balances == old(balances)[e.accountId := before + Signed(t, e.side, e.amount)]
      ensures err == if balances[e.accountId] < 0 then Some(Overdraft) else None
    {
      var change := 0;
      if e.side == Debit {
        match t {
          case Asset | Expense => change := e.amount;
          case Liability | Equity | Revenue => change := -e.amount;
        }
      } else {
        match t {
          case Liability | Equity | Revenue => change := e.amount;
          case Asset | Expense => change := -e.amount;
        }
      }
      balances := balances[e.accountId := if e.accountId in balances then balances[e.accountId] + change else change];
      err := if balances[e.accountId] < 0 then Some(Overdraft) else None;
    }

    /** Other clients' transactions, one after the other. */
    method RunOthers(cs: seq<Command>)
      modifies this
      ensures State() == ExecAll(old(State()), cs)
      ensures old(Sound(State())) ==> Sound(State())
    {
      hide Sound, WellPosted, Fold, CreateTx, PostTx;
      ghost var start := State();
      for i := 0 to |cs|
        invariant State() == ExecAll(start, cs[..i])
        invariant Sound(start) ==> Sound(State())
      {
        ghost var mid := State();
        if Sound(start) { ExecKeepsSound(mid, cs[i]); }
        var err: Option<Failure>;
        match cs[i] {
          case Create(id, t, name, currency) => err := CreateAccountTx(id, t, name, currency);
          case Post(e, now) => err := PostJournalEntryTx(e, now, NoFault);
        }
        assert State() == Exec(mid, cs[i]);
        assert cs[..i + 1][..i] == cs[..i];
      }
      assert cs[..|cs|] == cs;
    }

    /** Tries the posting transaction again after each serialization failure, up to the limit. */
    method PostJournalEntry(e: Entry, sched: seq<Attempt>) returns (err: Option<Failure>)
      modifies this
      ensures State() == PostRun(old(State()), e, sched).db && err == PostRun(old(State()), e, sched).err
      ensures sched != [] ==>
        var t := PostTrace(old(State()), e, sched);
        && State() == ExecAll(ExecAll(old(State()), t.others), t.ours)
        && |t.ours| <= 1 && (err.None? <==> |t.ours| == 1 && !t.lost) && (t.lost ==> |t.ours| == 1)
      ensures old(Sound(State())) ==> Sound(State())
    {
      ghost var start := State();
      var maxRetries := |sched|;
      var attempt := 0;
      while attempt < maxRetries
        invariant 0 <= attempt <= maxRetries
        invariant attempt == maxRetries ==> maxRetries == 0
        invariant PostRun(State(), e, sched[attempt..]) == PostRun(start, e, sched)
        invariant attempt == 0 ==> State() == start
        invariant Sound(start) ==> Sound(State())
      {
        assert sched[attempt..][1..] == sched[attempt + 1..];
        RunOthers(sched[attempt].others);
        var failure := PostJournalEntryTx(e, sched[attempt].now, sched[attempt].fault);
        if failure.Some? {
          if failure.value == Serialization {
            if attempt == maxRetries - 1 {
              Settle(start, e, sched);
              return Some(RetriesExhausted);
            }
            attempt := attempt + 1;
            continue;
          }
          Settle(start, e, sched);
          return failure;
        }
        Settle(start, e, sched);
        return None;
      }
      err := None;
    }

    /**
     * The checks and the shaping of one entry before it is posted; `drawn` is the id drawn when the
     * caller names no transaction, `nanos` the clock text in the entry's number.
     */
    method PostTransaction(txId: string, drawn: string, nanos: string, accountId: string, amount: int,
                           description: string, fallback: string, currency: string, side: Side, sched: seq<Attempt>)
      returns (err: Option<Failure>)
      modifies this
      ensures accountId == "" || amount <= 0 ==> err.Some? && State() == old(State())
      ensures accountId != "" && amount > 0 ==>
        var id := if txId == "" then drawn else txId;
        var text := if description == "" then fallback else description;
        var e := Entry("JE-" + Prefix(id, 8) + "-" + nanos, id, side, accountId, amount, text, currency);
        State() == PostRun(old(State()), e, sched).db && err == PostRun(old(State()), e, sched).err
      ensures old(Sound(State())) ==> Sound(State())
    {
      var id := txId;
      if id == "" { id := drawn; }
      if accountId == "" { return Some(Invalid("account ID is required")); }
      if amount <= 0 { return Some(Invalid("amount must be positive")); }
      var text := description;
      if text == "" { text := fallback; }
      var prefix := id;
      if |prefix| > 8 { prefix := prefix[..8]; }
      var number := "JE-" + prefix + "-" + nanos;
      err := PostJournalEntry(Entry(number, id, side, accountId, amount, text, currency), sched);
    }

    /** One pass of a transfer: checks, then a debit and a credit in two separate transactions. */
    method TransferWithRetry(req: TransferRequest, a: TransferAttempt) returns (err: Option<Failure>, ghost legs: nat)
      requires WellFormed(a)
      modifies this
      ensures Transferred(State(), err, legs) == TransferOnce(old(State()), req, a)
      ensures old(Sound(State())) ==> Sound(State())
    {
      RunOthers(a.others);
      if req.from == "" || req.to == "" { return Some(Invalid("accounts required")), 0; }
      if req.from == req.to { return Some(Invalid("accounts must differ")), 0; }
      if req.amount <= 0 { return Some(Invalid("amount must be positive")), 0; }
      if a.readFault.Some? { return a.readFault, 0; }
      if req.from !in accounts || req.to !in accounts { return Some(NoAccount), 0; }
      if accounts[req.from].currency != accounts[req.to].currency { return Some(Invalid("currency mismatch")), 0; }
      if req.from !in balances { return Some(NoAccount), 0; }
      if accounts[req.from].accountType == Asset && balances[req.from] < req.amount {
        return Some(Invalid("insufficient balance")), 0;
      }
      var debit := DebitLeg(req, a.txId);
      var credit := CreditLeg(req, a.txId);
      legs := |PostTrace(State(), debit, a.debit).ours|;
      err := PostJournalEntry(debit, a.debit);
      if err.Some? { return err, legs; }
      legs := 1 + |PostTrace(State(), credit, a.credit).ours|;
      err := PostJournalEntry(credit, a.credit);
      if err.Some? { return err, legs; }
      return None, 2;
    }

    /** The transfer's retry loop; `retry` says which errors it recognises as serialization failures. */
    method Transfer(req: TransferRequest, tries: seq<TransferAttempt>, retry: Failure -> bool)
      returns (err: Option<Failure>, ghost halves: nat)
      requires forall i :: 0 <= i < |tries| ==> WellFormed(tries[i])
      modifies this
      ensures Looped(State(), err, halves) == TransferLoop(old(State()), req, tries, retry)
      ensures FreshIds(old(State()), tries) ==> TotalSkew(State().journal, tries) == req.amount * halves
      ensures FreshIds(old(State()), tries) && (forall f :: !retry(f)) ==> halves <= 1 && (err.None? ==> halves == 0)
      ensures old(Sound(State())) ==> Sound(State())
    {
      hide FreshIds, TotalSkew, TransferOnce, Sound, WellFormed;
      ghost var start := State();
      if FreshIds(start, tries) { TransferLoopSkew(start, req, tries, retry); }
      halves := 0;
      var attempt := 0;
      while attempt < |tries|
        invariant 0 <= attempt <= |tries|
        invariant attempt == |tries| ==> |tries| == 0
        invariant var rest := TransferLoop(State(), req, tries[attempt..], retry);
          TransferLoop(start, req, tries, retry) == Looped(rest.db, rest.err, halves + rest.halves)
        invariant Sound(start) ==> Sound(State())
      {
        assert tries[attempt..][1..] == tries[attempt + 1..];
        ghost var legs;
        err, legs := TransferWithRetry(req, tries[attempt]);
        halves := halves + (if legs == 1 then 1 else 0);
        if err.Some? {
          if retry(err.value) {
            if attempt == |tries| - 1 { return Some(RetriesExhausted), halves; }
            attempt := attempt + 1;
            continue;
          }
          return err, halves;
        }
        return None, halves;
      }
      err := None;
    }
  }

  /** At most the first `n` characters. */
  function Prefix(s: string, n: nat): string { if |s| > n then s[..n] else s }

  lemma Settle(db: Db, e: Entry, sched: seq<Attempt>)
    requires sched != []
    ensures var r, t := PostRun(db, e, sched), PostTrace(db, e, sched);
      && r.db == ExecAll(ExecAll(db, t.others), t.ours)
      && |t.ours| <= 1 && (r.err.None? <==> |t.ours| == 1 && !t.lost) && (t.lost ==> |t.ours| == 1)
  {
    PostsExactlyOnce(db, e, sched);
  }
}
