/**
 * The double-entry ledger as its database sees it: accounts, cached balances, an append-only
 * journal, and balance snapshots. Amounts are integers in units of 1e-8. One committed database
 * transaction is one step.
 */
module Ledger {
  import opened Prelude

  datatype AccountType = Asset | Liability | Equity | Revenue | Expense

  datatype Side = Debit | Credit

  datatype Account = Account(accountType: AccountType, currency: string, active: bool)

  /** What a caller asks to post. */
  datatype Entry = Entry(number: string, txId: string, side: Side, accountId: string,
                         amount: int, description: string, currency: string)

  datatype Row = Row(number: string, txId: string, side: Side, accountId: string,
                     accountType: AccountType, amount: int, currency: string)

  datatype Snapshot = Snapshot(accountId: string, time: int, before: int, after: int, change: int,
                               accountType: AccountType, side: Side, amount: int)

  datatype Db = Db(accounts: map<string, Account>, balances: map<string, int>,
                   journal: seq<Row>, snapshots: seq<Snapshot>)

  datatype Failure =
    | Invalid(reason: string)
    | NoAccount
    | Inactive
    | CheckViolation(constraint: string)
    | UniqueViolation
    | Overflow
    | Overdraft
    | Serialization
    | RetriesExhausted
    | Unavailable

  const EMPTY_DB := Db(map[], map[], [], [])

  /** NUMERIC(20, 8): twelve digits before the point. */
  const NUMERIC_LIMIT := 100_000_000_000_000_000_000

  predicate FitsNumeric(x: int) { -NUMERIC_LIMIT < x < NUMERIC_LIMIT }

  /** The balance change of an entry: debits raise assets and expenses, credits the other three. */
  function Signed(t: AccountType, side: Side, amount: int): int {
    match side
    case Debit => (match t case Asset => amount case Expense => amount
                   case Liability => -amount case Equity => -amount case Revenue => -amount)
    case Credit => (match t case Liability => amount case Equity => amount case Revenue => amount
                    case Asset => -amount case Expense => -amount)
  }

  predicate NumberTaken(journal: seq<Row>, number: string) {
    exists i :: 0 <= i < |journal| && journal[i].number == number
  }

  // ---------------------------------------------------------------- one transaction

  /** The transaction of one journal insert, with its snapshot and balance triggers. */
  function PostTx(db: Db, e: Entry, now: int): Result<Db, Failure> {
    if e.accountId !in db.accounts then Err(NoAccount) else
    var a := db.accounts[e.accountId];
    if !a.active then Err(Inactive)
    else if !FitsNumeric(e.amount) then Err(Overflow)
    else if e.amount <= 0 then Err(CheckViolation("amount"))
    else if e.description == "" then Err(CheckViolation("description"))
    else if |e.currency| != 3 then Err(CheckViolation("currency_code"))
    else if NumberTaken(db.journal, e.number) then Err(UniqueViolation)
    else if e.accountId !in db.balances then Err(CheckViolation("balance_before"))
    else
      var change := Signed(a.accountType, e.side, e.amount);
      var before := db.balances[e.accountId];
      if !FitsNumeric(before + change) then Err(Overflow)
      else if before + change < 0 then Err(Overdraft)
      else Ok(Db(db.accounts,
                 db.balances[e.accountId := before + change],
                 db.journal + [Row(e.number, e.txId, e.side, e.accountId, a.accountType, e.amount, e.currency)],
                 db.snapshots + [Snapshot(e.accountId, now, before, before + change, change,
                                          a.accountType, e.side, e.amount)]))
  }

  /** The transaction that creates an account and seeds its balance with zero. */
  function CreateTx(db: Db, id: string, t: AccountType, name: string, currency: string): Result<Db, Failure> {
    if id in db.accounts then Err(UniqueViolation)
    else if id == "" then Err(CheckViolation("account_number"))
    else if name == "" then Err(CheckViolation("name"))
    else if |currency| != 3 then Err(CheckViolation("currency_code"))
    else if id in db.balances then Err(UniqueViolation)
    else Ok(db.(accounts := db.accounts[id := Account(t, currency, true)], balances := db.balances[id := 0]))
  }

  datatype Command =
    | Create(id: string, t: AccountType, name: string, currency: string)
    | Post(e: Entry, now: int)

  function Apply(db: Db, c: Command): Result<Db, Failure> {
    match c
    case Create(id, t, name, currency) => CreateTx(db, id, t, name, currency)
    case Post(e, now) => PostTx(db, e, now)
  }

  /** A rejected transaction is rolled back. */
  function Exec(db: Db, c: Command): Db {
    match Apply(db, c) case Ok(db') => db' case Err(_) => db
  }

  function ExecAll(db: Db, cs: seq<Command>): Db {
    if cs == [] then db else Exec(ExecAll(db, cs[..|cs| - 1]), cs[|cs| - 1])
  }

  lemma {:induction false} ExecAllConcat(db: Db, xs: seq<Command>, ys: seq<Command>)
    ensures ExecAll(db, xs + ys) == ExecAll(ExecAll(db, xs), ys)
    decreases |ys|
  {
    hide Exec;
    if ys == [] {
      assert xs + ys == xs;
    } else {
      var n := |ys| - 1;
      ExecAllConcat(db, xs, ys[..n]);
      assert (xs + ys)[..|xs + ys| - 1] == xs + ys[..n];
    }
  }

  // ---------------------------------------------------------------- the simple folds

  /** The journal's own account of one balance. */
  function Fold(journal: seq<Row>, id: string): int {
    if journal == [] then 0 else
    var r := journal[|journal| - 1];
    Fold(journal[..|journal| - 1], id) + (if r.accountId == id then Signed(r.accountType, r.side, r.amount) else 0)
  }

  /** The validator's expected balance: signs taken from the account, not from the row. */
  function ExpectedBalance(db: Db, journal: seq<Row>, id: string): int
    requires id in db.accounts
  {
    if journal == [] then 0 else
    var r := journal[|journal| - 1];
    ExpectedBalance(db, journal[..|journal| - 1], id) +
    (if r.accountId == id then Signed(db.accounts[id].accountType, r.side, r.amount) else 0)
  }

  /** The same expectation computed from the snapshot rows, as the database function does. */
  function SnapshotBalance(db: Db, snaps: seq<Snapshot>, id: string): int
    requires id in db.accounts
  {
    if snaps == [] then 0 else
    var s := snaps[|snaps| - 1];
    SnapshotBalance(db, snaps[..|snaps| - 1], id) +
    (if s.accountId == id then Signed(db.accounts[id].accountType, s.side, s.amount) else 0)
  }

  /** The check with tolerance 0.00000001, which is one unit. */
  predicate WithinEpsilon(x: int, y: int) { Abs(x - y) < 1 }

  predicate BalanceValidates(db: Db, id: string) {
    id in db.accounts && id in db.balances && WithinEpsilon(db.balances[id], ExpectedBalance(db, db.journal, id))
  }

  /** Total amount of one side of a transaction. */
  function TxTotal(journal: seq<Row>, txId: string, side: Side): int {
    if journal == [] then 0 else
    var r := journal[|journal| - 1];
    TxTotal(journal[..|journal| - 1], txId, side) + (if r.txId == txId && r.side == side then r.amount else 0)
  }

  predicate DoubleEntryValidates(journal: seq<Row>, txId: string) {
    WithinEpsilon(TxTotal(journal, txId, Debit), TxTotal(journal, txId, Credit))
  }

  // ---------------------------------------------------------------- snapshot chains

  function Of(snaps: seq<Snapshot>, id: string): seq<Snapshot> {
    if snaps == [] then [] else
    var s := snaps[|snaps| - 1];
    Of(snaps[..|snaps| - 1], id) + (if s.accountId == id then [s] else [])
  }

  /** A gap-free chain from 0 to `end`: each snapshot starts where the one before it stopped. */
  predicate Telescopes(s: seq<Snapshot>, end: int) {
    && (forall i :: 0 <= i < |s| ==> s[i].after == s[i].before + s[i].change)
    && (forall i :: 0 <= i < |s| - 1 ==> s[i + 1].before == s[i].after)
    && (if s == [] then end == 0 else s[0].before == 0 && s[|s| - 1].after == end)
  }

  // ---------------------------------------------------------------- the invariant

  predicate RowsTyped(accounts: map<string, Account>, journal: seq<Row>) {
    forall i :: 0 <= i < |journal| ==>
      journal[i].accountId in accounts && journal[i].accountType == accounts[journal[i].accountId].accountType &&
      journal[i].amount > 0
  }

  predicate SnapshotsMatch(journal: seq<Row>, snaps: seq<Snapshot>) {
    |snaps| == |journal| &&
    forall i :: 0 <= i < |snaps| ==>
      && snaps[i].accountId == journal[i].accountId && snaps[i].side == journal[i].side
      && snaps[i].amount == journal[i].amount && snaps[i].accountType == journal[i].accountType
      && snaps[i].change == Signed(journal[i].accountType, journal[i].side, journal[i].amount)
  }

  predicate NumbersUnique(journal: seq<Row>) {
    forall i, j :: 0 <= i < j < |journal| ==> journal[i].number != journal[j].number
  }

  ghost predicate Sound(db: Db) {
    && db.balances.Keys == db.accounts.Keys
    && RowsTyped(db.accounts, db.journal)
    && NumbersUnique(db.journal)
    && SnapshotsMatch(db.journal, db.snapshots)
    && (forall id :: id in db.accounts ==>
          && db.balances[id] == Fold(db.journal, id)
          && 0 <= db.balances[id] < NUMERIC_LIMIT
          && Telescopes(Of(db.snapshots, id), db.balances[id]))
  }

  lemma {:induction false} FoldOfUnknown(accounts: map<string, Account>, journal: seq<Row>, id: string)
    requires RowsTyped(accounts, journal) && id !in accounts
    ensures Fold(journal, id) == 0
    decreases |journal|
  {
    if journal != [] { FoldOfUnknown(accounts, journal[..|journal| - 1], id); }
  }

  lemma {:induction false} NoSnapshotOfUnknown(accounts: map<string, Account>, journal: seq<Row>,
                                               snaps: seq<Snapshot>, id: string)
    requires RowsTyped(accounts, journal) && SnapshotsMatch(journal, snaps) && id !in accounts
    ensures Of(snaps, id) == []
    decreases |journal|
  {
    if snaps != [] {
      assert journal[|journal| - 1].accountId in accounts;
      NoSnapshotOfUnknown(accounts, journal[..|journal| - 1], snaps[..|snaps| - 1], id);
    }
  }

  lemma ChainGrows(s: seq<Snapshot>, end: int, x: Snapshot)
    requires Telescopes(s, end) && x.before == end && x.after == x.before + x.change
    ensures Telescopes(s + [x], x.after)
  {
    var t := s + [x];
    forall i | 0 <= i < |t| - 1 ensures t[i + 1].before == t[i].after {
      if i < |s| - 1 { assert t[i] == s[i] && t[i + 1] == s[i + 1]; }
    }
  }

  lemma PostKeepsSound(db: Db, e: Entry, now: int)
    requires Sound(db) && PostTx(db, e, now).Ok?
    ensures Sound(PostTx(db, e, now).value)
  {
    hide Signed, Telescopes, NumberTaken, NumbersUnique, RowsTyped, SnapshotsMatch, Fold, Of;
    var db' := PostTx(db, e, now).value;
    var n := |db.journal|;
    assert n == |db.snapshots| by { SameLength(db.journal, db.snapshots); }
    FreshNumber(db.journal, db'.journal[n]);
    RowsGrow(db.accounts, db.journal, db'.journal[n]);
    MatchGrows(db.journal, db.snapshots, db'.journal[n], db'.snapshots[n]);
    forall id | id in db'.accounts
      ensures db'.balances[id] == Fold(db'.journal, id) && Telescopes(Of(db'.snapshots, id), db'.balances[id])
    {
      LastRow(db.journal, db'.journal[n], db.snapshots, db'.snapshots[n], id);
      if id == e.accountId { ChainGrows(Of(db.snapshots, id), db.balances[id], db'.snapshots[n]); }
    }
  }

  /** One more row adds its own change to the fold of its account, and its snapshot to that chain. */
  lemma LastRow(journal: seq<Row>, r: Row, snaps: seq<Snapshot>, s: Snapshot, id: string)
    ensures Fold(journal + [r], id) ==
      Fold(journal, id) + (if r.accountId == id then Signed(r.accountType, r.side, r.amount) else 0)
    ensures Of(snaps + [s], id) == if s.accountId == id then Of(snaps, id) + [s] else Of(snaps, id)
  {
    assert (journal + [r])[..|journal|] == journal && (snaps + [s])[..|snaps|] == snaps;
  }

  lemma SameLength(journal: seq<Row>, snaps: seq<Snapshot>)
    requires SnapshotsMatch(journal, snaps)
    ensures |journal| == |snaps|
  {}

  lemma RowsGrow(accounts: map<string, Account>, journal: seq<Row>, r: Row)
    requires RowsTyped(accounts, journal)
    requires r.accountId in accounts && r.accountType == accounts[r.accountId].accountType && r.amount > 0
    ensures RowsTyped(accounts, journal + [r])
  {}

  lemma MatchGrows(journal: seq<Row>, snaps: seq<Snapshot>, r: Row, s: Snapshot)
    requires SnapshotsMatch(journal, snaps)
    requires s.accountId == r.accountId && s.side == r.side && s.amount == r.amount && s.accountType == r.accountType
    requires s.change == Signed(r.accountType, r.side, r.amount)
    ensures SnapshotsMatch(journal + [r], snaps + [s])
  {
    hide Signed;
  }

  lemma FreshNumber(journal: seq<Row>, r: Row)
    requires NumbersUnique(journal) && !NumberTaken(journal, r.number)
    ensures NumbersUnique(journal + [r])
  {}

  lemma CreateKeepsSound(db: Db, id: string, t: AccountType, name: string, currency: string)
    requires Sound(db) && CreateTx(db, id, t, name, currency).Ok?
    ensures Sound(CreateTx(db, id, t, name, currency).value)
  {
    hide Signed, Telescopes, NumbersUnique, SnapshotsMatch, RowsTyped, Fold, Of;
    var db' := CreateTx(db, id, t, name, currency).value;
    FoldOfUnknown(db.accounts, db.journal, id);
    NoSnapshotOfUnknown(db.accounts, db.journal, db.snapshots, id);
    StillTyped(db.accounts, db'.accounts, db.journal);
    EmptyChain();
  }

  lemma StillTyped(accounts: map<string, Account>, more: map<string, Account>, journal: seq<Row>)
    requires RowsTyped(accounts, journal)
    requires forall id :: id in accounts ==> id in more && more[id] == accounts[id]
    ensures RowsTyped(more, journal)
  {}

  lemma EmptyChain()
    ensures Telescopes([], 0)
  {}

  lemma ExecKeepsSound(db: Db, c: Command)
    requires Sound(db)
    ensures Sound(Exec(db, c))
  {
    hide Sound;
    match c
    case Create(id, t, name, currency) =>
      if Apply(db, c).Ok? { CreateKeepsSound(db, id, t, name, currency); }
    case Post(e, now) =>
      if Apply(db, c).Ok? { PostKeepsSound(db, e, now); }
  }

  /** Every run of transactions, accepted or rejected, keeps the database sound. */
  lemma {:induction false} RunsKeepSound(db: Db, cs: seq<Command>)
    requires Sound(db)
    ensures Sound(ExecAll(db, cs))
    decreases |cs|
  {
    hide Sound, Exec;
    if cs != [] {
      RunsKeepSound(db, cs[..|cs| - 1]);
      ExecKeepsSound(ExecAll(db, cs[..|cs| - 1]), cs[|cs| - 1]);
    }
  }

  lemma EmptyIsSound()
    ensures Sound(EMPTY_DB)
  {}

  // ---------------------------------------------------------------- what soundness gives

  lemma {:induction false} ExpectedIsFold(db: Db, journal: seq<Row>, id: string)
    requires RowsTyped(db.accounts, journal) && id in db.accounts
    ensures ExpectedBalance(db, journal, id) == Fold(journal, id)
    decreases |journal|
  {
    hide Signed;
    if journal != [] { ExpectedIsFold(db, journal[..|journal| - 1], id); }
  }

  lemma {:induction false} SnapshotBalanceIsFold(db: Db, journal: seq<Row>, snaps: seq<Snapshot>, id: string)
    requires RowsTyped(db.accounts, journal) && SnapshotsMatch(journal, snaps) && id in db.accounts
    ensures SnapshotBalance(db, snaps, id) == Fold(journal, id)
    decreases |journal|
  {
    hide Signed;
    if journal != [] {
      SnapshotBalanceIsFold(db, journal[..|journal| - 1], snaps[..|snaps| - 1], id);
    }
  }

  /**
   * In every reachable database each stored balance is the signed fold of the account's journal
   * rows and is not negative, and both consistency checks pass.
   */
  lemma BalancesAgreeEverywhere(cs: seq<Command>, id: string)
    requires id in ExecAll(EMPTY_DB, cs).accounts
    ensures var db := ExecAll(EMPTY_DB, cs);
      && id in db.balances && db.balances[id] == Fold(db.journal, id) && db.balances[id] >= 0
      && BalanceValidates(db, id)
      && SnapshotBalance(db, db.snapshots, id) == db.balances[id]
  {
    var db := ExecAll(EMPTY_DB, cs);
    EmptyIsSound();
    RunsKeepSound(EMPTY_DB, cs);
    hide Signed;
    ExpectedIsFold(db, db.journal, id);
    SnapshotBalanceIsFold(db, db.journal, db.snapshots, id);
  }

  /** With a typed journal the validator accepts a balance exactly when it is the journal's fold. */
  lemma ValidatorIsExact(db: Db, id: string)
    requires RowsTyped(db.accounts, db.journal) && id in db.accounts && id in db.balances
    ensures BalanceValidates(db, id) <==> db.balances[id] == Fold(db.journal, id)
  {
    ExpectedIsFold(db, db.journal, id);
  }

  // ---------------------------------------------------------------- what is accepted

  /** The row that posting an entry would add. */
  function RowFor(db: Db, e: Entry): Row
    requires e.accountId in db.accounts
  {
    Row(e.number, e.txId, e.side, e.accountId, db.accounts[e.accountId].accountType, e.amount, e.currency)
  }

  /** What the tables ask of an entry, whatever the balances are. */
  predicate WellPosted(db: Db, e: Entry) {
    && e.accountId in db.accounts && db.accounts[e.accountId].active
    && 0 < e.amount && FitsNumeric(e.amount)
    && e.description != "" && |e.currency| == 3
    && forall i :: 0 <= i < |db.journal| ==> db.journal[i].number != e.number
  }

  /**
   * An entry is accepted exactly when the tables allow it and the journal with its row folds to a balance
   * that is not negative and fits the column: for every account type, on both sides. An entry that the
   * tables allow is refused as an overdraft exactly when that fold is negative and fits.
   */
  lemma AcceptedIff(db: Db, e: Entry, now: int)
    requires Sound(db)
    ensures PostTx(db, e, now).Ok? <==>
      WellPosted(db, e) && 0 <= Fold(db.journal + [RowFor(db, e)], e.accountId) < NUMERIC_LIMIT
    ensures WellPosted(db, e) ==>
      (PostTx(db, e, now) == Err(Overdraft) <==>
        -NUMERIC_LIMIT < Fold(db.journal + [RowFor(db, e)], e.accountId) < 0)
    ensures PostTx(db, e, now).Ok? ==>
      PostTx(db, e, now).value.journal == db.journal + [RowFor(db, e)] &&
      PostTx(db, e, now).value.balances ==
        db.balances[e.accountId := Fold(db.journal + [RowFor(db, e)], e.accountId)] &&
      PostTx(db, e, now).value.accounts == db.accounts
    ensures PostTx(db, e, now).Ok? ==>
      var snaps := PostTx(db, e, now).value.snapshots; var n := |db.snapshots|;
      && |snaps| == n + 1 && snaps[..n] == db.snapshots
      && snaps[n].accountId == e.accountId && snaps[n].time == now
      && snaps[n].before == Fold(db.journal, e.accountId)
      && snaps[n].after == Fold(db.journal + [RowFor(db, e)], e.accountId)
  {
    hide Telescopes, NumbersUnique, RowsTyped, SnapshotsMatch, Of;
    if e.accountId in db.accounts {
      assert (db.journal + [RowFor(db, e)])[..|db.journal|] == db.journal;
    }
  }

  /** An account is created exactly when its id is new and its fields are filled, as asked and with balance 0. */
  lemma CreatedIff(db: Db, id: string, t: AccountType, name: string, currency: string)
    requires Sound(db)
    ensures var r := CreateTx(db, id, t, name, currency);
      && (r.Ok? <==> id !in db.accounts && id != "" && name != "" && |currency| == 3)
      && (r.Ok? ==>
            && r.value.accounts.Keys == db.accounts.Keys + {id}
            && (forall x :: x in db.accounts ==> r.value.accounts[x] == db.accounts[x])
            && r.value.accounts[id].accountType == t && r.value.accounts[id].currency == currency
            && r.value.accounts[id].active && r.value.balances == db.balances[id := 0]
            && r.value.journal == db.journal && r.value.snapshots == db.snapshots)
  {
    hide Telescopes, NumbersUnique, RowsTyped, SnapshotsMatch, Of, Fold;
  }

  // ---------------------------------------------------------------- balances in the past

  /** `get_account_balance_at_time`: the sum of the changes stamped at or before `t`. */
  function BalanceAt(s: seq<Snapshot>, t: int): int {
    if s == [] then 0 else
    BalanceAt(s[..|s| - 1], t) + (if s[|s| - 1].time <= t then s[|s| - 1].change else 0)
  }

  predicate TimesOrdered(s: seq<Snapshot>) {
    forall i, j :: 0 <= i < j < |s| ==> s[i].time <= s[j].time
  }

  /** `i` is the last snapshot at or before `t`. */
  predicate IsLastAt(s: seq<Snapshot>, i: int, t: int) {
    0 <= i < |s| && s[i].time <= t && forall j :: i < j < |s| ==> s[j].time > t
  }

  function EndOf(s: seq<Snapshot>): int { if s == [] then 0 else s[|s| - 1].after }

  lemma ChainShrinks(s: seq<Snapshot>, end: int)
    requires Telescopes(s, end) && s != []
    ensures var n := |s| - 1;
      Telescopes(s[..n], EndOf(s[..n])) && end == s[n].after == EndOf(s[..n]) + s[n].change
  {
    var n := |s| - 1;
    if n > 0 { assert s[n - 1 + 1].before == s[n - 1].after; }
  }

  lemma {:induction false} AllChangesSum(s: seq<Snapshot>, end: int, t: int)
    requires Telescopes(s, end) && forall i :: 0 <= i < |s| ==> s[i].time <= t
    ensures BalanceAt(s, t) == end
    decreases |s|
  {
    if s != [] {
      ChainShrinks(s, end);
      AllChangesSum(s[..|s| - 1], EndOf(s[..|s| - 1]), t);
    }
  }

  /** The filtered sum is the balance after the last snapshot at or before `t`, or 0 if there is none. */
  ghost predicate ReadsPast(s: seq<Snapshot>, t: int) {
    && (forall i :: IsLastAt(s, i, t) ==> BalanceAt(s, t) == s[i].after)
    && ((forall i :: !IsLastAt(s, i, t)) ==> BalanceAt(s, t) == 0)
  }

  lemma AllReadPast(s: seq<Snapshot>, end: int, t: int)
    requires Telescopes(s, end) && TimesOrdered(s) && s != [] && s[|s| - 1].time <= t
    ensures ReadsPast(s, t)
  {
    AllChangesSum(s, end, t);
    hide BalanceAt;
    assert IsLastAt(s, |s| - 1, t);
    forall i | IsLastAt(s, i, t) ensures i == |s| - 1 {}
  }

  /** A snapshot stamped after `t` does not change what is read at `t`. */
  lemma LaterSnapshot(s: seq<Snapshot>, t: int)
    requires s != [] && s[|s| - 1].time > t && ReadsPast(s[..|s| - 1], t)
    ensures ReadsPast(s, t)
  {
    var n := |s| - 1;
    assert BalanceAt(s, t) == BalanceAt(s[..n], t);
    hide BalanceAt;
    forall i ensures IsLastAt(s, i, t) <==> IsLastAt(s[..n], i, t) {
      if IsLastAt(s[..n], i, t) {
        forall j | i < j < |s| ensures s[j].time > t { if j < n { assert s[..n][j] == s[j]; } }
      }
    }
  }

  /** With ordered snapshot times, the past is read off the last snapshot, for every time. */
  lemma {:induction false} PastBalanceIsLastSnapshot(s: seq<Snapshot>, end: int, t: int)
    requires Telescopes(s, end) && TimesOrdered(s)
    ensures ReadsPast(s, t)
    decreases |s|
  {
    hide Telescopes, ReadsPast;
    if s == [] {
      NothingPast(t);
    } else if s[|s| - 1].time <= t {
      AllReadPast(s, end, t);
    } else {
      ChainShrinks(s, end);
      PastBalanceIsLastSnapshot(s[..|s| - 1], EndOf(s[..|s| - 1]), t);
      LaterSnapshot(s, t);
    }
  }

  lemma NothingPast(t: int)
    ensures ReadsPast([], t)
  {}

  predicate AllRise(s: seq<Snapshot>) { forall i :: 0 <= i < |s| ==> s[i].change > 0 }

  /** A filtered sum of rising changes stays below the balance once a change is left out. */
  lemma {:induction false} SkippedChange(s: seq<Snapshot>, end: int, i: int, t: int)
    requires Telescopes(s, end) && AllRise(s)
    ensures BalanceAt(s, t) <= end
    ensures 0 <= i < |s| && s[i].time > t ==> BalanceAt(s, t) < end
    decreases |s|
  {
    if s != [] {
      var n := |s| - 1;
      ChainShrinks(s, end);
      SkippedChange(s[..n], EndOf(s[..n]), i, t);
    }
  }

  lemma ChainPrefix(s: seq<Snapshot>, end: int, n: nat)
    requires Telescopes(s, end) && 0 < n <= |s|
    ensures Telescopes(s[..n], s[n - 1].after)
  {}

  /** Snapshots after the last one at or before `t` add nothing. */
  lemma {:induction false} OnlyUpToLast(s: seq<Snapshot>, l: nat, t: int)
    requires l < |s| && forall j :: l < j < |s| ==> s[j].time > t
    ensures BalanceAt(s, t) == BalanceAt(s[..l + 1], t)
    decreases |s|
  {
    var n := |s| - 1;
    if l < n {
      OnlyUpToLast(s[..n], l, t);
      assert s[..n][..l + 1] == s[..l + 1];
    } else {
      assert s[..l + 1] == s;
    }
  }

  /** The last snapshot at or before `t`, if `j` is one of them. */
  lemma LastAt(s: seq<Snapshot>, j: nat, t: int) returns (l: nat)
    requires j < |s| && s[j].time <= t
    ensures j <= l && IsLastAt(s, l, t)
  {
    l := |s| - 1;
    while s[l].time > t
      invariant j <= l < |s|
      invariant forall k :: l < k < |s| ==> s[k].time > t
      decreases l
    {
      l := l - 1;
    }
  }

  /** A snapshot stamped later than one after it makes the past misread. */
  lemma UnorderedMisreads(s: seq<Snapshot>, end: int, i: int, j: int)
    requires Telescopes(s, end) && AllRise(s) && 0 <= i < j < |s| && s[i].time > s[j].time
    ensures !ReadsPast(s, s[j].time)
  {
    var t := s[j].time;
    var l := LastAt(s, j, t);
    ChainPrefix(s, end, l + 1);
    hide Telescopes, BalanceAt;
    SkippedChange(s[..l + 1], s[l].after, i, t);
    OnlyUpToLast(s, l, t);
    assert IsLastAt(s, l, t);
  }

  /** Where every change is positive, the past reads right at every time exactly when the times are ordered. */
  lemma PastReadsRightIff(s: seq<Snapshot>, end: int)
    requires Telescopes(s, end) && AllRise(s)
    ensures (forall t :: ReadsPast(s, t)) <==> TimesOrdered(s)
  {
    hide Telescopes, ReadsPast, AllRise;
    if TimesOrdered(s) {
      forall t ensures ReadsPast(s, t) { PastBalanceIsLastSnapshot(s, end, t); }
    } else {
      var i, j :| 0 <= i < j < |s| && s[i].time > s[j].time;
      UnorderedMisreads(s, end, i, j);
    }
  }

  /** Snapshots stamped out of commit order break that reading. */
  lemma UnorderedTimesMisreadThePast()
    ensures var s := [Snapshot("a", 2, 0, 10, 10, Asset, Debit, 10), Snapshot("a", 1, 10, 15, 5, Asset, Debit, 5)];
      Telescopes(s, 15) && IsLastAt(s, 1, 1) && BalanceAt(s, 1) == 5 && s[1].after == 15
  {
    var s := [Snapshot("a", 2, 0, 10, 10, Asset, Debit, 10), Snapshot("a", 1, 10, 15, 5, Asset, Debit, 5)];
    assert s[..1] == [s[0]] && s[..1][..0] == [];
    assert BalanceAt(s[..1], 1) == 0;
  }

  predicate ClockOrdered(cs: seq<Command>) {
    forall i, j :: 0 <= i < j < |cs| && cs[i].Post? && cs[j].Post? ==> cs[i].now <= cs[j].now
  }

  /** Every posting happens at or before `t`. */
  predicate PostedBy(cs: seq<Command>, t: int) {
    forall j :: 0 <= j < |cs| && cs[j].Post? ==> cs[j].now <= t
  }

  predicate StampedBy(s: seq<Snapshot>, t: int) {
    forall i :: 0 <= i < |s| ==> s[i].time <= t
  }

  lemma {:induction false} SnapshotTimesOrdered(db: Db, cs: seq<Command>, t: int)
    requires ClockOrdered(cs) && PostedBy(cs, t) && db.snapshots == []
    ensures TimesOrdered(ExecAll(db, cs).snapshots) && StampedBy(ExecAll(db, cs).snapshots, t)
    decreases |cs|
  {
    if cs != [] {
      var c := cs[|cs| - 1];
      SnapshotTimesOrdered(db, cs[..|cs| - 1], if c.Post? then c.now else t);
      ExecStamps(ExecAll(db, cs[..|cs| - 1]), c);
    }
  }

  lemma ExecStamps(db: Db, c: Command)
    ensures Exec(db, c).snapshots == db.snapshots ||
      (c.Post? && exists s :: Exec(db, c).snapshots == db.snapshots + [s] && s.time == c.now)
  {}

  lemma LatestPosting(cs: seq<Command>) returns (t: int)
    ensures PostedBy(cs, t)
  {
    t := 0;
    for i := 0 to |cs|
      invariant PostedBy(cs[..i], t)
    {
      if cs[i].Post? && cs[i].now > t { t := cs[i].now; }
    }
    assert cs[..|cs|] == cs;
  }

  lemma {:induction false} OfKeepsOrder(snaps: seq<Snapshot>, id: string)
    requires TimesOrdered(snaps)
    ensures TimesOrdered(Of(snaps, id))
    ensures forall s :: s in Of(snaps, id) ==> s in snaps
    decreases |snaps|
  {
    if snaps != [] {
      OfKeepsOrder(snaps[..|snaps| - 1], id);
      assert forall s :: s in snaps[..|snaps| - 1] ==> s.time <= snaps[|snaps| - 1].time;
    }
  }

  /**
   * In every reachable database the snapshots of an account form a gap-free chain from 0 to its
   * balance; on an ordered clock the balance at `t` is read off the last snapshot at or before `t`.
   */
  lemma SnapshotsTellThePast(cs: seq<Command>, id: string, t: int)
    requires id in ExecAll(EMPTY_DB, cs).accounts
    ensures var db := ExecAll(EMPTY_DB, cs); var s := Of(db.snapshots, id);
      && id in db.balances && Telescopes(s, db.balances[id])
      && (ClockOrdered(cs) ==>
            && (forall i :: IsLastAt(s, i, t) ==> BalanceAt(s, t) == s[i].after)
            && ((forall i :: !IsLastAt(s, i, t)) ==> BalanceAt(s, t) == 0))
  {
    var db := ExecAll(EMPTY_DB, cs);
    var s := Of(db.snapshots, id);
    EmptyIsSound();
    RunsKeepSound(EMPTY_DB, cs);
    if ClockOrdered(cs) {
      var last := LatestPosting(cs);
      SnapshotTimesOrdered(EMPTY_DB, cs, last);
      OfKeepsOrder(db.snapshots, id);
      PastBalanceIsLastSnapshot(s, db.balances[id], t);
    }
  }

  // ---------------------------------------------------------------- the accounting equation

  /** Debit-normal accounts count with their balance, credit-normal ones against it. */
  function NormalSign(t: AccountType): int {
    if t.Asset? || t.Expense? then 1 else -1
  }

  ghost function InCurrency(accounts: map<string, Account>, currency: string): set<string> {
    set id | id in accounts && accounts[id].currency == currency
  }

  /** (assets + expenses) - (liabilities + equity + revenue), over the accounts of one currency. */
  ghost function NetPosition(db: Db, currency: string): int {
    SumOver(InCurrency(db.accounts, currency),
            id => if id in db.accounts && id in db.balances
                  then NormalSign(db.accounts[id].accountType) * db.balances[id] else 0)
  }

  predicate AccountIn(accounts: map<string, Account>, id: string, currency: string) {
    id in accounts && accounts[id].currency == currency
  }

  /** Total debits less total credits posted to accounts of one currency. */
  function Skew(accounts: map<string, Account>, journal: seq<Row>, currency: string): int {
    if journal == [] then 0 else
    var r := journal[|journal| - 1];
    Skew(accounts, journal[..|journal| - 1], currency) +
    (if AccountIn(accounts, r.accountId, currency) then (if r.side == Debit then r.amount else -r.amount) else 0)
  }

  ghost function SignedFold(accounts: map<string, Account>, journal: seq<Row>): string -> int {
    id => if id in accounts then NormalSign(accounts[id].accountType) * Fold(journal, id) else 0
  }

  lemma {:induction false} FoldsSumToSkew(accounts: map<string, Account>, journal: seq<Row>, currency: string)
    requires RowsTyped(accounts, journal)
    ensures SumOver(InCurrency(accounts, currency), SignedFold(accounts, journal)) == Skew(accounts, journal, currency)
    decreases |journal|
  {
    var ids := InCurrency(accounts, currency);
    if journal == [] {
      SumZero(ids, SignedFold(accounts, journal));
    } else {
      var pre, r := journal[..|journal| - 1], journal[|journal| - 1];
      var f, g := SignedFold(accounts, pre), SignedFold(accounts, journal);
      FoldsSumToSkew(accounts, pre, currency);
      if r.accountId in ids {
        forall y | y in ids && y != r.accountId ensures f(y) == g(y) {}
        SumChange(ids, r.accountId, f, g);
        SignsCancel(r.accountType, Fold(pre, r.accountId), r.side, r.amount);
      } else {
        SumSame(ids, f, g);
      }
    }
  }

  lemma SignsCancel(t: AccountType, x: int, side: Side, amount: int)
    ensures NormalSign(t) * (x + Signed(t, side, amount)) ==
      NormalSign(t) * x + (if side == Debit then amount else -amount)
  {}

  lemma {:induction false} SumZero(s: set<string>, f: string -> int)
    requires forall x :: x in s ==> f(x) == 0
    ensures SumOver(s, f) == 0
    decreases |s|
  {
    if s != {} {
      var x :| x in s;
      SumTakeOut(s, x, f);
      SumZero(s - {x}, f);
    }
  }

  /** In every reachable database, currency by currency, the net position is debits less credits. */
  lemma AccountingEquation(cs: seq<Command>, currency: string)
    ensures var db := ExecAll(EMPTY_DB, cs);
      NetPosition(db, currency) == Skew(db.accounts, db.journal, currency)
  {
    EmptyIsSound();
    RunsKeepSound(EMPTY_DB, cs);
    NetIsSkew(ExecAll(EMPTY_DB, cs), currency);
  }

  lemma NetIsSkew(db: Db, currency: string)
    requires Sound(db)
    ensures NetPosition(db, currency) == Skew(db.accounts, db.journal, currency)
  {
    FoldsSumToSkew(db.accounts, db.journal, currency);
    var f: string -> int := id => if id in db.accounts && id in db.balances
                                  then NormalSign(db.accounts[id].accountType) * db.balances[id] else 0;
    SumSame(InCurrency(db.accounts, currency), f, SignedFold(db.accounts, db.journal));
  }
}
