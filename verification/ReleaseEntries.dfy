/** The journal entries that give released holds back, as the ledger's own posting transaction sees them. */
module ReleaseEntries {
  import opened Prelude
  import opened Ledger
  import opened Holds
  import opened DisputeFunds

  /** What the release loop draws or copies for one entry. */
  datatype Drawn = Drawn(holdId: string, txId: string, currency: string, now: int)

  /** A credit of the held amount on the held account. */
  function EntryFor(r: Release, x: Drawn): Entry {
    Entry("JE-HOLD-RELEASE-" + x.holdId, x.txId, Credit, r.account, r.amount,
          "Hold released - dispute reversed: " + r.dispute, x.currency)
  }

  /** The entries of one release, inside its transaction: all are accepted, or the first refusal ends it. */
  function PostReleases(db: Db, rs: seq<Release>, xs: seq<Drawn>): Result<Db, Failure>
    requires |rs| == |xs|
  {
    if rs == [] then Ok(db) else
    var n := |rs| - 1;
    match PostReleases(db, rs[..n], xs[..n])
    case Err(f) => Err(f)
    case Ok(db') => PostTx(db', EntryFor(rs[n], xs[n]), xs[n].now)
  }

  /** The amounts given back on accounts of one currency. */
  function GivenBack(accounts: map<string, Account>, rs: seq<Release>, currency: string): int {
    if rs == [] then 0 else
    var r := rs[|rs| - 1];
    GivenBack(accounts, rs[..|rs| - 1], currency) + if AccountIn(accounts, r.account, currency) then r.amount else 0
  }

  lemma OneEntry(db: Db, r: Release, x: Drawn, currency: string)
    requires Sound(db) && PostTx(db, EntryFor(r, x), x.now).Ok?
    ensures var db' := PostTx(db, EntryFor(r, x), x.now).value;
      && Sound(db') && db'.accounts == db.accounts
      && NetPosition(db', currency) ==
         NetPosition(db, currency) - if AccountIn(db.accounts, r.account, currency) then r.amount else 0
  {
    hide Sound, NetPosition;
    var e := EntryFor(r, x);
    var db' := PostTx(db, e, x.now).value;
    PostKeepsSound(db, e, x.now);
    NetIsSkew(db, currency);
    NetIsSkew(db', currency);
    assert db'.journal[..|db'.journal| - 1] == db.journal;
  }

  /**
   * A release that is accepted keeps the ledger sound, and lowers the net position of each currency by
   * what it gives back: each entry is a credit without a debit.
   */
  lemma {:induction false} ReleasesMoveBooks(db: Db, rs: seq<Release>, xs: seq<Drawn>, currency: string)
    requires |rs| == |xs| && Sound(db) && PostReleases(db, rs, xs).Ok?
    ensures var db' := PostReleases(db, rs, xs).value;
      && Sound(db') && db'.accounts == db.accounts
      && NetPosition(db', currency) == NetPosition(db, currency) - GivenBack(db.accounts, rs, currency)
    decreases |rs|
  {
    hide Sound, NetPosition, PostTx;
    if rs != [] {
      var n := |rs| - 1;
      ReleasesMoveBooks(db, rs[..n], xs[..n], currency);
      OneEntry(PostReleases(db, rs[..n], xs[..n]).value, rs[n], xs[n], currency);
    }
  }

  /**
   * On an asset or expense account the balance trigger refuses the entry, and with it the reversal's
   * transaction, exactly when the account holds less than the amount.
   */
  lemma ReleaseRefusedIff(db: Db, r: Release, x: Drawn)
    requires Sound(db) && r.account in db.accounts && db.accounts[r.account].active
    requires db.accounts[r.account].accountType in {Asset, Expense}
    requires r.amount > 0 && FitsNumeric(r.amount) && |x.currency| == 3
    requires !NumberTaken(db.journal, EntryFor(r, x).number)
    ensures PostTx(db, EntryFor(r, x), x.now).Err? <==> db.balances[r.account] < r.amount
  {
    hide NumberTaken, Telescopes, NumbersUnique, RowsTyped, SnapshotsMatch;
    assert EntryFor(r, x).description[0] == 'H';
  }

  lemma {:induction false} ReleasesOf(holds: seq<Hold>, d: string, account: string)
    requires forall i :: 0 <= i < |holds| && holds[i].dispute == d ==> holds[i].account == account
    ensures forall r :: r in NewReleases(holds, d) ==> r.dispute == d && r.account == account
    decreases |holds|
  {
    if holds != [] { ReleasesOf(holds[..|holds| - 1], d, account); }
  }

  lemma {:induction false} AllGivenBack(accounts: map<string, Account>, rs: seq<Release>, d: string, account: string,
                                        currency: string)
    requires forall r :: r in rs ==> r.dispute == d && r.account == account
    ensures GivenBack(accounts, rs, currency) ==
      if AccountIn(accounts, account, currency) then EntryTotal(rs, d) else 0
    decreases |rs|
  {
    if rs != [] {
      assert rs[|rs| - 1] in rs;
      AllGivenBack(accounts, rs[..|rs| - 1], d, account, currency);
    }
  }

  /**
   * A committed reversal lowers the net position of its account's currency by exactly the ACTIVE holds it
   * releases, and leaves every other currency balanced as it was.
   */
  lemma ReversalMovesBooks(f: Funds, d: string, db: Db, xs: seq<Drawn>, currency: string)
    requires HoldsFit(f, d) && d in f.info && Sound(db)
    requires |xs| == |NewReleases(f.holds, d)| && PostReleases(db, NewReleases(f.holds, d), xs).Ok?
    ensures var db' := PostReleases(db, NewReleases(f.holds, d), xs).value;
      NetPosition(db', currency) - NetPosition(db, currency) ==
      if AccountIn(db.accounts, f.info[d].account, currency)
      then ReleasedTotal(f.holds, d) - ReleasedTotal(ReleasedHolds(f.holds, d), d) else 0
  {
    var rs := NewReleases(f.holds, d);
    ReleasesOf(f.holds, d, f.info[d].account);
    hide PostReleases, NetPosition, Sound, GivenBack, NewReleases, ReleasedHolds, EntryTotal, ReleasedTotal;
    ReleasesMoveBooks(db, rs, xs, currency);
    AllGivenBack(db.accounts, rs, d, f.info[d].account, currency);
    CountReleased(f.holds, d, d);
  }
}
