/** The disputes service as an object: calls that update the tables in place, one after another. */
module DisputesService {
  import opened Prelude
  import opened Transitions
  import opened Holds
  import opened DisputeFunds
  import opened DisputeCalls

  /** `p` is everywhere the position at which the creation time of a call's transition makes it land. */
  class Service {
    const pct: nat
    var states: map<string, seq<DisputeState>>
    var info: map<string, Info>
    var committed: set<string>
    var holds: seq<Hold>
    var releases: seq<Release>
    var reserves: map<string, int>
    /** Funds transactions that were rolled back after their transition was recorded. */
    ghost var aborted: multiset<(string, Kind)>

    ghost function State(): Funds
      reads this
    {
      Funds(states, info, committed, holds, releases, reserves, multiset{}, aborted)
    }

    ghost predicate Valid()
      reads this
    {
      Inv(State())
    }

    constructor (pct: nat)
      ensures this.pct == pct && State() == NO_FUNDS && Valid()
    {
      this.pct := pct;
      states, info, committed, holds, releases, reserves, aborted := map[], map[], {}, [], [], map[], multiset{};
      new;
      NoFundsInv();
    }

    /** Records a transition. */
    method Record(d: string, to: DisputeState, p: nat)
      modifies this`states
      ensures states == old(states)[d := Inserted(StatesOf(old(State()), d), p, to)]
    {
      var s := if d in states then states[d] else [];
      if p < |s| { s := s[..p] + [to] + s[p..]; } else { s := s + [to]; }
      states := states[d := s];
    }

    /** Inserts an ACTIVE hold for the disputed amount plus the fee. */
    method ApplyFundsHold(d: string)
      requires d in info
      modifies this`holds
      ensures holds == old(holds) + [HoldFor(d, info[d])]
    {
      var holdAmount := info[d].amount + info[d].fee;
      holds := holds + [Hold(d, info[d].account, holdAmount, Active)];
    }

    /** Creates the merchant's reserve if it has none, then adds its share of the amount. */
    method UpdateFraudReserve(merchant: string, amount: int)
      modifies this`reserves
      ensures reserves == old(reserves)[merchant :=
        RoundedReserve(if merchant in old(reserves) then old(reserves)[merchant] else 0, amount, pct)]
    {
      if merchant !in reserves { reserves := reserves[merchant := 0]; }
      var product := amount * pct;
      reserves := reserves[merchant := (10000 * reserves[merchant] + product + 5000) / 10000];
    }

    /** Both funds updates of a call, inside its transaction. */
    method HoldFunds(d: string)
      requires d in info
      modifies this`holds, this`reserves
      ensures State() == WithHold(old(State()), d, pct)
    {
      ApplyFundsHold(d);
      UpdateFraudReserve(info[d].merchant, info[d].amount);
    }

    /** Records a new dispute in PENDING and holds its funds; `fails` aborts the funds transaction. */
    method CreateDispute(d: string, i: Info, fails: bool) returns (ok: bool)
      requires Valid()
      modifies this
      ensures State() == RunCall(pct, old(State()), StartCreate(d, i), fails) && Valid()
      ensures ok <==> 0 < i.amount <= i.original && i.fee >= 0 && old(StatesOf(State(), d)) == [] && !fails
    {
      hide Inv, RunCall, WithHold, Inserted, Reversal, MayExtend;
      CallKeepsInv(pct, State(), StartCreate(d, i), fails);
      CreateOutcome(pct, State(), d, i, fails);
      if !(0 < i.amount <= i.original && i.fee >= 0) { return false; }
      if d in states && states[d] != [] { return false; }
      Record(d, Pending, 0);
      assert Inserted([], 0, Pending) == [Pending] by { FirstState(); }
      info := info[d := i];
      var savedHolds, savedReserves := holds, reserves;
      HoldFunds(d);
      if fails {
        holds, reserves := savedHolds, savedReserves;
        aborted := aborted + multiset{(d, CreateTx)};
        return false;
      }
      committed := committed + {d};
      ok := true;
    }

    /** Moves a PENDING dispute to AUTHORIZED and holds its funds a second time. */
    method AuthorizeDispute(d: string, p: nat, fails: bool) returns (ok: bool)
      requires Valid()
      modifies this
      ensures State() == RunCall(pct, old(State()), Start(d, Authorized, p), fails) && Valid()
      ensures ok <==> d in old(committed) && Latest(old(StatesOf(State(), d))) == Pending && !fails
    {
      hide Inv, RunCall, WithHold, Inserted, Reversal, MayExtend;
      CallKeepsInv(pct, State(), Start(d, Authorized, p), fails);
      KnownDispute(State(), d);
      MoveOutcome(pct, State(), d, Authorized, p, fails);
      TablesAgree(Latest(StatesOf(State(), d)), Authorized);
      if d !in committed || Latest(states[d]) != Pending { return false; }
      Record(d, Authorized, p);
      var savedHolds, savedReserves := holds, reserves;
      HoldFunds(d);
      if fails {
        holds, reserves := savedHolds, savedReserves;
        aborted := aborted + multiset{(d, AuthorizeTx)};
        return false;
      }
      ok := true;
    }

    /** Moves one visible dispute to SETTLED if it is AUTHORIZED; `fails` makes the insert fail. */
    method SettleOne(d: string, p: nat, fails: bool) returns (ok: bool)
      requires Valid() && d in committed
      modifies this`states
      ensures Valid() && d in old(states) && (ok <==> !fails || Latest(old(states)[d]) != Authorized)
      ensures states == if ok then old(states)[d := SettledIf(old(states)[d], true, p)] else old(states)
    {
      hide Inv, Inserted;
      KnownDispute(State(), d);
      ok := true;
      if Latest(states[d]) == Authorized {
        if fails { return false; }
        SettleKeepsInv(pct, State(), d, p);
        Record(d, Settled, p);
      } else {
        assert states == states[d := states[d]];
      }
    }

    /**
     * Moves the AUTHORIZED disputes of a journal entry to SETTLED, in any order, until an insert fails;
     * `failing` says which would. `read` are the disputes that were read; a read error looks like the end
     * of the list. `done` are those that were looked at. Their transitions stand if the commit fails.
     */
    method SettleTransaction(journalEntry: string, read: set<string>, p: string -> nat, failing: set<string>,
                             commitFails: bool)
      returns (ok: bool, ghost done: set<string>)
      requires Valid() && read <= OfEntry(committed, info, journalEntry)
      modifies this`states
      ensures Valid() && states == SettledStates(old(states), done, p) && done <= read <= old(states).Keys
      ensures SettlesOnly(old(states), states, done, p) && OfJournalEntry(done, info, journalEntry)
      ensures ok ==> done == read
      ensures ok <==> !commitFails && forall d :: d in read && d in failing ==> Latest(old(states)[d]) != Authorized
    {
      hide Inv, OfEntry, SettledIf, Latest, SettledStates, SettlesOnly, OfJournalEntry;
      ghost var start := states;
      OfEntryVisible(State(), journalEntry);
      var rest := read;
      done := {};
      NoneSettled(start, p);
      while rest != {}
        invariant rest + done == read && rest !! done && Valid() && states == SettledStates(start, done, p)
        invariant forall d :: d in done && d in failing ==> Latest(start[d]) != Authorized
        decreases |rest|
      {
        var d :| d in rest;
        NextSettled(start, done, d, p);
        var settled := SettleOne(d, p(d), d in failing);
        if !settled {
          SettledEach(start, done, p);
          return false, done;
        }
        rest := rest - {d};
        done := done + {d};
      }
      SettledEach(start, done, p);
      ok := !commitFails;
    }

    /** Moves a SETTLED dispute to DISPUTED. */
    method InitiateDispute(d: string, p: nat) returns (ok: bool)
      requires Valid()
      modifies this`states
      ensures State() == RunCall(pct, old(State()), Start(d, Disputed, p), false) && Valid()
      ensures ok <==> d in committed && Latest(old(StatesOf(State(), d))) == Settled
    {
      hide Inv, RunCall, Inserted, WithHold, Reversal;
      CallKeepsInv(pct, State(), Start(d, Disputed, p), false);
      KnownDispute(State(), d);
      MoveOutcome(pct, State(), d, Disputed, p, false);
      TablesAgree(Latest(StatesOf(State(), d)), Disputed);
      if d !in committed || Latest(states[d]) != Settled { return false; }
      Record(d, Disputed, p);
      ok := true;
    }

    /** Moves a dispute to REVERSED and releases its holds; `fails` aborts the funds transaction. */
    method ReverseDispute(d: string, p: nat, fails: bool) returns (ok: bool)
      requires Valid()
      modifies this
      ensures State() == RunCall(pct, old(State()), Start(d, Reversed, p), fails) && Valid()
      ensures ok <==> d in old(committed) && Allowed(Latest(old(StatesOf(State(), d))), Reversed) && !fails
      ensures ok ==> !HasActive(holds, d)
      ensures forall i :: 0 <= i < |old(holds)| && old(holds)[i].dispute != d ==>
        i < |holds| && holds[i] == old(holds)[i]
    {
      hide Inv, HasActive, NewReleases, ReleasedHolds, RunCall, Allowed, Inserted, WithHold;
      CallKeepsInv(pct, State(), Start(d, Reversed, p), fails);
      KnownDispute(State(), d);
      MoveOutcome(pct, State(), d, Reversed, p, fails);
      if d !in committed { return false; }
      var allowed := IsValidTransition(Latest(states[d]), Reversed);
      if !allowed { return false; }
      Record(d, Reversed, p);
      if fails {
        aborted := aborted + multiset{(d, ReverseTx)};
        return false;
      }
      HandleDisputeResolution(d);
      ActiveAfterRelease(old(holds), d, d);
      ReleasedEach(old(holds), d);
      ok := true;
    }

    /** The resolution trigger: each ACTIVE hold of the dispute is released and given back by one entry. */
    method HandleDisputeResolution(d: string)
      modifies this`holds, this`releases
      ensures holds == ReleasedHolds(old(holds), d)
      ensures releases == old(releases) + NewReleases(old(holds), d)
    {
      hide NewReleases, ReleasedHolds;
      ghost var hs := holds;
      ghost var rs := releases;
      NextRelease(hs, 0, d);
      var i := 0;
      while i < |holds|
        invariant 0 <= i <= |hs| && |holds| == |hs|
        invariant forall k :: 0 <= k < |hs| ==>
          holds[k] == if k < i && hs[k].dispute == d then hs[k].(status := Released) else hs[k]
        invariant releases == rs + NewReleases(hs[..i], d)
      {
        NextRelease(hs, i, d);
        var h := holds[i];
        if h.dispute == d && h.status == Active {
          holds := holds[i := h.(status := Released)];
          releases := releases + [Release(d, i, h.account, h.amount)];
        }
        i := i + 1;
      }
      assert hs[..|hs|] == hs;
      ReleasedEach(hs, d);
      assert holds == ReleasedHolds(hs, d);
    }
  }

  function ReleaseFor(h: Hold, d: string, i: nat): seq<Release> {
    if h.dispute == d && h.status == Active then [Release(d, i, h.account, h.amount)] else []
  }

  lemma NextRelease(hs: seq<Hold>, i: int, d: string)
    requires 0 <= i <= |hs|
    ensures NewReleases(hs[..0], d) == []
    ensures i < |hs| ==>
      NewReleases(hs[..i + 1], d) == NewReleases(hs[..i], d) + ReleaseFor(hs[i], d, i)
  {
    if i < |hs| { assert hs[..i + 1][..i] == hs[..i]; }
  }

  /** The visible disputes of a journal entry. */
  function OfEntry(committed: set<string>, info: map<string, Info>, journalEntry: string): set<string> {
    set d | d in committed && d in info && info[d].journalEntry == journalEntry
  }

  predicate OfJournalEntry(ds: set<string>, info: map<string, Info>, journalEntry: string) {
    forall d :: d in ds ==> d in info && info[d].journalEntry == journalEntry
  }

  lemma OfEntryVisible(f: Funds, journalEntry: string)
    requires Inv(f)
    ensures forall ds :: ds <= OfEntry(f.committed, f.info, journalEntry) ==> OfJournalEntry(ds, f.info, journalEntry)
    ensures OfEntry(f.committed, f.info, journalEntry) <= f.committed
    ensures OfEntry(f.committed, f.info, journalEntry) <= f.states.Keys
  {
    hide Inv;
    forall d | d in OfEntry(f.committed, f.info, journalEntry) ensures d in f.states { KnownDispute(f, d); }
  }

  /** An AUTHORIZED dispute that is among those to settle gets SETTLED; others keep their states. */
  function SettledIf(s: seq<DisputeState>, chosen: bool, p: nat): seq<DisputeState> {
    if chosen && Latest(s) == Authorized then Inserted(s, p, Settled) else s
  }

  function SettledStates(states: map<string, seq<DisputeState>>, done: set<string>, p: string -> nat)
    : map<string, seq<DisputeState>>
  {
    map d | d in states :: SettledIf(states[d], d in done, p(d))
  }

  /** An AUTHORIZED dispute gained one SETTLED row, its latest if it landed last; any other stays. */
  predicate SettledFrom(s: seq<DisputeState>, t: seq<DisputeState>, p: nat) {
    if Latest(s) == Authorized
    then multiset(t) == multiset(s) + multiset{Settled} && (p >= |s| ==> t == s + [Settled] && Latest(t) == Settled)
    else t == s
  }

  /** Each dispute in `done` was settled if it was AUTHORIZED, and no other changed. */
  predicate SettlesOnly(before: map<string, seq<DisputeState>>, after: map<string, seq<DisputeState>>,
                        done: set<string>, p: string -> nat)
  {
    && after.Keys == before.Keys
    && forall d :: d in before ==> if d in done then SettledFrom(before[d], after[d], p(d)) else after[d] == before[d]
  }

  lemma SettledEach(states: map<string, seq<DisputeState>>, done: set<string>, p: string -> nat)
    ensures SettlesOnly(states, SettledStates(states, done, p), done, p)
  {
    forall d | d in states && Latest(states[d]) == Authorized
      ensures multiset(Inserted(states[d], p(d), Settled)) == multiset(states[d]) + multiset{Settled}
    {
      if p(d) < |states[d]| { assert states[d] == states[d][..p(d)] + states[d][p(d)..]; }
    }
  }

  lemma NoneSettled(states: map<string, seq<DisputeState>>, p: string -> nat)
    ensures SettledStates(states, {}, p) == states
  {}

  lemma NextSettled(states: map<string, seq<DisputeState>>, done: set<string>, d: string, p: string -> nat)
    requires d in states && d !in done
    ensures var s := SettledStates(states, done, p);
      d in s && s[d] == states[d]
      && SettledStates(states, done + {d}, p) == s[d := SettledIf(states[d], true, p(d))]
  {}

  lemma SettleKeepsInv(pct: int, f: Funds, d: string, p: nat)
    requires Inv(f) && d in f.committed && Latest(StatesOf(f, d)) == Authorized && d in f.states
    ensures Inv(f.(states := f.states[d := Inserted(f.states[d], p, Settled)]))
  {
    hide Inv, Inserted;
    StepKeepsInv(pct, f, Start(d, Settled, p));
    TablesAgree(Authorized, Settled);
    assert f.open + multiset{} == f.open;
    assert StatesOf(f, d) != [];
    assert DisputeFunds.Step(pct, f, Start(d, Settled, p)) ==
      f.(states := f.states[d := Inserted(f.states[d], p, Settled)]);
  }

  lemma FirstState()
    ensures Inserted([], 0, Pending) == [Pending]
  {}

  /** What creating a dispute amounts to. */
  lemma CreateOutcome(pct: int, f: Funds, d: string, i: Info, fails: bool)
    requires Inv(f) && f.open == multiset{}
    ensures var g := f.(states := f.states[d := [Pending]], info := f.info[d := i]);
      RunCall(pct, f, StartCreate(d, i), fails) ==
      if !ValidInfo(i) || StatesOf(f, d) != [] then f
      else if fails then g.(aborted := f.aborted + multiset{(d, CreateTx)})
      else WithHold(g, d, pct).(committed := f.committed + {d})
  {
    hide WithHold, Inv;
    TablesAgree(Latest(StatesOf(f, d)), Pending);
    var g := f.(states := f.states[d := [Pending]], info := f.info[d := i]);
    if ValidInfo(i) && StatesOf(f, d) == [] {
      assert Inserted([], 0, Pending) == [Pending];
      assert DisputeFunds.Step(pct, f, StartCreate(d, i)) == g.(open := multiset{(d, CreateTx)});
      EndOutcome(pct, g, d, CreateTx, fails);
    }
  }

  /** What finishing the only open funds transaction amounts to. */
  lemma EndOutcome(pct: int, g: Funds, d: string, k: Kind, fails: bool)
    requires g.open == multiset{} && d in g.info
    ensures DisputeFunds.Step(pct, g.(open := multiset{(d, k)}), if fails then Abort(d, k) else Commit(d, k)) ==
      if fails then g.(aborted := g.aborted + multiset{(d, k)})
      else match k
        case CreateTx => WithHold(g, d, pct).(committed := g.committed + {d})
        case AuthorizeTx => WithHold(g, d, pct)
        case ReverseTx => Reversal(g, d)
  {
    hide WithHold, Reversal;
    assert (d, k) in multiset{(d, k)} && multiset{(d, k)} - multiset{(d, k)} == multiset{};
    assert g.(open := multiset{(d, k)}).(open := multiset{}) == g;
  }

  /** What moving a dispute amounts to. */
  lemma MoveOutcome(pct: int, f: Funds, d: string, to: DisputeState, p: nat, fails: bool)
    requires Inv(f) && f.open == multiset{} && to in {Authorized, Settled, Disputed, Reversed}
    ensures var g := f.(states := f.states[d := Inserted(StatesOf(f, d), p, to)]);
      RunCall(pct, f, Start(d, to, p), fails) ==
      if d !in f.committed || !Allowed(Latest(StatesOf(f, d)), to) then f
      else if KindOf(Start(d, to, p)).None? then g
      else if fails then g.(aborted := f.aborted + multiset{(d, KindOf(Start(d, to, p)).value)})
      else if to == Authorized && d in g.info then WithHold(g, d, pct)
      else Reversal(g, d)
  {
    hide WithHold, Reversal, Inv, Inserted, Allowed, DisputeFunds.Step;
    KnownInfo(f, d);
    var g := f.(states := f.states[d := Inserted(StatesOf(f, d), p, to)]);
    var k := KindOf(Start(d, to, p));
    StartOutcome(pct, f, d, to, p);
    if d !in f.committed || !Allowed(Latest(StatesOf(f, d)), to) {
      if k.Some? { NothingOpen(pct, f, d, k.value, fails); }
    } else if k.Some? {
      assert Opening(d, to) == multiset{(d, k.value)};
      EndOutcome(pct, g, d, k.value, fails);
    } else {
      assert g.(open := multiset{}) == g;
    }
  }

  lemma StartOutcome(pct: int, f: Funds, d: string, to: DisputeState, p: nat)
    requires f.open == multiset{} && to in {Authorized, Settled, Disputed, Reversed}
    requires d in f.committed ==> StatesOf(f, d) != []
    ensures DisputeFunds.Step(pct, f, Start(d, to, p)) ==
      if d !in f.committed || !Allowed(Latest(StatesOf(f, d)), to) then f
      else f.(states := f.states[d := Inserted(StatesOf(f, d), p, to)], open := Opening(d, to))
  {
    hide Inserted, Allowed;
    assert multiset{} + Opening(d, to) == Opening(d, to);
  }

  lemma NothingOpen(pct: int, f: Funds, d: string, k: Kind, fails: bool)
    requires f.open == multiset{}
    ensures DisputeFunds.Step(pct, f, if fails then Abort(d, k) else Commit(d, k)) == f
  {}

  lemma CallKeepsInv(pct: int, f: Funds, start: Event, fails: bool)
    requires Inv(f) && f.open == multiset{} && IsStart(start)
    ensures Inv(RunCall(pct, f, start, fails))
  {
    hide *;
    CallOutcome(pct, f, start, fails);
  }

  lemma KnownDispute(f: Funds, d: string)
    requires Inv(f)
    ensures d in f.committed ==> d in f.states && d in f.info && f.states[d] != []
  {
    hide HoldCount, ReleasesMatch, TotalsMatch;
    assert DisputeInv(f, d);
  }
}
