/** The card vault: storing, retrieving, decrypting, and moving every card under one key to another. */
module Vault {
  import opened Prelude
  import opened Envelope
  import opened CardTemplate

  datatype Card = Card(token: string, first6: string, last4: string, expiry: string, cardholder: string,
                       ciphertext: Ciphertext, encryptedKey: Bytes, nonce: Bytes, keyId: string)

  /** The envelope of a row; the token is the associated data. */
  function DataOf(c: Card): EncryptedData { EncryptedData(c.ciphertext, c.encryptedKey, c.nonce, c.keyId, c.token) }

  function Plain(keys: KeyMap, c: Card): Option<string> { DecryptWith(keys, DataOf(c)) }

  predicate HasToken(cards: seq<Card>, token: string) { exists i :: 0 <= i < |cards| && cards[i].token == token }

  predicate TokensUnique(cards: seq<Card>) { forall i, j :: 0 <= i < j < |cards| ==> cards[i].token != cards[j].token }

  datatype State = State(keys: KeyMap, cards: seq<Card>)

  const DEFAULT_KEY := "test-key-1"

  function RowFor(d: CardData, token: string, e: EncryptedData): Card
    requires |d.pan| >= 6
  {
    Card(token, d.pan[..6], d.pan[|d.pan| - 4..], d.expiry, d.cardholder, e.ciphertext, e.wrappedKey, e.nonce, e.keyId)
  }

  /** Storing a card under a drawn token; the insert fails on a used token or a database fault. */
  function Store(s: State, d: CardData, token: string, draw: Draw, dbFails: bool): (State, Option<Card>) {
    if !ValidCard(d) then (s, None) else
    ValidFieldsQuoteFree(d);
    var r := EncryptWith(s.keys, Template(d), DEFAULT_KEY, token, draw);
    if r.1.None? || dbFails || HasToken(s.cards, token) then (State(r.0, s.cards), None) else
    var c := RowFor(d, token, r.1.value);
    (State(r.0, s.cards + [c]), Some(c))
  }

  /** What a stored row shows of its card: six digits, four digits, expiry and holder, and the key it is under. */
  predicate Shows(c: Card, d: CardData, token: string) {
    && c.token == token
    && |c.first6| == 6 && c.first6 <= d.pan
    && |c.last4| == 4 && |d.pan| >= 4 && c.last4 == d.pan[|d.pan| - 4..]
    && c.expiry == d.expiry && c.cardholder == d.cardholder
  }

  /** The random draws of one encryption under `keyId` succeed. */
  predicate DrawsFor(keys: KeyMap, keyId: string, draw: Draw) {
    && draw.fault != DataFault && draw.fault != NonceFault
    && (keyId in keys || (keyId != "" && draw.fault != MasterFault && draw.fault != PersistFault))
  }

  /**
   * A card is stored exactly when it validates, its token is new, the draws succeed and the insert does; its
   * row shows the first six and last four characters of the card number and no more of it.
   */
  lemma StoredIff(s: State, d: CardData, token: string, draw: Draw, dbFails: bool)
    ensures var r := Store(s, d, token, draw, dbFails);
      && (r.1.Some? <==>
            && ValidCard(d) && !dbFails && DrawsFor(s.keys, DEFAULT_KEY, draw)
            && forall i :: 0 <= i < |s.cards| ==> s.cards[i].token != token)
      && (r.1.Some? ==>
            && Shows(r.1.value, d, token) && r.1.value.keyId == "test-key-1"
            && r.0.cards == s.cards + [r.1.value])
      && (r.1.None? ==> r.0.cards == s.cards)
  {
    hide ValidCard, Template, Xor;
    if ValidCard(d) { ValidFieldsQuoteFree(d); }
  }

  /** The row re-encrypted. */
  function Rekeyed(c: Card, e: EncryptedData): Card {
    c.(ciphertext := e.ciphertext, encryptedKey := e.wrappedKey, nonce := e.nonce, keyId := e.keyId)
  }

  datatype Rotation = Rotation(keys: KeyMap, cards: Option<seq<Card>>, count: nat)

  predicate Distinct(order: seq<nat>) { forall i, j :: 0 <= i < j < |order| ==> order[i] != order[j] }

  /**
   * What the query for the rows under a key may hand out: positions of such rows, each once, in any
   * order. The list may stop short, since the loop takes a read error for the end of the rows.
   */
  predicate Delivers(cards: seq<Card>, oldKey: string, order: seq<nat>) {
    && Distinct(order)
    && forall k :: 0 <= k < |order| ==> order[k] < |cards| && cards[order[k]].keyId == oldKey
  }

  /** The loop over the rows handed out; the `k`-th draws `draws(k)`. It stops at the first failure. */
  function RotateRows(keys: KeyMap, cards: seq<Card>, order: seq<nat>, newKey: string, draws: nat -> Draw)
    : (r: Rotation)
    requires forall k :: 0 <= k < |order| ==> order[k] < |cards|
    ensures r.cards.Some? ==> |r.cards.value| == |cards|
  {
    if order == [] then Rotation(keys, Some(cards), 0) else
    var n := |order| - 1;
    var r := RotateRows(keys, cards, order[..n], newKey, draws);
    if r.cards.None? then r else
    var c := cards[order[n]];
    match Plain(r.keys, c)
    case None => r.(cards := None)
    case Some(p) =>
      var e := EncryptWith(r.keys, p, newKey, c.token, draws(n));
      if e.1.None? then Rotation(e.0, None, r.count)
      else Rotation(e.0, Some(r.cards.value[order[n] := Rekeyed(c, e.1.value)]), r.count + 1)
  }

  /** How a commit ends; when its acknowledgement is lost it has happened. */
  datatype CommitOutcome = Done | RolledBack | AckLost

  /** A rotation: rows change only if every step succeeds and the commit happens. */
  function Rotate(s: State, oldKey: string, newKey: string, order: seq<nat>, draws: nat -> Draw, commit: CommitOutcome)
    : (State, Option<nat>)
    requires Delivers(s.cards, oldKey, order)
  {
    var r := RotateRows(s.keys, s.cards, order, newKey, draws);
    if r.cards.None? || commit == RolledBack then (State(r.keys, s.cards), None)
    else (State(r.keys, r.cards.value), if commit == AckLost then None else Some(r.count))
  }

  function CountUnder(cards: seq<Card>, keyId: string): nat {
    if cards == [] then 0 else
    CountUnder(cards[..|cards| - 1], keyId) + (if cards[|cards| - 1].keyId == keyId then 1 else 0)
  }

  /** Everything about a row but its envelope. */
  predicate SameFace(c: Card, d: Card) {
    c.token == d.token && c.first6 == d.first6 && c.last4 == d.last4 &&
    c.expiry == d.expiry && c.cardholder == d.cardholder
  }

  /** `c'` is `c` under the new key. */
  predicate Moved(keys: KeyMap, c: Card, keys': KeyMap, c': Card, newKey: string) {
    SameFace(c, c') && c'.keyId == newKey && Plain(keys', c').Some? && Plain(keys', c') == Plain(keys, c)
  }

  /** Every row opens. */
  predicate AllOpen(keys: KeyMap, cards: seq<Card>) {
    forall i :: 0 <= i < |cards| ==> Plain(keys, cards[i]).Some?
  }

  lemma RekeyedOpens(keys: KeyMap, c: Card, p: string, newKey: string, draw: Draw)
    ensures var e := EncryptWith(keys, p, newKey, c.token, draw);
      && Extends(e.0, keys)
      && (e.1.Some? ==>
            && SameFace(c, Rekeyed(c, e.1.value)) && Rekeyed(c, e.1.value).keyId == newKey
            && Plain(e.0, Rekeyed(c, e.1.value)) == Some(p))
  {
    EncryptDecrypts(keys, p, newKey, c.token, draw);
    var e := EncryptWith(keys, p, newKey, c.token, draw);
    if e.1.Some? { assert DataOf(Rekeyed(c, e.1.value)) == e.1.value; assert Extends(e.0, e.0); }
  }

  lemma MovedLater(keys: KeyMap, c: Card, mid: KeyMap, c': Card, later: KeyMap, newKey: string)
    requires Moved(keys, c, mid, c', newKey) && Extends(later, mid)
    ensures Moved(keys, c, later, c', newKey)
  {
    hide DecryptWith;
    MoreKeysDecrypt(mid, later, DataOf(c'));
  }

  /** The rows at the positions in `order` moved, and no other row changed. */
  ghost predicate AllMoved(keys: KeyMap, cards: seq<Card>, keys': KeyMap, cards': seq<Card>,
                           order: seq<nat>, newKey: string)
  {
    && |cards'| == |cards|
    && forall i :: 0 <= i < |cards| ==>
         if i in order then Moved(keys, cards[i], keys', cards'[i], newKey) else cards'[i] == cards[i]
  }

  lemma {:induction false} RowsMove(keys: KeyMap, cards: seq<Card>, oldKey: string, newKey: string,
                                    order: seq<nat>, draws: nat -> Draw)
    requires AllOpen(keys, cards) && Delivers(cards, oldKey, order)
    ensures var r := RotateRows(keys, cards, order, newKey, draws);
      && Extends(r.keys, keys)
      && (r.cards.Some? ==> r.count == |order| && AllMoved(keys, cards, r.keys, r.cards.value, order, newKey))
    decreases |order|
  {
    hide EncryptWith, DecryptWith, Extends, Plain, Moved, AllMoved;
    if order == [] {
      ExtendsSelf(keys);
      assert AllMoved(keys, cards, keys, cards, [], newKey) by { NoneMoved(keys, cards, newKey); }
    } else {
      var n := |order| - 1;
      var pre, c := order[..n], cards[order[n]];
      RowsMove(keys, cards, oldKey, newKey, pre, draws);
      var r := RotateRows(keys, cards, pre, newKey, draws);
      if r.cards.Some? {
        OneRowMoves(keys, r.keys, c, newKey, draws(n));
        var e := EncryptWith(r.keys, Plain(r.keys, c).value, newKey, c.token, draws(n));
        ExtendsTrans(e.0, r.keys, keys);
        if e.1.Some? {
          OneMoreMoved(keys, cards, r.keys, r.cards.value, e.0, pre, order[n], Rekeyed(c, e.1.value), newKey);
          assert order == pre + [order[n]];
        }
      }
    }
  }

  lemma NoneMoved(keys: KeyMap, cards: seq<Card>, newKey: string)
    ensures AllMoved(keys, cards, keys, cards, [], newKey)
  {}

  lemma OneMoreMoved(keys: KeyMap, cards: seq<Card>, mid: KeyMap, cards': seq<Card>, later: KeyMap,
                     pre: seq<nat>, p: nat, c: Card, newKey: string)
    requires AllMoved(keys, cards, mid, cards', pre, newKey) && Extends(later, mid) && p < |cards|
    requires Moved(keys, cards[p], later, c, newKey)
    ensures AllMoved(keys, cards, later, cards'[p := c], pre + [p], newKey)
  {
    hide Moved, Extends;
    forall i | 0 <= i < |cards| && i in pre ensures Moved(keys, cards[i], later, cards'[i], newKey) {
      MovedLater(keys, cards[i], mid, cards'[i], later, newKey);
    }
  }

  lemma ExtendsSelf(m: KeyMap)
    ensures Extends(m, m)
  {}

  lemma ExtendsTrans(a: KeyMap, b: KeyMap, c: KeyMap)
    requires Extends(a, b) && Extends(b, c)
    ensures Extends(a, c)
  {}

  lemma OneRowMoves(keys: KeyMap, mid: KeyMap, c: Card, newKey: string, draw: Draw)
    requires Extends(mid, keys) && Plain(keys, c).Some?
    ensures Plain(mid, c) == Plain(keys, c)
    ensures var e := EncryptWith(mid, Plain(mid, c).value, newKey, c.token, draw);
      && Extends(e.0, mid)
      && (e.1.Some? ==> Moved(keys, c, e.0, Rekeyed(c, e.1.value), newKey))
  {
    hide EncryptWith, DecryptWith;
    MoreKeysDecrypt(keys, mid, DataOf(c));
    RekeyedOpens(mid, c, Plain(mid, c).value, newKey, draw);
  }

  // ---------------------------------------------------------------- how many rows were under the old key

  function PositionsUnder(cards: seq<Card>, keyId: string): set<nat> {
    set i: nat | i < |cards| && cards[i].keyId == keyId
  }

  lemma {:induction false} CountIsSize(cards: seq<Card>, keyId: string)
    ensures CountUnder(cards, keyId) == |PositionsUnder(cards, keyId)|
    decreases |cards|
  {
    if cards != [] {
      var n := |cards| - 1;
      CountIsSize(cards[..n], keyId);
      assert PositionsUnder(cards, keyId) ==
        PositionsUnder(cards[..n], keyId) + if cards[n].keyId == keyId then {n} else {};
    }
  }

  function Positions(order: seq<nat>): set<nat> { set i | i in order }

  lemma {:induction false} DistinctSize(order: seq<nat>)
    requires Distinct(order)
    ensures |Positions(order)| == |order|
    decreases |order|
  {
    if order != [] {
      var n := |order| - 1;
      DistinctSize(order[..n]);
      assert order == order[..n] + [order[n]];
      assert Positions(order) == Positions(order[..n]) + {order[n]};
    }
  }

  lemma SubsetSize(s: set<nat>, t: set<nat>)
    requires s <= t
    ensures |s| <= |t| && (|s| == |t| <==> s == t)
  {
    assert t == s + (t - s);
  }

  /** Every row under the key was handed out. */
  predicate Complete(cards: seq<Card>, oldKey: string, order: seq<nat>) {
    forall i: nat :: i < |cards| && cards[i].keyId == oldKey ==> i in order
  }

  lemma CompleteIff(cards: seq<Card>, oldKey: string, order: seq<nat>)
    requires Delivers(cards, oldKey, order)
    ensures |order| <= CountUnder(cards, oldKey)
    ensures |order| == CountUnder(cards, oldKey) <==> Complete(cards, oldKey, order)
  {
    CountIsSize(cards, oldKey);
    DistinctSize(order);
    SubsetSize(Positions(order), PositionsUnder(cards, oldKey));
    if Complete(cards, oldKey, order) { assert PositionsUnder(cards, oldKey) <= Positions(order); }
    if Positions(order) == PositionsUnder(cards, oldKey) {
      forall i: nat | i < |cards| && cards[i].keyId == oldKey ensures i in order {
        assert i in PositionsUnder(cards, oldKey);
      }
    }
  }

  /** No row is left under a key. */
  predicate NoneUnder(cards: seq<Card>, keyId: string) { forall i :: 0 <= i < |cards| ==> cards[i].keyId != keyId }

  /**
   * A rotation that succeeds moves exactly the rows it was handed and returns their number; what every
   * row decrypts to, and everything but its envelope, stays. That number is the number of rows under the
   * old key, and none is left there, if and only if the iteration handed out every such row. A rotation
   * that fails changes no row, unless only the acknowledgement of its commit was lost.
   */
  lemma RotationMovesHanded(s: State, oldKey: string, newKey: string, order: seq<nat>, draws: nat -> Draw,
                            commit: CommitOutcome)
    requires AllOpen(s.keys, s.cards) && Delivers(s.cards, oldKey, order)
    ensures var r := Rotate(s, oldKey, newKey, order, draws, commit);
      var applied := RotateRows(s.keys, s.cards, order, newKey, draws).cards.Some? && commit != RolledBack;
      && Extends(r.0.keys, s.keys)
      && r.1 == (if applied && commit == Done then Some(|order|) else None)
      && (!applied ==> r.0.cards == s.cards)
      && (applied ==>
            && AllMoved(s.keys, s.cards, r.0.keys, r.0.cards, order, newKey)
            && |order| <= CountUnder(s.cards, oldKey)
            && (|order| == CountUnder(s.cards, oldKey) <==> Complete(s.cards, oldKey, order))
            && (oldKey != newKey ==> (NoneUnder(r.0.cards, oldKey) <==> Complete(s.cards, oldKey, order))))
  {
    RowsMove(s.keys, s.cards, oldKey, newKey, order, draws);
    CompleteIff(s.cards, oldKey, order);
    hide RotateRows, Plain;
    var r := Rotate(s, oldKey, newKey, order, draws, commit);
    if RotateRows(s.keys, s.cards, order, newKey, draws).cards.Some? && commit != RolledBack {
      if !Complete(s.cards, oldKey, order) {
        var i: nat :| i < |s.cards| && s.cards[i].keyId == oldKey && i !in order;
        assert r.0.cards[i] == s.cards[i];
      }
    }
  }

  /** Without a read error, a rotation that succeeds moves exactly the rows under the old key. */
  lemma RotationMovesRows(s: State, oldKey: string, newKey: string, order: seq<nat>, draws: nat -> Draw,
                          commit: CommitOutcome)
    requires AllOpen(s.keys, s.cards) && Delivers(s.cards, oldKey, order) && Complete(s.cards, oldKey, order)
    ensures var r := Rotate(s, oldKey, newKey, order, draws, commit);
      r.1.Some? ==>
        && r.1.value == CountUnder(s.cards, oldKey)
        && forall i :: 0 <= i < |s.cards| ==>
             if s.cards[i].keyId == oldKey then Moved(s.keys, s.cards[i], r.0.keys, r.0.cards[i], newKey)
             else r.0.cards[i] == s.cards[i]
  {
    hide RotateRows, Moved;
    RotationMovesHanded(s, oldKey, newKey, order, draws, commit);
    forall i: nat | i < |s.cards| ensures i in order <==> s.cards[i].keyId == oldKey {
      if i in order { var k :| 0 <= k < |order| && order[k] == i; }
    }
  }

  /** The rows are all rewritten exactly when no draw fails; the new master key is drawn with the first row. */
  lemma {:induction false} RowsRewrittenIff(keys: KeyMap, cards: seq<Card>, oldKey: string, newKey: string,
                                            order: seq<nat>, draws: nat -> Draw)
    requires AllOpen(keys, cards) && Delivers(cards, oldKey, order)
    ensures var r := RotateRows(keys, cards, order, newKey, draws);
      && (r.cards.Some? <==> forall k: nat :: k < |order| ==>
            && draws(k).fault != DataFault && draws(k).fault != NonceFault
            && (k == 0 ==> DrawsFor(keys, newKey, draws(0))))
      && (r.cards.Some? && order != [] ==> newKey in r.keys)
    decreases |order|
  {
    hide DecryptWith, Xor;
    if order != [] {
      var n := |order| - 1;
      RowsRewrittenIff(keys, cards, oldKey, newKey, order[..n], draws);
      RowsMove(keys, cards, oldKey, newKey, order[..n], draws);
      var r := RotateRows(keys, cards, order[..n], newKey, draws);
      if r.cards.Some? {
        MoreKeysDecrypt(keys, r.keys, DataOf(cards[order[n]]));
        RotateRowsLast(keys, cards, order, newKey, draws);
      }
    }
  }

  lemma RotateRowsLast(keys: KeyMap, cards: seq<Card>, order: seq<nat>, newKey: string, draws: nat -> Draw)
    requires order != [] && forall k :: 0 <= k < |order| ==> order[k] < |cards|
    ensures var n := |order| - 1; var r := RotateRows(keys, cards, order[..n], newKey, draws);
      r.cards.Some? && Plain(r.keys, cards[order[n]]).Some? ==>
        && (RotateRows(keys, cards, order, newKey, draws).cards.Some? <==> DrawsFor(r.keys, newKey, draws(n)))
        && (DrawsFor(r.keys, newKey, draws(n)) ==> newKey in RotateRows(keys, cards, order, newKey, draws).keys)
        && (n == 0 ==> r.keys == keys)
  {
    hide DecryptWith, Xor;
  }

  /** A rotation is told nil exactly when no draw fails and its commit is done, for any number of rows. */
  lemma RotationSucceedsIff(s: State, oldKey: string, newKey: string, order: seq<nat>, draws: nat -> Draw,
                            commit: CommitOutcome)
    requires AllOpen(s.keys, s.cards) && Delivers(s.cards, oldKey, order)
    ensures Rotate(s, oldKey, newKey, order, draws, commit).1.Some? <==>
      && commit == Done
      && forall k: nat :: k < |order| ==>
           && draws(k).fault != DataFault && draws(k).fault != NonceFault
           && (k == 0 ==> DrawsFor(s.keys, newKey, draws(0)))
  {
    hide RotateRows, DecryptWith;
    RowsRewrittenIff(s.keys, s.cards, oldKey, newKey, order, draws);
  }

  /** Two stored cards, a read error after the first: the rotation reports success and leaves the second. */
  lemma ReadErrorLeavesRow(d: CardData, draw: Draw)
    requires ValidCard(d) && draw.fault == NoFault
    ensures var s1 := Store(State(map[], []), d, "t1", draw, false).0;
      var s := Store(s1, d, "t2", draw, false).0;
      && AllOpen(s.keys, s.cards) && CountUnder(s.cards, DEFAULT_KEY) == 2 && Delivers(s.cards, DEFAULT_KEY, [0])
      && var r := Rotate(s, DEFAULT_KEY, "key-2", [0], _ => draw, Done);
        r.1 == Some(1) && |r.0.cards| == 2 && r.0.cards[0].keyId == "key-2" && r.0.cards[1].keyId == DEFAULT_KEY
  {
    hide ValidCard, Template, DecryptWith, Rotate, CountUnder;
    var s0 := State(map[], []);
    var s1 := Store(s0, d, "t1", draw, false).0;
    var s := Store(s1, d, "t2", draw, false).0;
    ValidFieldsQuoteFree(d);
    StoreKeepsReading(s0, d, "t1", draw, false);
    assert |s1.cards| == 1 && s1.cards[0].token == "t1" && "t1"[1] != "t2"[1];
    StoreKeepsReading(s1, d, "t2", draw, false);
    assert |s.cards| == 2 && s.cards[0].keyId == s.cards[1].keyId == DEFAULT_KEY;
    OneOfTwo(s, draw);
  }

  lemma OneOfTwo(s: State, draw: Draw)
    requires AllOpen(s.keys, s.cards) && |s.cards| == 2 && draw.fault == NoFault
    requires s.cards[0].keyId == s.cards[1].keyId == DEFAULT_KEY
    ensures CountUnder(s.cards, DEFAULT_KEY) == 2
    ensures var r := Rotate(s, DEFAULT_KEY, "key-2", [0], _ => draw, Done);
      r.1 == Some(1) && |r.0.cards| == 2 && r.0.cards[0].keyId == "key-2" && r.0.cards[1].keyId == DEFAULT_KEY
  {
    hide DecryptWith;
    assert PositionsUnder(s.cards, DEFAULT_KEY) == {0, 1};
    CountIsSize(s.cards, DEFAULT_KEY);
    assert [0][..0] == [] && RotateRows(s.keys, s.cards, [], "key-2", _ => draw) == Rotation(s.keys, Some(s.cards), 0);
    assert Plain(s.keys, s.cards[0]).Some?;
  }

  // ---------------------------------------------------------------- any interleaving of stores and rotations

  datatype Op =
    | StoreOp(d: CardData, token: string, draw: Draw, dbFails: bool)
    | RotateOp(oldKey: string, newKey: string, order: seq<nat>, draws: nat -> Draw, commit: CommitOutcome)

  function Do(s: State, op: Op): State {
    match op
    case StoreOp(d, token, draw, dbFails) => Store(s, d, token, draw, dbFails).0
    case RotateOp(oldKey, newKey, order, draws, commit) =>
      if Delivers(s.cards, oldKey, order) then Rotate(s, oldKey, newKey, order, draws, commit).0 else s
  }

  function DoAll(s: State, ops: seq<Op>): State {
    if ops == [] then s else Do(DoAll(s, ops[..|ops| - 1]), ops[|ops| - 1])
  }

  /** Row by row, in the same places: same token and masked digits, same decrypted text. */
  ghost predicate StillReads(s: State, s': State) {
    && |s'.cards| >= |s.cards|
    && forall i :: 0 <= i < |s.cards| ==>
         SameFace(s.cards[i], s'.cards[i]) && Plain(s'.keys, s'.cards[i]) == Plain(s.keys, s.cards[i])
  }

  lemma StoreKeepsReading(s: State, d: CardData, token: string, draw: Draw, dbFails: bool)
    requires AllOpen(s.keys, s.cards)
    ensures var r := Store(s, d, token, draw, dbFails);
      && AllOpen(r.0.keys, r.0.cards) && StillReads(s, r.0)
      && (TokensUnique(s.cards) ==> TokensUnique(r.0.cards))
      && (r.1.Some? ==>
            && ValidCard(d) && r.0.cards == s.cards + [r.1.value] && r.1.value.token == token
            && Plain(r.0.keys, r.1.value) == Some(Template(d)))
  {
    hide EncryptWith, DecryptWith, ValidCard, Template;
    var r := Store(s, d, token, draw, dbFails);
    if ValidCard(d) {
      EncryptDecrypts(s.keys, Template(d), DEFAULT_KEY, token, draw);
      forall i | 0 <= i < |s.cards| ensures Plain(r.0.keys, s.cards[i]) == Plain(s.keys, s.cards[i]) {
        MoreKeysDecrypt(s.keys, r.0.keys, DataOf(s.cards[i]));
      }
      if r.1.Some? {
        var e := EncryptWith(s.keys, Template(d), DEFAULT_KEY, token, draw);
        assert DataOf(r.1.value) == e.1.value && Extends(e.0, e.0);
      }
    }
  }

  lemma RotateKeepsReading(s: State, oldKey: string, newKey: string, order: seq<nat>, draws: nat -> Draw,
                           commit: CommitOutcome)
    requires AllOpen(s.keys, s.cards) && Delivers(s.cards, oldKey, order)
    ensures var r := Rotate(s, oldKey, newKey, order, draws, commit);
      && AllOpen(r.0.keys, r.0.cards) && StillReads(s, r.0)
      && (TokensUnique(s.cards) ==> TokensUnique(r.0.cards))
  {
    hide RotateRows, DecryptWith, Rotate, Delivers;
    RotationMovesHanded(s, oldKey, newKey, order, draws, commit);
    var r := Rotate(s, oldKey, newKey, order, draws, commit);
    forall i | 0 <= i < |s.cards|
      ensures |r.0.cards| == |s.cards| && SameFace(s.cards[i], r.0.cards[i])
      ensures Plain(r.0.keys, r.0.cards[i]) == Plain(s.keys, s.cards[i])
    {
      MoreKeysDecrypt(s.keys, r.0.keys, DataOf(s.cards[i]));
    }
  }

  lemma ReadsItself(s: State)
    ensures StillReads(s, s)
  {
    hide DecryptWith;
  }

  lemma DoKeepsReading(s: State, op: Op)
    requires AllOpen(s.keys, s.cards)
    ensures AllOpen(Do(s, op).keys, Do(s, op).cards) && StillReads(s, Do(s, op))
  {
    hide AllOpen, StillReads, Store, Rotate;
    match op
    case StoreOp(d, token, draw, dbFails) => StoreKeepsReading(s, d, token, draw, dbFails);
    case RotateOp(oldKey, newKey, order, draws, commit) =>
      if Delivers(s.cards, oldKey, order) {
        RotateKeepsReading(s, oldKey, newKey, order, draws, commit);
      } else {
        assert StillReads(s, s) by { ReadsItself(s); }
      }
  }

  lemma {:induction false} RunsKeepReading(s: State, ops: seq<Op>)
    requires AllOpen(s.keys, s.cards)
    ensures AllOpen(DoAll(s, ops).keys, DoAll(s, ops).cards) && StillReads(s, DoAll(s, ops))
    decreases |ops|
  {
    hide Do;
    if ops != [] {
      RunsKeepReading(s, ops[..|ops| - 1]);
      DoKeepsReading(DoAll(s, ops[..|ops| - 1]), ops[|ops| - 1]);
    }
  }

  /** Every envelope was sealed for the token of its row. */
  predicate Bound(cards: seq<Card>) { forall i :: 0 <= i < |cards| ==> cards[i].ciphertext.aad == cards[i].token }

  lemma {:induction false} RotationKeepsBound(keys: KeyMap, cards: seq<Card>, order: seq<nat>, newKey: string,
                                              draws: nat -> Draw)
    requires Bound(cards) && forall k :: 0 <= k < |order| ==> order[k] < |cards|
    ensures var r := RotateRows(keys, cards, order, newKey, draws);
      r.cards.Some? ==> Bound(r.cards.value)
    decreases |order|
  {
    hide DecryptWith, Xor;
    if order != [] { RotationKeepsBound(keys, cards, order[..|order| - 1], newKey, draws); }
  }

  /** Over any run an envelope put beside another token does not open. */
  lemma {:induction false} RunsKeepBound(s: State, ops: seq<Op>)
    requires Bound(s.cards)
    ensures Bound(DoAll(s, ops).cards)
    ensures forall keys, i, x :: 0 <= i < |DoAll(s, ops).cards| && x != DoAll(s, ops).cards[i].token ==>
      Plain(keys, DoAll(s, ops).cards[i].(token := x)).None?
    decreases |ops|
  {
    hide ValidCard, Template, Xor, Delivers;
    if ops != [] {
      var n := |ops| - 1;
      RunsKeepBound(s, ops[..n]);
      var t := DoAll(s, ops[..n]);
      if ops[n].RotateOp? && Delivers(t.cards, ops[n].oldKey, ops[n].order) {
        assert forall k :: 0 <= k < |ops[n].order| ==> ops[n].order[k] < |t.cards| by {
          HandedInside(t.cards, ops[n].oldKey, ops[n].order);
        }
        RotationKeepsBound(t.keys, t.cards, ops[n].order, ops[n].newKey, ops[n].draws);
      }
      hide RotateRows;
      assert Bound(Do(t, ops[n]).cards);
    }
  }

  lemma HandedInside(cards: seq<Card>, oldKey: string, order: seq<nat>)
    requires Delivers(cards, oldKey, order)
    ensures forall k :: 0 <= k < |order| ==> order[k] < |cards|
  {}

  /**
   * A stored card reads back as exactly its four fields after any later stores and rotations,
   * successful or not.
   */
  lemma StoredCardsReadBack(s: State, d: CardData, token: string, draw: Draw, later: seq<Op>)
    requires AllOpen(s.keys, s.cards) && Store(s, d, token, draw, false).1.Some?
    ensures var t := Store(s, d, token, draw, false).0; var end := DoAll(t, later); var i := |s.cards|;
      && i < |end.cards| && Shows(end.cards[i], d, token)
      && Plain(end.keys, end.cards[i]) == Some(Template(d))
      && Read(Template(d)) == Some(d)
  {
    hide Store, DoAll, Template, Read, ValidCard, Plain, AllOpen;
    StoreKeepsReading(s, d, token, draw, false);
    StoredIff(s, d, token, draw, false);
    var t := Store(s, d, token, draw, false).0;
    RunsKeepReading(t, later);
    assert SameFace(t.cards[|s.cards|], DoAll(t, later).cards[|s.cards|]);
    ValidFieldsQuoteFree(d);
    ReadsBack(d);
  }
}
