/** The vault as an object over its card table and its key manager. */
module VaultStore {
  import opened Prelude
  import opened Envelope
  import opened CardTemplate
  import opened Vault

  class Store {
    const encryptor: AEADEncryptor
    var cards: seq<Card>
    /** What was stored under each token. */
    ghost var stored: map<string, CardData>

    ghost function Current(): State
      reads this, encryptor.kms
    {
      State(encryptor.kms.keys, cards)
    }

    /** Every row opens to the template of the validated card stored under its token. */
    ghost predicate Valid()
      reads this, encryptor.kms
    {
      && TokensUnique(cards)
      && forall i :: 0 <= i < |cards| ==>
           && cards[i].token in stored && ValidCard(stored[cards[i].token])
           && Plain(encryptor.kms.keys, cards[i]) == Some(Template(stored[cards[i].token]))
    }

    constructor (encryptor: AEADEncryptor)
      ensures this.encryptor == encryptor && cards == [] && stored == map[] && Valid()
    {
      this.encryptor, cards, stored := encryptor, [], map[];
    }

    /** Validates, encrypts and inserts a card; a failure inserts nothing. */
    method StoreCard(d: CardData, token: string, draw: Draw, dbFails: bool) returns (r: Result<Card, string>)
      requires Valid()
      modifies this, encryptor.kms
      ensures Valid()
      ensures var s := Vault.Store(old(Current()), d, token, draw, dbFails);
        Current() == s.0 && (match s.1 case Some(c) => r == Ok(c) case None => r.Err?)
      ensures r.Ok? ==> cards == old(cards) + [r.value] && stored == old(stored)[token := d]
      ensures r.Ok? ==> Shows(r.value, d, token) && r.value.keyId == "test-key-1"
      ensures r.Ok? <==>
        && ValidCard(d) && !dbFails && DrawsFor(old(encryptor.kms.keys), DEFAULT_KEY, draw)
        && forall i :: 0 <= i < |old(cards)| ==> old(cards)[i].token != token
      ensures r.Err? ==> cards == old(cards) && stored == old(stored)
    {
      hide EncryptWith, DecryptWith, ValidCard, Template;
      ghost var before := Current();
      StoreKeepsReading(before, d, token, draw, dbFails);
      StoredIff(before, d, token, draw, dbFails);
      if !ValidCard(d) { return Err("validation failed"); }
      ValidFieldsQuoteFree(d);
      var first6, last4 := d.pan[..6], d.pan[|d.pan| - 4..];
      var keyId := encryptor.kms.GetKeyID();
      var e := encryptor.Encrypt(Template(d), keyId, token, draw);
      EncryptDecrypts(before.keys, Template(d), keyId, token, draw);
      KeepsOpening(before, Current(), stored);
      if e.Err? { return Err(e.error); }
      if dbFails || HasToken(cards, token) { return Err("database insert failed"); }
      var c := Card(token, first6, last4, d.expiry, d.cardholder,
                    e.value.ciphertext, e.value.wrappedKey, e.value.nonce, e.value.keyId);
      cards := cards + [c];
      stored := stored[token := d];
      r := Ok(c);
    }

    /** The row with the token, if there is one. */
    method RetrieveCard(token: string) returns (r: Result<Card, string>)
      ensures r.Ok? <==> HasToken(cards, token)
      ensures r.Ok? ==> r.value in cards && r.value.token == token
    {
      for i := 0 to |cards|
        invariant forall j :: 0 <= j < i ==> cards[j].token != token
      {
        if cards[i].token == token { return Ok(cards[i]); }
      }
      r := Err("card not found");
    }

    /** Opens a row and reads its four fields; a text the reader refuses gives four empty fields. */
    method DecryptCard(c: Card) returns (r: Result<CardData, string>)
      ensures r.Err? <==> Plain(encryptor.kms.keys, c).None?
      ensures r.Ok? ==> r.value == match Read(Plain(encryptor.kms.keys, c).value)
        case Some(d) => d case None => CardData("", "", "", "")
      ensures Valid() && c in cards ==> r == Ok(stored[c.token])
    {
      hide DecryptWith, ValidCard, Template, Read;
      var p := encryptor.Decrypt(DataOf(c));
      if p.Err? { return Err(p.error); }
      if Valid() && c in cards {
        ValidFieldsQuoteFree(stored[c.token]);
        ReadsBack(stored[c.token]);
      }
      match Read(p.value) {
        case Some(d) => r := Ok(d);
        case None => r := Ok(CardData("", "", "", ""));
      }
    }

    /**
     * Re-encrypts the rows handed out by the query for the old key; they change together or none does.
     * A read error looks like the end of the rows, and the rows after it keep the old key.
     */
    method RotateKey(oldKey: string, newKey: string, order: seq<nat>, draws: nat -> Draw, commit: CommitOutcome)
      returns (r: Result<nat, string>)
      requires Valid() && Delivers(cards, oldKey, order)
      modifies this`cards, encryptor.kms
      ensures Valid()
      ensures var s := Rotate(old(Current()), oldKey, newKey, order, draws, commit);
        Current() == s.0 && (match s.1 case Some(n) => r == Ok(n) case None => r.Err?)
      ensures r.Err? && commit != AckLost ==> cards == old(cards)
      ensures r.Ok? ==> r.value == |order| && |cards| == |old(cards)|
      ensures r.Ok? ==> (r.value == CountUnder(old(cards), oldKey) <==> Complete(old(cards), oldKey, order))
      ensures r.Ok? || cards != old(cards) ==> |cards| == |old(cards)| && forall i :: 0 <= i < |cards| ==>
        && SameFace(old(cards)[i], cards[i])
        && (if i in order then cards[i].keyId == newKey else cards[i] == old(cards)[i])
    {
      hide RotateRows, DecryptWith, ValidCard, Template, Delivers, Complete;
      ghost var before := Current();
      RotateKeepsReading(before, oldKey, newKey, order, draws, commit);
      RotationMovesHanded(before, oldKey, newKey, order, draws, commit);
      KeepsOpening(before, Rotate(before, oldKey, newKey, order, draws, commit).0, stored);
      assert forall k :: 0 <= k < |order| ==> order[k] < |cards| by { HandedExist(cards, oldKey, order); }
      var rows := RekeyRows(newKey, order, draws);
      if rows.Err? { return Err(rows.error); }
      if commit == RolledBack { return Err("failed to commit transaction"); }
      cards := rows.value.0;
      r := if commit == AckLost then Err("failed to commit transaction") else Ok(rows.value.1);
    }

    /** The loop of a rotation, on rows not yet written back. */
    method RekeyRows(newKey: string, order: seq<nat>, draws: nat -> Draw) returns (r: Result<(seq<Card>, nat), string>)
      requires forall k :: 0 <= k < |order| ==> order[k] < |cards|
      modifies encryptor.kms
      ensures var s := RotateRows(old(encryptor.kms.keys), cards, order, newKey, draws);
        && encryptor.kms.keys == s.keys
        && (match s.cards case Some(rows) => r == Ok((rows, s.count)) case None => r.Err?)
    {
      hide EncryptWith, DecryptWith;
      ghost var keys := encryptor.kms.keys;
      var pending, count := cards, 0;
      var k := 0;
      while k < |order|
        invariant 0 <= k <= |order| && |pending| == |cards|
        invariant RotateRows(keys, cards, order[..k], newKey, draws) ==
          Rotation(encryptor.kms.keys, Some(pending), count)
      {
        var c := cards[order[k]];
        assert order[..k + 1][..k] == order[..k];
        var p := encryptor.Decrypt(DataOf(c));
        if p.Err? {
          StopsThere(keys, cards, order, k + 1, newKey, draws);
          return Err(p.error);
        }
        var e := encryptor.Encrypt(p.value, newKey, c.token, draws(k));
        if e.Err? {
          StopsThere(keys, cards, order, k + 1, newKey, draws);
          return Err(e.error);
        }
        pending := pending[order[k] := Rekeyed(c, e.value)];
        count := count + 1;
        k := k + 1;
      }
      assert order[..k] == order;
      r := Ok((pending, count));
    }
  }

  lemma HandedExist(cards: seq<Card>, oldKey: string, order: seq<nat>)
    requires Delivers(cards, oldKey, order)
    ensures forall k :: 0 <= k < |order| ==> order[k] < |cards|
  {}

  lemma {:induction false} StopsThere(keys: KeyMap, cards: seq<Card>, order: seq<nat>, k: nat, newKey: string,
                                      draws: nat -> Draw)
    requires k <= |order| && forall j :: 0 <= j < |order| ==> order[j] < |cards|
    requires RotateRows(keys, cards, order[..k], newKey, draws).cards.None?
    ensures RotateRows(keys, cards, order, newKey, draws) == RotateRows(keys, cards, order[..k], newKey, draws)
    decreases |order|
  {
    hide EncryptWith, DecryptWith;
    if k < |order| {
      var n := |order| - 1;
      assert order[..n][..k] == order[..k];
      StopsThere(keys, cards, order[..n], k, newKey, draws);
    } else {
      assert order[..k] == order;
    }
  }

  /** Rows that still read as before open to the same stored cards. */
  lemma KeepsOpening(s: State, s': State, stored: map<string, CardData>)
    requires forall i :: 0 <= i < |s.cards| ==>
      s.cards[i].token in stored && Plain(s.keys, s.cards[i]) == Some(Template(stored[s.cards[i].token]))
    requires Extends(s'.keys, s.keys)
    ensures s'.cards == s.cards ==> forall i :: 0 <= i < |s.cards| ==>
      Plain(s'.keys, s.cards[i]) == Some(Template(stored[s.cards[i].token]))
    ensures StillReads(s, s') ==> forall i :: 0 <= i < |s.cards| ==>
      s'.cards[i].token == s.cards[i].token && Plain(s'.keys, s'.cards[i]) == Some(Template(stored[s.cards[i].token]))
  {
    hide DecryptWith, Template;
    forall i | 0 <= i < |s.cards| ensures Plain(s'.keys, s.cards[i]) == Plain(s.keys, s.cards[i]) {
      MoreKeysDecrypt(s.keys, s'.keys, DataOf(s.cards[i]));
    }
  }
}
