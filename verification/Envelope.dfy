/**
 * Envelope encryption: a growing map of master keys that wrap per-record data keys by XOR, and an
 * ideal authenticated cipher under the data key.
 */
module Envelope {
  import opened Prelude

  type Bytes = seq<bv8>

  type Key32 = k: Bytes | |k| == 32 witness seq(32, _ => 0)

  // ---------------------------------------------------------------- the XOR wrap

  function ByteXor(a: bv8, k: bv8): bv8 { a ^ k }

  function Xor(data: Bytes, key: Bytes): (r: Bytes)
    requires key != []
    ensures |r| == |data| && forall i :: 0 <= i < |r| ==> r[i] == ByteXor(data[i], key[i % |key|])
  {
    seq(|data|, i requires 0 <= i < |data| => ByteXor(data[i], key[i % |key|]))
  }

  /** Fills the result buffer byte by byte, walking the key round and round. */
  method XorEncrypt(data: Bytes, key: Bytes) returns (result: array<bv8>)
    requires key != []
    ensures fresh(result) && result[..] == Xor(data, key)
  {
    result := new bv8[|data|](_ => 0);
    for i := 0 to |data|
      invariant forall j :: 0 <= j < i ==> result[j] == data[j] ^ key[j % |key|]
    {
      result[i] := data[i] ^ key[i % |key|];
    }
  }

  lemma XorByteTwice(a: bv8, k: bv8)
    ensures ByteXor(ByteXor(a, k), k) == a
  {}

  /** The wrap is its own inverse, for data of any length. */
  lemma XorTwice(data: Bytes, key: Bytes)
    requires key != []
    ensures Xor(Xor(data, key), key) == data
  {
    hide ByteXor;
    forall i | 0 <= i < |data| ensures Xor(Xor(data, key), key)[i] == data[i] {
      XorByteTwice(data[i], key[i % |key|]);
    }
  }

  // ---------------------------------------------------------------- the ideal cipher

  /** A ciphertext that reveals its plaintext to exactly the key, nonce and associated data it was made with. */
  datatype Ciphertext = Sealed(key: Bytes, nonce: Bytes, aad: string, plaintext: string)

  function Seal(key: Bytes, nonce: Bytes, plaintext: string, aad: string): Ciphertext {
    Sealed(key, nonce, aad, plaintext)
  }

  function Open(key: Bytes, nonce: Bytes, c: Ciphertext, aad: string): Option<string> {
    if c.key == key && c.nonce == nonce && c.aad == aad then Some(c.plaintext) else None
  }

  predicate AesKeySize(key: Bytes) { |key| in {16, 24, 32} }

  // ---------------------------------------------------------------- keys

  type KeyMap = map<string, Key32>

  /** What one encryption draws at random, and which of its steps fails, if any. */
  datatype Draw = Draw(master: Key32, data: Key32, nonce: Bytes, fault: DrawFault)

  datatype DrawFault = NoFault | MasterFault | PersistFault | DataFault | NonceFault

  datatype EncryptedData =
    EncryptedData(ciphertext: Ciphertext, wrappedKey: Bytes, nonce: Bytes, keyId: string, aad: string)

  /** The key map after a data key was asked for: a missing master key is made, even if saving it fails. */
  function KeysAfter(keys: KeyMap, keyId: string, draw: Draw): KeyMap {
    if keyId in keys || keyId == "" || draw.fault == MasterFault then keys else keys[keyId := draw.master]
  }

  /** Whether a data key comes back. */
  predicate KeyGenerated(keys: KeyMap, keyId: string, draw: Draw) {
    && (keyId !in keys ==> keyId != "" && draw.fault != MasterFault && draw.fault != PersistFault)
    && draw.fault != DataFault
  }

  /** Decryption with a given key map. */
  function DecryptWith(keys: KeyMap, e: EncryptedData): Option<string> {
    if e.keyId !in keys then None else
    var dataKey := Xor(e.wrappedKey, keys[e.keyId]);
    if !AesKeySize(dataKey) then None else Open(dataKey, e.nonce, e.ciphertext, e.aad)
  }

  /** Encryption: the key map it leaves, and the envelope if every step succeeds. */
  function EncryptWith(keys: KeyMap, plaintext: string, keyId: string, aad: string, draw: Draw)
    : (KeyMap, Option<EncryptedData>)
  {
    var keys' := KeysAfter(keys, keyId, draw);
    if !KeyGenerated(keys, keyId, draw) || draw.fault == NonceFault || keyId !in keys' then (keys', None) else
    var sealed := Seal(draw.data, draw.nonce, plaintext, aad);
    (keys', Some(EncryptedData(sealed, Xor(draw.data, keys'[keyId]), draw.nonce, keyId, aad)))
  }

  /** `m'` has every key of `m`, unchanged. */
  predicate Extends(m': KeyMap, m: KeyMap) { forall id :: id in m ==> id in m' && m'[id] == m[id] }

  /** Master keys are never overwritten, and an envelope opens to what was sealed, now and later. */
  lemma EncryptDecrypts(keys: KeyMap, plaintext: string, keyId: string, aad: string, draw: Draw)
    ensures var r := EncryptWith(keys, plaintext, keyId, aad, draw);
      && Extends(r.0, keys)
      && (r.1.Some? ==>
            && r.1.value.keyId == keyId && r.1.value.aad == aad
            && forall later: KeyMap :: Extends(later, r.0) ==> DecryptWith(later, r.1.value) == Some(plaintext))
  {
    var r := EncryptWith(keys, plaintext, keyId, aad, draw);
    if r.1.Some? { XorTwice(draw.data, r.0[keyId]); }
  }

  /** What opens with some keys opens to the same text with more keys. */
  lemma MoreKeysDecrypt(keys: KeyMap, later: KeyMap, e: EncryptedData)
    requires Extends(later, keys) && DecryptWith(keys, e).Some?
    ensures DecryptWith(later, e) == DecryptWith(keys, e)
  {}

  lemma XorUndone(a: bv8, k: bv8)
    ensures ByteXor(ByteXor(a, k), a) == k && ByteXor(a, ByteXor(a, k)) == k
  {}

  lemma XorBytes(a: bv8, k: bv8, l: bv8)
    ensures ByteXor(ByteXor(a, k), l) == a <==> k == l
  {
    hide ByteXor;
    XorUndone(ByteXor(a, k), l);
    XorUndone(a, k);
    XorByteTwice(a, k);
  }

  function Rewrapped(data: Key32, key: Key32, other: Key32): Key32 { Xor(Xor(data, key), other) }

  lemma RewrappedAt(data: Key32, key: Key32, other: Key32, i: nat)
    requires i < 32
    ensures Rewrapped(data, key, other)[i] == data[i] <==> key[i] == other[i]
  {
    hide ByteXor;
    XorBytes(data[i], key[i], other[i]);
  }

  lemma SameBytes(x: Key32, y: Key32)
    ensures x == y <==> forall i: nat :: i < 32 ==> x[i] == y[i]
  {}

  /** Unwrapping with another master key gives another data key. */
  lemma WrapNeedsKey(data: Key32, key: Key32, other: Key32)
    ensures Rewrapped(data, key, other) == data <==> key == other
  {
    hide Rewrapped;
    SameBytes(Rewrapped(data, key, other), data);
    SameBytes(key, other);
    forall i: nat | i < 32 ensures Rewrapped(data, key, other)[i] == data[i] <==> key[i] == other[i] {
      RewrappedAt(data, key, other, i);
    }
  }

  /**
   * An envelope, with any of its open parts changed and under any master keys, opens to its plaintext exactly
   * when the named master key is the one it was wrapped with and nonce and associated data are its own; in
   * every other case it does not open.
   */
  lemma OpensIff(keys: KeyMap, plaintext: string, keyId: string, aad: string, draw: Draw,
                 others: KeyMap, nonce: Bytes, otherId: string, otherAad: string)
    requires EncryptWith(keys, plaintext, keyId, aad, draw).1.Some?
    ensures var r := EncryptWith(keys, plaintext, keyId, aad, draw);
      keyId in r.0 &&
      DecryptWith(others, r.1.value.(nonce := nonce, keyId := otherId, aad := otherAad)) ==
      if otherId in others && others[otherId] == r.0[keyId] && nonce == draw.nonce && otherAad == aad
      then Some(plaintext) else None
  {
    hide Xor;
    var r := EncryptWith(keys, plaintext, keyId, aad, draw);
    if otherId in others { WrapNeedsKey(draw.data, r.0[keyId], others[otherId]); }
  }

  /** Encryption succeeds exactly when no draw it needs fails; a missing master key is the one drawn. */
  lemma EncryptsIff(keys: KeyMap, plaintext: string, keyId: string, aad: string, draw: Draw)
    ensures var r := EncryptWith(keys, plaintext, keyId, aad, draw);
      && (r.1.Some? <==>
            && draw.fault != DataFault && draw.fault != NonceFault
            && (keyId in keys || (keyId != "" && draw.fault != MasterFault && draw.fault != PersistFault)))
      && (r.1.Some? ==>
            && r.0 == (if keyId in keys then keys else keys[keyId := draw.master])
            && r.1.value.nonce == draw.nonce && |r.1.value.wrappedKey| == 32)
  {
    hide Xor;
  }

  // ---------------------------------------------------------------- the objects

  class FileBasedKMS {
    var keys: KeyMap

    constructor ()
      ensures keys == map[]
    {
      keys := map[];
    }

    /** Makes the master key if it is missing, then a data key and its wrapped form. */
    method GenerateDataKey(keyId: string, draw: Draw) returns (r: Result<(Key32, Bytes), string>)
      modifies this
      ensures keys == KeysAfter(old(keys), keyId, draw) && Extends(keys, old(keys))
      ensures r.Ok? <==> KeyGenerated(old(keys), keyId, draw)
      ensures r.Ok? ==> keyId in keys && r.value.0 == draw.data && r.value.1 == Xor(draw.data, keys[keyId])
    {
      if keyId !in keys {
        if keyId == "" { return Err("key ID must not be empty"); }
        if draw.fault == MasterFault { return Err("failed to generate master key"); }
        keys := keys[keyId := draw.master];
        if draw.fault == PersistFault { return Err("failed to persist master key"); }
      }
      if draw.fault == DataFault { return Err("failed to generate data key"); }
      var wrapped := XorEncrypt(draw.data, keys[keyId]);
      r := Ok((draw.data, wrapped[..]));
    }

    method Decrypt(ciphertext: Bytes, keyId: string) returns (r: Result<Bytes, string>)
      ensures r.Ok? <==> keyId in keys
      ensures r.Ok? ==> r.value == Xor(ciphertext, keys[keyId])
    {
      if keyId !in keys { return Err("master key not found"); }
      var plain := XorEncrypt(ciphertext, keys[keyId]);
      r := Ok(plain[..]);
    }

    function GetKeyID(): string { "test-key-1" }
  }

  class AEADEncryptor {
    const kms: FileBasedKMS

    constructor (kms: FileBasedKMS)
      ensures this.kms == kms
    {
      this.kms := kms;
    }

    method Encrypt(plaintext: string, keyId: string, aad: string, draw: Draw) returns (r: Result<EncryptedData, string>)
      modifies kms
      ensures var s := EncryptWith(old(kms.keys), plaintext, keyId, aad, draw);
        kms.keys == s.0 && (match s.1 case Some(e) => r == Ok(e) case None => r.Err?)
    {
      var k := kms.GenerateDataKey(keyId, draw);
      if k.Err? { return Err(k.error); }
      if !AesKeySize(k.value.0) { return Err("failed to create cipher"); }
      if draw.fault == NonceFault { return Err("failed to generate nonce"); }
      var ciphertext := Seal(k.value.0, draw.nonce, plaintext, aad);
      r := Ok(EncryptedData(ciphertext, k.value.1, draw.nonce, keyId, aad));
    }

    method Decrypt(e: EncryptedData) returns (r: Result<string, string>)
      ensures match DecryptWith(kms.keys, e) case Some(p) => r == Ok(p) case None => r.Err?
    {
      var k := kms.Decrypt(e.wrappedKey, e.keyId);
      if k.Err? { return Err(k.error); }
      if !AesKeySize(k.value) { return Err("failed to create cipher"); }
      match Open(k.value, e.nonce, e.ciphertext, e.aad) {
        case Some(p) => r := Ok(p);
        case None => r := Err("failed to decrypt");
      }
    }
  }
}
