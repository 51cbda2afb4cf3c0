/** The audit log's hash chain: appending, verifying, and what a verified chain's last hash pins down. */
module AuditChain {
  import opened Hashing

  datatype LogEntry = LogEntry(timestamp: string, previousHash: string, payload: string, hash: string)

  function HashInput(prev: string, timestamp: string, payload: string): string {
    prev + "|" + timestamp + "|" + payload
  }

  function InputOf(e: LogEntry): string { HashInput(e.previousHash, e.timestamp, e.payload) }

  /** Each entry hashes correctly and names the hash of the one before it. */
  predicate Verifies(h: Hash, es: seq<LogEntry>) {
    forall i :: 0 <= i < |es| ==>
      (i > 0 ==> es[i].previousHash == es[i - 1].hash) && es[i].hash == h(InputOf(es[i]))
  }

  /** The verification loop. */
  method VerifyChain(h: Hash, es: seq<LogEntry>) returns (ok: bool)
    ensures ok <==> Verifies(h, es)
  {
    if |es| == 0 { return true; }
    var i := 0;
    while i < |es|
      invariant 0 <= i <= |es|
      invariant forall j :: 0 <= j < i ==>
        (j > 0 ==> es[j].previousHash == es[j - 1].hash) && es[j].hash == h(InputOf(es[j]))
    {
      var prevHash := es[i].previousHash;
      if i > 0 {
        prevHash := es[i - 1].hash;
        if es[i].previousHash != prevHash { return false; }
      }
      var computedHash := h(HashInput(prevHash, es[i].timestamp, es[i].payload));
      if computedHash != es[i].hash { return false; }
      i := i + 1;
    }
    ok := true;
  }

  predicate StampsBarFree(es: seq<LogEntry>) { forall i :: 0 <= i < |es| ==> BarFree(es[i].timestamp) }

  /** The encoding can be read back, whatever bars the payload contains. */
  lemma EncodingInjective(p: string, t: string, x: string, p': string, t': string, x': string)
    requires |p| == |p'| && BarFree(t) && BarFree(t')
    requires HashInput(p, t, x) == HashInput(p', t', x')
    ensures p == p' && t == t' && x == x'
  {
    var s, s' := HashInput(p, t, x), HashInput(p', t', x');
    var n := |p| + 1;
    assert s[..|p|] == p && s'[..|p|] == p';
    assert s[n..] == t + "|" + x && s'[n..] == t' + "|" + x';
    FirstBar(t, x, t', x');
  }

  /** With a bar inside a timestamp two different entries have one encoding. */
  lemma BarredTimestampsCollide(h: Hash)
    ensures var e := LogEntry("a|b", ZERO, "c", h(HashInput(ZERO, "a|b", "c")));
      var e' := LogEntry("a", ZERO, "b|c", h(HashInput(ZERO, "a", "b|c")));
      Verifies(h, [e]) && Verifies(h, [e']) && e.hash == e'.hash && e != e'
  {
    assert "a|b" + "|" + "c" == "a" + "|" + "b|c";
    assert HashInput(ZERO, "a|b", "c") == ZERO + "|" + ("a|b" + "|" + "c");
    assert HashInput(ZERO, "a", "b|c") == ZERO + "|" + ("a" + "|" + "b|c");
    assert |"a|b"| != |"a"|;
  }

  ghost function Inputs(es: seq<LogEntry>): set<string> { set i | 0 <= i < |es| :: InputOf(es[i]) }

  /** The chain's first link is 64 characters long, as every digest is. */
  predicate RootedAtDigest(es: seq<LogEntry>) { es != [] ==> |es[0].previousHash| == 64 }

  lemma LinksAreDigests(h: Hash, es: seq<LogEntry>, i: int)
    requires Verifies(h, es) && RootedAtDigest(es) && 0 <= i < |es|
    ensures |es[i].previousHash| == 64
  {
    if i > 0 { assert es[i - 1].hash == h(InputOf(es[i - 1])); }
  }

  /** The entry `k` places before the last. */
  function FromEnd(es: seq<LogEntry>, k: nat): LogEntry
    requires k < |es|
  {
    es[|es| - 1 - k]
  }

  /**
   * Two verified chains that end in the same hash agree entry by entry, counted from the end, as far
   * as the shorter one reaches.
   */
  lemma {:induction false} SameEndSameTail(h: Hash, a: seq<LogEntry>, b: seq<LogEntry>, k: nat)
    requires Verifies(h, a) && Verifies(h, b) && StampsBarFree(a) && StampsBarFree(b)
    requires RootedAtDigest(a) && RootedAtDigest(b) && CollisionFree(h, Inputs(a) + Inputs(b))
    requires k < |a| && k < |b| && a[|a| - 1].hash == b[|b| - 1].hash
    ensures FromEnd(a, k) == FromEnd(b, k)
    decreases k
  {
    var i, j := |a| - 1 - k, |b| - 1 - k;
    if k > 0 {
      SameEndSameTail(h, a, b, k - 1);
      assert a[i + 1].previousHash == a[i].hash && b[j + 1].previousHash == b[j].hash;
    }
    var x, y := InputOf(a[i]), InputOf(b[j]);
    assert x in Inputs(a) && y in Inputs(b);
    assert h(x) == a[i].hash && h(y) == b[j].hash;
    LinksAreDigests(h, a, i);
    LinksAreDigests(h, b, j);
    EncodingInjective(a[i].previousHash, a[i].timestamp, a[i].payload, b[j].previousHash, b[j].timestamp, b[j].payload);
  }

  predicate FromZero(es: seq<LogEntry>) { es != [] ==> es[0].previousHash == ZERO }

  lemma NoZeroInside(h: Hash, es: seq<LogEntry>, inputs: set<string>, i: int)
    requires Verifies(h, es) && AvoidsZero(h, inputs) && Inputs(es) <= inputs && 0 < i < |es|
    ensures es[i].previousHash != ZERO
  {
    assert InputOf(es[i - 1]) in Inputs(es) && es[i - 1].hash == h(InputOf(es[i - 1]));
  }

  /** Tamper evidence: verified chains from the zero hash that end in the same hash are the same chain. */
  lemma LastHashPinsChain(h: Hash, a: seq<LogEntry>, b: seq<LogEntry>)
    requires Verifies(h, a) && Verifies(h, b) && StampsBarFree(a) && StampsBarFree(b)
    requires FromZero(a) && FromZero(b) && a != [] && b != []
    requires CollisionFree(h, Inputs(a) + Inputs(b)) && AvoidsZero(h, Inputs(a) + Inputs(b))
    requires a[|a| - 1].hash == b[|b| - 1].hash
    ensures a == b
  {
    hide Verifies, CollisionFree, AvoidsZero, StampsBarFree, Inputs;
    var m := if |a| < |b| then |a| else |b|;
    forall k | 0 <= k < m ensures FromEnd(a, k) == FromEnd(b, k) { SameEndSameTail(h, a, b, k); }
    assert FromEnd(a, m - 1) == FromEnd(b, m - 1);
    if |a| < |b| { NoZeroInside(h, b, Inputs(a) + Inputs(b), |b| - |a|); }
    if |b| < |a| { NoZeroInside(h, a, Inputs(a) + Inputs(b), |a| - |b|); }
    forall i | 0 <= i < |a| ensures a[i] == b[i] { assert FromEnd(a, |a| - 1 - i) == FromEnd(b, |a| - 1 - i); }
  }

  /** What verification still sees of an entry after replacing it: its stored hash, its hashed text, its link. */
  predicate LooksSame(es: seq<LogEntry>, i: nat, e: LogEntry)
    requires i < |es|
  {
    e.hash == es[i].hash && InputOf(e) == InputOf(es[i]) && (i > 0 ==> e.previousHash == es[i].previousHash)
  }

  /**
   * Replacing an entry that is not the last goes undetected if and only if its hashed text, its hash
   * and, unless it is the first, its link are the old ones.
   */
  lemma TamperingIff(h: Hash, es: seq<LogEntry>, i: nat, e: LogEntry)
    requires Verifies(h, es) && i < |es| - 1
    requires CollisionFree(h, Inputs(es) + {InputOf(e)})
    ensures Verifies(h, es[i := e]) <==> LooksSame(es, i, e)
  {
    var es' := es[i := e];
    assert InputOf(es[i]) in Inputs(es);
    assert es[i + 1].previousHash == es[i].hash && es[i].hash == h(InputOf(es[i]));
    if Verifies(h, es') {
      assert es'[i + 1].previousHash == es'[i].hash && es'[i].hash == h(InputOf(e));
      if i > 0 { assert es'[i].previousHash == es'[i - 1].hash && es[i].previousHash == es[i - 1].hash; }
    }
  }

  /** Changing any field of an entry that is not the last is detected, if timestamps have no bars. */
  lemma TamperingDetected(h: Hash, es: seq<LogEntry>, i: nat, e: LogEntry)
    requires Verifies(h, es) && StampsBarFree(es) && RootedAtDigest(es) && i < |es| - 1 && e != es[i]
    requires BarFree(e.timestamp) && RootedAtDigest(es[i := e])
    requires CollisionFree(h, Inputs(es) + {InputOf(e)})
    ensures !Verifies(h, es[i := e])
  {
    TamperingIff(h, es, i, e);
    if LooksSame(es, i, e) {
      LinksAreDigests(h, es, i);
      EncodingInjective(e.previousHash, e.timestamp, e.payload,
                        es[i].previousHash, es[i].timestamp, es[i].payload);
      assert false;
    }
  }

  /** Moving a piece of the payload into the timestamp, bar and all, goes undetected. */
  lemma BarredTamperingUndetected(h: Hash)
    ensures var a := LogEntry("T", ZERO, "x|y", h(HashInput(ZERO, "T", "x|y")));
      var b := LogEntry("U", a.hash, "z", h(HashInput(a.hash, "U", "z")));
      var e := LogEntry("T|x", ZERO, "y", a.hash);
      FromZero([a, b]) && StampsBarFree([a, b]) && Verifies(h, [a, b]) && e != a && Verifies(h, [e, b])
  {
    assert "T|x" + "|" + "y" == "T" + "|" + "x|y";
    assert HashInput(ZERO, "T|x", "y") == ZERO + "|" + ("T|x" + "|" + "y");
    assert HashInput(ZERO, "T", "x|y") == ZERO + "|" + ("T" + "|" + "x|y");
    assert |"T|x"| != |"T"|;
  }

  /** Verification does not look before the first entry: every tail of a verified chain verifies too. */
  lemma TailsVerify(h: Hash, es: seq<LogEntry>, i: nat)
    requires Verifies(h, es) && i <= |es|
    ensures Verifies(h, es[i..])
  {
    var t := es[i..];
    forall j | 0 <= j < |t|
      ensures (j > 0 ==> t[j].previousHash == t[j - 1].hash) && t[j].hash == h(InputOf(t[j]))
    {
      assert t[j] == es[i + j];
      if j > 0 { assert t[j - 1] == es[i + j - 1]; }
    }
  }

  /** The logger keeps only the last hash; `log` is the ghost list of everything it returned. */
  class ChainLogger {
    const h: Hash
    var previousHash: string
    ghost var log: seq<LogEntry>

    ghost predicate Valid()
      reads this
    {
      && Verifies(h, log) && FromZero(log)
      && previousHash == if log == [] then ZERO else log[|log| - 1].hash
    }

    constructor (h: Hash)
      ensures this.h == h && log == [] && Valid()
    {
      this.h, previousHash, log := h, ZERO, [];
    }

    /** Adds an entry; everything appended so far verifies and starts from the zero hash. */
    method Append(payload: string, timestamp: string) returns (entry: LogEntry)
      requires Valid()
      modifies this
      ensures Valid() && log == old(log) + [entry]
      ensures entry.payload == payload && entry.timestamp == timestamp && previousHash == entry.hash
      ensures entry.previousHash == old(previousHash)
      ensures entry.hash == h(old(previousHash) + "|" + timestamp + "|" + payload)
    {
      entry := LogEntry(timestamp, previousHash, payload, "");
      entry := entry.(hash := h(HashInput(entry.previousHash, entry.timestamp, entry.payload)));
      previousHash := entry.hash;
      log := log + [entry];
    }
  }
}
