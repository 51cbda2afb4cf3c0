/** The Redis token bucket: refill, cap, admit, store and expire. Times and tokens are exact reals. */
module TokenBucket {
  import opened Prelude

  datatype Params = Params(capacity: int, rate: real) {
    /** `Allow` consults Redis only for a positive capacity and refill rate. */
    predicate Enabled() { capacity > 0 && rate > 0.0 }

    /** Seconds after which an untouched key is dropped. */
    function Ttl(): int
      requires Enabled()
    {
      (capacity as real / rate).Floor + 1
    }
  }

  /** The hash kept under one key. */
  datatype Bucket = Bucket(tokens: real, last: real)

  /** One request, and one answered request. */
  datatype Request = Request(key: string, at: real)
  datatype Call = Call(key: string, at: real, admitted: bool)

  /** Tokens gained in `dt` seconds. */
  function Gain(p: Params, dt: real): real { dt * p.rate }

  lemma GainSum(p: Params, x: real, y: real, z: real)
    requires z == x + y
    ensures Gain(p, z) == Gain(p, x) + Gain(p, y)
  {
    assert (x + y) * p.rate == x * p.rate + y * p.rate;
  }

  lemma GainSign(p: Params, dt: real)
    requires p.rate > 0.0 && dt >= 0.0
    ensures Gain(p, dt) >= 0.0 && (dt == 0.0 ==> Gain(p, dt) == 0.0)
  {}

  /** A step of the clock; a step back counts as none. */
  function Forward(dt: real): real { if dt < 0.0 then 0.0 else dt }

  /** Tokens available at `now`, before the admission decision. */
  function Filled(p: Params, s: Option<Bucket>, now: real): real {
    var tokens := if s.None? then p.capacity as real else s.value.tokens;
    var last := if s.None? then now else s.value.last;
    var filled := tokens + Gain(p, Forward(now - last));
    if filled > p.capacity as real then p.capacity as real else filled
  }

  function Admit(p: Params, s: Option<Bucket>, now: real): bool {
    Filled(p, s, now) >= 1.0
  }

  function After(p: Params, s: Option<Bucket>, now: real): Bucket {
    var filled := Filled(p, s, now);
    Bucket(if filled >= 1.0 then filled - 1.0 else filled, now)
  }

  /** The bucket of key `k` after the calls of `log`, when keys are never dropped. */
  function State(p: Params, log: seq<Call>, k: string): Option<Bucket> {
    if log == [] then None else
    var c := log[|log| - 1];
    var s := State(p, log[..|log| - 1], k);
    if c.key == k then Some(After(p, s, c.at)) else s
  }

  /** The answers given to `reqs` when keys are never dropped. */
  function Run(p: Params, reqs: seq<Request>): (log: seq<Call>)
    ensures |log| == |reqs|
  {
    if reqs == [] then [] else
    var log := Run(p, reqs[..|reqs| - 1]);
    var r := reqs[|reqs| - 1];
    log + [Call(r.key, r.at, Admit(p, State(p, log, r.key), r.at))]
  }

  /** `log` is a run: every recorded answer is the one the bucket gave. */
  predicate IsRun(p: Params, log: seq<Call>) {
    forall j :: 0 <= j < |log| ==>
      log[j].admitted == Admit(p, State(p, log[..j], log[j].key), log[j].at)
  }

  /** The clock does not step back between two calls of the same key. */
  predicate Ordered(log: seq<Call>) {
    forall i, j :: 0 <= i < j < |log| && log[i].key == log[j].key ==> log[i].at <= log[j].at
  }

  predicate NotBefore(log: seq<Call>, k: string, now: real) {
    forall i :: 0 <= i < |log| && log[i].key == k ==> log[i].at <= now
  }

  /** How many calls of `k` were admitted from position `i` on. */
  function AdmittedFrom(log: seq<Call>, k: string, i: nat): nat {
    if |log| <= i then 0 else
    var c := log[|log| - 1];
    AdmittedFrom(log[..|log| - 1], k, i) + (if c.key == k && c.admitted then 1 else 0)
  }

  /** The forward clock steps between successive calls of `k`, from call `i` up to `now`. */
  function Accrued(log: seq<Call>, k: string, i: nat, now: real): real
    requires i < |log|
    decreases |log|
  {
    var n := |log| - 1;
    if i == n then Forward(now - log[n].at)
    else if log[n].key != k then Accrued(log[..n], k, i, now)
    else Accrued(log[..n], k, i, log[n].at) + Forward(now - log[n].at)
  }

  /** What the window that starts at call `i` still allows at time `now`. */
  function Room(p: Params, log: seq<Call>, k: string, i: nat, now: real): real
    requires i < |log|
  {
    p.capacity as real + Gain(p, Accrued(log, k, i, now)) - AdmittedFrom(log, k, i) as real
  }

  /** The calls of `k` admitted since call `i`, and one more, fit into a window of length `dt`. */
  predicate WindowHasRoom(p: Params, log: seq<Call>, k: string, i: nat, dt: real) {
    (AdmittedFrom(log, k, i) + 1) as real <= p.capacity as real + p.rate * dt
  }

  /** Every window that starts at an earlier call of `k`, measured in accrued time, has room for one more call. */
  predicate EveryWindowHasRoom(p: Params, log: seq<Call>, k: string, now: real) {
    forall i :: 0 <= i < |log| && log[i].key == k ==> WindowHasRoom(p, log, k, i, Accrued(log, k, i, now))
  }

  /** The same with windows measured by the clock. */
  predicate EveryClockWindowHasRoom(p: Params, log: seq<Call>, k: string, now: real) {
    forall i :: 0 <= i < |log| && log[i].key == k ==> WindowHasRoom(p, log, k, i, now - log[i].at)
  }

  // ---------------------------------------------------------------- exact admission

  lemma RunPrefix(p: Params, log: seq<Call>, n: int)
    requires 0 <= n <= |log| && IsRun(p, log)
    ensures IsRun(p, log[..n])
  {
    hide Admit, State;
    var pre := log[..n];
    forall j | 0 <= j < n ensures pre[j].admitted == Admit(p, State(p, pre[..j], pre[j].key), pre[j].at) {
      assert pre[..j] == log[..j];
    }
  }

  lemma RoomShift(p: Params, log: seq<Call>, k: string, i: nat, now: real)
    requires log != [] && i < |log| - 1
    requires log[|log| - 1].key == k
    ensures var c := log[|log| - 1];
      Room(p, log, k, i, now) ==
      Room(p, log[..|log| - 1], k, i, c.at) + Gain(p, Forward(now - c.at)) - (if c.admitted then 1.0 else 0.0)
  {
    hide Gain, Forward;
    var c := log[|log| - 1];
    GainSum(p, Accrued(log[..|log| - 1], k, i, c.at), Forward(now - c.at), Accrued(log, k, i, now));
  }

  /** The bucket holds the minimum, over all windows that end now, of the room they leave. */
  ghost predicate Tightest(p: Params, log: seq<Call>, k: string, now: real) {
    var f := Filled(p, State(p, log, k), now);
    && f <= p.capacity as real
    && (forall i :: 0 <= i < |log| && log[i].key == k ==> f <= Room(p, log, k, i, now))
    && (f == p.capacity as real || exists i :: 0 <= i < |log| && log[i].key == k && f == Room(p, log, k, i, now))
  }

  lemma {:induction false} BucketIsTightestWindow(p: Params, log: seq<Call>, k: string, now: real)
    requires p.Enabled() && IsRun(p, log)
    ensures Tightest(p, log, k, now)
    decreases |log|
  {
    if log == [] {
      GainSign(p, 0.0);
    } else {
      var n := |log| - 1;
      var pre, c := log[..n], log[n];
      hide Tightest, Filled, Admit, After, Gain;
      RunPrefix(p, log, n);
      if c.key != k {
        BucketIsTightestWindow(p, pre, k, now);
        OtherKeyStep(p, log, k, now);
      } else {
        BucketIsTightestWindow(p, pre, k, c.at);
        WindowStep(p, log, now);
      }
    }
  }

  lemma OtherKeyStep(p: Params, log: seq<Call>, k: string, now: real)
    requires log != [] && log[|log| - 1].key != k && Tightest(p, log[..|log| - 1], k, now)
    ensures Tightest(p, log, k, now)
  {
    hide Gain, Filled;
    var pre := log[..|log| - 1];
    var f := Filled(p, State(p, log, k), now);
    assert forall i :: 0 <= i < |pre| ==> Room(p, log, k, i, now) == Room(p, pre, k, i, now);
    if f != p.capacity as real {
      var i :| 0 <= i < |pre| && pre[i].key == k && f == Room(p, pre, k, i, now);
      assert log[i].key == k && f == Room(p, log, k, i, now);
    }
  }

  lemma WindowStep(p: Params, log: seq<Call>, now: real)
    requires p.Enabled() && log != [] && IsRun(p, log)
    requires Tightest(p, log[..|log| - 1], log[|log| - 1].key, log[|log| - 1].at)
    ensures Tightest(p, log, log[|log| - 1].key, now)
  {
    hide Gain, Forward;
    var n := |log| - 1;
    var c, pre, k := log[n], log[..n], log[n].key;
    var F, G := Filled(p, State(p, pre, k), c.at), Filled(p, State(p, log, k), now);
    var a := if c.admitted then 1.0 else 0.0;
    var lifted := F - a + Gain(p, Forward(now - c.at));
    assert G == if lifted > p.capacity as real then p.capacity as real else lifted;
    assert AdmittedFrom(pre, k, n) == 0;
    assert Room(p, log, k, n, now) == p.capacity as real + Gain(p, Forward(now - c.at)) - a;
    forall i | 0 <= i < |log| && log[i].key == k ensures G <= Room(p, log, k, i, now) {
      if i < n { RoomShift(p, log, k, i, now); assert pre[i].key == k; }
    }
    if G != p.capacity as real {
      if F == p.capacity as real {
        assert log[n].key == k && G == Room(p, log, k, n, now);
      } else {
        var i :| 0 <= i < |pre| && pre[i].key == k && F == Room(p, pre, k, i, c.at);
        RoomShift(p, log, k, i, now);
        assert log[i].key == k && G == Room(p, log, k, i, now);
      }
    }
  }

  lemma RoomForOne(p: Params, log: seq<Call>, k: string, i: nat, now: real)
    requires i < |log|
    ensures WindowHasRoom(p, log, k, i, Accrued(log, k, i, now)) <==> Room(p, log, k, i, now) >= 1.0
    ensures Room(p, log, k, i, now) >= 0.0 <==>
      AdmittedFrom(log, k, i) as real <= p.capacity as real + p.rate * Accrued(log, k, i, now)
  {
    hide Accrued;
    assert Accrued(log, k, i, now) * p.rate == p.rate * Accrued(log, k, i, now);
  }

  /**
   * On any clock, a call is admitted exactly when no window that ends with it, measured in accrued
   * time, would exceed its bound.
   */
  lemma AdmissionIsExact(p: Params, log: seq<Call>, k: string, now: real)
    requires p.Enabled() && IsRun(p, log)
    ensures Admit(p, State(p, log, k), now) <==> EveryWindowHasRoom(p, log, k, now)
  {
    hide Gain, Filled, Room, IsRun, WindowHasRoom, Accrued;
    BucketIsTightestWindow(p, log, k, now);
    var f := Filled(p, State(p, log, k), now);
    if f >= 1.0 {
      forall i | 0 <= i < |log| && log[i].key == k
        ensures WindowHasRoom(p, log, k, i, Accrued(log, k, i, now))
      {
        RoomForOne(p, log, k, i, now);
      }
    } else {
      var i :| 0 <= i < |log| && log[i].key == k && f == Room(p, log, k, i, now);
      RoomForOne(p, log, k, i, now);
    }
  }

  /** No window of a run ever admits more than its bound, admitted last call or not. */
  lemma NoWindowExceedsBound(p: Params, log: seq<Call>, k: string, i: nat, now: real)
    requires p.Enabled() && IsRun(p, log) && i < |log| && log[i].key == k
    ensures AdmittedFrom(log, k, i) as real <= p.capacity as real + p.rate * Accrued(log, k, i, now)
  {
    hide Gain, Room, IsRun, Accrued;
    BucketIsTightestWindow(p, log, k, now);
    RoomForOne(p, log, k, i, now);
    TokensNonNegative(p, log, k);
    var s := State(p, log, k);
    GainSign(p, if s.Some? then Forward(now - s.value.last) else 0.0);
  }

  /** On a clock that does not step back, accrued time is the time on the clock. */
  lemma {:induction false} AccruedIsElapsed(log: seq<Call>, k: string, i: nat, now: real)
    requires i < |log| && log[i].key == k && Ordered(log) && NotBefore(log, k, now)
    ensures Accrued(log, k, i, now) == now - log[i].at
    decreases |log|
  {
    var n := |log| - 1;
    if i < n { AccruedIsElapsed(log[..n], k, i, if log[n].key == k then log[n].at else now); }
  }

  /** There, the windows are those of the clock. */
  lemma AdmissionOnOrderedClock(p: Params, log: seq<Call>, k: string, now: real)
    requires p.Enabled() && IsRun(p, log) && Ordered(log) && NotBefore(log, k, now)
    ensures Admit(p, State(p, log, k), now) <==> EveryClockWindowHasRoom(p, log, k, now)
  {
    hide IsRun, Admit, Ordered, NotBefore, WindowHasRoom, Accrued;
    AdmissionIsExact(p, log, k, now);
    forall i | 0 <= i < |log| && log[i].key == k ensures Accrued(log, k, i, now) == now - log[i].at {
      AccruedIsElapsed(log, k, i, now);
    }
  }

  /** The same law for the answers given to any list of requests. */
  lemma RunAdmissionIsExact(p: Params, reqs: seq<Request>, j: nat)
    requires p.Enabled() && j < |reqs|
    ensures Run(p, reqs)[j].admitted <==> EveryWindowHasRoom(p, Run(p, reqs)[..j], reqs[j].key, reqs[j].at)
  {
    hide Run, Admit, State, EveryWindowHasRoom;
    RunIsRun(p, reqs);
    RunAnswers(p, reqs);
    RunPrefix(p, Run(p, reqs), j);
    AdmissionIsExact(p, Run(p, reqs)[..j], reqs[j].key, reqs[j].at);
  }

  lemma {:induction false} RunIsRun(p: Params, reqs: seq<Request>)
    ensures IsRun(p, Run(p, reqs))
  {
    hide Gain, Filled, Admit, After, State, IsRun, Run;
    if reqs == [] {
      NoRun(p);
    } else {
      var n := |reqs| - 1;
      var r := reqs[n];
      RunIsRun(p, reqs[..n]);
      var log := Run(p, reqs[..n]);
      RunLast(p, reqs);
      RunExtends(p, log, Call(r.key, r.at, Admit(p, State(p, log, r.key), r.at)));
    }
  }

  lemma NoRun(p: Params)
    ensures IsRun(p, Run(p, []))
  {}

  /** A clock that steps back lets a key be admitted twice at one instant with capacity one. */
  lemma BackwardClockBreaksTheWindow()
    ensures var p := Params(1, 1.0);
      var log := Run(p, [Request("k", 1.0), Request("k", 0.0), Request("k", 1.0)]);
      p.Enabled() && log[0].admitted && log[2].admitted && !EveryClockWindowHasRoom(p, log[..2], "k", 1.0)
  {
    var p := Params(1, 1.0);
    var r0, r1, r2 := Request("k", 1.0), Request("k", 0.0), Request("k", 1.0);
    var l1, l2, l3 := Run(p, [r0]), Run(p, [r0, r1]), Run(p, [r0, r1, r2]);
    assert [r0][..0] == [] && [r0, r1][..1] == [r0] && [r0, r1, r2][..2] == [r0, r1];
    assert Run(p, []) == [];
    assert l1 == [Call("k", 1.0, true)];
    assert l1[..0] == [];
    assert State(p, l1, "k") == Some(Bucket(0.0, 1.0));
    assert l2 == l1 + [Call("k", 0.0, false)];
    assert l2[..1] == l1;
    assert State(p, l2, "k") == Some(Bucket(0.0, 0.0));
    assert l3 == l2 + [Call("k", 1.0, true)];
    assert l3[..2] == l2;
    assert AdmittedFrom(l1, "k", 0) == 1;
    assert AdmittedFrom(l2, "k", 0) == 1;
    assert l2[0].key == "k";
  }

  // ---------------------------------------------------------------- denied calls, dropped keys

  /** From time `t` on, the two states cannot be told apart. */
  ghost predicate SameFrom(p: Params, s: Option<Bucket>, s': Option<Bucket>, t: real) {
    forall now: real :: now >= t ==> Filled(p, s, now) == Filled(p, s', now)
  }

  /** A denied call only moves the bucket to an equivalent state. */
  lemma DeniedLeavesBucketSame(p: Params, s: Option<Bucket>, t: real)
    requires p.Enabled() && !Admit(p, s, t)
    requires s.Some? ==> s.value.last <= t
    ensures SameFrom(p, s, Some(After(p, s, t)), t)
  {
    hide Gain;
    forall now: real | now >= t ensures Filled(p, s, now) == Filled(p, Some(After(p, s, t)), now) {
      GainSign(p, 0.0);
      if s.Some? {
        var b := s.value;
        GainSum(p, t - b.last, now - t, now - b.last);
        GainSign(p, now - t);
        GainSign(p, t - b.last);
      }
    }
  }

  /** The time to live is the least whole number of seconds that certainly refills an empty bucket. */
  lemma TtlIsLeast(p: Params)
    requires p.Enabled()
    ensures Gain(p, p.Ttl() as real) > p.capacity as real >= Gain(p, (p.Ttl() - 1) as real)
  {
    hide Gain;
    var q := p.capacity as real / p.rate;
    GainOfQuotient(p);
    GainOrder(p, (p.Ttl() - 1) as real, q);
    GainOrder(p, q, p.Ttl() as real);
  }

  lemma GainOfQuotient(p: Params)
    requires p.Enabled()
    ensures Gain(p, p.capacity as real / p.rate) == p.capacity as real
  {}

  lemma GainOrder(p: Params, x: real, y: real)
    requires p.Enabled()
    ensures x <= y ==> Gain(p, x) <= Gain(p, y)
    ensures x < y ==> Gain(p, x) < Gain(p, y)
  {}

  lemma TtlRefills(p: Params, delta: real)
    requires p.Enabled() && delta >= p.Ttl() as real
    ensures Gain(p, delta) >= p.capacity as real && delta > 0.0
  {
    var q := p.capacity as real / p.rate;
    assert q > 0.0;
    assert q < (q.Floor + 1) as real;
    assert delta > q;
    assert delta * p.rate > q * p.rate;
  }

  /** After `Ttl` idle seconds a bucket that exists has refilled to capacity, like one that does not. */
  lemma IdleBucketIsFull(p: Params, b: Bucket, t: real)
    requires p.Enabled() && b.tokens >= 0.0 && t >= b.last + p.Ttl() as real
    ensures SameFrom(p, None, Some(b), t)
  {
    hide Gain;
    var c := p.capacity as real;
    forall now: real | now >= t ensures Filled(p, None, now) == Filled(p, Some(b), now) {
      var delta := now - b.last;
      TtlRefills(p, delta);
      GainSign(p, 0.0);
    }
  }

  lemma {:induction false} TokensNonNegative(p: Params, log: seq<Call>, k: string)
    requires p.Enabled()
    ensures State(p, log, k).Some? ==> State(p, log, k).value.tokens >= 0.0
    decreases |log|
  {
    hide Gain;
    GainSign(p, 0.0);
    if log != [] {
      var pre, c := log[..|log| - 1], log[|log| - 1];
      TokensNonNegative(p, pre, k);
      if c.key == k && State(p, pre, k).Some? {
        var b := State(p, pre, k).value;
        var delta := if c.at - b.last < 0.0 then 0.0 else c.at - b.last;
        GainSign(p, delta);
      }
    }
  }

  /** Two equivalent states are brought to the same bucket, with the same answer, by the next call. */
  lemma SameAfterCall(p: Params, s: Option<Bucket>, s': Option<Bucket>, t: real, now: real)
    requires SameFrom(p, s, s', t) && now >= t
    ensures Admit(p, s, now) == Admit(p, s', now) && After(p, s, now) == After(p, s', now)
  {
    hide Gain;
    assert Filled(p, s, now) == Filled(p, s', now);
  }

  /** The calls whose flag is set. */
  function Kept<T>(xs: seq<T>, keep: seq<bool>): seq<T>
    requires |xs| == |keep|
  {
    if xs == [] then [] else
    var n := |xs| - 1;
    Kept(xs[..n], keep[..n]) + (if keep[n] then [xs[n]] else [])
  }

  predicate OrderedRequests(reqs: seq<Request>) {
    forall i, j :: 0 <= i < j < |reqs| && reqs[i].key == reqs[j].key ==> reqs[i].at <= reqs[j].at
  }

  lemma {:induction false} StateTime(p: Params, log: seq<Call>, k: string, t: real)
    requires NotBefore(log, k, t)
    ensures State(p, log, k).Some? ==> State(p, log, k).value.last <= t
    decreases |log|
  {
    hide Gain;
    if log != [] { StateTime(p, log[..|log| - 1], k, t); }
  }

  lemma RunLast(p: Params, reqs: seq<Request>)
    requires reqs != []
    ensures var n := |reqs| - 1; var log := Run(p, reqs[..n]); var r := reqs[n];
      && Run(p, reqs) == log + [Call(r.key, r.at, Admit(p, State(p, log, r.key), r.at))]
      && Run(p, reqs)[..n] == log
  {}

  lemma StateLast(p: Params, log: seq<Call>, c: Call, k: string)
    ensures State(p, log + [c], k) ==
      if c.key == k then Some(After(p, State(p, log, k), c.at)) else State(p, log, k)
  {
    assert (log + [c])[..|log|] == log;
  }

  lemma KeptLast<T>(xs: seq<T>, x: T, keep: seq<bool>, b: bool)
    requires |xs| == |keep|
    ensures Kept(xs + [x], keep + [b]) == Kept(xs, keep) + (if b then [x] else [])
  {
    assert (xs + [x])[..|xs|] == xs && (keep + [b])[..|xs|] == keep;
  }

  /** Both logs leave every key in states that cannot be told apart once the clock has passed its calls. */
  ghost predicate Twins(p: Params, log: seq<Call>, log': seq<Call>) {
    forall k, t :: NotBefore(log, k, t) ==> SameFrom(p, State(p, log, k), State(p, log', k), t)
  }

  /** Only denied calls lose their flag. */
  predicate DropsOnlyDenied(log: seq<Call>, keep: seq<bool>)
    requires |log| == |keep|
  {
    forall i :: 0 <= i < |log| && log[i].admitted ==> keep[i]
  }

  /** The log answers the requests in order. */
  lemma {:induction false} RunAnswers(p: Params, reqs: seq<Request>)
    ensures forall i :: 0 <= i < |reqs| ==> Run(p, reqs)[i].key == reqs[i].key && Run(p, reqs)[i].at == reqs[i].at
    decreases |reqs|
  {
    hide Admit, State;
    if reqs != [] { RunAnswers(p, reqs[..|reqs| - 1]); }
  }

  lemma OrderedPrefix(p: Params, reqs: seq<Request>)
    requires reqs != [] && OrderedRequests(reqs)
    ensures var n := |reqs| - 1;
      OrderedRequests(reqs[..n]) && NotBefore(Run(p, reqs[..n]), reqs[n].key, reqs[n].at)
  {
    hide Run;
    RunAnswers(p, reqs[..|reqs| - 1]);
  }

  /** Dropping denied calls from a run changes no other answer, for any choice of denied calls. */
  lemma {:induction false} DeniedCallsInvisible(p: Params, reqs: seq<Request>, keep: seq<bool>)
    requires p.Enabled() && OrderedRequests(reqs) && |keep| == |reqs|
    requires DropsOnlyDenied(Run(p, reqs), keep)
    ensures Run(p, Kept(reqs, keep)) == Kept(Run(p, reqs), keep)
    ensures Twins(p, Run(p, reqs), Kept(Run(p, reqs), keep))
    decreases |reqs|
  {
    hide *;
    if reqs == [] {
      NoRequests(p, reqs, keep);
    } else {
      var n := |reqs| - 1;
      var pre, all := reqs[..n], Run(p, reqs);
      RunLast(p, reqs);
      OrderedPrefix(p, reqs);
      assert DropsOnlyDenied(all[..n], keep[..n]) && (all[n].admitted ==> keep[n]) by { DropsPrefix(all, keep); }
      DeniedCallsInvisible(p, pre, keep[..n]);
      assert reqs == pre + [reqs[n]] && keep == keep[..n] + [keep[n]];
      DeniedStep(p, pre, reqs[n], keep[..n], keep[n]);
    }
  }

  lemma NoRequests(p: Params, reqs: seq<Request>, keep: seq<bool>)
    requires reqs == [] && keep == []
    ensures Run(p, Kept(reqs, keep)) == Kept(Run(p, reqs), keep)
    ensures Twins(p, Run(p, reqs), Kept(Run(p, reqs), keep))
  {
    hide Filled;
    assert Twins(p, [], []);
  }

  lemma DropsPrefix(log: seq<Call>, keep: seq<bool>)
    requires |log| == |keep| > 0 && DropsOnlyDenied(log, keep)
    ensures var n := |log| - 1; DropsOnlyDenied(log[..n], keep[..n]) && (log[n].admitted ==> keep[n])
  {}

  lemma DeniedStep(p: Params, pre: seq<Request>, r: Request, keep: seq<bool>, b: bool)
    requires p.Enabled() && |keep| == |pre| && NotBefore(Run(p, pre), r.key, r.at)
    requires Run(p, Kept(pre, keep)) == Kept(Run(p, pre), keep)
    requires Twins(p, Run(p, pre), Kept(Run(p, pre), keep))
    requires b || !Admit(p, State(p, Run(p, pre), r.key), r.at)
    ensures Run(p, Kept(pre + [r], keep + [b])) == Kept(Run(p, pre + [r]), keep + [b])
    ensures Twins(p, Run(p, pre + [r]), Kept(Run(p, pre + [r]), keep + [b]))
  {
    hide *;
    var log, kept, rs := Run(p, pre), Kept(Run(p, pre), keep), Kept(pre, keep);
    var c := Call(r.key, r.at, Admit(p, State(p, log, r.key), r.at));
    assert (pre + [r])[..|pre|] == pre && (rs + [r])[..|rs|] == rs;
    RunLast(p, pre + [r]);
    KeptLast(log, c, keep, b);
    KeptLast(pre, r, keep, b);
    if b {
      TwinsAgree(p, log, kept, r.key, r.at);
      RunLast(p, rs + [r]);
    }
    TwinsStep(p, log, kept, c, b);
    if !b { assert rs + [] == rs && kept + [] == kept; }
  }

  lemma TwinsAgree(p: Params, log: seq<Call>, kept: seq<Call>, k: string, t: real)
    requires Twins(p, log, kept) && NotBefore(log, k, t)
    ensures Admit(p, State(p, log, k), t) == Admit(p, State(p, kept, k), t)
  {
    hide Gain, Filled;
    assert SameFrom(p, State(p, log, k), State(p, kept, k), t);
    SameAfterCall(p, State(p, log, k), State(p, kept, k), t, t);
  }

  lemma TwinsStep(p: Params, log: seq<Call>, kept: seq<Call>, c: Call, b: bool)
    requires p.Enabled() && Twins(p, log, kept) && NotBefore(log, c.key, c.at)
    requires b || !Admit(p, State(p, log, c.key), c.at)
    ensures Twins(p, log + [c], kept + (if b then [c] else []))
  {
    hide Gain, Filled, Admit, After;
    var all, all' := log + [c], kept + (if b then [c] else []);
    var s, s' := State(p, log, c.key), State(p, kept, c.key);
    assert SameFrom(p, s, s', c.at);
    SameAfterCall(p, s, s', c.at, c.at);
    if !b {
      StateTime(p, log, c.key, c.at);
      DeniedLeavesBucketSame(p, s, c.at);
      assert all' == kept;
    }
    forall k, t | NotBefore(all, k, t) ensures SameFrom(p, State(p, all, k), State(p, all', k), t) {
      assert NotBefore(log, k, t) by {
        forall i | 0 <= i < |log| && log[i].key == k ensures log[i].at <= t { assert all[i] == log[i]; }
      }
      assert SameFrom(p, State(p, log, k), State(p, kept, k), t);
      StateLast(p, log, c, k);
      if b { StateLast(p, kept, c, k); }
      if k == c.key { assert all[|log|] == c && c.at <= t; }
    }
  }

  // ---------------------------------------------------------------- the store with expiry

  /** What happens at the store: a request arrives, or Redis drops a key whose TTL has run out. */
  datatype Event = Arrive(r: Request) | Drop(key: string, at: real)

  datatype Store = Store(buckets: map<string, Bucket>, log: seq<Call>)

  function Lookup(m: map<string, Bucket>, k: string): Option<Bucket> {
    if k in m then Some(m[k]) else None
  }

  function Serve(p: Params, st: Store, e: Event): Store {
    match e
    case Arrive(r) =>
      var s := Lookup(st.buckets, r.key);
      Store(st.buckets[r.key := After(p, s, r.at)], st.log + [Call(r.key, r.at, Admit(p, s, r.at))])
    case Drop(k, _) => Store(st.buckets - {k}, st.log)
  }

  function ServeAll(p: Params, es: seq<Event>): Store {
    if es == [] then Store(map[], []) else Serve(p, ServeAll(p, es[..|es| - 1]), es[|es| - 1])
  }

  function TimeOf(e: Event): real {
    match e case Arrive(r) => r.at case Drop(_, t) => t
  }

  /** One monotone clock, and no key dropped before its TTL has passed since its last call. */
  predicate Lawful(p: Params, es: seq<Event>)
    requires p.Enabled()
  {
    && (forall i, j :: 0 <= i < j < |es| ==> TimeOf(es[i]) <= TimeOf(es[j]))
    && (forall j :: 0 <= j < |es| && es[j].Drop? ==>
          var m := ServeAll(p, es[..j]).buckets;
          es[j].key in m ==> es[j].at >= m[es[j].key].last + p.Ttl() as real)
  }

  /** The requests among the events, in order. */
  function Arrivals(es: seq<Event>): seq<Request> {
    if es == [] then [] else
    Arrivals(es[..|es| - 1]) + (match es[|es| - 1] case Arrive(r) => [r] case Drop(_, _) => [])
  }

  ghost predicate Hidden(p: Params, st: Store, log: seq<Call>, t: real) {
    && st.log == log
    && (forall k :: k in st.buckets ==> State(p, log, k) == Some(st.buckets[k]))
    && (forall k :: k !in st.buckets ==> SameFrom(p, None, State(p, log, k), t))
    && (forall i :: 0 <= i < |log| ==> log[i].at <= t)
  }

  lemma LawfulPrefix(p: Params, es: seq<Event>)
    requires p.Enabled() && es != [] && Lawful(p, es)
    ensures var n := |es| - 1; var m := ServeAll(p, es[..n]).buckets;
      && Lawful(p, es[..n])
      && HappenBy(es[..n], TimeOf(es[n]))
      && (es[n].Drop? && es[n].key in m ==> es[n].at >= m[es[n].key].last + p.Ttl() as real)
  {
    hide ServeAll;
    var pre := es[..|es| - 1];
    forall j | 0 <= j < |pre| ensures pre[..j] == es[..j] && pre[j] == es[j] {}
  }

  predicate HappenBy(es: seq<Event>, t: real) { forall i :: 0 <= i < |es| ==> TimeOf(es[i]) <= t }

  lemma {:induction false} ExpiryInvariant(p: Params, es: seq<Event>, t: real)
    requires p.Enabled() && Lawful(p, es) && HappenBy(es, t)
    ensures Hidden(p, ServeAll(p, es), Run(p, Arrivals(es)), t)
    decreases |es|
  {
    hide Gain, Filled, Admit, After, Lawful, Hidden, Serve;
    if es == [] {
      NothingHidden(p, es, t);
    } else {
      var n := |es| - 1;
      var pre, e := es[..n], es[n];
      LawfulPrefix(p, es);
      ExpiryInvariant(p, pre, TimeOf(e));
      var st, log := ServeAll(p, pre), Run(p, Arrivals(pre));
      assert TimeOf(e) <= t;
      if e.Arrive? {
        RunLast(p, Arrivals(es));
        assert Arrivals(es)[..|Arrivals(pre)|] == Arrivals(pre);
        ArrivalKeepsHidden(p, st, log, e.r, t);
      } else {
        assert Arrivals(es) == Arrivals(pre);
        DropKeepsHidden(p, st, log, e, t);
      }
    }
  }

  lemma NothingHidden(p: Params, es: seq<Event>, t: real)
    requires es == []
    ensures Hidden(p, ServeAll(p, es), Run(p, Arrivals(es)), t)
  {
    hide Filled;
  }

  lemma ArrivalKeepsHidden(p: Params, st: Store, log: seq<Call>, r: Request, t: real)
    requires p.Enabled() && Hidden(p, st, log, r.at) && r.at <= t
    ensures Hidden(p, Serve(p, st, Arrive(r)), log + [Call(r.key, r.at, Admit(p, State(p, log, r.key), r.at))], t)
  {
    hide Gain, Filled, Admit, After;
    var s, s' := Lookup(st.buckets, r.key), State(p, log, r.key);
    assert SameFrom(p, s, s', r.at);
    SameAfterCall(p, s, s', r.at, r.at);
    var c := Call(r.key, r.at, Admit(p, s', r.at));
    forall k ensures State(p, log + [c], k) ==
      if c.key == k then Some(After(p, State(p, log, k), c.at)) else State(p, log, k)
    {
      StateLast(p, log, c, k);
    }
  }

  lemma DropKeepsHidden(p: Params, st: Store, log: seq<Call>, e: Event, t: real)
    requires p.Enabled() && e.Drop? && Hidden(p, st, log, e.at) && e.at <= t
    requires e.key in st.buckets ==> e.at >= st.buckets[e.key].last + p.Ttl() as real
    ensures Hidden(p, Serve(p, st, e), log, t)
  {
    hide Gain, Filled, Admit, After;
    if e.key in st.buckets {
      TokensNonNegative(p, log, e.key);
      IdleBucketIsFull(p, st.buckets[e.key], e.at);
    }
  }

  /** Dropping idle keys changes no answer, and every key still present holds the undropped bucket. */
  lemma ExpiryUnobservable(p: Params, es: seq<Event>)
    requires p.Enabled() && Lawful(p, es)
    ensures ServeAll(p, es).log == Run(p, Arrivals(es))
    ensures forall k :: k in ServeAll(p, es).buckets ==>
      State(p, Run(p, Arrivals(es)), k) == Some(ServeAll(p, es).buckets[k])
  {
    hide Gain;
    if es != [] { ExpiryInvariant(p, es, TimeOf(es[|es| - 1])); }
  }

  // ---------------------------------------------------------------- the limiter object

  /** The Redis key of a caller's key. */
  function StoreKey(prefix: string, raw: string): string {
    if prefix == "" then raw else prefix + ":" + raw
  }

  /** Within one limiter two callers share a Redis key only if they gave the same key. */
  lemma KeysApart(prefix: string, a: string, b: string)
    ensures StoreKey(prefix, a) == StoreKey(prefix, b) <==> a == b
    ensures prefix == "" ==> StoreKey(prefix, a) == a
    ensures prefix != "" ==>
      && |StoreKey(prefix, a)| == |prefix| + 1 + |a|
      && prefix <= StoreKey(prefix, a) && StoreKey(prefix, a)[|prefix|] == ':'
  {
    if prefix != "" {
      assert StoreKey(prefix, a)[|prefix| + 1..] == a && StoreKey(prefix, b)[|prefix| + 1..] == b;
    }
  }

  /** Calls as Redis sees them. */
  function Keyed(prefix: string, log: seq<Call>): seq<Call> {
    seq(|log|, i requires 0 <= i < |log| => Call(StoreKey(prefix, log[i].key), log[i].at, log[i].admitted))
  }

  /** The calls of one key, in order. */
  function Own(log: seq<Call>, k: string): seq<Call> {
    if log == [] then [] else
    var c := log[|log| - 1];
    Own(log[..|log| - 1], k) + if c.key == k then [c] else []
  }

  /** What a key's bucket holds depends on that key's calls only. */
  lemma {:induction false} OtherKeysInvisible(p: Params, log: seq<Call>, k: string)
    ensures State(p, log, k) == State(p, Own(log, k), k)
    decreases |log|
  {
    hide After;
    if log != [] {
      var pre, c := log[..|log| - 1], log[|log| - 1];
      OtherKeysInvisible(p, pre, k);
      StateLast(p, Own(pre, k), c, k);
      if c.key != k { assert Own(pre, k) + [] == Own(pre, k); }
    }
  }

  lemma {:induction false} KeyedSame(p: Params, prefix: string, log: seq<Call>, raw: string)
    ensures State(p, Keyed(prefix, log), StoreKey(prefix, raw)) == State(p, log, raw)
    ensures forall i: nat :: AdmittedFrom(Keyed(prefix, log), StoreKey(prefix, raw), i) == AdmittedFrom(log, raw, i)
    decreases |log|
  {
    hide After, StoreKey;
    if log != [] {
      var n := |log| - 1;
      KeyedSame(p, prefix, log[..n], raw);
      KeysApart(prefix, log[n].key, raw);
      assert Keyed(prefix, log)[..n] == Keyed(prefix, log[..n]);
    }
  }

  lemma KeyedWindows(p: Params, prefix: string, log: seq<Call>, raw: string, now: real)
    ensures EveryClockWindowHasRoom(p, Keyed(prefix, log), StoreKey(prefix, raw), now) <==>
      EveryClockWindowHasRoom(p, log, raw, now)
  {
    hide StoreKey, AdmittedFrom;
    var keyed := Keyed(prefix, log);
    KeyedSame(p, prefix, log, raw);
    forall i: nat | i < |log|
      ensures keyed[i].key == StoreKey(prefix, raw) <==> log[i].key == raw
      ensures keyed[i].at == log[i].at
      ensures forall dt :: WindowHasRoom(p, keyed, StoreKey(prefix, raw), i, dt) <==> WindowHasRoom(p, log, raw, i, dt)
    {
      KeysApart(prefix, log[i].key, raw);
    }
  }

  /** What the network does to one script call. */
  datatype Link = Up | Unreachable | ReplyLost

  /**
   * One limiter and the Redis keys it writes. `log` and `clock` are ghost history: every answered
   * call under the key its caller gave, and the latest time seen.
   */
  class RedisTokenBucket {
    const prefix: string
    const p: Params
    var buckets: map<string, Bucket>
    var deadline: map<string, real>
    ghost var log: seq<Call>
    ghost var clock: real

    constructor (prefix: string, p: Params)
      ensures this.prefix == prefix && this.p == p && buckets == map[] && log == [] && Valid()
    {
      this.prefix, this.p := prefix, p;
      buckets, deadline, log, clock := map[], map[], [], 0.0;
      new;
      assert Keyed(prefix, []) == [];
      assert p.Enabled() ==> forall k :: SameFrom(p, None, State(p, [], k), clock);
    }

    function Key(raw: string): (key: string)
      ensures key == StoreKey(prefix, raw)
    {
      if prefix == "" then raw else prefix + ":" + raw
    }

    /** The stored keys are what the logged calls left behind, up to keys dropped on time. */
    ghost predicate Valid()
      reads this
    {
      p.Enabled() ==>
        && var keyed := Keyed(prefix, log);
        && Hidden(p, Store(buckets, keyed), keyed, clock)
        && IsRun(p, keyed) && Ordered(keyed)
        && deadline.Keys == buckets.Keys
        && (forall k :: k in buckets ==> deadline[k] == buckets[k].last + p.Ttl() as real)
    }

    /** The Lua step: refill, cap, admit, store, and renew the time to live. */
    method RunScript(key: string, now: real, ttl: int) returns (allowed: bool, filled: real)
      modifies this`buckets, this`deadline
      ensures allowed == Admit(p, Lookup(old(buckets), key), now)
      ensures filled == After(p, Lookup(old(buckets), key), now).tokens
      ensures buckets == old(buckets)[key := After(p, Lookup(old(buckets), key), now)]
      ensures deadline == old(deadline)[key := now + ttl as real]
    {
      var tokens, last := p.capacity as real, now;
      if key in buckets { tokens, last := buckets[key].tokens, buckets[key].last; }
      var delta := now - last;
      if delta < 0.0 { delta := 0.0; }
      filled := tokens + Gain(p, delta);
      if filled > p.capacity as real { filled := p.capacity as real; }
      allowed := false;
      if filled >= 1.0 {
        allowed := true;
        filled := filled - 1.0;
      }
      hide Gain;
      buckets := buckets[key := Bucket(filled, now)];
      deadline := deadline[key := now + ttl as real];
    }

    /**
     * Answers one call: admitted or not, and the whole tokens left. When the reply is lost the caller
     * gets an error although the script has run.
     */
    method Allow(rawKey: string, now: real, link: Link) returns (r: Result<(bool, int), string>)
      modifies this
      ensures p.capacity <= 0 || p.rate <= 0.0 ==> r == Ok((true, 0))
      ensures p.Enabled() ==> (r.Err? <==> link != Up)
      ensures !p.Enabled() || link == Unreachable ==>
        buckets == old(buckets) && deadline == old(deadline) && log == old(log) && clock == old(clock)
      ensures p.Enabled() && link != Unreachable ==>
        && var k := StoreKey(prefix, rawKey);
        && log == old(log) + [Call(rawKey, now, Admit(p, Lookup(old(buckets), k), now))]
        && buckets == old(buckets)[k := After(p, Lookup(old(buckets), k), now)]
        && deadline == old(deadline)[k := now + p.Ttl() as real]
      ensures p.Enabled() && r.Ok? ==>
        && r.value.0 == log[|log| - 1].admitted
        && r.value.1 == buckets[StoreKey(prefix, rawKey)].tokens.Floor
      ensures old(Valid()) && now >= old(clock) ==> Valid()
      ensures p.Enabled() && link != Unreachable && old(Valid()) && now >= old(clock) ==>
        && (log[|log| - 1].admitted <==> EveryClockWindowHasRoom(p, old(log), rawKey, now))
        && log[|log| - 1].admitted == Admit(p, State(p, Own(old(log), rawKey), rawKey), now)
    {
      hide Gain, Filled, Admit, After, Hidden, IsRun, Ordered, EveryClockWindowHasRoom, StoreKey, State, Own;
      if p.capacity <= 0 || p.rate <= 0.0 { return Ok((true, 0)); }
      var ttl := (p.capacity as real / p.rate).Floor + 1;
      if link == Unreachable { return Err("redis unreachable"); }
      var key := Key(rawKey);
      ghost var st := Store(buckets, Keyed(prefix, log));
      var allowed, filled := RunScript(key, now, ttl);
      if old(Valid()) && now >= old(clock) {
        CallKeepsRun(p, st, Request(key, now), old(clock));
        KeyedWindows(p, prefix, log, rawKey, now);
        KeyedSame(p, prefix, log, rawKey);
        OtherKeysInvisible(p, log, rawKey);
        KeyedLast(prefix, log, Call(rawKey, now, allowed));
        AfterLast(p, Lookup(st.buckets, key), now);
      }
      log := log + [Call(rawKey, now, allowed)];
      clock := if now > clock then now else clock;
      r := if link == ReplyLost then Err("reply lost") else Ok((allowed, filled.Floor));
      assert old(Valid()) && now >= old(clock) ==>
        Store(buckets, Keyed(prefix, log)) == Serve(p, st, Arrive(Request(key, now)));
    }

    /** Redis drops a key whose time to live has run out. */
    method Expire(key: string, now: real)
      requires p.Enabled()
      requires key in deadline && now >= deadline[key]
      modifies this
      ensures log == old(log) && buckets == old(buckets) - {key} && deadline == old(deadline) - {key}
      ensures old(Valid()) && now >= old(clock) ==> Valid()
    {
      if old(Valid()) && now >= old(clock) {
        ghost var keyed := Keyed(prefix, log);
        HiddenLater(p, Store(buckets, keyed), keyed, clock, now);
        DropKeepsHidden(p, Store(buckets, keyed), keyed, Drop(key, now), now);
      }
      buckets := buckets - {key};
      deadline := deadline - {key};
      clock := if now > clock then now else clock;
    }
  }

  lemma KeyedLast(prefix: string, log: seq<Call>, c: Call)
    ensures Keyed(prefix, log + [c]) == Keyed(prefix, log) + [Call(StoreKey(prefix, c.key), c.at, c.admitted)]
  {}

  lemma AfterLast(p: Params, s: Option<Bucket>, now: real)
    ensures After(p, s, now).last == now
  {}

  lemma HiddenLater(p: Params, st: Store, log: seq<Call>, t: real, t': real)
    requires Hidden(p, st, log, t) && t <= t'
    ensures Hidden(p, st, log, t')
  {
    hide Gain, Filled;
  }

  /** Serving a call from the store extends the undropped run and answers by the windows. */
  lemma CallKeepsRun(p: Params, st: Store, r: Request, t: real)
    requires p.Enabled() && Hidden(p, st, st.log, t) && t <= r.at
    requires IsRun(p, st.log) && Ordered(st.log)
    ensures var st' := Serve(p, st, Arrive(r));
      Hidden(p, st', st'.log, r.at) && IsRun(p, st'.log) && Ordered(st'.log)
    ensures Admit(p, Lookup(st.buckets, r.key), r.at) <==> EveryClockWindowHasRoom(p, st.log, r.key, r.at)
    ensures Admit(p, Lookup(st.buckets, r.key), r.at) == Admit(p, State(p, st.log, r.key), r.at)
  {
    hide Gain, Filled, Admit, After, EveryClockWindowHasRoom;
    var log := st.log;
    HiddenLater(p, st, log, t, r.at);
    assert SameFrom(p, Lookup(st.buckets, r.key), State(p, log, r.key), r.at);
    SameAfterCall(p, Lookup(st.buckets, r.key), State(p, log, r.key), r.at, r.at);
    AdmissionOnOrderedClock(p, log, r.key, r.at);
    ArrivalKeepsHidden(p, st, log, r, r.at);
    RunExtends(p, log, Call(r.key, r.at, Admit(p, State(p, log, r.key), r.at)));
  }

  lemma RunExtends(p: Params, log: seq<Call>, c: Call)
    requires IsRun(p, log) && c.admitted == Admit(p, State(p, log, c.key), c.at)
    ensures IsRun(p, log + [c])
  {
    hide Gain, Filled, Admit, After;
    var all := log + [c];
    forall j | 0 <= j < |all| ensures all[j].admitted == Admit(p, State(p, all[..j], all[j].key), all[j].at) {
      assert all[..j] == log[..j];
      if j == |log| { assert log[..j] == log; }
    }
  }
}
