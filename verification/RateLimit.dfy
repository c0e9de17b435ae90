/** The two coupled token buckets of internal/mcpsrv/ratelimit.go. Tokens, rates
    and times are reals: rounding is not modelled, and a time is seconds. */
module RateLimit {

  datatype Limits = Limits(toolBurst: int, toolRate: real, burst: int, rate: real)
  datatype Bucket = Bucket(tokens: real, last: real)
  type Buckets = map<string, Bucket>
  datatype Read = Refused(missing: real) | Tokens(tokens: real)
  datatype Call = Call(tool: string, now: real)

  const SHARED: string := ""

  function Min(a: real, b: real): real { if a < b then a else b }

  /** What flows into a bucket between two clock readings. */
  function Poured(from: real, to: real, rate: real): real { (to - from) * rate }

  /** limiter.read. A key without a bucket has a full one that starts now. */
  function ReadBucket(b: Buckets, key: string, capacity: int, refill: real, now: real): Read {
    var bucket := if key in b then b[key] else Bucket(capacity as real, now);
    var tokens := Min(capacity as real, bucket.tokens + Poured(bucket.last, now, refill));
    if tokens < 1.0 then Refused(1.0 - tokens) else Tokens(tokens)
  }

  predicate Allows(l: Limits, b: Buckets, c: Call) {
    && ReadBucket(b, c.tool, l.toolBurst, l.toolRate, c.now).Tokens?
    && ReadBucket(b, SHARED, l.burst, l.rate, c.now).Tokens?
  }

  function After(l: Limits, b: Buckets, c: Call): Buckets {
    if !Allows(l, b, c) then b
    else
      var tool := ReadBucket(b, c.tool, l.toolBurst, l.toolRate, c.now).tokens;
      var shared := ReadBucket(b, SHARED, l.burst, l.rate, c.now).tokens;
      b[c.tool := Bucket(tool - 1.0, c.now)][SHARED := Bucket(shared - 1.0, c.now)]
  }

  class Limiter {
    const lim: Limits
    var b: Buckets

    constructor (l: Limits)
      ensures lim == l && b == map[]
    {
      lim, b := l, map[];
    }

    /** check: both buckets are read before either is charged. */
    method Check(tool: string, now: real) returns (ok: bool)
      modifies this
      ensures ok == Allows(lim, old(b), Call(tool, now))
      ensures b == After(lim, old(b), Call(tool, now))
    {
      var toolTokens := ReadBucket(b, tool, lim.toolBurst, lim.toolRate, now);
      if toolTokens.Refused? { return false; }
      var sharedTokens := ReadBucket(b, SHARED, lim.burst, lim.rate, now);
      if sharedTokens.Refused? { return false; }
      b := b[tool := Bucket(toolTokens.tokens - 1.0, now)];
      b := b[SHARED := Bucket(sharedTokens.tokens - 1.0, now)];
      return true;
    }
  }

  // ---- traces -----------------------------------------------------------------

  function Run(l: Limits, b: Buckets, calls: seq<Call>): Buckets
    decreases |calls|
  {
    if calls == [] then b else Run(l, After(l, b, calls[0]), calls[1..])
  }

  /** The calls of a trace that are accepted, in order. */
  function Accepted(l: Limits, b: Buckets, calls: seq<Call>): seq<Call>
    decreases |calls|
  {
    if calls == [] then []
    else
      var rest := Accepted(l, After(l, b, calls[0]), calls[1..]);
      if Allows(l, b, calls[0]) then [calls[0]] + rest else rest
  }

  /** A call is charged to its tool's bucket and to the shared one. */
  predicate Charges(c: Call, key: string) { c.tool == key || key == SHARED }

  function Capacity(l: Limits, key: string): int { if key == SHARED then l.burst else l.toolBurst }
  function Refill(l: Limits, key: string): real { if key == SHARED then l.rate else l.toolRate }

  /** The calls with a time in the window that are charged to a bucket. */
  function CountIn(calls: seq<Call>, key: string, lo: real, hi: real): nat {
    if calls == [] then 0
    else (if Charges(calls[0], key) && lo <= calls[0].now <= hi then 1 else 0) + CountIn(calls[1..], key, lo, hi)
  }

  /** What a bucket can pay for up to time hi. */
  function Funds(bucket: Bucket, hi: real, rate: real): real {
    bucket.tokens + Poured(bucket.last, hi, rate)
  }

  lemma PouredAdds(a: real, b: real, c: real, rate: real)
    ensures Poured(a, c, rate) == Poured(a, b, rate) + Poured(b, c, rate)
  {
  }

  lemma PouredNonNegative(a: real, b: real, rate: real)
    requires a <= b && rate >= 0.0
    ensures Poured(a, b, rate) >= 0.0
  {
  }

  /** An accepted call costs each bucket it is charged to one of its funds, whenever
      it comes. A call in the window leaves funds that are not negative, and less
      than a full bucket at the start of the window plus what is poured in since. */
  lemma PayingCosts(l: Limits, b: Buckets, c: Call, key: string, lo: real, hi: real)
    requires Allows(l, b, c) && Charges(c, key) && Refill(l, key) >= 0.0
    ensures key in After(l, b, c)
    ensures
      var left := Funds(After(l, b, c)[key], hi, Refill(l, key));
      && (key in b ==> left <= Funds(b[key], hi, Refill(l, key)) - 1.0)
      && (lo <= c.now <= hi ==> 0.0 <= left <= Capacity(l, key) as real + Poured(lo, hi, Refill(l, key)) - 1.0)
  {
    var rate := Refill(l, key);
    PouredAdds(lo, c.now, hi, rate);
    if lo <= c.now <= hi {
      PouredNonNegative(lo, c.now, rate);
      PouredNonNegative(c.now, hi, rate);
    }
    if key in b { PouredAdds(b[key].last, c.now, hi, rate); }
  }

  lemma AcceptedFirst(l: Limits, b: Buckets, calls: seq<Call>, key: string, lo: real, hi: real)
    requires calls != []
    ensures
      var rest := Accepted(l, After(l, b, calls[0]), calls[1..]);
      var counts := Allows(l, b, calls[0]) && Charges(calls[0], key) && lo <= calls[0].now <= hi;
      && Accepted(l, b, calls) == (if Allows(l, b, calls[0]) then [calls[0]] + rest else rest)
      && CountIn(Accepted(l, b, calls), key, lo, hi) == (if counts then 1 else 0) + CountIn(rest, key, lo, hi)
  {
    if Allows(l, b, calls[0]) {
      assert Accepted(l, b, calls)[1..] == Accepted(l, After(l, b, calls[0]), calls[1..]);
    }
  }

  lemma NotCharged(l: Limits, b: Buckets, c: Call, key: string)
    requires !Allows(l, b, c) || !Charges(c, key)
    ensures key in After(l, b, c) <==> key in b
    ensures key in b ==> After(l, b, c)[key] == b[key]
  {
  }

  /** A bucket pays for no more calls of a window than its funds. */
  lemma {:induction false} BucketPays(l: Limits, b: Buckets, calls: seq<Call>, key: string, lo: real, hi: real)
    requires Refill(l, key) >= 0.0 && key in b
    ensures
      var n := CountIn(Accepted(l, b, calls), key, lo, hi);
      n == 0 || n as real <= Funds(b[key], hi, Refill(l, key))
    decreases |calls|
  {
    if calls != [] {
      hide Allows, After, Funds, Charges, Refill;
      AcceptedFirst(l, b, calls, key, lo, hi);
      if Allows(l, b, calls[0]) && Charges(calls[0], key) {
        PayingCosts(l, b, calls[0], key, lo, hi);
      } else {
        NotCharged(l, b, calls[0], key);
      }
      BucketPays(l, After(l, b, calls[0]), calls[1..], key, lo, hi);
    }
  }

  /** Whatever went before (any bucket state), in whatever order the clock readings
      arrive, and whatever calls from outside the window come in between: of the
      calls with a time in a window of length hi - lo at most
      burst + rate * (hi - lo) are accepted. */
  lemma {:induction false} WindowBoundFor(l: Limits, b: Buckets, calls: seq<Call>, key: string, lo: real, hi: real)
    requires Capacity(l, key) >= 0 && Refill(l, key) >= 0.0 && lo <= hi
    ensures
      var n := CountIn(Accepted(l, b, calls), key, lo, hi);
      n as real <= Capacity(l, key) as real + Poured(lo, hi, Refill(l, key))
    decreases |calls|
  {
    PouredNonNegative(lo, hi, Refill(l, key));
    if calls != [] {
      hide Allows, After, Funds, Charges, Refill, Capacity, Poured;
      var c := calls[0];
      AcceptedFirst(l, b, calls, key, lo, hi);
      if Allows(l, b, c) && Charges(c, key) && lo <= c.now <= hi {
        PayingCosts(l, b, c, key, lo, hi);
        BucketPays(l, After(l, b, c), calls[1..], key, lo, hi);
      } else {
        WindowBoundFor(l, After(l, b, c), calls[1..], key, lo, hi);
      }
    }
  }

  /** The same for each tool with a name, and for all calls together. */
  lemma WindowBound(l: Limits, b: Buckets, calls: seq<Call>, lo: real, hi: real)
    requires l.toolBurst >= 0 && l.toolRate >= 0.0 && l.burst >= 0 && l.rate >= 0.0 && lo <= hi
    ensures forall tool | tool != SHARED ::
      CountIn(Accepted(l, b, calls), tool, lo, hi) as real <= l.toolBurst as real + Poured(lo, hi, l.toolRate)
    ensures CountIn(Accepted(l, b, calls), SHARED, lo, hi) as real <= l.burst as real + Poured(lo, hi, l.rate)
  {
    forall key { WindowBoundFor(l, b, calls, key, lo, hi); }
  }

  /** Deleting every refused call from a trace changes no other decision and no
      bucket: a tool at its own limit costs the others nothing. */
  lemma {:induction false} RefusalsLeaveNoTrace(l: Limits, b: Buckets, calls: seq<Call>)
    ensures Run(l, b, Accepted(l, b, calls)) == Run(l, b, calls)
    ensures Accepted(l, b, Accepted(l, b, calls)) == Accepted(l, b, calls)
    decreases |calls|
  {
    if calls != [] {
      var b' := After(l, b, calls[0]);
      RefusalsLeaveNoTrace(l, b', calls[1..]);
      AcceptedFirst(l, b, calls, SHARED, 0.0, 0.0);
      if Allows(l, b, calls[0]) { AcceptedFirst(l, b, Accepted(l, b, calls), SHARED, 0.0, 0.0); }
    }
  }

  /** The bounds are reached: a fresh limiter grants a burst in full. */
  lemma BurstIsGranted(l: Limits, tool: string, now: real, n: nat)
    requires tool != SHARED && n <= l.toolBurst && n <= l.burst
    ensures
      var calls := seq(n, _ => Call(tool, now));
      Accepted(l, map[], calls) == calls
  {
    BurstFrom(l, map[], tool, now, n, l.toolBurst as real, l.burst as real);
  }

  lemma {:induction false} BurstFrom(l: Limits, b: Buckets, tool: string, now: real, n: nat, own: real, shared: real)
    requires tool != SHARED && n as real <= own <= l.toolBurst as real && n as real <= shared <= l.burst as real
    requires (if tool in b then b[tool] else Bucket(l.toolBurst as real, now)) == Bucket(own, now)
    requires (if SHARED in b then b[SHARED] else Bucket(l.burst as real, now)) == Bucket(shared, now)
    ensures
      var calls := seq(n, _ => Call(tool, now));
      Accepted(l, b, calls) == calls
    decreases n
  {
    if n > 0 {
      var calls := seq(n, _ => Call(tool, now));
      assert calls[1..] == seq(n - 1, _ => Call(tool, now));
      assert Poured(now, now, l.toolRate) == 0.0 && Poured(now, now, l.rate) == 0.0;
      assert Allows(l, b, calls[0]);
      AcceptedFirst(l, b, calls, SHARED, now, now);
      BurstFrom(l, After(l, b, calls[0]), tool, now, n - 1, own - 1.0, shared - 1.0);
    }
  }

  // ---- who waits gets through --------------------------------------------------

  lemma FlowsIn(from: real, to: real, rate: real, amount: real)
    requires rate > 0.0
    ensures Poured(from, to, rate) >= amount <==> to >= from + amount / rate
  {
    var wait := amount / rate;
    assert wait * rate == amount;
    if to - from >= wait { assert (to - from - wait) * rate >= 0.0; } else { assert (wait - (to - from)) * rate > 0.0; }
  }

  /** The time a refusal tells to wait is right: as long as nothing else is accepted,
      the bucket gives a token from that time on, and at no earlier one. */
  lemma RetryTimeExact(b: Buckets, key: string, capacity: int, refill: real, now: real, t: real)
    requires refill > 0.0 && capacity >= 1 && ReadBucket(b, key, capacity, refill, now).Refused?
    ensures
      var missing := ReadBucket(b, key, capacity, refill, now).missing;
      missing > 0.0 && (ReadBucket(b, key, capacity, refill, t).Tokens? <==> t >= now + missing / refill)
  {
    assert Poured(now, now, refill) == 0.0;
    if key in b {
      PouredAdds(b[key].last, now, t, refill);
      FlowsIn(now, t, refill, ReadBucket(b, key, capacity, refill, now).missing);
    }
  }

  /** When a bucket gives a token next. */
  predicate ReadyBy(b: Buckets, key: string, refill: real, now: real)
    requires refill > 0.0
  {
    key !in b || now >= b[key].last + (1.0 - b[key].tokens) / refill
  }

  /** A call is accepted exactly when both its buckets have a token by then. */
  lemma AllowsExact(l: Limits, b: Buckets, c: Call)
    requires l.toolBurst >= 1 && l.burst >= 1 && l.toolRate > 0.0 && l.rate > 0.0
    ensures Allows(l, b, c) <==> ReadyBy(b, c.tool, l.toolRate, c.now) && ReadyBy(b, SHARED, l.rate, c.now)
  {
    BucketReady(b, c.tool, l.toolBurst, l.toolRate, c.now);
    BucketReady(b, SHARED, l.burst, l.rate, c.now);
  }

  lemma BucketReady(b: Buckets, key: string, capacity: int, refill: real, now: real)
    requires capacity >= 1 && refill > 0.0
    ensures ReadBucket(b, key, capacity, refill, now).Tokens? <==> ReadyBy(b, key, refill, now)
  {
    assert Poured(now, now, refill) == 0.0;
    if key in b { FlowsIn(b[key].last, now, refill, 1.0 - b[key].tokens); }
  }

  /** A bucket of a run was last charged by an accepted call, and never overdrawn. */
  lemma {:induction false} LastCharge(l: Limits, b: Buckets, calls: seq<Call>, key: string)
    ensures
      var after := Run(l, b, calls);
      key in after ==>
        || (key in b && after[key] == b[key])
        || (after[key].tokens >= 0.0 &&
            exists c :: c in Accepted(l, b, calls) && Charges(c, key) && c.now == after[key].last)
    decreases |calls|
  {
    if calls != [] {
      var c, b' := calls[0], After(l, b, calls[0]);
      LastCharge(l, b', calls[1..], key);
      AcceptedFirst(l, b, calls, key, 0.0, 0.0);
      if Allows(l, b, c) && Charges(c, key) {
        assert b'[key].tokens >= 0.0 && b'[key].last == c.now;
        assert c in Accepted(l, b, calls);
      } else {
        NotCharged(l, b, c, key);
      }
      hide Allows, After, Charges;
    }
  }

  /** Calls that are spaced widely enough all get through: after any calls to a fresh
      limiter, one that comes 1/ToolRate after the accepted calls of its tool and 1/Rate
      after all accepted calls is accepted. */
  lemma SpacedCallsPass(l: Limits, calls: seq<Call>, c: Call)
    requires l.toolBurst >= 1 && l.burst >= 1 && l.toolRate > 0.0 && l.rate > 0.0 && c.tool != SHARED
    requires forall a | a in Accepted(l, map[], calls) && a.tool == c.tool :: c.now >= a.now + 1.0 / l.toolRate
    requires forall a | a in Accepted(l, map[], calls) :: c.now >= a.now + 1.0 / l.rate
    ensures Allows(l, Run(l, map[], calls), c)
  {
    hide Allows, Run, Accepted;
    var b := Run(l, map[], calls);
    AllowsExact(l, b, c);
    LastCharge(l, map[], calls, c.tool);
    LastCharge(l, map[], calls, SHARED);
    if c.tool in b { LessToWait(b[c.tool].tokens, l.toolRate); }
    if SHARED in b { LessToWait(b[SHARED].tokens, l.rate); }
  }

  lemma LessToWait(tokens: real, rate: real)
    requires rate > 0.0 && tokens >= 0.0
    ensures (1.0 - tokens) / rate <= 1.0 / rate
  {
    assert (1.0 - tokens) / rate == 1.0 / rate - tokens / rate;
  }

  /** The per-tool bound does not extend to a tool with the empty name: it is
      charged to the shared bucket, and its own limit never bites. */
  lemma EmptyNameEscapes()
    ensures
      var l := Limits(1, 0.0, 10, 0.0);
      var calls := [Call(SHARED, 0.0), Call(SHARED, 0.0)];
      Accepted(l, map[], calls) == calls && |calls| as real > l.toolBurst as real + Poured(0.0, 0.0, l.toolRate)
  {
    var l := Limits(1, 0.0, 10, 0.0);
    var c := Call(SHARED, 0.0);
    var b1 := After(l, map[], c);
    assert b1 == map[SHARED := Bucket(9.0, 0.0)];
    AcceptedFirst(l, map[], [c, c], SHARED, 0.0, 0.0);
    assert [c, c][1..] == [c];
    AcceptedFirst(l, b1, [c], SHARED, 0.0, 0.0);
  }
}
