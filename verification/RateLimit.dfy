/** The per-IP rate limiter: a token bucket for each visitor and a sweep that forgets idle ones. */
module RateLimit {
  /** Tokens per second and bucket size, in exact arithmetic. */
  datatype Limit = Limit(rate: real, burst: nat)

  datatype Bucket = Bucket(tokens: real, last: real)

  datatype Visitor = Visitor(bucket: Bucket, lastSeen: real)

  type Visitors = map<string, Visitor>

  const IDLE := 300.0

  function Min(a: real, b: real): real { if a <= b then a else b }

  /** Tokens that flow in during d seconds; none at a rate that is not positive. */
  function Refill(l: Limit, d: real): real { if l.rate <= 0.0 then 0.0 else l.rate * d }

  lemma RefillAdds(l: Limit, d: real, e: real)
    requires d >= 0.0 && e >= 0.0
    ensures Refill(l, d) >= 0.0 && Refill(l, e) >= 0.0 && Refill(l, 0.0) == 0.0
    ensures Refill(l, d + e) == Refill(l, d) + Refill(l, e)
  {
  }

  /** Tokens in the bucket at t: refilled since the last use, capped at the burst. */
  function Level(l: Limit, b: Bucket, t: real): real { Min(l.burst as real, b.tokens + Refill(l, t - b.last)) }

  function Full(l: Limit, t: real): Bucket { Bucket(l.burst as real, t) }

  /** One token per admitted request; a denied one costs nothing. */
  function Allow(l: Limit, b: Bucket, t: real): (Bucket, bool) {
    if Level(l, b, t) >= 1.0 then (Bucket(Level(l, b, t) - 1.0, t), true) else (b, false)
  }

  function Serve(l: Limit, vs: Visitors, ip: string, t: real): (Visitors, bool) {
    var b := if ip in vs then vs[ip].bucket else Full(l, t);
    var (b', ok) := Allow(l, b, t);
    (vs[ip := Visitor(b', t)], ok)
  }

  function Sweep(vs: Visitors, t: real): Visitors {
    map ip | ip in vs && t - vs[ip].lastSeen <= IDLE :: vs[ip]
  }

  /** What an address has left; an unknown address has a full bucket. */
  function Tokens(l: Limit, vs: Visitors, ip: string, t: real): real {
    if ip in vs then Level(l, vs[ip].bucket, t) else l.burst as real
  }

  ghost predicate Ok(vs: Visitors, now: real) {
    forall ip | ip in vs ::
         var v := vs[ip];
         0.0 <= v.bucket.tokens && v.bucket.last <= v.lastSeen <= now
  }

  lemma LevelLater(l: Limit, b: Bucket, t: real, u: real)
    requires b.last <= t <= u
    ensures Level(l, b, u) == Min(l.burst as real, Level(l, b, t) + Refill(l, u - t))
  {
    hide Refill;
    RefillAdds(l, t - b.last, u - t);
    assert (t - b.last) + (u - t) == u - b.last;
  }

  lemma TokensLater(l: Limit, vs: Visitors, ip: string, t: real, u: real)
    requires Ok(vs, t) && t <= u
    ensures Tokens(l, vs, ip, u) == Min(l.burst as real, Tokens(l, vs, ip, t) + Refill(l, u - t))
    ensures 0.0 <= Tokens(l, vs, ip, t) <= l.burst as real
  {
    hide Refill;
    RefillAdds(l, u - t, 0.0);
    if ip in vs {
      LevelLater(l, vs[ip].bucket, t, u);
      RefillAdds(l, t - vs[ip].bucket.last, 0.0);
    }
  }

  /** Serving takes one token from one address exactly when it admits. */
  lemma ServeTokens(l: Limit, vs: Visitors, ip: string, t: real)
    requires Ok(vs, t)
    ensures var (vs', ok) := Serve(l, vs, ip, t);
            && Ok(vs', t) && ok == (Tokens(l, vs, ip, t) >= 1.0)
            && Tokens(l, vs', ip, t) == Tokens(l, vs, ip, t) - (if ok then 1.0 else 0.0)
            && forall o | o != ip :: Tokens(l, vs', o, t) == Tokens(l, vs, o, t)
  {
    hide Refill;
    TokensLater(l, vs, ip, t, t);
    RefillAdds(l, 0.0, 0.0);
    assert t - t == 0.0;
  }

  /** A visitor idle for longer than the sweep waits has a full bucket, if that time refills one. */
  lemma SweepTokens(l: Limit, vs: Visitors, ip: string, t: real)
    requires Ok(vs, t) && Refill(l, IDLE) >= l.burst as real
    ensures Ok(Sweep(vs, t), t) && Tokens(l, Sweep(vs, t), ip, t) == Tokens(l, vs, ip, t)
  {
    hide Refill;
    if ip in vs && t - vs[ip].lastSeen > IDLE {
      var d := t - vs[ip].bucket.last;
      RefillAdds(l, IDLE, d - IDLE);
      assert IDLE + (d - IDLE) == d;
    }
  }

  datatype Event = Request(ip: string, at: real) | Cleanup(at: real)

  ghost predicate Ordered(evs: seq<Event>, now: real) {
    evs == [] || (now <= evs[0].at && Ordered(evs[1..], evs[0].at))
  }

  function After(l: Limit, vs: Visitors, e: Event, evicting: bool): Visitors {
    if e.Request? then Serve(l, vs, e.ip, e.at).0 else if evicting then Sweep(vs, e.at) else vs
  }

  predicate Admits(l: Limit, vs: Visitors, e: Event) { e.Request? && Serve(l, vs, e.ip, e.at).1 }

  /** The answers to a timed sequence of requests and sweeps. */
  function Answers(l: Limit, vs: Visitors, evs: seq<Event>, evicting: bool): seq<bool>
    decreases |evs|
  {
    if evs == [] then [] else [Admits(l, vs, evs[0])] + Answers(l, After(l, vs, evs[0], evicting), evs[1..], evicting)
  }

  ghost predicate SameTokens(l: Limit, a: Visitors, b: Visitors, t: real) {
    forall ip :: Tokens(l, a, ip, t) == Tokens(l, b, ip, t)
  }

  /** If five idle minutes refill a bucket, forgetting idle visitors changes no answer. */
  lemma {:induction false} EvictionInvisible(l: Limit, a: Visitors, b: Visitors, evs: seq<Event>, now: real)
    requires Ok(a, now) && Ok(b, now) && SameTokens(l, a, b, now) && Ordered(evs, now)
    requires Refill(l, IDLE) >= l.burst as real
    ensures Answers(l, a, evs, true) == Answers(l, b, evs, false)
    decreases |evs|
  {
    hide Refill, Serve, Sweep, Tokens;
    if evs != [] {
      var e := evs[0];
      forall ip ensures Tokens(l, a, ip, e.at) == Tokens(l, b, ip, e.at) {
        TokensLater(l, a, ip, now, e.at);
        TokensLater(l, b, ip, now, e.at);
      }
      if e.Request? {
        ServeTokens(l, a, e.ip, e.at);
        ServeTokens(l, b, e.ip, e.at);
      } else {
        forall ip ensures Ok(Sweep(a, e.at), e.at) && Tokens(l, Sweep(a, e.at), ip, e.at) == Tokens(l, a, ip, e.at) {
          SweepTokens(l, a, ip, e.at);
        }
        SweepTokens(l, a, "", e.at);
      }
      EvictionInvisible(l, After(l, a, e, true), After(l, b, e, false), evs[1..], e.at);
    }
  }

  /** Requests of one address admitted within [s, t]. */
  function Admitted(l: Limit, vs: Visitors, evs: seq<Event>, evicting: bool, ip: string, s: real, t: real): nat
    decreases |evs|
  {
    if evs == [] then 0
    else
      (if Admits(l, vs, evs[0]) && evs[0].ip == ip && s <= evs[0].at <= t then 1 else 0) +
      Admitted(l, After(l, vs, evs[0], evicting), evs[1..], evicting, ip, s, t)
  }

  lemma StepTokens(l: Limit, vs: Visitors, e: Event, evicting: bool, ip: string, now: real)
    requires Ok(vs, now) && now <= e.at && (evicting ==> Refill(l, IDLE) >= l.burst as real)
    ensures Ok(After(l, vs, e, evicting), e.at)
    ensures Tokens(l, After(l, vs, e, evicting), ip, e.at) + (if Admits(l, vs, e) && e.ip == ip then 1.0 else 0.0)
              == Tokens(l, vs, ip, e.at)
  {
    hide Refill, Serve;
    if e.Request? {
      ServeTokens(l, vs, e.ip, e.at);
    } else if evicting {
      SweepTokens(l, vs, ip, e.at);
    }
  }

  lemma {:induction false} AdmittedFrom(l: Limit, vs: Visitors, evs: seq<Event>, evicting: bool, ip: string, s: real, t: real, now: real)
    requires Ok(vs, now) && Ordered(evs, now) && (evicting ==> Refill(l, IDLE) >= l.burst as real) && now <= t
    ensures Admitted(l, vs, evs, evicting, ip, s, t) as real <= Tokens(l, vs, ip, now) + Refill(l, t - now)
    decreases |evs|
  {
    hide Refill, Admits, After, Tokens;
    TokensLater(l, vs, ip, now, t);
    RefillAdds(l, t - now, 0.0);
    if evs != [] {
      var e := evs[0];
      if e.at <= t {
        TokensLater(l, vs, ip, now, e.at);
        StepTokens(l, vs, e, evicting, ip, now);
        AdmittedFrom(l, After(l, vs, e, evicting), evs[1..], evicting, ip, s, t, e.at);
        RefillAdds(l, t - e.at, e.at - now);
        assert (t - e.at) + (e.at - now) == t - now;
      } else {
        NoneAfter(l, vs, evs, evicting, ip, s, t, now);
      }
    }
  }

  lemma {:induction false} NoneAfter(l: Limit, vs: Visitors, evs: seq<Event>, evicting: bool, ip: string, s: real, t: real, now: real)
    requires Ordered(evs, now) && (evs != [] ==> t < evs[0].at)
    ensures Admitted(l, vs, evs, evicting, ip, s, t) == 0
    decreases |evs|
  {
    if evs != [] { NoneAfter(l, After(l, vs, evs[0], evicting), evs[1..], evicting, ip, s, t, evs[0].at); }
  }

  /** Any address is admitted at most burst + rate * (t - s) times in any interval [s, t]. */
  lemma {:induction false} AdmissionBound(l: Limit, vs: Visitors, evs: seq<Event>, evicting: bool, ip: string, s: real, t: real, now: real)
    requires Ok(vs, now) && Ordered(evs, now) && (evicting ==> Refill(l, IDLE) >= l.burst as real) && s <= t
    ensures Admitted(l, vs, evs, evicting, ip, s, t) as real <= l.burst as real + Refill(l, t - s)
    decreases |evs|
  {
    hide Refill, Admits, After, Tokens;
    RefillAdds(l, t - s, 0.0);
    if evs != [] {
      var e := evs[0];
      if e.at < s {
        StepTokens(l, vs, e, evicting, ip, now);
        AdmissionBound(l, After(l, vs, e, evicting), evs[1..], evicting, ip, s, t, e.at);
      } else if e.at <= t {
        TokensLater(l, vs, ip, now, e.at);
        TokensLater(l, vs, ip, e.at, e.at);
        AdmittedFrom(l, vs, evs, evicting, ip, s, t, e.at);
        RefillAdds(l, t - e.at, e.at - s);
        assert (t - e.at) + (e.at - s) == t - s;
      } else {
        NoneAfter(l, vs, evs, evicting, ip, s, t, now);
      }
    }
  }

  /** n requests of one address at one instant. */
  function Repeat(ip: string, at: real, n: nat): (r: seq<Event>)
    ensures |r| == n
  {
    if n == 0 then [] else [Request(ip, at)] + Repeat(ip, at, n - 1)
  }

  function Served(l: Limit, vs: Visitors, ip: string, at: real, n: nat): Visitors
    decreases n
  {
    if n == 0 then vs else Served(l, Serve(l, vs, ip, at).0, ip, at, n - 1)
  }

  lemma {:induction false} RepeatOrdered(ip: string, at: real, n: nat, tail: seq<Event>, now: real)
    requires now <= at && Ordered(tail, at)
    ensures Ordered(Repeat(ip, at, n) + tail, now)
  {
    if n == 0 {
      assert Repeat(ip, at, n) + tail == tail;
    } else {
      RepeatOrdered(ip, at, n - 1, tail, at);
      assert (Repeat(ip, at, n) + tail)[1..] == Repeat(ip, at, n - 1) + tail;
    }
  }

  /** A bucket with n tokens admits n requests at once. */
  lemma {:induction false} BurstAdmitted(l: Limit, vs: Visitors, ip: string, at: real, n: nat, tail: seq<Event>, evicting: bool, s: real, t: real)
    requires Ok(vs, at) && Tokens(l, vs, ip, at) >= n as real && s <= at <= t
    ensures Admitted(l, vs, Repeat(ip, at, n) + tail, evicting, ip, s, t) ==
              n + Admitted(l, Served(l, vs, ip, at, n), tail, evicting, ip, s, t)
    ensures Ok(Served(l, vs, ip, at, n), at)
    decreases n
  {
    hide Tokens, Refill, Serve;
    if n == 0 {
      assert Repeat(ip, at, n) + tail == tail;
    } else {
      ServeTokens(l, vs, ip, at);
      BurstAdmitted(l, Serve(l, vs, ip, at).0, ip, at, n - 1, tail, evicting, s, t);
      assert (Repeat(ip, at, n) + tail)[1..] == Repeat(ip, at, n - 1) + tail;
    }
  }

  lemma {:induction false} ServedKeys(l: Limit, vs: Visitors, ip: string, at: real, n: nat)
    requires forall o | o in vs :: o == ip && vs[o].lastSeen == at
    ensures forall o | o in Served(l, vs, ip, at, n) :: o == ip && Served(l, vs, ip, at, n)[o].lastSeen == at
    decreases n
  {
    if n > 0 { ServedKeys(l, Serve(l, vs, ip, at).0, ip, at, n - 1); }
  }

  lemma {:induction false} AdmittedByAnswers(l: Limit, a: Visitors, b: Visitors, evs: seq<Event>, x: bool, y: bool, ip: string, s: real, t: real)
    requires Answers(l, a, evs, x) == Answers(l, b, evs, y)
    ensures Admitted(l, a, evs, x, ip, s, t) == Admitted(l, b, evs, y, ip, s, t)
    decreases |evs|
  {
    hide Serve;
    if evs != [] {
      assert Answers(l, a, evs, x)[0] == Answers(l, b, evs, y)[0];
      assert Answers(l, a, evs, x)[1..] == Answers(l, b, evs, y)[1..];
      AdmittedByAnswers(l, After(l, a, evs[0], x), After(l, b, evs[0], y), evs[1..], x, y, ip, s, t);
    }
  }

  /** Spend a burst, wait just past the sweep, spend another. */
  function TwoBursts(n: nat, later: real): seq<Event> {
    Repeat("ip", 0.0, n) + ([Cleanup(later)] + Repeat("ip", later, n))
  }

  lemma TwoBurstsAdmitted(l: Limit, later: real)
    requires later > IDLE
    ensures Ordered(TwoBursts(l.burst, later), 0.0)
    ensures Admitted(l, map[], TwoBursts(l.burst, later), true, "ip", 0.0, later) == 2 * l.burst
  {
    hide Refill, Serve;
    var n, tail := l.burst, [Cleanup(later)] + Repeat("ip", later, l.burst);
    assert tail[1..] == Repeat("ip", later, n) == Repeat("ip", later, n) + [];
    RepeatOrdered("ip", later, n, [], later);
    RepeatOrdered("ip", 0.0, n, tail, 0.0);
    BurstAdmitted(l, map[], "ip", 0.0, n, tail, true, 0.0, later);
    ServedKeys(l, map[], "ip", 0.0, n);
    var vs := Served(l, map[], "ip", 0.0, n);
    assert Sweep(vs, later) == map[];
    BurstAdmitted(l, map[], "ip", later, n, [], true, 0.0, later);
  }

  /** Eviction is invisible in every run exactly when five idle minutes refill a bucket. */
  lemma EvictionInvisibleIff(l: Limit)
    ensures (forall evs | Ordered(evs, 0.0) :: Answers(l, map[], evs, true) == Answers(l, map[], evs, false))
              <==> Refill(l, IDLE) >= l.burst as real
  {
    if Refill(l, IDLE) >= l.burst as real {
      forall evs | Ordered(evs, 0.0) ensures Answers(l, map[], evs, true) == Answers(l, map[], evs, false) {
        EvictionInvisible(l, map[], map[], evs, 0.0);
      }
    } else {
      var later := JustPastIdle(l);
      var evs := TwoBursts(l.burst, later);
      TwoBurstsAdmitted(l, later);
      AdmissionBound(l, map[], evs, false, "ip", 0.0, later, 0.0);
      if Answers(l, map[], evs, true) == Answers(l, map[], evs, false) {
        AdmittedByAnswers(l, map[], map[], evs, true, false, "ip", 0.0, later);
      }
    }
  }

  lemma JustPastIdle(l: Limit) returns (later: real)
    requires Refill(l, IDLE) < l.burst as real
    ensures later > IDLE && Refill(l, later - 0.0) < l.burst as real
  {
    if l.rate <= 0.0 { return IDLE + 1.0; }
    var slack := (l.burst as real - l.rate * IDLE) / (2.0 * l.rate);
    assert slack * l.rate == (l.burst as real - l.rate * IDLE) / 2.0;
    later := IDLE + slack;
    assert l.rate * later == l.rate * IDLE + slack * l.rate;
  }

  function Ceil(x: real): int { -((-x).Floor) }

  /** Retry-After: whole seconds until one token is there. */
  function RetryAfter(l: Limit, level: real): int {
    if l.rate <= 0.0 then 1
    else if 1.0 - level <= 0.0 then 0
    else Ceil((1.0 - level) / l.rate)
  }

  function Remaining(level: real): int { if level.Floor < 0 then 0 else level.Floor }

  /** X-RateLimit-Reset as an offset: whole seconds until the bucket is full. */
  function ResetSeconds(l: Limit, level: real): int {
    if l.rate > 0.0 && l.burst as real - level > 0.0 then Ceil((l.burst as real - level) / l.rate) else 0
  }

  /** The rounded-up quotient is the least whole number of seconds whose refill covers the deficit. */
  lemma CeilIsLeast(l: Limit, deficit: real, k: int)
    requires l.rate > 0.0
    ensures Refill(l, k as real) >= deficit <==> k >= Ceil(deficit / l.rate)
  {
    var q := deficit / l.rate;
    assert q * l.rate == deficit;
    if k >= Ceil(q) {
      assert k as real >= q;
      assert (k as real - q) * l.rate >= 0.0;
    } else {
      assert k as real < q;
      assert (q - k as real) * l.rate > 0.0;
    }
  }

  /** After a denial, waiting Retry-After seconds with no other admitted request guarantees admission,
      and no smaller whole number of seconds does. */
  lemma RetryAfterExact(l: Limit, b: Bucket, t: real, k: nat)
    requires l.rate > 0.0 && l.burst >= 1 && b.last <= t && !Allow(l, b, t).1
    ensures RetryAfter(l, Level(l, b, t)) >= 1
    ensures Allow(l, b, t + k as real).1 <==> k >= RetryAfter(l, Level(l, b, t))
  {
    var level := Level(l, b, t);
    LevelLater(l, b, t, t + k as real);
    CeilIsLeast(l, 1.0 - level, k);
    CeilIsLeast(l, 1.0 - level, 0);
    assert t + k as real - t == k as real;
  }

  /** The advertised remainder is how many requests the address could make at once: of n, that many pass. */
  lemma {:induction false} RemainingExact(l: Limit, vs: Visitors, ip: string, t: real, n: nat)
    requires Ok(vs, t)
    ensures var remaining := Remaining(Tokens(l, vs, ip, t));
            Admitted(l, vs, Repeat(ip, t, n), false, ip, t, t) == if n <= remaining then n else remaining
    decreases n
  {
    hide Tokens, Refill, Serve;
    TokensLater(l, vs, ip, t, t);
    if n > 0 {
      ServeTokens(l, vs, ip, t);
      assert Repeat(ip, t, n)[1..] == Repeat(ip, t, n - 1);
      RemainingExact(l, Serve(l, vs, ip, t).0, ip, t, n - 1);
    }
  }

  predicate AllowedAfter(l: Limit, b: Bucket, t: real, seconds: nat) { Allow(l, b, t + seconds as real).1 }

  /** A denied caller can ever be admitted by waiting exactly when tokens flow in and the bucket can hold one. */
  lemma RetryHelpsIff(l: Limit, b: Bucket, t: real)
    requires b.last <= t && !Allow(l, b, t).1
    ensures (exists k: nat :: AllowedAfter(l, b, t, k)) <==> l.rate > 0.0 && l.burst >= 1
  {
    if l.rate > 0.0 && l.burst >= 1 {
      var k := RetryAfter(l, Level(l, b, t));
      RetryAfterExact(l, b, t, 0);
      RetryAfterExact(l, b, t, k);
      assert AllowedAfter(l, b, t, k);
    }
  }

  /** The advertised reset is the first whole second at which the bucket is full, and a positive
      advertised remainder is a promise of admission. */
  lemma HeadersExact(l: Limit, b: Bucket, t: real, k: nat)
    requires b.last <= t
    ensures l.rate > 0.0 ==> (Level(l, b, t + k as real) == l.burst as real <==> k >= ResetSeconds(l, Level(l, b, t)))
    ensures Remaining(Level(l, b, t)) >= 1 <==> Allow(l, b, t).1
  {
    var level := Level(l, b, t);
    LevelLater(l, b, t, t + k as real);
    if l.rate > 0.0 { CeilIsLeast(l, l.burst as real - level, k); }
    assert t + k as real - t == k as real;
  }

  datatype Response = Response(admitted: bool, remaining: int, reset: int, retryAfter: int)

  class RateLimiter {
    const limit: Limit
    var visitors: Visitors

    constructor (limit: Limit)
      ensures this.limit == limit && visitors == map[]
    {
      this.limit := limit;
      visitors := map[];
    }

    method GetLimiter(ip: string, now: real) returns (b: Bucket)
      modifies this
      ensures ip in visitors && visitors[ip] == Visitor(b, now)
      ensures b == if ip in old(visitors) then old(visitors)[ip].bucket else Full(limit, now)
      ensures visitors == old(visitors)[ip := Visitor(b, now)]
    {
      if ip !in visitors {
        visitors := visitors[ip := Visitor(Full(limit, now), now)];
      } else {
        visitors := visitors[ip := visitors[ip].(lastSeen := now)];
      }
      b := visitors[ip].bucket;
    }

    /** One request: the headers, then the token. */
    method Handle(ip: string, now: real) returns (r: Response)
      requires Ok(visitors, now)
      modifies this
      ensures Ok(visitors, now)
      ensures (visitors, r.admitted) == Serve(limit, old(visitors), ip, now)
      ensures r.remaining >= 1 <==> r.admitted
      ensures forall n: nat :: Admitted(limit, old(visitors), Repeat(ip, now, n), false, ip, now, now) ==
                               if n <= r.remaining then n else r.remaining
      ensures !r.admitted ==> r.retryAfter == RetryAfter(limit, Tokens(limit, old(visitors), ip, now))
      ensures r.reset == ResetSeconds(limit, Tokens(limit, old(visitors), ip, now))
    {
      ServeTokens(limit, visitors, ip, now);
      var b := GetLimiter(ip, now);
      var tokens := Level(limit, b, now);
      HeadersExact(limit, b, now, 0);
      forall n: nat ensures Admitted(limit, visitors, Repeat(ip, now, n), false, ip, now, now) ==
                            if n <= Remaining(tokens) then n else Remaining(tokens)
      {
        RemainingExact(limit, visitors, ip, now, n);
      }
      var (b', ok) := Allow(limit, b, now);
      visitors := visitors[ip := Visitor(b', now)];
      assert visitors == old(visitors)[ip := Visitor(b', now)];
      r := Response(ok, Remaining(tokens), ResetSeconds(limit, tokens), if ok then 0 else RetryAfter(limit, Level(limit, b', now)));
    }

    /** One tick of the background sweep. */
    method Cleanup(now: real)
      modifies this
      ensures visitors == Sweep(old(visitors), now)
    {
      var todo := visitors.Keys;
      while todo != {}
        invariant todo <= visitors.Keys <= old(visitors).Keys
        invariant forall ip | ip in visitors :: visitors[ip] == old(visitors)[ip]
        invariant forall ip | ip in old(visitors) && ip !in todo ::
                    ip in visitors <==> now - old(visitors)[ip].lastSeen <= IDLE
        decreases |todo|
      {
        var ip :| ip in todo;
        if now - visitors[ip].lastSeen > IDLE {
          visitors := visitors - {ip};
        }
        todo := todo - {ip};
      }
    }
  }
}
