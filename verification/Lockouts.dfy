/** Lockouts when the store's commands fail: the guard ignores a failed EXPIRE, and that can make a lockout last
    forever. */
module Lockouts {
  import opened Base
  import opened KeyValue
  import opened Keys
  import opened AuthSpec
  import opened AuthService
  import AttemptWindows

  /** What reaches one counter: attempts, and the DEL after a successful login. */
  datatype Event = Attempt(at: Time, incr: Fault, expire: Fault) | Clear(at: Time, del: Fault)

  datatype Limit = Limit(k: Key, max: int, ttl: Time)

  ghost predicate Positive(l: Limit) { 0 < l.max && 0 < l.ttl }

  function Step(l: Limit, kv: Store, e: Event): Store {
    match e
    case Attempt(at, incr, expire) => AttemptUnder(kv, at, l.k, l.max, l.ttl, incr, expire).0
    case Clear(_, del) => if del.Lost? then kv else Del(kv, l.k)
  }

  function After(l: Limit, kv: Store, es: seq<Event>): Store {
    if es == [] then kv else var n := |es| - 1; Step(l, After(l, kv, es[..n]), es[n])
  }

  /** The guard turns away the attempt, given that it learns the count. */
  predicate Refuses(l: Limit, kv: Store, at: Time) { !AttemptUnder(kv, at, l.k, l.max, l.ttl, Healthy, Healthy).1 }

  ghost predicate CounterOk(l: Limit, kv: Store) { l.k in kv ==> kv[l.k].value.Count? && kv[l.k].value.count >= 1 }

  /** The event started the counter's present window. */
  predicate Opener(e: Event, kv: Store, l: Limit) { e.Attempt? && !e.incr.Lost? && !Live(kv, e.at, l.k) }

  /** Its INCR was confirmed and the EXPIRE that follows took effect. */
  predicate Timed(e: Event)
    requires e.Attempt?
  {
    e.incr.Healthy? && !e.expire.Lost?
  }

  /** In every run, under any faults, the counter's window was opened by one attempt; it ends one length after that
      attempt if its INCR was confirmed and its EXPIRE not lost, and otherwise never. */
  lemma {:induction false} WindowOf(l: Limit, es: seq<Event>) returns (j: nat)
    requires Positive(l) && l.k in After(l, map[], es)
    ensures CounterOk(l, After(l, map[], es))
    ensures j < |es| && Opener(es[j], After(l, map[], es[..j]), l)
    ensures After(l, map[], es)[l.k].deadline == if Timed(es[j]) then Some(es[j].at + l.ttl) else None
  {
    var n := |es| - 1;
    var e, kv := es[n], After(l, map[], es[..n]);
    if Opener(e, kv, l) {
      j := n;
    } else {
      j := WindowOf(l, es[..n]);
      assert es[..n][..j] == es[..j];
    }
  }

  /** The counter is past the limit and has no deadline. */
  predicate Stuck(l: Limit, kv: Store) {
    l.k in kv && kv[l.k].value.Count? && kv[l.k].value.count >= l.max && kv[l.k].deadline == None
  }

  ghost predicate Attempts(es: seq<Event>, now: Time) { forall i | 0 <= i < |es| :: es[i].Attempt? && now <= es[i].at }

  /** Whatever attempts follow and whatever faults they meet, every attempt whose count is learnt is turned away. */
  ghost predicate LockedForever(l: Limit, kv: Store, now: Time) {
    forall es, at | Attempts(es, now) && now <= at :: Refuses(l, After(l, kv, es), at)
  }

  lemma {:induction false} StaysStuck(l: Limit, kv: Store, es: seq<Event>, now: Time)
    requires Positive(l) && Stuck(l, kv) && Attempts(es, now)
    ensures Stuck(l, After(l, kv, es))
  {
    if es != [] { StaysStuck(l, kv, es[..|es| - 1], now); }
  }

  lemma LockedForeverIff(l: Limit, kv: Store, now: Time)
    requires Positive(l) && CounterOk(l, kv)
    ensures LockedForever(l, kv, now) <==> Stuck(l, kv)
  {
    if Stuck(l, kv) {
      forall es, at | Attempts(es, now) && now <= at ensures Refuses(l, After(l, kv, es), at) { StaysStuck(l, kv, es, now); }
    } else {
      var at := if l.k in kv && kv[l.k].deadline.Some? && now < kv[l.k].deadline.value then kv[l.k].deadline.value else now;
      assert Attempts([], now) && After(l, kv, []) == kv && !Refuses(l, kv, at);
    }
  }

  /** In every run, under any faults, a lockout ends one window length after the attempt that opened its window if
      and only if that attempt's INCR was confirmed and its EXPIRE was not lost; otherwise it lasts forever. */
  lemma LockoutEndsIff(l: Limit, es: seq<Event>, now: Time) returns (j: nat)
    requires Positive(l) && Refuses(l, After(l, map[], es), now)
    ensures j < |es| && Opener(es[j], After(l, map[], es[..j]), l)
    ensures Timed(es[j]) ==> now < es[j].at + l.ttl && !Refuses(l, After(l, map[], es), es[j].at + l.ttl)
    ensures LockedForever(l, After(l, map[], es), now) <==> !Timed(es[j])
  {
    j := WindowOf(l, es);
    LockedForeverIff(l, After(l, map[], es), now);
  }

  /** The opener's EXPIRE is lost; the remaining attempts of the limit meet no fault at all. */
  function LostExpireRun(n: nat): (es: seq<Event>)
    ensures |es| == n
  {
    if n == 0 then [] else if n == 1 then [Attempt(0, Healthy, Lost)] else LostExpireRun(n - 1) + [Attempt(0, Healthy, Healthy)]
  }

  lemma {:induction false} LostExpireCounts(l: Limit, n: nat)
    requires Positive(l) && 1 <= n
    ensures var kv := After(l, map[], LostExpireRun(n)); l.k in kv && kv[l.k] == Entry(Count(n), None)
  {
    var es := LostExpireRun(n);
    if n > 1 {
      LostExpireCounts(l, n - 1);
      assert es[..n - 1] == LostExpireRun(n - 1);
    } else {
      assert es[..0] == [];
    }
  }

  /** One lost EXPIRE is enough: a run that uses up the limit after it locks the address out for good. */
  lemma LostExpireLocksForever(l: Limit, now: Time)
    requires Positive(l)
    ensures LockedForever(l, After(l, map[], LostExpireRun(l.max)), now)
  {
    LostExpireCounts(l, l.max);
    LockedForeverIff(l, After(l, map[], LostExpireRun(l.max)), now);
  }

  function GuardLimit(c: Config, g: AttemptWindows.Guard): Limit {
    Limit(AttemptWindows.GuardKey(g), AttemptWindows.Max(c, g), AttemptWindows.TTL(c, g))
  }

  /** The state after use cases that run without faults from any state. */
  ghost function AfterFrom(c: Config, w: World, ops: seq<(Time, Op)>): World {
    if ops == [] then w else var n := |ops| - 1; AuthSpec.Step(c, AfterFrom(c, w, ops[..n]), ops[n].0, ops[n].1).0
  }

  lemma StuckStep(c: Config, w: World, now: Time, op: Op, g: AttemptWindows.Guard)
    requires Positive(GuardLimit(c, g)) && Stuck(GuardLimit(c, g), w.kv)
    ensures var (w', out) := AuthSpec.Step(c, w, now, op);
            Stuck(GuardLimit(c, g), w'.kv) &&
            (AttemptWindows.Attempts(AuthSpec.Event(now, op, Done), g) ==> out == Rejected(LockedOut))
  {
    if AttemptWindows.Attempts(AuthSpec.Event(now, op, Done), g) {
      AttemptWindows.AttemptEffect(c, w, now, op, g);
      hide AuthSpec.Step;
    } else {
      hide AuthSpec.Step;
      StepFrame(c, w, now, op, AttemptWindows.GuardKey(g));
    }
  }

  /** From such a state no continuation of any use cases, at any instants and without a single further fault, ever
      admits the address again: a password reset does not clear the counter, and only a login would. */
  lemma {:induction false} NeverAdmittedAgain(c: Config, w: World, ops: seq<(Time, Op)>, g: AttemptWindows.Guard, now: Time, op: Op)
    requires Positive(GuardLimit(c, g)) && Stuck(GuardLimit(c, g), w.kv)
    ensures Stuck(GuardLimit(c, g), AfterFrom(c, w, ops).kv)
    ensures AttemptWindows.Attempts(AuthSpec.Event(now, op, Done), g) ==>
              AuthSpec.Step(c, AfterFrom(c, w, ops), now, op).1 == Rejected(LockedOut)
    decreases |ops|
  {
    hide AuthSpec.Step;
    if ops != [] {
      var n := |ops| - 1;
      NeverAdmittedAgain(c, w, ops[..n], g, now, op);
      StuckStep(c, AfterFrom(c, w, ops[..n]), ops[n].0, ops[n].1, g);
    }
    StuckStep(c, AfterFrom(c, w, ops), now, op, g);
  }
}
