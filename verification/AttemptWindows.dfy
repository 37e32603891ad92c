/** The per-address attempt windows of Login and ForgotPassword. */
module AttemptWindows {
  import opened Base
  import opened KeyValue
  import opened Keys
  import opened AuthSpec

  datatype Guard = LoginGuard(email: string) | ForgotGuard(email: string)

  function GuardKey(g: Guard): Key { if g.LoginGuard? then LoginAttempts(g.email) else ForgotAttempts(g.email) }
  function Max(c: Config, g: Guard): int { if g.LoginGuard? then c.loginMax else c.forgotMax }
  function TTL(c: Config, g: Guard): Time { if g.LoginGuard? then c.loginTTL else c.forgotTTL }

  predicate Attempts(e: Event, g: Guard) {
    if g.LoginGuard? then e.op.LoginOp? && e.op.email == g.email else e.op.ForgotOp? && e.op.email == g.email
  }

  /** The attempt passed the guard and went on to the user lookup. */
  predicate Admitted(e: Event, g: Guard) { Attempts(e, g) && e.out != Rejected(LockedOut) }

  /** Only a successful login clears its window; ForgotPassword never does. */
  predicate Clears(e: Event, g: Guard) { g.LoginGuard? && Attempts(e, g) && e.out.Granted? }

  /** Admitted attempts in [lo, hi). */
  function AdmittedIn(tr: seq<Event>, g: Guard, lo: Time, hi: Time): nat {
    if tr == [] then 0
    else
      var n := |tr| - 1;
      AdmittedIn(tr[..n], g, lo, hi) + if Admitted(tr[n], g) && lo <= tr[n].now < hi then 1 else 0
  }

  ghost predicate NoClearIn(tr: seq<Event>, g: Guard, lo: Time, hi: Time) {
    forall i | 0 <= i < |tr| && lo <= tr[i].now < hi :: !Clears(tr[i], g)
  }

  function Min(a: int, b: int): int { if a <= b then a else b }

  /** r attempts were admitted since lo. At most one window that began before lo can still matter; its opener
      lies before lo, so it admitted fewer than Max since. The current window admitted what its counter says. */
  ghost predicate WindowInv(c: Config, kv: Store, now: Time, g: Guard, lo: Time, r: nat) {
    var k, max := GuardKey(g), Max(c, g);
    && (k in kv ==> kv[k].value.Count? && kv[k].value.count >= 1 && kv[k].deadline.Some?)
    && (if Live(kv, now, k)
        then r < Min(kv[k].value.count, max) + if kv[k].deadline.value - TTL(c, g) >= lo then max else 0
        else r < max)
  }

  lemma AttemptKeepsWindow(c: Config, w: World, now: Time, op: Op, g: Guard, lo: Time, r: nat)
    requires 0 < TTL(c, g) && 0 < Max(c, g) && now < lo + TTL(c, g)
    requires WindowInv(c, w.kv, now, g, lo, r)
    requires Attempts(Event(now, op, Done), g)
    ensures var (w', out) := Step(c, w, now, op);
            var e := Event(now, op, out);
            !Clears(e, g) ==> lo <= now ==> WindowInv(c, w'.kv, now, g, lo, if Admitted(e, g) then r + 1 else r)
    ensures var w' := Step(c, w, now, op).0;
            r == 0 ==> WindowInv(c, w'.kv, now, g, lo, 0)
  {
    AttemptEffect(c, w, now, op, g);
    hide Step;
  }

  /** An attempt is counted and admitted as the counter says; only a success then clears the counter. */
  lemma AttemptEffect(c: Config, w: World, now: Time, op: Op, g: Guard)
    requires Attempts(Event(now, op, Done), g)
    ensures var (w', out) := Step(c, w, now, op);
            var (kv, admitted) := CountAttempt(w.kv, now, GuardKey(g), Max(c, g), TTL(c, g));
            && (Admitted(Event(now, op, out), g) <==> admitted)
            && (Clears(Event(now, op, out), g) ==> GuardKey(g) !in w'.kv)
            && (!Clears(Event(now, op, out), g) ==> Same(kv, w'.kv, GuardKey(g)))
  {
  }

  lemma {:induction false} NoneBefore(tr: seq<Event>, g: Guard, lo: Time, hi: Time)
    requires Ordered(tr) && (tr != [] ==> tr[|tr| - 1].now < lo)
    ensures AdmittedIn(tr, g, lo, hi) == 0
  {
    if tr != [] { NoneBefore(tr[..|tr| - 1], g, lo, hi); }
  }

  /** Waiting can only end the current window, which then began before lo. */
  lemma WindowLater(c: Config, kv: Store, t: Time, now: Time, g: Guard, lo: Time, r: nat)
    requires WindowInv(c, kv, t, g, lo, r) && t <= now < lo + TTL(c, g) && 0 < Max(c, g)
    ensures WindowInv(c, kv, now, g, lo, r)
  {
  }

  lemma NoClearPrefix(tr: seq<Event>, g: Guard, lo: Time, hi: Time)
    requires tr != [] && NoClearIn(tr, g, lo, hi)
    ensures NoClearIn(tr[..|tr| - 1], g, lo, hi)
    ensures lo <= tr[|tr| - 1].now < hi ==> !Clears(tr[|tr| - 1], g)
  {
  }

  lemma {:induction false} TraceWindow(c: Config, tr: seq<Event>, g: Guard, lo: Time, now: Time)
    requires IsTrace(c, tr) && 0 < TTL(c, g) && 0 < Max(c, g)
    requires (tr != [] ==> tr[|tr| - 1].now <= now) && now < lo + TTL(c, g)
    requires NoClearIn(tr, g, lo, lo + TTL(c, g))
    ensures WindowInv(c, After(c, tr).kv, now, g, lo, AdmittedIn(tr, g, lo, lo + TTL(c, g)))
  {
    hide Step;
    if tr != [] {
      var n, hi := |tr| - 1, lo + TTL(c, g);
      var e, w, pre := tr[n], After(c, tr[..n]), tr[..n];
      var kv', r, r' := After(c, tr).kv, AdmittedIn(pre, g, lo, hi), AdmittedIn(tr, g, lo, hi);
      NoClearPrefix(tr, g, lo, hi);
      TraceWindow(c, pre, g, lo, e.now);
      if Attempts(e, g) {
        if e.now < lo { NoneBefore(pre, g, lo, hi); }
        AttemptKeepsWindow(c, w, e.now, e.op, g, lo, r);
      } else {
        StepFrame(c, w, e.now, e.op, GuardKey(g));
      }
      WindowLater(c, kv', e.now, now, g, lo, r');
    }
  }

  /** In every run, any half-open interval of one window length without a successful login admits
      fewer than twice the limit. For ForgotPassword there is no exception. */
  lemma {:induction false} AdmissionsBounded(c: Config, tr: seq<Event>, g: Guard, lo: Time)
    requires IsTrace(c, tr) && 0 < TTL(c, g) && 0 < Max(c, g)
    requires NoClearIn(tr, g, lo, lo + TTL(c, g))
    ensures AdmittedIn(tr, g, lo, lo + TTL(c, g)) < 2 * Max(c, g)
  {
    if tr != [] {
      var n := |tr| - 1;
      if tr[n].now < lo + TTL(c, g) {
        TraceWindow(c, tr, g, lo, tr[n].now);
      } else {
        NoClearPrefix(tr, g, lo, lo + TTL(c, g));
        AdmissionsBounded(c, tr[..n], g, lo);
      }
    }
  }

  /** Every stored window was opened by an admitted attempt and still ends one length after it,
      however many attempts were rejected since. */
  lemma {:induction false} WindowOpener(c: Config, tr: seq<Event>, g: Guard) returns (j: nat)
    requires IsTrace(c, tr) && 0 < TTL(c, g) && 0 < Max(c, g)
    requires GuardKey(g) in After(c, tr).kv
    ensures j < |tr| && Admitted(tr[j], g)
    ensures After(c, tr).kv[GuardKey(g)].deadline == Some(tr[j].now + TTL(c, g))
  {
    hide Step;
    var n := |tr| - 1;
    var e, w, k := tr[n], After(c, tr[..n]), GuardKey(g);
    if !Attempts(e, g) {
      StepFrame(c, w, e.now, e.op, k);
      j := WindowOpener(c, tr[..n], g);
    } else {
      OpenerStep(c, w, e.now, e.op, g);
      if Running(w.kv, e.now, g) {
        j := WindowOpener(c, tr[..n], g);
      } else {
        j := n;
      }
    }
  }

  predicate Running(kv: Store, now: Time, g: Guard) {
    Live(kv, now, GuardKey(g)) && kv[GuardKey(g)].value != Count(0)
  }

  lemma OpenerStep(c: Config, w: World, now: Time, op: Op, g: Guard)
    requires 0 < TTL(c, g) && 0 < Max(c, g) && Attempts(Event(now, op, Done), g)
    ensures var (w', out) := Step(c, w, now, op);
            GuardKey(g) in w'.kv ==>
              if Running(w.kv, now, g) then w'.kv[GuardKey(g)].deadline == w.kv[GuardKey(g)].deadline
              else w'.kv[GuardKey(g)].deadline == Some(now + TTL(c, g)) && Admitted(Event(now, op, out), g)
    ensures Step(c, w, now, op).1 == Rejected(LockedOut) ==> Running(w.kv, now, g)
  {
  }

  /** A lockout always ends: a rejected attempt falls within one window length of an admitted one. */
  lemma LockoutEnds(c: Config, tr: seq<Event>, g: Guard) returns (j: nat)
    requires IsTrace(c, tr) && 0 < TTL(c, g) && 0 < Max(c, g)
    requires tr != [] && Attempts(tr[|tr| - 1], g) && tr[|tr| - 1].out == Rejected(LockedOut)
    ensures j < |tr| - 1 && Admitted(tr[j], g) && tr[|tr| - 1].now < tr[j].now + TTL(c, g)
  {
    hide Step;
    var n := |tr| - 1;
    OpenerStep(c, After(c, tr[..n]), tr[n].now, tr[n].op, g);
    j := WindowOpener(c, tr[..n], g);
  }

  /** No account exists; the guard's counter stands at n, in a window that ends at the deadline. */
  ghost predicate Counting(w: World, now: Time, g: Guard, n: nat, deadline: Time) {
    && w.rows == map[]
    && if n == 0 then !Live(w.kv, now, GuardKey(g))
       else GuardKey(g) in w.kv && w.kv[GuardKey(g)] == Entry(Count(n), Some(deadline)) && now < deadline
  }

  /** An attempt at an address nobody registered. */
  function Attempt(g: Guard): Op {
    if g.LoginGuard? then LoginOp(g.email, "", "", "") else ForgotOp(g.email, "t", false)
  }

  lemma AttemptCounts(c: Config, w: World, now: Time, g: Guard, n: nat, deadline: Time)
    requires Counting(w, now, g, n, deadline) && n < Max(c, g) && 0 < TTL(c, g)
    ensures var (w', out) := Step(c, w, now, Attempt(g));
            !out.Granted? && out != Rejected(LockedOut) &&
            Counting(w', now, g, n + 1, if n == 0 then now + TTL(c, g) else deadline)
  {
  }

  /** k attempts at one instant, all admitted. */
  lemma {:induction false} AdmitMany(c: Config, tr: seq<Event>, now: Time, g: Guard, n: nat, deadline: Time, k: nat, lo: Time, hi: Time)
    returns (tr': seq<Event>)
    requires IsTrace(c, tr) && (tr != [] ==> tr[|tr| - 1].now <= now) && NoClearIn(tr, g, lo, hi)
    requires Counting(After(c, tr), now, g, n, deadline) && n + k <= Max(c, g) && 0 < TTL(c, g)
    ensures IsTrace(c, tr') && (tr' != [] ==> tr'[|tr'| - 1].now <= now) && NoClearIn(tr', g, lo, hi)
    ensures Counting(After(c, tr'), now, g, n + k, if n == 0 then now + TTL(c, g) else deadline)
    ensures AdmittedIn(tr', g, lo, hi) == AdmittedIn(tr, g, lo, hi) + if lo <= now < hi then k else 0
    decreases k
  {
    hide Step;
    tr' := tr;
    if k > 0 {
      AttemptCounts(c, After(c, tr), now, g, n, deadline);
      ObserveIsTrace(c, tr, now, Attempt(g));
      var next := Observe(c, tr, now, Attempt(g));
      forall i | 0 <= i < |next| && lo <= next[i].now < hi ensures !Clears(next[i], g) {
        if i < |tr| { assert next[i] == tr[i]; }
      }
      tr' := AdmitMany(c, next, now, g, n + 1, if n == 0 then now + TTL(c, g) else deadline, k - 1, lo, hi);
    }
  }

  /** The bound is reached: one attempt opens a window, the rest of it is used at its last instant, and the next
      window is used up one instant later. */
  lemma BoundReached(c: Config, g: Guard) returns (tr: seq<Event>, lo: Time)
    requires 2 <= TTL(c, g) && 0 < Max(c, g)
    ensures IsTrace(c, tr) && NoClearIn(tr, g, lo, lo + TTL(c, g))
    ensures AdmittedIn(tr, g, lo, lo + TTL(c, g)) == 2 * Max(c, g) - 1
  {
    hide Step;
    var ttl, max := TTL(c, g), Max(c, g);
    lo := ttl - 1;
    tr := AdmitMany(c, [], 0, g, 0, 0, 1, lo, lo + ttl);
    tr := AdmitMany(c, tr, ttl - 1, g, 1, ttl, max - 1, lo, lo + ttl);
    tr := AdmitMany(c, tr, ttl, g, 0, 0, max, lo, lo + ttl);
  }
}
