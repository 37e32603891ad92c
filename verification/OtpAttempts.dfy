/** Guessing a one-time code: however a run goes, one issued code is compared with a bounded
    number of submissions, because its attempt counter outlives it and is cleared only once
    the code itself is gone. */
module OtpAttempts {
  import opened Base
  import opened KeyValue
  import opened Keys
  import opened Accounts
  import opened AuthSpec
  import Users

  /** The event stored a new code for the address. */
  predicate Issues(e: Event, email: string) {
    e.op.SendOTPOp? && e.op.email == email && e.out == Done
  }

  /** The event compared its submission with the stored code. */
  predicate Compares(e: Event, email: string) {
    e.op.VerifyOTPOp? && e.op.email == email && (e.out == Done || e.out == Rejected(CodeWrong))
  }

  /** Comparisons made with the code issued last. */
  function Comparisons(tr: seq<Event>, email: string): nat {
    if tr == [] then 0
    else
      var n := |tr| - 1;
      if Issues(tr[n], email) then 0
      else Comparisons(tr[..n], email) + if Compares(tr[n], email) then 1 else 0
  }

  /** While the code is live its counter, if any, counts every comparison and expires no earlier. */
  ghost predicate OtpInv(c: Config, kv: Store, now: Time, email: string, k: nat) {
    var code, counter := UserOTP(email), OTPAttempts(email);
    && (counter in kv ==> kv[counter].value.Count? && kv[counter].deadline.Some?)
    && (code in kv ==> kv[code].deadline.Some? && kv[code].deadline.value <= now + c.setTTL)
    && (Live(kv, now, code) ==>
          if counter in kv then k <= kv[counter].value.count && kv[code].deadline.value <= kv[counter].deadline.value
          else k == 0)
    && (k > 0 ==> k <= c.otpMax)
  }

  lemma SendKeepsOtp(c: Config, w: World, last: Time, now: Time, email: string, code: string, mailed: bool, k: nat)
    requires 0 < c.setTTL <= c.otpTTL && last <= now && OtpInv(c, w.kv, last, email, k)
    ensures var (w', out) := SendOTP(c, w, now, email, code, mailed);
            OtpInv(c, w'.kv, now, email, if out == Done then 0 else k)
  {
  }

  lemma VerifyKeepsOtp(c: Config, w: World, last: Time, now: Time, email: string, code: string, k: nat)
    requires 0 < c.setTTL <= c.otpTTL && last <= now && OtpInv(c, w.kv, last, email, k)
    ensures var (w', out) := VerifyOTP(c, w, now, email, code);
            OtpInv(c, w'.kv, now, email, if out == Done || out == Rejected(CodeWrong) then k + 1 else k)
  {
  }

  function LastTime(tr: seq<Event>, first: Time): Time { if tr == [] then first else tr[|tr| - 1].now }

  lemma {:induction false} TraceOtp(c: Config, tr: seq<Event>, email: string, now: Time)
    requires IsTrace(c, tr) && 0 < c.setTTL <= c.otpTTL
    requires LastTime(tr, now) <= now
    ensures OtpInv(c, After(c, tr).kv, now, email, Comparisons(tr, email))
  {
    hide SendOTP, VerifyOTP;
    if tr != [] {
      var n := |tr| - 1;
      var e, w := tr[n], After(c, tr[..n]);
      TraceOtp(c, tr[..n], email, e.now);
      if e.op.SendOTPOp? && e.op.email == email {
        SendKeepsOtp(c, w, e.now, e.now, email, e.op.code, e.op.mailed, Comparisons(tr[..n], email));
      } else if e.op.VerifyOTPOp? && e.op.email == email {
        VerifyKeepsOtp(c, w, e.now, e.now, email, e.op.code, Comparisons(tr[..n], email));
      } else {
        StepFrame(c, w, e.now, e.op, UserOTP(email));
        StepFrame(c, w, e.now, e.op, OTPAttempts(email));
      }
    }
  }

  /** In every run each issued code is compared with at most otpMax submissions over its whole life,
      provided the counter's lifetime is no shorter than the code's. */
  lemma ComparisonsBounded(c: Config, tr: seq<Event>, email: string)
    requires IsTrace(c, tr) && 0 < c.setTTL <= c.otpTTL
    ensures Comparisons(tr, email) <= if c.otpMax > 0 then c.otpMax else 0
  {
    TraceOtp(c, tr, email, LastTime(tr, 0));
  }

  const EMAIL := "u@x"

  /** An account awaits its code, which was sent at instant 0 and guessed k times at that instant. */
  ghost predicate Primed(c: Config, w: World, k: nat) {
    var code, counter := UserOTP(EMAIL), OTPAttempts(EMAIL);
    && FindByEmail(w.rows, EMAIL).Some? && !FindByEmail(w.rows, EMAIL).value.active
    && code in w.kv && w.kv[code] == Entry(Text("1"), if c.setTTL > 0 then Some(c.setTTL) else None)
    && (counter in w.kv <==> k > 0 && c.otpTTL > 0)
    && (counter in w.kv ==> w.kv[counter] == Entry(Count(k), Some(c.otpTTL)))
  }

  lemma ObserveComparisons(c: Config, tr: seq<Event>, now: Time, op: Op)
    requires IsTrace(c, tr) && (tr != [] ==> tr[|tr| - 1].now <= now)
    ensures IsTrace(c, Observe(c, tr, now, op)) && After(c, Observe(c, tr, now, op)) == Step(c, After(c, tr), now, op).0
    ensures Comparisons(Observe(c, tr, now, op), EMAIL) ==
              var e := Event(now, op, Step(c, After(c, tr), now, op).1);
              if Issues(e, EMAIL) then 0 else Comparisons(tr, EMAIL) + if Compares(e, EMAIL) then 1 else 0
  {
    hide Step;
    ObserveIsTrace(c, tr, now, op);
  }

  lemma PrimedRegister(c: Config, op: Op)
    requires op == RegisterOp(Users.Registration("u", EMAIL, "p", 2), "id", 0, true)
    ensures var w := Step(c, EMPTY, 0, op).0;
            w.kv == map[] && FindByEmail(w.rows, EMAIL).Some? &&
            !FindByEmail(w.rows, EMAIL).value.active && FindByEmail(w.rows, EMAIL).value.id == "id"
  {
    assert NormalizeEmail(EMAIL) == EMAIL;
    assert Step(c, EMPTY, 0, op).0.rows.Keys == {"id"};
  }

  lemma PrimedSend(c: Config, w: World, op: Op)
    requires op == SendOTPOp(EMAIL, "1", true) && w.kv == map[]
    requires FindByEmail(w.rows, EMAIL).Some? && !FindByEmail(w.rows, EMAIL).value.active
    ensures var (w', out) := Step(c, w, 0, op);
            out == Done && w'.rows == w.rows && Primed(c, w', 0) && LoginAttempts(EMAIL) !in w'.kv
  {
  }

  /** Register the account and send its code. */
  lemma {:induction false} PrimedRun(c: Config) returns (tr: seq<Event>)
    ensures IsTrace(c, tr) && |tr| == 2 && tr[1].now == 0 && Comparisons(tr, EMAIL) == 0 && Primed(c, After(c, tr), 0)
    ensures FindByEmail(After(c, tr).rows, EMAIL).value.id == "id" && LoginAttempts(EMAIL) !in After(c, tr).kv
  {
    var register := RegisterOp(Users.Registration("u", EMAIL, "p", 2), "id", 0, true);
    var send := SendOTPOp(EMAIL, "1", true);
    hide Step;
    PrimedRegister(c, register);
    ObserveComparisons(c, [], 0, register);
    var one := Observe(c, [], 0, register);
    PrimedSend(c, After(c, one), send);
    ObserveComparisons(c, one, 0, send);
    tr := Observe(c, one, 0, send);
  }

  /** A wrong guess is compared whenever the code is live and its counter is absent or below the limit. */
  lemma WrongGuess(c: Config, w: World, k: nat, now: Time)
    requires Primed(c, w, k) && 1 <= c.otpMax && 0 <= now && (c.setTTL > 0 ==> now < c.setTTL)
    requires c.otpTTL > 0 ==> k < c.otpMax || c.otpTTL <= now
    ensures var (w', out) := Step(c, w, now, VerifyOTPOp(EMAIL, "0"));
            out == Rejected(CodeWrong) && (now == 0 ==> Primed(c, w', k + 1))
  {
  }

  lemma {:induction false} GuessedRun(c: Config, k: nat) returns (tr: seq<Event>)
    requires 1 <= c.otpMax && k <= c.otpMax
    ensures IsTrace(c, tr) && |tr| >= 2 && tr[|tr| - 1].now == 0
    ensures Comparisons(tr, EMAIL) == k && Primed(c, After(c, tr), k)
  {
    if k == 0 {
      tr := PrimedRun(c);
    } else {
      hide Step;
      tr := GuessedRun(c, k - 1);
      WrongGuess(c, After(c, tr), k - 1, 0);
      ObserveComparisons(c, tr, 0, VerifyOTPOp(EMAIL, "0"));
      tr := Observe(c, tr, 0, VerifyOTPOp(EMAIL, "0"));
    }
  }

  /** The bound holds in every run exactly when codes expire, and no later than their counters. */
  lemma ComparisonsBoundedIff(c: Config)
    requires 1 <= c.otpMax
    ensures (forall tr, email | IsTrace(c, tr) :: Comparisons(tr, email) <= c.otpMax) <==> 0 < c.setTTL <= c.otpTTL
  {
    if 0 < c.setTTL <= c.otpTTL {
      forall tr, email | IsTrace(c, tr) ensures Comparisons(tr, email) <= c.otpMax { ComparisonsBounded(c, tr, email); }
    } else {
      hide Step;
      var tr := GuessedRun(c, c.otpMax);
      var late := if c.otpTTL > 0 then c.otpTTL else 0;
      WrongGuess(c, After(c, tr), c.otpMax, late);
      ObserveComparisons(c, tr, late, VerifyOTPOp(EMAIL, "0"));
    }
  }
}
