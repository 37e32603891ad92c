/** When a one-time code activates its account: from the history of the run alone. */
module CodeLifetimes {
  import opened Base
  import opened KeyValue
  import opened Keys
  import opened Accounts
  import opened AuthSpec
  import opened AccountHistory
  import OtpAttempts
  import Revocation

  /** Since event i no other code was sent to the address, and nobody submitted the right one. */
  ghost predicate Pending(tr: seq<Event>, i: nat, email: string) {
    && i < |tr| && OtpAttempts.Issues(tr[i], email)
    && forall k | i < k < |tr| :: !OtpAttempts.Issues(tr[k], email) && !Verifies(tr[k], email)
  }

  /** Submissions for the address since event i. */
  function Submissions(tr: seq<Event>, i: nat, email: string): nat {
    if |tr| <= i + 1 then 0
    else
      var n := |tr| - 1;
      Submissions(tr[..n], i, email) + if tr[n].op.VerifyOTPOp? && tr[n].op.email == email then 1 else 0
  }

  /** The code is stored until its end, and until then its counter has counted every submission and lasts as long. */
  ghost predicate Awaits(c: Config, w: World, now: Time, email: string, code: string, sent: Time, s: nat) {
    && (exists id :: id in w.rows && w.rows[id].email == email && !w.rows[id].active)
    && UserOTP(email) in w.kv && w.kv[UserOTP(email)] == Entry(Text(code), Some(sent + c.setTTL))
    && (now < sent + c.setTTL ==>
          if s == 0 then OTPAttempts(email) !in w.kv
          else
            && OTPAttempts(email) in w.kv && w.kv[OTPAttempts(email)].value == Count(s)
            && w.kv[OTPAttempts(email)].deadline.Some? && sent + c.setTTL <= w.kv[OTPAttempts(email)].deadline.value)
  }

  ghost predicate Sound(c: Config) { 0 < c.setTTL <= c.otpTTL }

  lemma SentAwaits(c: Config, w: World, now: Time, email: string, code: string, mailed: bool)
    requires RowsOk(w.rows) && Sound(c) && SendOTP(c, w, now, email, code, mailed).1 == Done
    ensures Awaits(c, SendOTP(c, w, now, email, code, mailed).0, now, email, code, now, 0)
  {
  }

  /** A submission to an account that awaits its code: accepted exactly if it is the code, in time and within the
      limit; then the account is active and neither code nor counter is left; otherwise it is one more submission. */
  lemma SubmissionStep(c: Config, w: World, last: Time, now: Time, email: string, code: string, sent: Time, s: nat, submitted: string)
    requires RowsOk(w.rows) && Sound(c) && Awaits(c, w, last, email, code, sent, s) && sent <= last <= now
    ensures var (w', out) := VerifyOTP(c, w, now, email, submitted);
            && (out == Done <==> submitted == code && now < sent + c.setTTL && s < c.otpMax)
            && (out != Done ==> Awaits(c, w', now, email, code, sent, s + 1))
            && (out == Done ==> UserOTP(email) !in w'.kv && OTPAttempts(email) !in w'.kv)
  {
  }

  /** Every other use case leaves the account waiting. */
  lemma {:induction false} OtherAwaits(c: Config, w: World, last: Time, now: Time, op: Op, email: string, code: string, sent: Time, s: nat)
    requires RowsOk(w.rows) && Awaits(c, w, last, email, code, sent, s) && last <= now
    requires !(op.VerifyOTPOp? && op.email == email)
    requires !OtpAttempts.Issues(Event(now, op, Step(c, w, now, op).1), email)
    ensures Awaits(c, Step(c, w, now, op).0, now, email, code, sent, s)
  {
    hide Step;
    var w' := Step(c, w, now, op).0;
    var id :| id in w.rows && w.rows[id].email == email && !w.rows[id].active;
    if op.RegisterOp? { RegisterStep(c, w, now, op); }
    else if op.ChangeOp? || op.ResetOp? { ReplaceStep(c, w, now, op); }
    else { KeepStep(c, w, now, op); }
    assert id in w'.rows && w'.rows[id].email == email && !w'.rows[id].active;
    if op.SendOTPOp? && op.email == email {
      RefusedSend(c, w, now, op);
    } else {
      StepFrame(c, w, now, op, UserOTP(email));
      StepFrame(c, w, now, op, OTPAttempts(email));
    }
  }

  lemma RefusedSend(c: Config, w: World, now: Time, op: Op)
    requires op.SendOTPOp? && Step(c, w, now, op).1 != Done
    ensures Step(c, w, now, op).0 == w
  {
  }

  lemma PendingPrefix(tr: seq<Event>, i: nat, email: string)
    requires Pending(tr, i, email) && i < |tr| - 1
    ensures Pending(tr[..|tr| - 1], i, email) && !OtpAttempts.Issues(tr[|tr| - 1], email) && !Verifies(tr[|tr| - 1], email)
  {
  }

  lemma SentStep(c: Config, w: World, now: Time, op: Op)
    requires RowsOk(w.rows) && Sound(c) && op.SendOTPOp? && Step(c, w, now, op).1 == Done
    ensures Awaits(c, Step(c, w, now, op).0, now, op.email, op.code, now, 0)
  {
    hide SendOTP, Awaits;
    SentAwaits(c, w, now, op.email, op.code, op.mailed);
  }

  lemma WrongStep(c: Config, w: World, last: Time, now: Time, op: Op, code: string, sent: Time, s: nat)
    requires RowsOk(w.rows) && Sound(c) && op.VerifyOTPOp? && Awaits(c, w, last, op.email, code, sent, s) && sent <= last <= now
    requires !Verifies(Event(now, op, Step(c, w, now, op).1), op.email)
    ensures Awaits(c, Step(c, w, now, op).0, now, op.email, code, sent, s + 1)
  {
    hide VerifyOTP, Awaits;
    SubmissionStep(c, w, last, now, op.email, code, sent, s, op.code);
  }

  lemma {:induction false} TraceAwaits(c: Config, tr: seq<Event>, i: nat, email: string)
    requires IsTrace(c, tr) && Sound(c) && Pending(tr, i, email)
    ensures Awaits(c, After(c, tr), tr[|tr| - 1].now, email, tr[i].op.code, tr[i].now, Submissions(tr, i, email))
    decreases |tr|
  {
    PendingIssue(tr, i, email);
    hide Step, Awaits, Pending;
    var n := |tr| - 1;
    var e, w := tr[n], After(c, tr[..n]);
    TraceRowsOk(c, tr[..n]);
    if i == n {
      SentStep(c, w, e.now, e.op);
    } else {
      PendingPrefix(tr, i, email);
      TraceAwaits(c, tr[..n], i, email);
      TraceOrdered(tr, i, n - 1);
      var s := Submissions(tr[..n], i, email);
      if e.op.VerifyOTPOp? && e.op.email == email {
        WrongStep(c, w, tr[n - 1].now, e.now, e.op, tr[i].op.code, tr[i].now, s);
      } else {
        OtherAwaits(c, w, tr[n - 1].now, e.now, e.op, email, tr[i].op.code, tr[i].now, s);
      }
    }
  }

  lemma PendingIssue(tr: seq<Event>, i: nat, email: string)
    requires Pending(tr, i, email)
    ensures i < |tr| && tr[i].op.SendOTPOp? && tr[i].op.email == email && tr[i].out == Done
  {
  }

  /** In every run, at every later instant, a submission activates the account exactly if it is the code sent last,
      no right one was submitted since, the code has not expired, and fewer than the limit were submitted before it;
      then neither the code nor its counter is left. */
  lemma CodeWorksIff(c: Config, tr: seq<Event>, i: nat, email: string, now: Time, code: string)
    requires IsTrace(c, tr) && Sound(c) && Pending(tr, i, email) && tr[|tr| - 1].now <= now
    ensures var (w', out) := VerifyOTP(c, After(c, tr), now, email, code);
            && (out == Done <==> code == tr[i].op.code && now < tr[i].now + c.setTTL && Submissions(tr, i, email) < c.otpMax)
            && (out == Done ==> UserOTP(email) !in w'.kv && OTPAttempts(email) !in w'.kv)
  {
    hide Step, After, VerifyOTP, Awaits, Pending;
    PendingIssue(tr, i, email);
    TraceRowsOk(c, tr);
    TraceAwaits(c, tr, i, email);
    TraceOrdered(tr, i, |tr| - 1);
    SubmissionStep(c, After(c, tr), tr[|tr| - 1].now, now, email, tr[i].op.code, tr[i].now, Submissions(tr, i, email), code);
  }

  /** A stored code is pending. */
  lemma {:induction false} StoredIsPending(c: Config, tr: seq<Event>, email: string)
    requires IsTrace(c, tr) && UserOTP(email) in After(c, tr).kv
    ensures exists i: nat :: Pending(tr, i, email)
  {
    hide SendOTP, VerifyOTP;
    var n := |tr| - 1;
    var e, w := tr[n], After(c, tr[..n]);
    if OtpAttempts.Issues(e, email) {
      assert Pending(tr, n, email);
    } else {
      KeepsCode(c, w, e.now, e.op, email);
      StoredIsPending(c, tr[..n], email);
      var i: nat :| Pending(tr[..n], i, email);
      forall k | i < k < |tr| ensures !OtpAttempts.Issues(tr[k], email) && !Verifies(tr[k], email) {
        if k < n { assert tr[k] == tr[..n][k]; }
      }
      assert Pending(tr, i, email);
    }
  }

  /** In every run only a pending code activates. */
  lemma {:induction false} ActivatedByPending(c: Config, tr: seq<Event>, email: string, now: Time, code: string)
    requires IsTrace(c, tr) && VerifyOTP(c, After(c, tr), now, email, code).1 == Done
    ensures exists i: nat :: Pending(tr, i, email)
  {
    hide After, Pending;
    StoredIsPending(c, tr, email);
  }

  lemma KeepsCode(c: Config, w: World, now: Time, op: Op, email: string)
    requires !OtpAttempts.Issues(Event(now, op, Step(c, w, now, op).1), email)
    ensures UserOTP(email) in Step(c, w, now, op).0.kv ==>
              UserOTP(email) in w.kv && !Verifies(Event(now, op, Step(c, w, now, op).1), email)
  {
    if !((op.SendOTPOp? || op.VerifyOTPOp?) && op.email == email) {
      hide Step;
      StepFrame(c, w, now, op, UserOTP(email));
    }
  }
}
