/** Password-reset tokens: at most one live per user, each good for at most one reset, and
    only of the account whose address asked for it. */
module ResetTokens {
  import opened Base
  import opened KeyValue
  import opened Keys
  import opened Accounts
  import opened AuthSpec

  /** Drawn tokens are base64 of 32 random bytes, never the empty string. */
  ghost predicate TokensNonEmpty(tr: seq<Event>) {
    forall i | 0 <= i < |tr| && tr[i].op.ForgotOp? :: tr[i].op.resetToken != ""
  }

  /** The reverse index names every live token and expires no earlier. */
  ghost predicate IndexInv(kv: Store, now: Time) {
    forall t: string | Live(kv, now, PasswordReset(t)) ::
      && t != "" && kv[PasswordReset(t)].value.Text? && kv[PasswordReset(t)].deadline.Some?
      && Names(kv, kv[PasswordReset(t)].value.text, t, kv[PasswordReset(t)].deadline.value)
  }

  ghost predicate Names(kv: Store, user: string, t: string, deadline: Time) {
    var k := ResetIndex(user);
    k in kv && kv[k].value == Text(t) && kv[k].deadline.Some? && deadline <= kv[k].deadline.value
  }

  lemma ForgotKeepsIndex(c: Config, w: World, now: Time, e: string, t: string, m: bool)
    requires IndexInv(w.kv, now) && t != ""
    ensures IndexInv(ForgotPassword(c, w, now, e, t, m).0.kv, now)
  {
    var kv := CountAttempt(w.kv, now, ForgotAttempts(e), c.forgotMax, c.forgotTTL).0;
    var kv' := ForgotPassword(c, w, now, e, t, m).0.kv;
    forall s: string
      ensures Same(w.kv, kv, PasswordReset(s)) && Same(w.kv, kv, ResetIndex(s))
    {
    }
    forall s: string | Live(kv', now, PasswordReset(s))
      ensures s != "" && kv'[PasswordReset(s)].value.Text? && kv'[PasswordReset(s)].deadline.Some?
      ensures Names(kv', kv'[PasswordReset(s)].value.text, s, kv'[PasswordReset(s)].deadline.value)
    {
      if s != t {
        assert Live(w.kv, now, PasswordReset(s)) && Same(w.kv, kv', PasswordReset(s));
        assert Names(w.kv, w.kv[PasswordReset(s)].value.text, s, w.kv[PasswordReset(s)].deadline.value);
      }
    }
  }

  lemma ResetKeepsIndex(w: World, now: Time, t: string, p: string, salt: nat)
    requires IndexInv(w.kv, now)
    ensures IndexInv(ResetPassword(w, now, t, p, salt).0.kv, now)
  {
    var kv' := ResetPassword(w, now, t, p, salt).0.kv;
    forall s: string | Live(kv', now, PasswordReset(s))
      ensures Live(w.kv, now, PasswordReset(s)) && kv'[PasswordReset(s)] == w.kv[PasswordReset(s)]
      ensures Names(kv', kv'[PasswordReset(s)].value.text, s, kv'[PasswordReset(s)].deadline.value)
    {
      assert Names(w.kv, w.kv[PasswordReset(s)].value.text, s, w.kv[PasswordReset(s)].deadline.value);
    }
  }

  lemma {:induction false} OthersKeepIndex(c: Config, w: World, now: Time, op: Op)
    requires IndexInv(w.kv, now) && !op.ForgotOp? && !op.ResetOp?
    ensures IndexInv(Step(c, w, now, op).0.kv, now)
  {
    var kv' := Step(c, w, now, op).0.kv;
    forall s: string
      ensures Same(w.kv, kv', PasswordReset(s)) && Same(w.kv, kv', ResetIndex(s))
    {
      StepFrame(c, w, now, op, PasswordReset(s));
      StepFrame(c, w, now, op, ResetIndex(s));
    }
  }

  lemma {:induction false} TraceIndex(c: Config, tr: seq<Event>, now: Time)
    requires IsTrace(c, tr) && TokensNonEmpty(tr) && (tr != [] ==> tr[|tr| - 1].now <= now)
    ensures IndexInv(After(c, tr).kv, now)
  {
    if tr != [] {
      var n := |tr| - 1;
      var e, w := tr[n], After(c, tr[..n]);
      TraceIndex(c, tr[..n], e.now);
      match e.op
      case ForgotOp(m, t, ok) => ForgotKeepsIndex(c, w, e.now, m, t, ok);
      case ResetOp(t, p, salt) => ResetKeepsIndex(w, e.now, t, p, salt);
      case _ => OthersKeepIndex(c, w, e.now, e.op);
    }
  }

  /** In every run, at every instant, each user has at most one live reset token, and the index is
      live and names it. */
  lemma {:induction false} SingleLiveToken(c: Config, tr: seq<Event>, now: Time, s: string, t: string)
    requires IsTrace(c, tr) && TokensNonEmpty(tr) && (tr != [] ==> tr[|tr| - 1].now <= now)
    requires var kv := After(c, tr).kv;
             Live(kv, now, PasswordReset(s)) && Live(kv, now, PasswordReset(t)) &&
             kv[PasswordReset(s)].value == kv[PasswordReset(t)].value
    ensures s == t
    ensures var kv := After(c, tr).kv;
            var holder := Get(kv, now, PasswordReset(t));
            holder.Some? && Get(kv, now, ResetIndex(holder.value)) == Some(t)
  {
    TraceIndex(c, tr, now);
    var kv := After(c, tr).kv;
    assert Names(kv, kv[PasswordReset(s)].value.text, s, kv[PasswordReset(s)].deadline.value);
    assert Names(kv, kv[PasswordReset(t)].value.text, t, kv[PasswordReset(t)].deadline.value);
  }

  /** Requests that drew the token. */
  function Draws(tr: seq<Event>, t: string): nat {
    if tr == [] then 0
    else
      var n := |tr| - 1;
      Draws(tr[..n], t) + if tr[n].op.ForgotOp? && tr[n].op.resetToken == t then 1 else 0
  }

  predicate ResetsWith(e: Event, t: string) { e.op.ResetOp? && e.op.resetToken == t && e.out == Done }

  /** Passwords reset with the token. */
  function Resets(tr: seq<Event>, t: string): nat {
    if tr == [] then 0
    else
      var n := |tr| - 1;
      Resets(tr[..n], t) + if ResetsWith(tr[n], t) then 1 else 0
  }

  lemma TokenStored(c: Config, w: World, now: Time, op: Op, t: string)
    ensures var (w', out) := Step(c, w, now, op);
            && (PasswordReset(t) in w'.kv && PasswordReset(t) !in w.kv ==> op.ForgotOp? && op.resetToken == t)
            && (ResetsWith(Event(now, op, out), t) ==> PasswordReset(t) in w.kv && PasswordReset(t) !in w'.kv)
  {
    match op
    case ForgotOp(e, s, m) =>
      var kv := CountAttempt(w.kv, now, ForgotAttempts(e), c.forgotMax, c.forgotTTL).0;
      assert Same(w.kv, kv, PasswordReset(t));
    case ResetOp(_, _, _) =>
    case _ => StepFrame(c, w, now, op, PasswordReset(t));
  }

  /** In every run a token resets no more often than it was drawn, so a token drawn once resets at most once. */
  lemma {:induction false} ResetsBounded(c: Config, tr: seq<Event>, t: string)
    requires IsTrace(c, tr)
    ensures Resets(tr, t) + (if PasswordReset(t) in After(c, tr).kv then 1 else 0) <= Draws(tr, t)
  {
    if tr != [] {
      var n := |tr| - 1;
      ResetsBounded(c, tr[..n], t);
      TokenStored(c, After(c, tr[..n]), tr[n].now, tr[n].op, t);
    }
  }

  /** The account a stored token opens, and the request that asked for it. */
  ghost predicate RequestedBy(w: World, tr: seq<Event>, t: string, j: nat) {
    && j < |tr| && tr[j].op.ForgotOp? && tr[j].op.resetToken == t
    && PasswordReset(t) in w.kv && w.kv[PasswordReset(t)].value.Text?
    && w.kv[PasswordReset(t)].value.text in w.rows
    && w.rows[w.kv[PasswordReset(t)].value.text].email == tr[j].op.email
  }

  lemma ForgotStores(c: Config, w: World, now: Time, e: string, s: string, m: bool, t: string)
    requires RowsOk(w.rows)
    ensures var w' := ForgotPassword(c, w, now, e, s, m).0;
            PasswordReset(t) in w'.kv ==>
              (PasswordReset(t) in w.kv && w'.kv[PasswordReset(t)] == w.kv[PasswordReset(t)]) ||
              (s == t && w'.kv[PasswordReset(t)].value.Text? && w'.kv[PasswordReset(t)].value.text in w.rows &&
               w.rows[w'.kv[PasswordReset(t)].value.text].email == e)
  {
    var kv := CountAttempt(w.kv, now, ForgotAttempts(e), c.forgotMax, c.forgotTTL).0;
    assert Same(w.kv, kv, PasswordReset(t));
  }

  /** A step leaves a stored token as it was, unless it is the request that draws it for its own account. */
  lemma StepStores(c: Config, w: World, now: Time, op: Op, t: string)
    requires RowsOk(w.rows)
    ensures var w' := Step(c, w, now, op).0;
            PasswordReset(t) in w'.kv ==>
              (PasswordReset(t) in w.kv && w'.kv[PasswordReset(t)] == w.kv[PasswordReset(t)]) ||
              (op.ForgotOp? && op.resetToken == t && w'.kv[PasswordReset(t)].value.Text? &&
               w'.kv[PasswordReset(t)].value.text in w.rows && w.rows[w'.kv[PasswordReset(t)].value.text].email == op.email)
  {
    hide ForgotPassword;
    if op.ForgotOp? {
      ForgotStores(c, w, now, op.email, op.resetToken, op.mailed, t);
    } else if !op.ResetOp? {
      StepFrame(c, w, now, op, PasswordReset(t));
    }
  }

  lemma {:induction false} StoredTokenRequested(c: Config, tr: seq<Event>, t: string) returns (j: nat)
    requires IsTrace(c, tr) && PasswordReset(t) in After(c, tr).kv
    ensures RequestedBy(After(c, tr), tr, t, j)
  {
    hide Step;
    var n := |tr| - 1;
    var e, w, w' := tr[n], After(c, tr[..n]), After(c, tr);
    TraceRowsOk(c, tr[..n]);
    RowsEvolve(c, w, e.now, e.op);
    StepStores(c, w, e.now, e.op, t);
    if PasswordReset(t) in w.kv && w'.kv[PasswordReset(t)] == w.kv[PasswordReset(t)] {
      j := StoredTokenRequested(c, tr[..n], t);
    } else {
      j := n;
    }
  }

  /** A reset changes the password of one account only: the one whose address asked for that token. */
  lemma ResetOpensRequester(c: Config, tr: seq<Event>) returns (j: nat)
    requires IsTrace(c, tr) && tr != [] && tr[|tr| - 1].op.ResetOp? && tr[|tr| - 1].out == Done
    ensures j < |tr| - 1 && tr[j].op.ForgotOp? && tr[j].op.resetToken == tr[|tr| - 1].op.resetToken
    ensures forall id | id in After(c, tr).rows && After(c, tr).rows[id].email != tr[j].op.email ::
              id in After(c, tr[..|tr| - 1]).rows && After(c, tr).rows[id] == After(c, tr[..|tr| - 1]).rows[id]
  {
    hide ForgotPassword;
    var n := |tr| - 1;
    TokenStored(c, After(c, tr[..n]), tr[n].now, tr[n].op, tr[n].op.resetToken);
    j := StoredTokenRequested(c, tr[..n], tr[n].op.resetToken);
    TraceRowsOk(c, tr[..n]);
  }
}
