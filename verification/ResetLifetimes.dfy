/** When a password-reset token opens an account: from the history of the run alone. */
module ResetLifetimes {
  import opened Base
  import opened KeyValue
  import opened Keys
  import opened Accounts
  import opened AuthSpec
  import opened ResetTokens
  import opened AccountHistory
  import Revocation

  /** Tokens are random: none is ever drawn twice, and none is the empty string. */
  ghost predicate FreshTokens(tr: seq<Event>) {
    && TokensNonEmpty(tr)
    && forall i, j | 0 <= i < j < |tr| && tr[i].op.ForgotOp? && tr[j].op.ForgotOp? :: tr[i].op.resetToken != tr[j].op.resetToken
  }

  /** A request that the guard let through, for an address that was registered to the account. */
  ghost predicate Requests(tr: seq<Event>, k: nat, id: string) {
    k < |tr| && tr[k].op.ForgotOp? && tr[k].out != Rejected(LockedOut) && HasAddress(tr[..k], id, tr[k].op.email)
  }

  /** A later request for the account, or a reset with the token itself. */
  ghost predicate Displaces(tr: seq<Event>, k: nat, id: string, t: string) {
    k < |tr| && (Requests(tr, k, id) || ResetsWith(tr[k], t))
  }

  ghost predicate Displaced(tr: seq<Event>, i: nat, id: string, t: string) {
    exists k: nat :: i < k && Displaces(tr, k, id, t)
  }

  lemma DisplacedMore(tr: seq<Event>, i: nat, id: string, t: string)
    requires i < |tr| - 1
    ensures Displaced(tr, i, id, t) <==> Displaced(tr[..|tr| - 1], i, id, t) || Displaces(tr, |tr| - 1, id, t)
  {
    var n := |tr| - 1;
    forall k: nat | k < n ensures Displaces(tr, k, id, t) <==> Displaces(tr[..n], k, id, t) { assert tr[..n][..k] == tr[..k]; }
  }

  /** What a request does to some other token. */
  lemma ForgotOther(c: Config, w: World, now: Time, e: string, s: string, m: bool, t: string)
    requires s != t && t != ""
    ensures var (w', out) := ForgotPassword(c, w, now, e, s, m);
            var found := FindByEmail(w.rows, e);
            if out != Rejected(LockedOut) && found.Some? && Get(w.kv, now, ResetIndex(found.value.id)) == Some(t)
            then PasswordReset(t) !in w'.kv else Same(w.kv, w'.kv, PasswordReset(t))
    ensures ForgotPassword(c, w, now, e, s, m).1 == Rejected(LockedOut) <==>
              !CountAttempt(w.kv, now, ForgotAttempts(e), c.forgotMax, c.forgotTTL).1
  {
  }

  /** What a request does to the reverse index. */
  lemma ForgotIndex(c: Config, w: World, now: Time, e: string, s: string, m: bool, u: string)
    ensures var (w', out) := ForgotPassword(c, w, now, e, s, m);
            var found := FindByEmail(w.rows, e);
            if out != Rejected(LockedOut) && found.Some? && found.value.id == u
            then ResetIndex(u) in w'.kv ==> w'.kv[ResetIndex(u)].value == Text(s)
            else Same(w.kv, w'.kv, ResetIndex(u))
  {
  }

  /** What a request does to the token it draws. */
  lemma ForgotOwn(c: Config, w: World, now: Time, e: string, s: string, m: bool)
    ensures var (w', out) := ForgotPassword(c, w, now, e, s, m);
            var found := FindByEmail(w.rows, e);
            if out == Rejected(LockedOut) then Same(w.kv, w'.kv, PasswordReset(s))
            else if found.Some? && 0 < c.resetTTL then
              PasswordReset(s) in w'.kv && w'.kv[PasswordReset(s)] == Entry(Text(found.value.id), Some(now + c.resetTTL))
            else PasswordReset(s) !in w'.kv
  {
  }

  predicate Drawn(tr: seq<Event>, t: string) { exists k :: 0 <= k < |tr| && tr[k].op.ForgotOp? && tr[k].op.resetToken == t }

  /** The index names drawn tokens, and a named token that is stored opens the account that names it. */
  ghost predicate Backed(kv: Store, tr: seq<Event>) {
    && (forall t: string | PasswordReset(t) in kv :: Drawn(tr, t))
    && (forall u: string, t: string | ResetIndex(u) in kv && kv[ResetIndex(u)].value == Text(t) ::
          Drawn(tr, t) && (PasswordReset(t) in kv ==> kv[PasswordReset(t)].value == Text(u)))
  }

  lemma DrawnMore(tr: seq<Event>, t: string)
    requires tr != []
    ensures var n := |tr| - 1; Drawn(tr, t) <==> Drawn(tr[..n], t) || (tr[n].op.ForgotOp? && tr[n].op.resetToken == t)
  {
    var n := |tr| - 1;
    if k :| 0 <= k < |tr[..n]| && tr[..n][k].op.ForgotOp? && tr[..n][k].op.resetToken == t {
      assert tr[k] == tr[..n][k];
    }
    if k :| 0 <= k < |tr| && tr[k].op.ForgotOp? && tr[k].op.resetToken == t {
      if k < n { assert tr[..n][k] == tr[k]; }
    }
  }

  lemma FreshDraw(tr: seq<Event>)
    requires FreshTokens(tr) && tr != [] && tr[|tr| - 1].op.ForgotOp?
    ensures !Drawn(tr[..|tr| - 1], tr[|tr| - 1].op.resetToken) && tr[|tr| - 1].op.resetToken != ""
  {
  }

  lemma FreshPrefix(tr: seq<Event>)
    requires FreshTokens(tr) && tr != []
    ensures FreshTokens(tr[..|tr| - 1])
  {
  }

  lemma BackedForgot(c: Config, w: World, tr: seq<Event>, e: Event)
    requires tr != [] && tr[|tr| - 1] == e && e.op.ForgotOp? && Backed(w.kv, tr[..|tr| - 1]) && e.op.resetToken != ""
    requires !Drawn(tr[..|tr| - 1], e.op.resetToken)
    ensures Backed(ForgotPassword(c, w, e.now, e.op.email, e.op.resetToken, e.op.mailed).0.kv, tr)
  {
    hide ForgotPassword, Drawn;
    var s := e.op.resetToken;
    var kv' := ForgotPassword(c, w, e.now, e.op.email, s, e.op.mailed).0.kv;
    ForgotOwn(c, w, e.now, e.op.email, s, e.op.mailed);
    forall t: string ensures PasswordReset(t) in kv' ==> Drawn(tr, t) {
      DrawnMore(tr, t);
      ForgotToken(c, w, e, t);
    }
    forall u: string, t: string | ResetIndex(u) in kv' && kv'[ResetIndex(u)].value == Text(t)
      ensures Drawn(tr, t) && (PasswordReset(t) in kv' ==> kv'[PasswordReset(t)].value == Text(u))
    {
      DrawnMore(tr, t);
      ForgotIndex(c, w, e.now, e.op.email, s, e.op.mailed, u);
      ForgotToken(c, w, e, t);
    }
  }

  lemma ForgotToken(c: Config, w: World, e: Event, t: string)
    requires e.op.ForgotOp?
    ensures var kv' := ForgotPassword(c, w, e.now, e.op.email, e.op.resetToken, e.op.mailed).0.kv;
            t != e.op.resetToken ==> Same(w.kv, kv', PasswordReset(t)) || PasswordReset(t) !in kv'
  {
  }

  lemma BackedReset(w: World, now: Time, t: string, p: string, salt: nat, tr: seq<Event>)
    requires Backed(w.kv, tr)
    ensures Backed(ResetPassword(w, now, t, p, salt).0.kv, tr)
  {
  }

  lemma BackedSame(kv: Store, kv': Store, tr: seq<Event>)
    requires Backed(kv, tr) && forall s: string :: Same(kv, kv', PasswordReset(s)) && Same(kv, kv', ResetIndex(s))
    ensures Backed(kv', tr)
  {
  }

  lemma BackedLater(kv: Store, tr: seq<Event>)
    requires tr != [] && !tr[|tr| - 1].op.ForgotOp? && Backed(kv, tr[..|tr| - 1])
    ensures Backed(kv, tr)
  {
    forall t ensures Drawn(tr, t) <==> Drawn(tr[..|tr| - 1], t) { DrawnMore(tr, t); }
  }

  lemma BackedOther(c: Config, w: World, now: Time, op: Op, tr: seq<Event>)
    requires Backed(w.kv, tr) && !op.ForgotOp? && !op.ResetOp?
    ensures Backed(Step(c, w, now, op).0.kv, tr)
  {
    hide Step, Backed;
    var kv' := Step(c, w, now, op).0.kv;
    forall s: string ensures Same(w.kv, kv', PasswordReset(s)) && Same(w.kv, kv', ResetIndex(s)) {
      StepFrame(c, w, now, op, PasswordReset(s));
      StepFrame(c, w, now, op, ResetIndex(s));
    }
    BackedSame(w.kv, kv', tr);
  }

  lemma {:induction false} TraceBacked(c: Config, tr: seq<Event>)
    requires IsTrace(c, tr) && FreshTokens(tr)
    ensures Backed(After(c, tr).kv, tr)
  {
    hide Backed, Drawn, ForgotPassword, ResetPassword, FreshTokens;
    if tr == [] {
      NothingBacked();
    } else {
      var n := |tr| - 1;
      var e, w := tr[n], After(c, tr[..n]);
      FreshPrefix(tr);
      TraceBacked(c, tr[..n]);
      if e.op.ForgotOp? {
        FreshDraw(tr);
        BackedForgot(c, w, tr, e);
      } else {
        BackedLater(w.kv, tr);
        if e.op.ResetOp? {
          BackedReset(w, e.now, e.op.resetToken, e.op.password, e.op.salt, tr);
        } else {
          hide Step;
          BackedOther(c, w, e.now, e.op, tr);
        }
      }
    }
  }

  lemma NothingBacked()
    ensures Backed(map[], [])
  {
  }

  /** The token's key, given whether it was displaced: still as stored, or never live again. */
  ghost predicate Kept(kv: Store, last: Time, id: string, t: string, deadline: Time, displaced: bool) {
    if displaced then !Live(kv, last, PasswordReset(t))
    else if last < deadline then PasswordReset(t) in kv && kv[PasswordReset(t)] == Entry(Text(id), Some(deadline))
    else !Live(kv, last, PasswordReset(t))
  }

  lemma KeptLater(kv: Store, last: Time, now: Time, id: string, t: string, deadline: Time, displaced: bool)
    requires Kept(kv, last, id, t, deadline, displaced) && last <= now
    ensures Kept(kv, now, id, t, deadline, displaced)
  {
  }

  /** One more request for some account, with another token. */
  lemma KeptForgot(c: Config, w: World, e: Event, id: string, t: string, deadline: Time, displaced: bool, tr: seq<Event>)
    requires e.op.ForgotOp? && e.op.resetToken != t && t != ""
    requires Kept(w.kv, e.now, id, t, deadline, displaced) && IndexInv(w.kv, e.now) && Backed(w.kv, tr)
    ensures var (w', out) := ForgotPassword(c, w, e.now, e.op.email, e.op.resetToken, e.op.mailed);
            var found := FindByEmail(w.rows, e.op.email);
            Kept(w'.kv, e.now, id, t, deadline, displaced || (out != Rejected(LockedOut) && found.Some? && found.value.id == id))
  {
    hide ForgotPassword, FindByEmail;
    ForgotOther(c, w, e.now, e.op.email, e.op.resetToken, e.op.mailed, t);
    var found := FindByEmail(w.rows, e.op.email);
    if Live(w.kv, e.now, PasswordReset(t)) {
      assert Names(w.kv, w.kv[PasswordReset(t)].value.text, t, w.kv[PasswordReset(t)].deadline.value);
    }
  }

  /** One more reset, with this token or another. */
  lemma KeptReset(w: World, e: Event, id: string, t: string, deadline: Time, displaced: bool)
    requires e.op.ResetOp? && e.out == ResetPassword(w, e.now, e.op.resetToken, e.op.password, e.op.salt).1
    requires Kept(w.kv, e.now, id, t, deadline, displaced)
    ensures Kept(ResetPassword(w, e.now, e.op.resetToken, e.op.password, e.op.salt).0.kv, e.now, id, t, deadline, displaced || ResetsWith(e, t))
  {
  }

  /** The request's address decides which account it is for, in the table as in the history. */
  lemma RequestFor(c: Config, tr: seq<Event>, k: nat, id: string)
    requires IsTrace(c, tr) && k < |tr| && tr[k].op.ForgotOp?
    ensures HasAddress(tr[..k], id, tr[k].op.email) <==>
              var found := FindByEmail(After(c, tr[..k]).rows, tr[k].op.email); found.Some? && found.value.id == id
    decreases |tr|
  {
    hide Step, After, NormalizeEmail;
    TracePrefix(c, tr, k);
    TraceRowsOk(c, tr[..k]);
    RowsAreRegistered(c, tr[..k], id);
    if id in After(c, tr[..k]).rows { FindByEmailUnique(After(c, tr[..k]).rows, id); }
  }

  lemma {:induction false} TracePrefix(c: Config, tr: seq<Event>, k: nat)
    requires IsTrace(c, tr) && k <= |tr|
    ensures IsTrace(c, tr[..k])
    decreases |tr|
  {
    if k < |tr| {
      assert tr[..|tr| - 1][..k] == tr[..k];
      TracePrefix(c, tr[..|tr| - 1], k);
    } else {
      assert tr[..k] == tr;
    }
  }

  lemma KeptAtRequest(c: Config, tr: seq<Event>, id: string)
    requires IsTrace(c, tr) && tr != [] && Requests(tr, |tr| - 1, id)
    ensures var e := tr[|tr| - 1];
            Kept(After(c, tr).kv, e.now, id, e.op.resetToken, e.now + c.resetTTL, false)
  {
    hide ForgotPassword, HasAddress;
    var n := |tr| - 1;
    RequestFor(c, tr, n, id);
    ForgotOwn(c, After(c, tr[..n]), tr[n].now, tr[n].op.email, tr[n].op.resetToken, tr[n].op.mailed);
  }

  lemma ForgotStep(c: Config, w: World, e: Event, id: string, t: string, deadline: Time, displaced: bool, tr: seq<Event>)
    requires e.op.ForgotOp? && e.op.resetToken != t && t != "" && e.out == Step(c, w, e.now, e.op).1
    requires Kept(w.kv, e.now, id, t, deadline, displaced) && IndexInv(w.kv, e.now) && Backed(w.kv, tr)
    ensures var found := FindByEmail(w.rows, e.op.email);
            Kept(Step(c, w, e.now, e.op).0.kv, e.now, id, t, deadline,
                 displaced || (e.out != Rejected(LockedOut) && found.Some? && found.value.id == id))
  {
    hide ForgotPassword, Kept, IndexInv, Backed;
    KeptForgot(c, w, e, id, t, deadline, displaced, tr);
  }

  lemma ResetStep(c: Config, w: World, e: Event, id: string, t: string, deadline: Time, displaced: bool)
    requires e.op.ResetOp? && e.out == Step(c, w, e.now, e.op).1 && Kept(w.kv, e.now, id, t, deadline, displaced)
    ensures Kept(Step(c, w, e.now, e.op).0.kv, e.now, id, t, deadline, displaced || ResetsWith(e, t))
  {
    hide ResetPassword, Kept;
    KeptReset(w, e, id, t, deadline, displaced);
  }

  lemma {:induction false} TokenKept(c: Config, tr: seq<Event>, i: nat, id: string)
    requires IsTrace(c, tr) && FreshTokens(tr) && Requests(tr, i, id)
    ensures var t := tr[i].op.resetToken;
            Kept(After(c, tr).kv, tr[|tr| - 1].now, id, t, tr[i].now + c.resetTTL, Displaced(tr, i, id, t))
    decreases |tr|
  {
    hide Step, HasAddress, Kept, IndexInv, Backed;
    var n := |tr| - 1;
    var e, w, t, deadline := tr[n], After(c, tr[..n]), tr[i].op.resetToken, tr[i].now + c.resetTTL;
    if i == n {
      KeptAtRequest(c, tr, id);
    } else {
      hide Displaced;
      assert tr[..n][..i] == tr[..i];
      FreshPrefix(tr);
      TokenKept(c, tr[..n], i, id);
      KeptLater(w.kv, tr[n - 1].now, e.now, id, t, deadline, Displaced(tr[..n], i, id, t));
      DisplacedMore(tr, i, id, t);
      if e.op.ForgotOp? {
        TraceIndex(c, tr[..n], e.now);
        TraceBacked(c, tr[..n]);
        RequestFor(c, tr, n, id);
        ForgotStep(c, w, e, id, t, deadline, Displaced(tr[..n], i, id, t), tr[..n]);
      } else if e.op.ResetOp? {
        ResetStep(c, w, e, id, t, deadline, Displaced(tr[..n], i, id, t));
      } else {
        StepFrame(c, w, e.now, e.op, PasswordReset(t));
        KeptSame(w.kv, After(c, tr).kv, e.now, id, t, deadline, Displaced(tr[..n], i, id, t));
      }
    }
  }

  lemma KeptSame(kv: Store, kv': Store, last: Time, id: string, t: string, deadline: Time, displaced: bool)
    requires Kept(kv, last, id, t, deadline, displaced) && Same(kv, kv', PasswordReset(t))
    ensures Kept(kv', last, id, t, deadline, displaced)
  {
  }

  /** In every run, at every later instant, the token of a request opens the account it was requested for exactly
      while it has not expired, no later request for that account was let through and it was not used; otherwise it
      opens none. */
  lemma {:induction false} TokenOpensIff(c: Config, tr: seq<Event>, i: nat, id: string, now: Time)
    requires IsTrace(c, tr) && FreshTokens(tr) && Requests(tr, i, id) && tr[|tr| - 1].now <= now
    ensures var t := tr[i].op.resetToken;
            Get(After(c, tr).kv, now, PasswordReset(t)) ==
            if now < tr[i].now + c.resetTTL && !Displaced(tr, i, id, t) then Some(id) else None
  {
    hide Step, After, Displaced, HasAddress;
    var t := tr[i].op.resetToken;
    TokenKept(c, tr, i, id);
    KeptLater(After(c, tr).kv, tr[|tr| - 1].now, now, id, t, tr[i].now + c.resetTTL, Displaced(tr, i, id, t));
  }

  /** In every run, at every later instant, a reset with the token of a request for an account is answered Done
      exactly while the token has not expired, no later request for that account was let through, it was not used,
      and the new password is one that can be hashed. */
  lemma {:induction false} ResetWorksIff(c: Config, tr: seq<Event>, i: nat, id: string, now: Time, password: string, salt: nat)
    requires IsTrace(c, tr) && FreshTokens(tr) && Requests(tr, i, id) && tr[|tr| - 1].now <= now
    ensures var t := tr[i].op.resetToken;
            ResetPassword(After(c, tr), now, t, password, salt).1 == Done <==>
            now < tr[i].now + c.resetTTL && !Displaced(tr, i, id, t) && 1 <= |password| <= 72 && id != ""
  {
    hide Step, After, Displaced, NormalizeEmail;
    var t := tr[i].op.resetToken;
    TokenOpensIff(c, tr, i, id, now);
    StaysRegistered(tr, i, id);
    RowsAreRegistered(c, tr, id);
  }

  lemma {:induction false} StaysRegistered(tr: seq<Event>, i: nat, id: string)
    requires i <= |tr| && Registration(tr[..i], id).Some?
    ensures Registration(tr, id).Some?
    decreases |tr|
  {
    if i < |tr| {
      assert tr[..|tr| - 1][..i] == tr[..i];
      StaysRegistered(tr[..|tr| - 1], i, id);
    } else {
      assert tr[..i] == tr;
    }
  }

  /** A reset leaves neither the token nor the index of its account behind. */
  lemma ResetLeavesNothing(w: World, now: Time, t: string, password: string, salt: nat)
    requires ResetPassword(w, now, t, password, salt).1 == Done
    ensures var kv' := ResetPassword(w, now, t, password, salt).0.kv;
            var holder := Get(w.kv, now, PasswordReset(t));
            holder.Some? && PasswordReset(t) !in kv' && ResetIndex(holder.value) !in kv'
  {
  }

  /** A reset is of the account that the token opens: afterwards exactly the new password verifies there, and no
      other account is touched. */
  lemma ResetReplaces(w: World, now: Time, t: string, password: string, salt: nat, id: string)
    requires RowsOk(w.rows) && ResetPassword(w, now, t, password, salt).1 == Done && Get(w.kv, now, PasswordReset(t)) == Some(id)
    ensures var rows' := ResetPassword(w, now, t, password, salt).0.rows;
            && id in rows' && (forall q :: rows'[id].VerifyPassword(q) <==> q == password)
            && forall o | o in w.rows && o != id :: o in rows' && rows'[o] == w.rows[o]
  {
  }

  /** In every run a change is answered Done exactly to a registered account that gives its latest password and a
      new one that can be hashed. */
  lemma {:induction false} ChangeDoneIff(c: Config, tr: seq<Event>, now: Time, id: string, current: string, password: string, salt: nat)
    requires IsTrace(c, tr)
    ensures ChangePassword(After(c, tr), now, id, current, password, salt).1 == Done <==>
            id != "" && LatestPassword(c, tr, id) == Some(current) && 1 <= |password| <= 72
  {
    hide Step, After;
    PasswordIsLatest(c, tr, id);
  }
}
