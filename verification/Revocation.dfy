/** A password change closes earlier sessions: refresh tokens by the stored change instant,
    access tokens by the published cutoff. */
module Revocation {
  import opened Base
  import opened KeyValue
  import opened Keys
  import opened Accounts
  import opened Tokens
  import opened Decimal
  import opened AuthSpec
  import Users
  import OtpAttempts

  /** Event k changed the password of the user. */
  ghost predicate ChangesPassword(c: Config, tr: seq<Event>, k: nat, id: string) {
    && k < |tr| && tr[k].out == Done
    && ((tr[k].op.ChangeOp? && tr[k].op.userId == id) ||
        (tr[k].op.ResetOp? && Get(After(c, tr[..k]).kv, tr[k].now, PasswordReset(tr[k].op.resetToken)) == Some(id)))
  }

  /** Event i granted a token, in a second before the one in which event k changed its user's password. */
  ghost predicate Outdated(c: Config, tr: seq<Event>, i: nat, k: nat) {
    && i < |tr| && tr[i].out.Granted?
    && ChangesPassword(c, tr, k, tr[i].out.user.id) && Unix(tr[i].now) < Unix(tr[k].now)
  }

  /** The table and the published cutoff tell the same story: a user whose password changed at
      some instant has, until a day later, exactly that second as cutoff; nobody else has one. */
  ghost predicate CutoffInv(w: World) {
    && (forall id | id in w.rows && w.rows[id].passwordChangedAt.Some? ::
          TokenCutoff(id) in w.kv && w.kv[TokenCutoff(id)] == Marker(w.rows[id].passwordChangedAt.value))
    && (forall id: string | TokenCutoff(id) in w.kv :: id in w.rows && w.rows[id].passwordChangedAt.Some?)
  }

  function Marker(when: Time): Entry { Entry(Text(FormatInt(Unix(when))), Some(when + CUTOFF_TTL)) }

  /** A password write stamps one row with the current instant and publishes the matching marker. */
  lemma PasswordStep(c: Config, w: World, now: Time, op: Op)
    requires RowsOk(w.rows) && (op.ChangeOp? || op.ResetOp?)
    ensures var (w', out) := Step(c, w, now, op);
            if out != Done then w' == w
            else
              var id := if op.ChangeOp? then op.userId else Get(w.kv, now, PasswordReset(op.resetToken)).value;
              && id in w.rows && w'.rows.Keys == w.rows.Keys
              && w'.rows[id].passwordChangedAt == Some(now) && w'.rows[id].email == w.rows[id].email
              && TokenCutoff(id) in w'.kv && w'.kv[TokenCutoff(id)] == Marker(now)
              && (forall o | o in w.rows && o != id :: w'.rows[o] == w.rows[o])
              && (forall o: string | o != id :: Same(w.kv, w'.kv, TokenCutoff(o)))
  {
  }

  /** Any other use case leaves change instants and cutoffs alone; a new row has never changed its password. */
  lemma {:induction false} OtherStep(c: Config, w: World, now: Time, op: Op)
    requires RowsOk(w.rows) && !op.ChangeOp? && !op.ResetOp?
    ensures var w' := Step(c, w, now, op).0;
            && (forall id | id in w.rows :: id in w'.rows && w'.rows[id].passwordChangedAt == w.rows[id].passwordChangedAt)
            && (forall id | id in w'.rows && id !in w.rows :: w'.rows[id].passwordChangedAt == None)
            && (forall id: string :: Same(w.kv, w'.kv, TokenCutoff(id)))
  {
    hide Step;
    var w' := Step(c, w, now, op).0;
    forall id: string ensures Same(w.kv, w'.kv, TokenCutoff(id)) { StepFrame(c, w, now, op, TokenCutoff(id)); }
    if op.RegisterOp? { RegisterRows(c, w, now, op); } else { RowsWritten(c, w, now, op); }
  }

  /** Registration adds at most one row, normalized and without a change instant, and touches no other. */
  lemma RegisterRows(c: Config, w: World, now: Time, op: Op)
    requires op.RegisterOp?
    ensures var rows' := Step(c, w, now, op).0.rows;
            && (forall id | id in w.rows :: id in rows' && rows'[id] == w.rows[id])
            && (forall id | id in rows' && id !in w.rows ::
                  rows'[id].passwordChangedAt == None && NormalizeEmail(rows'[id].email) == rows'[id].email)
  {
    hide NormalizeEmail;
    NormalizeEmailIdempotent(op.reg.email);
  }

  lemma {:induction false} CutoffStep(c: Config, w: World, now: Time, op: Op)
    requires RowsOk(w.rows) && CutoffInv(w)
    ensures CutoffInv(Step(c, w, now, op).0)
  {
    var w' := Step(c, w, now, op).0;
    if op.ChangeOp? || op.ResetOp? {
      PasswordStep(c, w, now, op);
      forall id: string | TokenCutoff(id) in w'.kv ensures id in w'.rows && w'.rows[id].passwordChangedAt.Some? {
        assert Same(w.kv, w'.kv, TokenCutoff(id)) || w'.kv[TokenCutoff(id)] == Marker(now);
      }
    } else {
      OtherStep(c, w, now, op);
      forall id: string ensures Same(w.kv, w'.kv, TokenCutoff(id)) {}
    }
  }

  /** Every run keeps table and cutoffs in agreement. */
  lemma {:induction false} TraceCutoff(c: Config, tr: seq<Event>)
    ensures CutoffInv(After(c, tr))
  {
    if tr != [] {
      var n := |tr| - 1;
      TraceCutoff(c, tr[..n]);
      TraceRowsOk(c, tr[..n]);
      CutoffStep(c, After(c, tr[..n]), tr[n].now, tr[n].op);
    }
  }

  /** A user's last change instant never moves back and never disappears. */
  lemma {:induction false} ChangeSticks(c: Config, tr: seq<Event>, k: nat, id: string)
    requires IsTrace(c, tr) && ChangesPassword(c, tr, k, id)
    ensures var rows := After(c, tr).rows;
            id in rows && rows[id].passwordChangedAt.Some? && tr[k].now <= rows[id].passwordChangedAt.value
    decreases |tr|
  {
    hide Step;
    var n := |tr| - 1;
    var w, e := After(c, tr[..n]), tr[n];
    TraceRowsOk(c, tr[..n]);
    if k == n {
      PasswordStep(c, w, e.now, e.op);
    } else {
      assert tr[..n][..k] == tr[..k];
      ChangeSticks(c, tr[..n], k, id);
      TraceOrdered(tr, k, n);
      if e.op.ChangeOp? || e.op.ResetOp? {
        PasswordStep(c, w, e.now, e.op);
      } else {
        OtherStep(c, w, e.now, e.op);
      }
    }
  }

  /** The user that an event of the protocol grants a session to is active, and the pair is that user's, under the
      identifiers drawn for it. */
  lemma GrantStep(c: Config, w: World, now: Time, op: Op)
    requires RowsOk(w.rows) && Step(c, w, now, op).1.Granted?
    ensures (op.LoginOp? || op.RefreshOp?) && c.refreshDays > 0
    ensures var out := Step(c, w, now, op).1;
            && out.user.id in w.rows && w.rows[out.user.id] == out.user && out.user.active
            && PairFor(out.pair, c.accessHours, c.refreshDays, out.user, op.accessJti, op.refreshJti, now)
  {
  }

  /** A granted token names a user of the table, whose row keeps its address ever after. */
  lemma {:induction false} GrantedUser(c: Config, tr: seq<Event>, i: nat)
    requires IsTrace(c, tr) && i < |tr| && tr[i].out.Granted?
    ensures var rows, u := After(c, tr).rows, tr[i].out.user;
            RowsOk(rows) && u.id in rows && rows[u.id].email == u.email
    ensures (tr[i].op.LoginOp? || tr[i].op.RefreshOp?) && c.refreshDays > 0
    ensures PairFor(tr[i].out.pair, c.accessHours, c.refreshDays, tr[i].out.user, tr[i].op.accessJti, tr[i].op.refreshJti, tr[i].now)
    decreases |tr|
  {
    hide Step, PairFor;
    var n := |tr| - 1;
    var w := After(c, tr[..n]);
    TraceRowsOk(c, tr[..n]);
    RowsEvolve(c, w, tr[n].now, tr[n].op);
    if i < n {
      GrantedUser(c, tr[..n], i);
    } else {
      GrantStep(c, w, tr[n].now, tr[n].op);
    }
  }

  /** Rows appear only by registration, with a normalized address. */
  lemma NewRowsNormal(c: Config, w: World, now: Time, op: Op)
    ensures var rows := Step(c, w, now, op).0.rows;
            forall id | id in rows && id !in w.rows :: NormalizeEmail(rows[id].email) == rows[id].email
  {
    hide Step, NormalizeEmail;
    if op.RegisterOp? { RegisterRows(c, w, now, op); } else { RowsWritten(c, w, now, op); }
  }

  lemma {:induction false} TraceNormalRows(c: Config, tr: seq<Event>)
    ensures NormalRows(After(c, tr).rows)
  {
    if tr != [] {
      var n := |tr| - 1;
      var w, e := After(c, tr[..n]), tr[n];
      TraceNormalRows(c, tr[..n]);
      TraceRowsOk(c, tr[..n]);
      RowsEvolve(c, w, e.now, e.op);
      NewRowsNormal(c, w, e.now, e.op);
      forall id | id in After(c, tr).rows
        ensures NormalizeEmail(After(c, tr).rows[id].email) == After(c, tr).rows[id].email
      {
        if id in w.rows { assert After(c, tr).rows[id].email == w.rows[id].email; }
      }
    }
  }

  /** After a password change every refresh token minted at an earlier instant is refused, after every
      continuation and at every instant. */
  lemma {:induction false} RefreshRefusedForever(c: Config, tr: seq<Event>, i: nat, k: nat, now: Time)
    requires IsTrace(c, tr) && i < |tr| && tr[i].out.Granted?
    requires ChangesPassword(c, tr, k, tr[i].out.user.id) && tr[i].now < tr[k].now
    ensures RefreshVerdict(c, After(c, tr), now, Signed(tr[i].out.pair.refresh)).Rejected?
  {
    hide Step, After;
    var w, id := After(c, tr), tr[i].out.user.id;
    ChangeSticks(c, tr, k, id);
    GrantedUser(c, tr, i);
    TraceNormalRows(c, tr);
    FindByEmailUnique(w.rows, id);
  }

  /** How the two checks compare for a token minted at t against a change at when. Refresh refuses
      exactly when the token's second began before the change; the middleware, only when that second is
      an earlier one. So a middleware refusal implies a refresh refusal, and they differ exactly when both
      fall in one second that the change did not start. */
  lemma CutoffsCompare(u: User, t: Time, when: Time, claims: Claims, kv: Store, now: Time)
    requires u.passwordChangedAt == Some(when) && claims.issuedAt == FloorSecond(t)
    requires TokenCutoff(u.id) in kv && kv[TokenCutoff(u.id)] == Marker(when) && now < when + CUTOFF_TTL
    requires claims.userId == u.id && claims.kind == Access && now < claims.expiresAt
    ensures Superseded(u, claims) <==> FloorSecond(t) < when
    ensures AccessCheck(kv, now, Signed(claims), false) == Rejected(Revoked) <==> FloorSecond(t) < FloorSecond(when)
    ensures AccessCheck(kv, now, Signed(claims), false) == Rejected(Revoked) ==> Superseded(u, claims)
    ensures Superseded(u, claims) && AccessCheck(kv, now, Signed(claims), false) != Rejected(Revoked) <==>
              Unix(t) == Unix(when) && FloorSecond(when) < when
  {
    ParseFormat(Unix(when));
    FloorSecondMonotone(t, when);
    FloorSecondMonotone(when, t);
  }

  /** Marker until it expires, parsing afterwards. */
  lemma AccessRefusedNow(kv: Store, now: Time, claims: Claims, needAdmin: bool, t: Time, when: Time, hours: int)
    requires TokenCutoff(claims.userId) in kv && kv[TokenCutoff(claims.userId)] == Marker(when)
    requires claims.issuedAt == FloorSecond(t) && claims.expiresAt == FloorSecond(t + hours * HOUR)
    requires Unix(t) < Unix(when) && hours <= 24
    ensures AccessCheck(kv, now, Signed(claims), needAdmin).Rejected?
  {
    ParseFormat(Unix(when));
    if now >= when + CUTOFF_TTL {
      assert t < when && claims.expiresAt <= t + 24 * HOUR;
    }
  }

  /** What the token and the marker were, whatever happened in between. */
  lemma {:induction false} MarkedToken(c: Config, tr: seq<Event>, i: nat, k: nat) returns (when: Time)
    requires IsTrace(c, tr) && Outdated(c, tr, i, k)
    ensures var claims := tr[i].out.pair.access;
            && TokenCutoff(claims.userId) in After(c, tr).kv && After(c, tr).kv[TokenCutoff(claims.userId)] == Marker(when)
            && claims.issuedAt == FloorSecond(tr[i].now) && claims.expiresAt == FloorSecond(tr[i].now + c.accessHours * HOUR)
            && Unix(tr[i].now) < Unix(when)
  {
    hide Step, After;
    when := LatestMarker(c, tr, k, tr[i].out.user.id);
    GrantedUser(c, tr, i);
  }

  lemma {:induction false} LatestMarker(c: Config, tr: seq<Event>, k: nat, id: string) returns (when: Time)
    requires IsTrace(c, tr) && ChangesPassword(c, tr, k, id)
    ensures tr[k].now <= when && Unix(tr[k].now) <= Unix(when)
    ensures TokenCutoff(id) in After(c, tr).kv && After(c, tr).kv[TokenCutoff(id)] == Marker(when)
  {
    hide Step;
    ChangeSticks(c, tr, k, id);
    TraceCutoff(c, tr);
    when := After(c, tr).rows[id].passwordChangedAt.value;
  }

  /** With access tokens of at most a day, one issued in a second before a password change is refused
      after every continuation and at every instant, across any number of further changes. */
  lemma {:induction false} AccessRefusedForever(c: Config, tr: seq<Event>, i: nat, k: nat, now: Time, needAdmin: bool)
    requires IsTrace(c, tr) && c.accessHours <= 24 && Outdated(c, tr, i, k)
    ensures AccessCheck(After(c, tr).kv, now, Signed(tr[i].out.pair.access), needAdmin).Rejected?
  {
    hide Step, After, AccessCheck;
    var when := MarkedToken(c, tr, i, k);
    AccessRefusedNow(After(c, tr).kv, now, tr[i].out.pair.access, needAdmin, tr[i].now, when, c.accessHours);
  }

  /** A token issued at or after the latest change of its user is never refused by the cutoff. */
  lemma {:induction false} LaterTokensUnaffected(c: Config, tr: seq<Event>, i: nat, now: Time, needAdmin: bool)
    requires IsTrace(c, tr) && i < |tr| && tr[i].out.Granted?
    requires var rows, id := After(c, tr).rows, tr[i].out.user.id;
             id in rows ==> rows[id].passwordChangedAt.None? || rows[id].passwordChangedAt.value <= tr[i].now
    ensures AccessCheck(After(c, tr).kv, now, Signed(tr[i].out.pair.access), needAdmin) != Rejected(Revoked)
  {
    hide Step, After;
    var w, id := After(c, tr), tr[i].out.user.id;
    GrantedUser(c, tr, i);
    TraceCutoff(c, tr);
    if TokenCutoff(id) in w.kv {
      var when := w.rows[id].passwordChangedAt.value;
      ParseFormat(Unix(when));
      FloorSecondMonotone(when, tr[i].now);
    }
  }

  /** After any run a token older than its user's latest change is admitted again at some instant from then on
      exactly when it outlives the marker of that change and that instant is still to come. */
  lemma ReadmittedIff(c: Config, tr: seq<Event>, i: nat, k: nat)
    requires IsTrace(c, tr) && Outdated(c, tr, i, k)
    ensures var id, claims, last := tr[i].out.user.id, tr[i].out.pair.access, tr[|tr| - 1].now;
            && id in After(c, tr).rows && After(c, tr).rows[id].passwordChangedAt.Some?
            && var when := After(c, tr).rows[id].passwordChangedAt.value;
               (exists now :: last <= now && AccessCheck(After(c, tr).kv, now, Signed(claims), false) == Done)
                 <==> when + CUTOFF_TTL < claims.expiresAt && last < claims.expiresAt
  {
    hide Step, After;
    var id, claims, last := tr[i].out.user.id, tr[i].out.pair.access, tr[|tr| - 1].now;
    ChangeSticks(c, tr, k, id);
    TraceCutoff(c, tr);
    GrantedUser(c, tr, i);
    var when := After(c, tr).rows[id].passwordChangedAt.value;
    FloorSecondMonotone(tr[k].now, when);
    forall now
      ensures AccessCheck(After(c, tr).kv, now, Signed(claims), false) == Done <==> when + CUTOFF_TTL <= now < claims.expiresAt
    {
      MarkedCheck(After(c, tr).kv, now, claims, tr[i].now, when);
    }
    var at := if last < when + CUTOFF_TTL then when + CUTOFF_TTL else last;
    assert at < claims.expiresAt ==> AccessCheck(After(c, tr).kv, at, Signed(claims), false) == Done;
  }

  /** Under a marker of a later second an access token is admitted exactly between the marker's end and its own. */
  lemma MarkedCheck(kv: Store, now: Time, claims: Claims, t: Time, when: Time)
    requires TokenCutoff(claims.userId) in kv && kv[TokenCutoff(claims.userId)] == Marker(when)
    requires claims.kind == Access && claims.issuedAt == FloorSecond(t) && Unix(t) < Unix(when)
    ensures AccessCheck(kv, now, Signed(claims), false) == Done <==> when + CUTOFF_TTL <= now < claims.expiresAt
  {
    ParseFormat(Unix(when));
  }

  /** One event more, with its outcome. */
  lemma {:induction false} Observed(c: Config, tr: seq<Event>, now: Time, op: Op) returns (tr': seq<Event>)
    requires IsTrace(c, tr) && tr != [] && tr[|tr| - 1].now <= now
    ensures tr' == Observe(c, tr, now, op) && IsTrace(c, tr') && After(c, tr') == Step(c, After(c, tr), now, op).0
    ensures tr'[|tr|].out == Step(c, After(c, tr), now, op).1
  {
    hide Step;
    ObserveIsTrace(c, tr, now, op);
    tr' := Observe(c, tr, now, op);
  }

  /** The right code, submitted first, activates the account that awaits it. */
  lemma RightCode(c: Config, w: World) returns (u: User)
    requires c.otpMax >= 1 && RowsOk(w.rows) && OtpAttempts.Primed(c, w, 0) && LoginAttempts(OtpAttempts.EMAIL) !in w.kv
    ensures var w' := Step(c, w, 0, VerifyOTPOp(OtpAttempts.EMAIL, "1")).0;
            && LoginAttempts(OtpAttempts.EMAIL) !in w'.kv && FindByEmail(w'.rows, OtpAttempts.EMAIL) == Some(u)
            && u.active && u.id == FindByEmail(w.rows, OtpAttempts.EMAIL).value.id
  {
    var before := FindByEmail(w.rows, OtpAttempts.EMAIL).value;
    var w' := Step(c, w, 0, VerifyOTPOp(OtpAttempts.EMAIL, "1")).0;
    assert w'.rows == WriteActive(w.rows, before.id, 0);
    WritesKeepRowsOk(w.rows, before, 0);
    FindByEmailUnique(w'.rows, before.id);
    u := w'.rows[before.id];
  }

  /** A deployment in which one account was registered and activated at instant 0. */
  lemma {:induction false} ActiveRun(c: Config) returns (tr: seq<Event>, u: User)
    requires c.otpMax >= 1
    ensures IsTrace(c, tr) && tr != [] && tr[|tr| - 1].now == 0
    ensures FindByEmail(After(c, tr).rows, OtpAttempts.EMAIL) == Some(u) && u.active && u.id == "id"
    ensures LoginAttempts(OtpAttempts.EMAIL) !in After(c, tr).kv
  {
    hide Step, After;
    var primed := OtpAttempts.PrimedRun(c);
    TraceRowsOk(c, primed);
    tr := Observed(c, primed, 0, VerifyOTPOp(OtpAttempts.EMAIL, "1"));
    u := RightCode(c, After(c, primed));
  }

  /** That account logs in at instant 0 and changes its password one second later. */
  lemma ChangedRun(c: Config) returns (tr: seq<Event>, i: nat, k: nat)
    requires c.otpMax >= 1 && c.refreshDays > 0
    ensures IsTrace(c, tr) && i < |tr| && tr[i].out.Granted? && tr[i].now == 0
    ensures ChangesPassword(c, tr, k, tr[i].out.user.id) && k == |tr| - 1 && tr[k].now == SECOND
  {
    hide ResetPassword, ForgotPassword, VerifyOTP, SendOTP, RefreshToken;
    var primed, u := ActiveRun(c);
    TraceRowsOk(c, primed);
    i := |primed|;
    var session := Observed(c, primed, 0, LoginOp(OtpAttempts.EMAIL, u.password.plain, "a", "r"));
    k := |session|;
    tr := Observed(c, session, SECOND, ChangeOp(u.id, u.password.plain, "q", 0));
    assert tr[i] == session[i];
  }

  /** Every access token of every run is refused after a password change of a later second exactly when access
      tokens live at most a day. */
  lemma AccessLifetimeSafeIff(c: Config)
    requires c.otpMax >= 1 && c.refreshDays > 0
    ensures (forall tr: seq<Event>, i: nat, k: nat, now: Time, admin: bool | IsTrace(c, tr) && Outdated(c, tr, i, k) ::
               AccessCheck(After(c, tr).kv, now, Signed(tr[i].out.pair.access), admin).Rejected?)
            <==> c.accessHours <= 24
  {
    hide Step, After, AccessCheck;
    if c.accessHours <= 24 {
      forall tr: seq<Event>, i: nat, k: nat, now: Time, admin: bool | IsTrace(c, tr) && Outdated(c, tr, i, k)
        ensures AccessCheck(After(c, tr).kv, now, Signed(tr[i].out.pair.access), admin).Rejected?
      {
        AccessRefusedForever(c, tr, i, k, now, admin);
      }
    } else {
      var tr, i, k := ChangedRun(c);
      GrantedUser(c, tr, i);
      ChangeSticks(c, tr, k, tr[i].out.user.id);
      ReadmittedIff(c, tr, i, k);
      assert After(c, tr).rows[tr[i].out.user.id].passwordChangedAt == Some(SECOND) by { LastChange(c, tr, tr[i].out.user.id); }
      var now :| SECOND <= now && AccessCheck(After(c, tr).kv, now, Signed(tr[i].out.pair.access), false) == Done;
    }
  }

  /** A change that is the last event is the latest. */
  lemma LastChange(c: Config, tr: seq<Event>, id: string)
    requires IsTrace(c, tr) && tr != [] && ChangesPassword(c, tr, |tr| - 1, id)
    ensures id in After(c, tr).rows && After(c, tr).rows[id].passwordChangedAt == Some(tr[|tr| - 1].now)
  {
    var n := |tr| - 1;
    TraceRowsOk(c, tr[..n]);
    PasswordStep(c, After(c, tr[..n]), tr[n].now, tr[n].op);
  }
}
