/** When a token that was handed out works: from the history of the run alone. */
module TokenLifetimes {
  import opened Base
  import opened KeyValue
  import opened Keys
  import opened Accounts
  import opened Tokens
  import opened AuthSpec
  import opened SessionChains
  import opened Revocation
  import opened AccountHistory

  /** The event exchanged the identifier or logged it out. */
  predicate Ends(e: Event, j: string) {
    (Exchanges(e) && e.op.token.claims.jti == j) ||
    (e.op.LogoutOp? && e.out == Done && e.op.token.Signed? && e.op.token.claims.jti == j)
  }

  /** So did some event after event i. */
  ghost predicate Ended(tr: seq<Event>, i: nat, j: string) { exists k :: i < k < |tr| && Ends(tr[k], j) }

  lemma EndedMore(tr: seq<Event>, i: nat, j: string)
    requires i < |tr| - 1
    ensures Ended(tr, i, j) <==> Ended(tr[..|tr| - 1], i, j) || Ends(tr[|tr| - 1], j)
  {
    var n := |tr| - 1;
    if Ended(tr[..n], i, j) {
      var k :| i < k < n && Ends(tr[..n][k], j);
      assert Ends(tr[k], j);
    }
    if k :| i < k < |tr| && Ends(tr[k], j) {
      if k < n { assert Ends(tr[..n][k], j); }
    }
  }

  /** The identifier of a session is stored until its token's exact expiry unless it was exchanged or logged out. */
  ghost predicate HeldUnless(kv: Store, j: string, deadline: Time, ended: bool) {
    if ended then Refresh(j) !in kv else Refresh(j) in kv && kv[Refresh(j)] == Entry(Text(j), Some(deadline))
  }

  lemma HeldAtGrant(c: Config, tr: seq<Event>)
    requires IsTrace(c, tr) && FreshIdentifiers(tr) && tr != [] && tr[|tr| - 1].out.Granted?
    ensures var e := tr[|tr| - 1];
            && Mints(e) && e.op.refreshJti in Root(tr)
            && HeldUnless(After(c, tr).kv, e.op.refreshJti, e.now + c.refreshDays * DAY, false)
  {
    hide Step, Login, RefreshToken, Logout;
    var n := |tr| - 1;
    var e, w := tr[n], After(c, tr[..n]);
    TraceRowsOk(c, tr[..n]);
    TraceChains(c, tr[..n]);
    GrantStep(c, w, e.now, e.op);
    SessionStep(c, w, e.now, e.op);
  }

  lemma {:induction false} KeyHeld(c: Config, tr: seq<Event>, i: nat)
    requires IsTrace(c, tr) && FreshIdentifiers(tr) && i < |tr| && tr[i].out.Granted?
    ensures Mints(tr[i]) && tr[i].op.refreshJti in Root(tr)
    ensures var j := tr[i].op.refreshJti;
            HeldUnless(After(c, tr).kv, j, tr[i].now + c.refreshDays * DAY, Ended(tr, i, j))
    decreases |tr|
  {
    hide Step, HeldUnless, Ended;
    var n := |tr| - 1;
    if i == n {
      HeldAtGrant(c, tr);
      NotEnded(tr, i);
    } else {
      KeyHeld(c, tr[..n], i);
      var e, w, j := tr[n], After(c, tr[..n]), tr[i].op.refreshJti;
      SessionStep(c, w, e.now, e.op);
      EndedMore(tr, i, j);
      HeldStep(w.kv, After(c, tr).kv, e, j, tr[i].now + c.refreshDays * DAY, Ended(tr[..n], i, j));
    }
  }

  lemma NotEnded(tr: seq<Event>, i: nat)
    requires i == |tr| - 1 && Mints(tr[i])
    ensures !Ended(tr, i, tr[i].op.refreshJti)
  {
  }

  lemma HeldStep(kv: Store, kv': Store, e: Event, j: string, deadline: Time, ended: bool)
    requires HeldUnless(kv, j, deadline, ended) && (Mints(e) ==> e.op.refreshJti != j)
    requires if e.out.Granted? && e.op.LoginOp? then
               SameSessions(kv[Refresh(e.op.refreshJti) := Entry(Text(e.op.refreshJti), Some(e.out.pair.refreshExpiresAt))], kv')
             else if e.out.Granted? && e.op.RefreshOp? then
               && Exchanges(e)
               && kv' == kv[Refresh(e.op.refreshJti) := Entry(Text(e.op.refreshJti), Some(e.out.pair.refreshExpiresAt))]
                            - {Refresh(e.op.token.claims.jti)}
             else if e.op.LogoutOp? && e.out == Done then e.op.token.Signed? && kv' == kv - {Refresh(e.op.token.claims.jti)}
             else SameSessions(kv, kv')
    ensures HeldUnless(kv', j, deadline, ended || Ends(e, j))
  {
  }

  /** The granted account keeps its role and stays active. */
  lemma {:induction false} GrantedRowStays(c: Config, tr: seq<Event>, i: nat)
    requires IsTrace(c, tr) && i < |tr| && tr[i].out.Granted?
    ensures var rows, u := After(c, tr).rows, tr[i].out.user;
            u.id in rows && rows[u.id].active && rows[u.id].roleId == u.roleId
    decreases |tr|
  {
    hide Step;
    var n := |tr| - 1;
    var e, w := tr[n], After(c, tr[..n]);
    TraceRowsOk(c, tr[..n]);
    if i == n { GrantStep(c, w, e.now, e.op); } else { GrantedRowStays(c, tr[..n], i); }
    if e.op.RegisterOp? { RegisterStep(c, w, e.now, e.op); }
    else if e.op.ChangeOp? || e.op.ResetOp? { ReplaceStep(c, w, e.now, e.op); }
    else { KeepStep(c, w, e.now, e.op); }
  }

  /** A change instant in the table is that of some change of that user. */
  lemma {:induction false} StampIsChange(c: Config, tr: seq<Event>, id: string) returns (k: nat)
    requires IsTrace(c, tr) && id in After(c, tr).rows && After(c, tr).rows[id].passwordChangedAt.Some?
    ensures ChangesPassword(c, tr, k, id) && After(c, tr).rows[id].passwordChangedAt == Some(tr[k].now)
  {
    hide Step;
    var n := |tr| - 1;
    var e, w := tr[n], After(c, tr[..n]);
    TraceRowsOk(c, tr[..n]);
    if ChangesPassword(c, tr, n, id) {
      PasswordStep(c, w, e.now, e.op);
      k := n;
    } else {
      if e.op.ChangeOp? || e.op.ResetOp? { OtherPassword(c, w, e.now, e.op, id); } else { OtherStep(c, w, e.now, e.op); }
      k := StampIsChange(c, tr[..n], id);
      assert tr[..n][..k] == tr[..k];
    }
  }

  /** A change or reset of nobody or of somebody else. */
  lemma OtherPassword(c: Config, w: World, now: Time, op: Op, id: string)
    requires RowsOk(w.rows) && (op.ChangeOp? || op.ResetOp?)
    requires Step(c, w, now, op).1 == Done ==>
               if op.ChangeOp? then op.userId != id else Get(w.kv, now, PasswordReset(op.resetToken)) != Some(id)
    ensures id in Step(c, w, now, op).0.rows <==> id in w.rows
    ensures id in w.rows ==> Step(c, w, now, op).0.rows[id] == w.rows[id]
  {
    hide Step;
    ReplaceStep(c, w, now, op);
  }

  /** The user's password was changed after the second in which event i granted the session began. */
  ghost predicate ChangedSince(c: Config, tr: seq<Event>, i: nat)
    requires i < |tr| && tr[i].out.Granted?
  {
    exists k: nat :: ChangesPassword(c, tr, k, tr[i].out.user.id) && FloorSecond(tr[i].now) < tr[k].now
  }

  lemma {:induction false} SupersededIff(c: Config, tr: seq<Event>, i: nat)
    requires IsTrace(c, tr) && i < |tr| && tr[i].out.Granted?
    ensures var rows, id := After(c, tr).rows, tr[i].out.user.id;
            id in rows && (ChangedSince(c, tr, i) <==>
              rows[id].passwordChangedAt.Some? && FloorSecond(tr[i].now) < rows[id].passwordChangedAt.value)
  {
    hide Step, After;
    var rows, id := After(c, tr).rows, tr[i].out.user.id;
    GrantedUser(c, tr, i);
    if k: nat :| ChangesPassword(c, tr, k, id) && FloorSecond(tr[i].now) < tr[k].now { ChangeSticks(c, tr, k, id); }
    if rows[id].passwordChangedAt.Some? {
      var k := StampIsChange(c, tr, id);
    }
  }

  /** In every run, at every later instant, the refresh token of a granted session is exchanged for a new one exactly
      while it has not expired, was neither exchanged nor logged out, and its user's password was not changed since
      the second of the grant began. */
  lemma {:induction false} RefreshWorksIff(c: Config, tr: seq<Event>, i: nat, now: Time, a: string, r: string)
    requires IsTrace(c, tr) && FreshIdentifiers(tr) && i < |tr| && tr[i].out.Granted?
    ensures var token := Signed(tr[i].out.pair.refresh);
            RefreshToken(c, After(c, tr), now, token, a, r).1.Granted? <==>
            now < FloorSecond(tr[i].now + c.refreshDays * DAY) && !Ended(tr, i, token.claims.jti) && !ChangedSince(c, tr, i)
  {
    hide Step, After, Ended, ChangedSince, NormalizeEmail;
    var w, u := After(c, tr), tr[i].out.user;
    GrantedUser(c, tr, i);
    KeyHeld(c, tr, i);
    GrantedRowStays(c, tr, i);
    SupersededIff(c, tr, i);
    TraceNormalRows(c, tr);
    FindByEmailUnique(w.rows, u.id);
  }

  /** A change of the user's password in a later second than the grant, less than a day ago. */
  ghost predicate CutOff(c: Config, tr: seq<Event>, i: nat, now: Time)
    requires i < |tr| && tr[i].out.Granted?
  {
    exists k: nat :: ChangesPassword(c, tr, k, tr[i].out.user.id) && Unix(tr[i].now) < Unix(tr[k].now) && now < tr[k].now + DAY
  }

  lemma {:induction false} CutOffIff(c: Config, tr: seq<Event>, i: nat, now: Time)
    requires IsTrace(c, tr) && i < |tr| && tr[i].out.Granted?
    ensures var kv, id := After(c, tr).kv, tr[i].out.user.id;
            CutOff(c, tr, i, now) <==> Cutoff(kv, now, id).Some? && Unix(FloorSecond(tr[i].now)) < Cutoff(kv, now, id).value
  {
    hide Step, After;
    var rows, id := After(c, tr).rows, tr[i].out.user.id;
    GrantedUser(c, tr, i);
    TraceCutoff(c, tr);
    if k: nat :| ChangesPassword(c, tr, k, id) && Unix(tr[i].now) < Unix(tr[k].now) && now < tr[k].now + DAY { ChangeSticks(c, tr, k, id); }
    if rows[id].passwordChangedAt.Some? {
      var k := StampIsChange(c, tr, id);
      Decimal.ParseFormat(Unix(tr[k].now));
    }
  }

  lemma AccessVerdict(kv: Store, now: Time, claims: Claims, needAdmin: bool)
    requires claims.kind == Access
    ensures var out := AccessCheck(kv, now, Signed(claims), needAdmin);
            var cutoff := Cutoff(kv, now, claims.userId);
            var usable := now < claims.expiresAt && !(cutoff.Some? && Unix(claims.issuedAt) < cutoff.value);
            && (out == Done <==> usable && (needAdmin ==> claims.isAdmin))
            && (out == Rejected(Forbidden) <==> usable && needAdmin && !claims.isAdmin)
  {
    hide Cutoff;
  }

  /** In every run, at every instant, the access token of a granted session passes a route exactly while it has not
      expired and no change of its user's password in a later second is less than a day old, and an administrator's
      route only if its user was registered as administrator; that alone is what is then forbidden. */
  lemma {:induction false} AccessWorksIff(c: Config, tr: seq<Event>, i: nat, now: Time, needAdmin: bool)
    requires IsTrace(c, tr) && i < |tr| && tr[i].out.Granted?
    ensures var out := AccessCheck(After(c, tr).kv, now, Signed(tr[i].out.pair.access), needAdmin);
            var usable := now < FloorSecond(tr[i].now + c.accessHours * HOUR) && !CutOff(c, tr, i, now);
            && Registration(tr, tr[i].out.user.id).Some?
            && var admin := Registration(tr, tr[i].out.user.id).value.roleId == 1;
               && (out == Done <==> usable && (needAdmin ==> admin))
               && (out == Rejected(Forbidden) <==> usable && needAdmin && !admin)
  {
    hide Step, After, CutOff, Cutoff, AccessCheck, Registration;
    GrantedUser(c, tr, i);
    var claims, u := tr[i].out.pair.access, tr[i].out.user;
    assert claims.kind == Access && claims.userId == u.id && (claims.isAdmin <==> u.roleId == 1);
    assert claims.issuedAt == FloorSecond(tr[i].now) && claims.expiresAt == FloorSecond(tr[i].now + c.accessHours * HOUR);
    hide PairFor, IsTrace;
    AccessVerdict(After(c, tr).kv, now, claims, needAdmin);
    GrantedRowStays(c, tr, i);
    RowsAreRegistered(c, tr, u.id);
    CutOffIff(c, tr, i, now);
  }

  /** Logout accepts exactly the unexpired refresh tokens of this service, and from then on, whatever follows, the
      session is refused. */
  lemma LogoutDoneIff(w: World, now: Time, token: Token)
    ensures Logout(w, now, token).1 == Done <==> token.Signed? && token.claims.kind == Refreshing && now < token.claims.expiresAt
  {
  }

  lemma {:induction false} LogoutEndsSession(c: Config, tr: seq<Event>, i: nat, k: nat, now: Time, a: string, r: string)
    requires IsTrace(c, tr) && FreshIdentifiers(tr) && i < k < |tr| && tr[i].out.Granted?
    requires tr[k].op == LogoutOp(Signed(tr[i].out.pair.refresh))
    ensures tr[k].now < FloorSecond(tr[i].now + c.refreshDays * DAY) ==> tr[k].out == Done
    ensures tr[k].now <= now ==> RefreshToken(c, After(c, tr), now, Signed(tr[i].out.pair.refresh), a, r).1.Rejected?
  {
    hide Step, After;
    GrantedUser(c, tr, i);
    LogoutOutcome(c, tr, k);
    RefreshWorksIff(c, tr, i, now, a, r);
  }

  lemma LogoutOutcome(c: Config, tr: seq<Event>, k: nat)
    requires IsTrace(c, tr) && k < |tr| && tr[k].op.LogoutOp?
    ensures var t := tr[k].op.token;
            tr[k].out == Done <==> t.Signed? && t.claims.kind == Refreshing && tr[k].now < t.claims.expiresAt
    decreases |tr|
  {
    var n := |tr| - 1;
    if k < n { LogoutOutcome(c, tr[..n], k); } else { LogoutDoneIff(After(c, tr[..n]), tr[n].now, tr[n].op.token); }
  }
}
