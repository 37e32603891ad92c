/** What a run says about an account: its registration, its latest password, whether it was verified, and so who
    can log in. */
module AccountHistory {
  import opened Base
  import opened KeyValue
  import opened Keys
  import opened Accounts
  import opened AuthSpec
  import opened Revocation
  import Users

  predicate Registers(e: Event, id: string) { e.op.RegisterOp? && e.op.id == id && e.out == Done }

  /** What the account was registered with. */
  function Registration(tr: seq<Event>, id: string): Option<Users.Registration> {
    if tr == [] then None
    else var n := |tr| - 1; if Registers(tr[n], id) then Some(tr[n].op.reg) else Registration(tr[..n], id)
  }

  /** The password it was given last, by registration, change or reset. */
  ghost function LatestPassword(c: Config, tr: seq<Event>, id: string): Option<string> {
    if tr == [] then None
    else
      var n := |tr| - 1;
      if Registers(tr[n], id) then Some(tr[n].op.reg.password)
      else if ChangesPassword(c, tr, n, id) then Some(tr[n].op.password)
      else LatestPassword(c, tr[..n], id)
  }

  /** Somebody submitted the right code for the address. */
  ghost predicate Verified(tr: seq<Event>, email: string) {
    exists k :: 0 <= k < |tr| && Verifies(tr[k], email)
  }

  predicate Verifies(e: Event, email: string) { e.op.VerifyOTPOp? && e.op.email == email && e.out == Done }

  /** A registration that is answered Done adds exactly one row, as registered; any other adds none. */
  lemma RegisterStep(c: Config, w: World, now: Time, op: Op)
    requires RowsOk(w.rows) && op.RegisterOp?
    ensures var (w', out) := Step(c, w, now, op);
            if out != Done then w' == w
            else
              && op.id !in w.rows && w'.rows.Keys == w.rows.Keys + {op.id} && (forall id | id in w.rows :: w'.rows[id] == w.rows[id])
              && var u := w'.rows[op.id];
                 && u.email == NormalizeEmail(op.reg.email) && u.username == TrimSpace(op.reg.username) && u.roleId == op.reg.roleId
                 && u.password.plain == op.reg.password && !u.active && u.passwordChangedAt == None
                 && forall id | id in w.rows :: w.rows[id].email != u.email
  {
    hide NormalizeEmail, TrimSpace;
  }

  /** A change or reset that is answered Done leaves exactly the new password valid, and touches no other column
      that matters and no other account; any other answer changes nothing. */
  lemma ReplaceStep(c: Config, w: World, now: Time, op: Op)
    requires RowsOk(w.rows) && (op.ChangeOp? || op.ResetOp?)
    ensures var (w', out) := Step(c, w, now, op);
            if out != Done then w' == w
            else
              && (op.ResetOp? ==> Get(w.kv, now, PasswordReset(op.resetToken)).Some?)
              && var id := if op.ChangeOp? then op.userId else Get(w.kv, now, PasswordReset(op.resetToken)).value;
              && id in w.rows && w'.rows.Keys == w.rows.Keys
              && w'.rows[id].password.plain == op.password
              && (forall q :: w'.rows[id].VerifyPassword(q) <==> q == op.password)
              && (op.ChangeOp? ==> w.rows[id].VerifyPassword(op.current))
              && w'.rows[id].active == w.rows[id].active && w'.rows[id].email == w.rows[id].email
              && w'.rows[id].roleId == w.rows[id].roleId && w'.rows[id].username == w.rows[id].username
              && forall o | o in w.rows && o != id :: w'.rows[o] == w.rows[o]
  {
  }

  /** Any other use case keeps every row but that a right code activates the account of its address. */
  lemma KeepStep(c: Config, w: World, now: Time, op: Op)
    requires RowsOk(w.rows) && !op.RegisterOp? && !op.ChangeOp? && !op.ResetOp?
    ensures var (w', out) := Step(c, w, now, op);
            && w'.rows.Keys == w.rows.Keys
            && (Verifies(Event(now, op, out), if op.VerifyOTPOp? then op.email else "") ==>
                  exists id :: id in w.rows && w.rows[id].email == op.email)
            && forall id | id in w.rows ::
                 && w'.rows[id].password == w.rows[id].password && w'.rows[id].email == w.rows[id].email
                 && w'.rows[id].roleId == w.rows[id].roleId && w'.rows[id].username == w.rows[id].username
                 && (w'.rows[id].active <==> w.rows[id].active || Verifies(Event(now, op, out), w.rows[id].email))
  {
    if op.VerifyOTPOp? { VerifyRows(c, w, now, op.email, op.code); }
    else { hide Login, RefreshToken, ForgotPassword, SendOTP; OthersKeepRows(c, w, now, op); }
  }

  lemma OthersKeepRows(c: Config, w: World, now: Time, op: Op)
    requires !op.RegisterOp? && !op.ChangeOp? && !op.ResetOp? && !op.VerifyOTPOp?
    ensures Step(c, w, now, op).0.rows == w.rows
  {
  }

  lemma VerifyRows(c: Config, w: World, now: Time, email: string, code: string)
    requires RowsOk(w.rows)
    ensures var (w', out) := VerifyOTP(c, w, now, email, code);
            if out != Done then w'.rows == w.rows
            else exists id :: id in w.rows && w.rows[id].email == email && w'.rows == w.rows[id := w'.rows[id]] &&
                              w'.rows[id] == w.rows[id].(active := true, updatedAt := Some(now))
  {
    var found := FindByEmail(w.rows, email);
    if found.Some? { assert w.rows[found.value.id] == found.value; }
  }

  /** In every run the table holds exactly the registered accounts, under their registered address, name and role. */
  lemma {:induction false} RowsAreRegistered(c: Config, tr: seq<Event>, id: string)
    requires IsTrace(c, tr)
    ensures var rows := After(c, tr).rows;
            && (id in rows <==> Registration(tr, id).Some?)
            && (id in rows ==>
                  var reg := Registration(tr, id).value;
                  rows[id].email == NormalizeEmail(reg.email) && rows[id].username == TrimSpace(reg.username) && rows[id].roleId == reg.roleId)
  {
    hide Step, NormalizeEmail, TrimSpace;
    if tr != [] {
      var n := |tr| - 1;
      var e, w := tr[n], After(c, tr[..n]);
      RowsAreRegistered(c, tr[..n], id);
      TraceRowsOk(c, tr[..n]);
      if e.op.RegisterOp? { RegisterStep(c, w, e.now, e.op); }
      else if e.op.ChangeOp? || e.op.ResetOp? { ReplaceStep(c, w, e.now, e.op); }
      else { KeepStep(c, w, e.now, e.op); }
    }
  }

  /** Event e, at a state w, gives the account its password. */
  ghost predicate Gives(w: World, e: Event, id: string) {
    e.out == Done && ((e.op.ChangeOp? && e.op.userId == id) ||
                      (e.op.ResetOp? && Get(w.kv, e.now, PasswordReset(e.op.resetToken)) == Some(id)))
  }

  lemma {:induction false} DigestStep(c: Config, w: World, e: Event, id: string)
    requires RowsOk(w.rows) && e.out == Step(c, w, e.now, e.op).1
    ensures var rows' := Step(c, w, e.now, e.op).0.rows;
            && (id in rows' <==> id in w.rows || Registers(e, id)) && (Gives(w, e, id) ==> id in w.rows)
            && (id in rows' ==>
                  rows'[id].password.plain == (if Registers(e, id) then e.op.reg.password
                                               else if Gives(w, e, id) then e.op.password else w.rows[id].password.plain))
  {
    hide Step;
    if e.op.RegisterOp? { RegisterStep(c, w, e.now, e.op); }
    else if e.op.ChangeOp? || e.op.ResetOp? { ReplaceStep(c, w, e.now, e.op); }
    else { KeepStep(c, w, e.now, e.op); }
  }

  /** The digest in the table is of the password given last. */
  lemma {:induction false} DigestIsLatest(c: Config, tr: seq<Event>, id: string)
    requires IsTrace(c, tr)
    ensures var rows := After(c, tr).rows;
            && (id in rows <==> LatestPassword(c, tr, id).Some?)
            && (id in rows ==> rows[id].password.plain == LatestPassword(c, tr, id).value)
  {
    hide Step;
    if tr != [] {
      var n := |tr| - 1;
      var e, w := tr[n], After(c, tr[..n]);
      DigestIsLatest(c, tr[..n], id);
      TraceRowsOk(c, tr[..n]);
      DigestStep(c, w, e, id);
    }
  }

  /** In every run exactly the password given last verifies. */
  lemma {:induction false} PasswordIsLatest(c: Config, tr: seq<Event>, id: string)
    requires IsTrace(c, tr)
    ensures var rows := After(c, tr).rows;
            && (id in rows <==> LatestPassword(c, tr, id).Some?)
            && (id in rows ==> forall q :: rows[id].VerifyPassword(q) <==> q == LatestPassword(c, tr, id).value)
  {
    hide Step, After;
    DigestIsLatest(c, tr, id);
  }

  lemma VerifiedMore(tr: seq<Event>, email: string)
    requires tr != []
    ensures Verified(tr, email) <==> Verified(tr[..|tr| - 1], email) || Verifies(tr[|tr| - 1], email)
  {
    var n := |tr| - 1;
    if Verified(tr[..n], email) {
      var k :| 0 <= k < n && Verifies(tr[..n][k], email);
      assert Verifies(tr[k], email);
    }
    if k :| 0 <= k < |tr| && Verifies(tr[k], email) {
      if k < n { assert Verifies(tr[..n][k], email); }
    }
  }

  /** In every run an account is active exactly when its address was verified. */
  lemma {:induction false} ActiveIffVerified(c: Config, tr: seq<Event>, email: string)
    requires IsTrace(c, tr)
    ensures forall id | id in After(c, tr).rows && After(c, tr).rows[id].email == email :: After(c, tr).rows[id].active <==> Verified(tr, email)
    ensures Verified(tr, email) ==> exists id :: id in After(c, tr).rows && After(c, tr).rows[id].email == email
  {
    hide Step, Verified, Verifies;
    if tr == [] {
      NeverVerified(email);
    } else {
      var n := |tr| - 1;
      var e, w := tr[n], After(c, tr[..n]);
      ActiveIffVerified(c, tr[..n], email);
      VerifiedMore(tr, email);
      TraceRowsOk(c, tr[..n]);
      TraceRowsOk(c, tr);
      VerifiesOnly(e, email);
      if e.op.RegisterOp? { RegisterStep(c, w, e.now, e.op); }
      else if e.op.ChangeOp? || e.op.ResetOp? { ReplaceStep(c, w, e.now, e.op); }
      else { KeepStep(c, w, e.now, e.op); }
    }
  }

  lemma NeverVerified(email: string)
    ensures !Verified([], email)
  {
  }

  lemma VerifiesOnly(e: Event, email: string)
    ensures Verifies(e, email) ==> e.op.VerifyOTPOp? && e.op.email == email
  {
  }

  /** Who can log in, from the history alone: in every run a login whose attempt the guard admits is granted exactly
      to an address that was registered and verified, with the password that its account was given last. */
  lemma {:induction false} LoginGrantedIff(c: Config, tr: seq<Event>, now: Time, e: string, p: string, a: string, r: string)
    requires IsTrace(c, tr) && c.refreshDays > 0
    requires CountAttempt(After(c, tr).kv, now, LoginAttempts(e), c.loginMax, c.loginTTL).1
    ensures Login(c, After(c, tr), now, e, p, a, r).1.Granted? <==>
            Verified(tr, e) && exists id :: HasAddress(tr, id, e) && LatestPassword(c, tr, id) == Some(p)
  {
    hide Step, After, Verified, NormalizeEmail, CountAttempt;
    var rows := After(c, tr).rows;
    TraceRowsOk(c, tr);
    ActiveIffVerified(c, tr, e);
    forall id ensures HasAddress(tr, id, e) <==> id in rows && rows[id].email == e { RowsAreRegistered(c, tr, id); }
    forall id ensures LatestPassword(c, tr, id) == Some(p) <==> id in rows && rows[id].VerifyPassword(p) { PasswordIsLatest(c, tr, id); }
    var found := FindByEmail(rows, e);
    if found.Some? { assert HasAddress(tr, found.value.id, e); }
  }

  lemma LowerMeets(a: string, b: string)
    ensures Lower(a) == Lower(b) <==> SameButCase(a, b)
  {
    if Lower(a) == Lower(b) {
      forall i | 0 <= i < |a| ensures LowerChar(a[i]) == LowerChar(b[i]) { assert Lower(a)[i] == Lower(b)[i]; }
    }
  }

  /** An account registered before has the address, or the user name but for case. */
  ghost predicate Taken(tr: seq<Event>, id: string, reg: Users.Registration) {
    Registration(tr, id).Some? &&
    var other := Registration(tr, id).value;
    NormalizeEmail(other.email) == NormalizeEmail(reg.email) || SameButCase(TrimSpace(other.username), TrimSpace(reg.username))
  }

  /** Who can register, from the history alone: in every run a registration is answered Done exactly if its fields
      are there, its password can be hashed, its identifier is new, and no account registered before has its address
      or its user name but for case. */
  lemma {:induction false} RegisterDoneIff(c: Config, tr: seq<Event>, now: Time, reg: Users.Registration, id: string, salt: nat, addressOk: bool)
    requires IsTrace(c, tr)
    ensures Step(c, After(c, tr), now, RegisterOp(reg, id, salt, addressOk)).1 == Done <==>
            && TrimSpace(reg.username) != "" && 1 <= |reg.password| <= 72 && NormalizeEmail(reg.email) != "" && addressOk
            && Registration(tr, id).None? && forall other :: !Taken(tr, other, reg)
  {
    hide After, NormalizeEmail, TrimSpace, Lower, SameButCase;
    var rows := After(c, tr).rows;
    RowsAreRegistered(c, tr, id);
    forall other
      ensures Taken(tr, other, reg) <==>
        other in rows && (rows[other].email == NormalizeEmail(reg.email) || Lower(rows[other].username) == Lower(TrimSpace(reg.username)))
    {
      RowsAreRegistered(c, tr, other);
      if other in rows { LowerMeets(rows[other].username, TrimSpace(reg.username)); }
    }
  }

  ghost predicate HasAddress(tr: seq<Event>, id: string, e: string) {
    Registration(tr, id).Some? && NormalizeEmail(Registration(tr, id).value.email) == e
  }
}
