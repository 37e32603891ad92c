/** The session and credential protocol over the key-value store and the users table. Each
    function gives the net effect of one use case that runs without interference or faults. */
module AuthSpec {
  import opened Base
  import opened KeyValue
  import opened Keys
  import opened Accounts
  import opened Tokens
  import opened Decimal
  import Users

  type Store = map<Key, Entry>

  datatype Config = Config(
    setTTL: Time,          // expiry every SET applies
    otpMax: int, otpTTL: Time,
    resetTTL: Time,
    loginMax: int, loginTTL: Time,
    forgotMax: int, forgotTTL: Time,
    accessHours: int, refreshDays: int)

  datatype World = World(kv: Store, rows: Rows)

  datatype Reason =
    | LockedOut | BadCredentials | NotActivated | AlreadyActive | UnknownUser
    | InvalidToken | Revoked | Forbidden
    | CodeMissing | CodeWrong
    | BadRequest | Unavailable

  datatype Outcome = Granted(user: User, pair: TokenPair) | Done | Rejected(reason: Reason)

  const CUTOFF_TTL: Time := DAY

  /** Count one attempt in its window. The first attempt opens the window; later ones neither
      extend nor shorten it. A limit of zero or less switches the guard off. */
  function CountAttempt(kv: Store, now: Time, k: Key, max: int, ttl: Time): (Store, bool) {
    if max <= 0 then (kv, true)
    else var (kv', attempts) := Counted(kv, now, k, ttl); (kv', attempts <= max)
  }

  /** The counter after one more attempt, and its value; zero when the key holds no counter. */
  function Counted(kv: Store, now: Time, k: Key, ttl: Time): (Store, int) {
    if !Live(kv, now, k) || kv[k].value == Count(0) then
      (if ttl > 0 then kv[k := Entry(Count(1), Some(now + ttl))] else kv - {k}, 1)
    else match kv[k].value
      case Count(n) => (kv[k := Entry(Count(n + 1), kv[k].deadline)], n + 1)
      case Text(_) => (kv, 0)
  }

  /** A key that lives until a given instant; nothing at all once that instant is past. */
  function Until(kv: Store, now: Time, k: Key, s: string, deadline: Time): Store {
    if now < deadline then kv[k := Entry(Text(s), Some(deadline))] else kv - {k}
  }

  /** SET and then EXPIRE leave the key with the second lifetime alone. */
  lemma SetThenExpire(kv: Store, now: Time, setTTL: Time, k: Key, s: string, ttl: Time)
    ensures Expire(Set(kv, now, setTTL, k, s), now, k, ttl) == Until(kv, now, k, s, now + ttl)
  {
    assert kv[k := Entry(Text(s), None)] - {k} == kv - {k};
    var e := Set(kv, now, setTTL, k, s)[k];
    assert kv[k := e] - {k} == kv - {k};
  }

  /** The revocation marker for access tokens: the second of the change, in decimal, for a day. */
  function PublishCutoff(kv: Store, now: Time, userId: string, when: Time): Store {
    kv[TokenCutoff(userId) := Entry(Text(FormatInt(Unix(when))), Some(now + CUTOFF_TTL))]
  }

  ghost function Login(c: Config, w: World, now: Time, email: string, password: string,
                       accessJti: string, refreshJti: string): (World, Outcome)
  {
    var (kv, admitted) := CountAttempt(w.kv, now, LoginAttempts(email), c.loginMax, c.loginTTL);
    if !admitted then (w.(kv := kv), Rejected(LockedOut))
    else SignIn(c, w.(kv := kv), now, email, password, accessJti, refreshJti)
  }

  /** The credential check behind the guard; success opens a session and clears the counter. */
  ghost function SignIn(c: Config, w: World, now: Time, email: string, password: string,
                        accessJti: string, refreshJti: string): (World, Outcome)
  {
    var found := FindByEmail(w.rows, email);
    if found.None? then (w, Rejected(BadCredentials))
    else if !found.value.active then (w, Rejected(NotActivated))
    else if !found.value.VerifyPassword(password) then (w, Rejected(BadCredentials))
    else if c.refreshDays <= 0 then (w, Rejected(Unavailable))
    else
      var pair := GenerateTokenPair(c.accessHours, c.refreshDays, found.value, accessJti, refreshJti, now);
      (w.(kv := Until(w.kv, now, Refresh(refreshJti), refreshJti, pair.refreshExpiresAt) - {LoginAttempts(email)}),
       Granted(found.value, pair))
  }

  /** A refresh token minted no later than the second before the last password change. */
  predicate Superseded(u: User, claims: Claims) {
    u.passwordChangedAt.Some? && claims.issuedAt < u.passwordChangedAt.value
  }

  ghost function RefreshVerdict(c: Config, w: World, now: Time, token: Token): (r: Outcome)
    ensures !r.Granted?
  {
    var claims := ParseRefreshToken(token, now);
    if claims.None? then Rejected(InvalidToken)
    else if Get(w.kv, now, Refresh(claims.value.jti)).None? then Rejected(Revoked)
    else
      var found := FindByEmail(w.rows, NormalizeEmail(claims.value.email));
      if found.None? then Rejected(UnknownUser)
      else if !found.value.active then Rejected(NotActivated)
      else if Superseded(found.value, claims.value) then Rejected(Revoked)
      else if c.refreshDays <= 0 then Rejected(Unavailable)
      else Done
  }

  /** Rotation: the new identifier replaces the presented one. */
  ghost function RefreshToken(c: Config, w: World, now: Time, token: Token, accessJti: string, refreshJti: string): (World, Outcome) {
    var v := RefreshVerdict(c, w, now, token);
    if v.Rejected? then (w, v)
    else
      var u := FindByEmail(w.rows, NormalizeEmail(token.claims.email)).value;
      var pair := GenerateTokenPair(c.accessHours, c.refreshDays, u, accessJti, refreshJti, now);
      (w.(kv := Until(w.kv, now, Refresh(refreshJti), refreshJti, pair.refreshExpiresAt) - {Refresh(token.claims.jti)}),
       Granted(u, pair))
  }

  function Logout(w: World, now: Time, token: Token): (World, Outcome) {
    var claims := ParseRefreshToken(token, now);
    if claims.None? then (w, Rejected(InvalidToken))
    else (w.(kv := w.kv - {Refresh(claims.value.jti)}), Done)
  }

  ghost function SendOTP(c: Config, w: World, now: Time, email: string, code: string, mailed: bool): (World, Outcome) {
    var found := FindByEmail(w.rows, email);
    if found.None? then (w, Rejected(UnknownUser))
    else if found.value.active then (w, Rejected(AlreadyActive))
    else if !mailed then (w, Rejected(Unavailable))
    else (w.(kv := Set(w.kv, now, c.setTTL, UserOTP(email), code) - {OTPAttempts(email)}), Done)
  }

  /** VerifyOTP counts without the switch-off that Login has. */
  ghost function VerifyOTP(c: Config, w: World, now: Time, email: string, code: string): (World, Outcome) {
    var found := FindByEmail(w.rows, email);
    if found.None? then (w, Rejected(UnknownUser))
    else if found.value.active then (w, Rejected(AlreadyActive))
    else SubmitCode(c, w, now, email, found.value.id, code)
  }

  function SubmitCode(c: Config, w: World, now: Time, email: string, id: string, code: string): (World, Outcome) {
    var (kv, attempts) := Counted(w.kv, now, OTPAttempts(email), c.otpTTL);
    var stored := Get(kv, now, UserOTP(email));
    if attempts > c.otpMax then (w.(kv := kv), Rejected(LockedOut))
    else if stored.None? then (w.(kv := kv), Rejected(CodeMissing))
    else if stored.value != code then (w.(kv := kv), Rejected(CodeWrong))
    else (World(kv - {UserOTP(email)} - {OTPAttempts(email)}, WriteActive(w.rows, id, now)), Done)
  }

  /** Remove the token that the user's index names. */
  function Invalidate(kv: Store, now: Time, id: string): Store {
    var prior := Get(kv, now, ResetIndex(id));
    if prior.Some? && prior.value != "" then kv - {PasswordReset(prior.value)} else kv
  }

  /** Replace the user's outstanding reset token, in both directions of the index. */
  function IssueReset(c: Config, kv: Store, now: Time, id: string, token: string): Store {
    var kv2 := Until(Invalidate(kv, now, id), now, PasswordReset(token), id, now + c.resetTTL);
    Until(kv2, now, ResetIndex(id), token, now + c.resetTTL)
  }

  ghost function ForgotPassword(c: Config, w: World, now: Time, email: string, token: string, mailed: bool): (World, Outcome) {
    var (kv, admitted) := CountAttempt(w.kv, now, ForgotAttempts(email), c.forgotMax, c.forgotTTL);
    if !admitted then (w.(kv := kv), Rejected(LockedOut))
    else
      var found := FindByEmail(w.rows, email);
      if found.None? then (w.(kv := kv - {PasswordReset(token)}), Done)     // decoy key, written and removed
      else (w.(kv := IssueReset(c, kv, now, found.value.id, token)), if mailed then Done else Rejected(Unavailable))
  }

  function ResetPassword(w: World, now: Time, token: string, password: string, salt: nat): (World, Outcome) {
    if password == "" || token == "" then (w, Rejected(BadRequest))
    else
      var holder := Get(w.kv, now, PasswordReset(token));
      if holder.None? || holder.value == "" then (w, Rejected(InvalidToken))
      else if holder.value !in w.rows then (w, Rejected(UnknownUser))
      else if !Hashable(password) then (w, Rejected(Unavailable))
      else
        var u := w.rows[holder.value].ChangePassword(password, salt, now);
        (World(PublishCutoff(w.kv - {PasswordReset(token)} - {ResetIndex(holder.value)}, now, holder.value, now),
               WritePassword(w.rows, u)),
         Done)
  }

  function ChangePassword(w: World, now: Time, userId: string, current: string, password: string, salt: nat): (World, Outcome) {
    if password == "" then (w, Rejected(BadRequest))
    else if userId !in w.rows then (w, Rejected(UnknownUser))
    else if !w.rows[userId].VerifyPassword(current) then (w, Rejected(BadCredentials))
    else if !Hashable(password) then (w, Rejected(Unavailable))
    else if userId == "" then (w, Rejected(BadRequest))
    else
      var u := w.rows[userId].ChangePassword(password, salt, now);
      (World(PublishCutoff(w.kv, now, userId, now), WritePassword(w.rows, u)), Done)
  }

  /** The published cutoff, if it is still there and reads as a number. */
  function Cutoff(kv: Store, now: Time, userId: string): Option<int> {
    var s := Get(kv, now, TokenCutoff(userId));
    if s.Some? && s.value != "" then ParseInt(s.value) else None
  }

  /** The auth middleware, from the bearer token on. */
  function AccessCheck(kv: Store, now: Time, token: Token, needAdmin: bool): Outcome {
    var claims := ParseToken(token, now);
    if claims.None? then Rejected(InvalidToken)
    else
      var cutoff := Cutoff(kv, now, claims.value.userId);
      if cutoff.Some? && Unix(claims.value.issuedAt) < cutoff.value then Rejected(Revoked)
      else if claims.value.isAdmin != needAdmin && !claims.value.isAdmin then Rejected(Forbidden)
      else Done
  }

  datatype Op =
    | LoginOp(email: string, password: string, accessJti: string, refreshJti: string)
    | RefreshOp(token: Token, accessJti: string, refreshJti: string)
    | LogoutOp(token: Token)
    | SendOTPOp(email: string, code: string, mailed: bool)
    | VerifyOTPOp(email: string, code: string)
    | ForgotOp(email: string, resetToken: string, mailed: bool)
    | ResetOp(resetToken: string, password: string, salt: nat)
    | ChangeOp(userId: string, current: string, password: string, salt: nat)
    | AccessOp(token: Token, needAdmin: bool)
    | RegisterOp(reg: Users.Registration, id: string, salt: nat, addressOk: bool)

  ghost function Step(c: Config, w: World, now: Time, op: Op): (World, Outcome) {
    match op
    case LoginOp(e, p, a, r) => Login(c, w, now, e, p, a, r)
    case RefreshOp(t, a, r) => RefreshToken(c, w, now, t, a, r)
    case LogoutOp(t) => Logout(w, now, t)
    case SendOTPOp(e, code, m) => SendOTP(c, w, now, e, code, m)
    case VerifyOTPOp(e, code) => VerifyOTP(c, w, now, e, code)
    case ForgotOp(e, t, m) => ForgotPassword(c, w, now, e, t, m)
    case ResetOp(t, p, s) => ResetPassword(w, now, t, p, s)
    case ChangeOp(u, cur, p, s) => ChangePassword(w, now, u, cur, p, s)
    case AccessOp(t, adm) => (w, AccessCheck(w.kv, now, t, adm))
    case RegisterOp(reg, id, salt, ok) =>
      var (rows, r) := Users.Plain(w.rows, Users.Step(now, Users.Store(reg, id, salt, ok), Users.NoFault));
      (w.(rows := rows), if r.Found? then Done else Rejected(BadRequest))
  }

  /** One observed use case. */
  datatype Event = Event(now: Time, op: Op, out: Outcome)

  const EMPTY := World(map[], map[])

  /** The state after a sequence of use cases, from an empty deployment. */
  ghost function After(c: Config, tr: seq<Event>): World {
    if tr == [] then EMPTY else var n := |tr| - 1; Step(c, After(c, tr[..n]), tr[n].now, tr[n].op).0
  }

  /** The clock never goes back. */
  predicate Ordered(tr: seq<Event>) {
    tr == [] || (var n := |tr| - 1; Ordered(tr[..n]) && (n > 0 ==> tr[n - 1].now <= tr[n].now))
  }

  /** Every outcome is the one the protocol gives. */
  ghost predicate Truthful(c: Config, tr: seq<Event>) {
    tr == [] ||
    (var n := |tr| - 1; Truthful(c, tr[..n]) && tr[n].out == Step(c, After(c, tr[..n]), tr[n].now, tr[n].op).1)
  }

  /** Every sequence of use cases with its true outcomes, in time order. */
  ghost predicate IsTrace(c: Config, tr: seq<Event>) { Ordered(tr) && Truthful(c, tr) }

  lemma {:induction false} TraceOrdered(tr: seq<Event>, i: nat, j: nat)
    requires Ordered(tr) && i <= j < |tr|
    ensures tr[i].now <= tr[j].now
    decreases |tr|
  {
    var n := |tr| - 1;
    if j < n {
      TraceOrdered(tr[..n], i, j);
    } else if i < j {
      TraceOrdered(tr[..n], i, j - 1);
    }
  }

  /** Append a use case with its true outcome. */
  ghost function Observe(c: Config, tr: seq<Event>, now: Time, op: Op): (r: seq<Event>)
    ensures |r| == |tr| + 1 && r[..|tr|] == tr && r[|tr|].now == now && r[|tr|].op == op
  {
    tr + [Event(now, op, Step(c, After(c, tr), now, op).1)]
  }

  lemma ObserveIsTrace(c: Config, tr: seq<Event>, now: Time, op: Op)
    requires IsTrace(c, tr) && (tr != [] ==> tr[|tr| - 1].now <= now)
    ensures IsTrace(c, Observe(c, tr, now, op)) && After(c, Observe(c, tr, now, op)) == Step(c, After(c, tr), now, op).0
  {
    hide Step;
  }

  /** Each use case leaves the table alone, writes one password, activates one account, or registers one. */
  lemma RowsWritten(c: Config, w: World, now: Time, op: Op)
    ensures var rows' := Step(c, w, now, op).0.rows;
            rows' == w.rows || op.RegisterOp? ||
            (exists u :: (op.ResetOp? || op.ChangeOp?) && rows' == WritePassword(w.rows, u)) ||
            (exists id :: op.VerifyOTPOp? && rows' == WriteActive(w.rows, id, now))
  {
  }

  /** No use case changes a row's identity or address, or removes a row. */
  lemma {:induction false} RowsEvolve(c: Config, w: World, now: Time, op: Op)
    requires RowsOk(w.rows)
    ensures RowsExtend(w.rows, Step(c, w, now, op).0.rows)
  {
    hide NormalizeEmail;
    if op.RegisterOp? {
      Users.StepRefines(w.rows, map[], Users.Step(now, Users.Store(op.reg, op.id, op.salt, op.addressOk), Users.NoFault));
    } else {
      hide Step;
      var rows' := Step(c, w, now, op).0.rows;
      RowsWritten(c, w, now, op);
      if u :| rows' == WritePassword(w.rows, u) {
        WritesKeepRowsOk(w.rows, u, now);
      } else if id :| rows' == WriteActive(w.rows, id, now) {
        if id in w.rows { WritesKeepRowsOk(w.rows, w.rows[id], now); }
      }
    }
  }

  lemma {:induction false} TraceRowsOk(c: Config, tr: seq<Event>)
    ensures RowsOk(After(c, tr).rows)
  {
    if tr != [] {
      var n := |tr| - 1;
      TraceRowsOk(c, tr[..n]);
      RowsEvolve(c, After(c, tr[..n]), tr[n].now, tr[n].op);
    }
  }

  /** The key holds the same entry in both stores, or is absent from both. */
  ghost predicate Same(kv: Store, kv': Store, k: Key) {
    (k in kv' <==> k in kv) && (k in kv ==> kv'[k] == kv[k])
  }

  /** Which use cases write a key. */
  predicate MayWrite(op: Op, k: Key) {
    match k
    case Refresh(_) => op.LoginOp? || op.RefreshOp? || op.LogoutOp?
    case UserOTP(e) => (op.SendOTPOp? || op.VerifyOTPOp?) && op.email == e
    case OTPAttempts(e) => (op.SendOTPOp? || op.VerifyOTPOp?) && op.email == e
    case LoginAttempts(e) => op.LoginOp? && op.email == e
    case ForgotAttempts(e) => op.ForgotOp? && op.email == e
    case PasswordReset(_) => op.ForgotOp? || op.ResetOp?
    case ResetIndex(_) => op.ForgotOp? || op.ResetOp?
    case TokenCutoff(u) => op.ResetOp? || (op.ChangeOp? && op.userId == u)
  }

  lemma LoginFrame(c: Config, w: World, now: Time, e: string, p: string, a: string, r: string, k: Key)
    requires !k.Refresh? && k != LoginAttempts(e)
    ensures Same(w.kv, Login(c, w, now, e, p, a, r).0.kv, k)
  {
  }

  lemma RefreshFrame(c: Config, w: World, now: Time, t: Token, a: string, r: string, k: Key)
    requires !k.Refresh?
    ensures Same(w.kv, RefreshToken(c, w, now, t, a, r).0.kv, k)
  {
  }

  lemma VerifyFrame(c: Config, w: World, now: Time, e: string, code: string, k: Key)
    requires k != UserOTP(e) && k != OTPAttempts(e)
    ensures Same(w.kv, VerifyOTP(c, w, now, e, code).0.kv, k)
  {
  }

  lemma ForgotFrame(c: Config, w: World, now: Time, e: string, t: string, m: bool, k: Key)
    requires !k.PasswordReset? && !k.ResetIndex? && k != ForgotAttempts(e)
    ensures Same(w.kv, ForgotPassword(c, w, now, e, t, m).0.kv, k)
  {
  }

  lemma PasswordFrame(w: World, now: Time, op: Op, k: Key)
    requires !MayWrite(op, k)
    ensures op.ResetOp? ==> Same(w.kv, ResetPassword(w, now, op.resetToken, op.password, op.salt).0.kv, k)
    ensures op.ChangeOp? ==> Same(w.kv, ChangePassword(w, now, op.userId, op.current, op.password, op.salt).0.kv, k)
  {
  }

  /** No other key changes. */
  lemma {:induction false} StepFrame(c: Config, w: World, now: Time, op: Op, k: Key)
    requires !MayWrite(op, k)
    ensures Same(w.kv, Step(c, w, now, op).0.kv, k)
  {
    match op
    case LoginOp(e, p, a, r) => LoginFrame(c, w, now, e, p, a, r, k);
    case RefreshOp(t, a, r) => RefreshFrame(c, w, now, t, a, r, k);
    case ForgotOp(e, t, m) => ForgotFrame(c, w, now, e, t, m, k);
    case VerifyOTPOp(e, code) => VerifyFrame(c, w, now, e, code, k);
    case ResetOp(_, _, _) => PasswordFrame(w, now, op, k);
    case ChangeOp(_, _, _, _) => PasswordFrame(w, now, op, k);
    case _ =>
  }
}
