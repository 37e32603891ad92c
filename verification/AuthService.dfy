/** The auth use cases as they run: one external call after another against the shared store
    and the users use cases, any of which may fail. Without failures each run has exactly the
    effect that AuthSpec gives it; with failures the safety clauses still hold. */
module AuthService {
  import opened Base
  import opened KeyValue
  import opened Keys
  import opened Accounts
  import opened Tokens
  import opened Decimal
  import opened AuthSpec
  import Users

  /** A call succeeds, fails without effect, or takes effect and still reports an error. */
  datatype Fault = Healthy | Lost | Unconfirmed

  class RedisCache {
    var kv: Store
    const expires: Time

    constructor (expires: Time)
      ensures kv == map[] && this.expires == expires
    {
      this.expires := expires;
      kv := map[];
    }

    method Set(now: Time, k: Key, s: string, f: Fault) returns (ok: bool)
      modifies this
      ensures ok == f.Healthy?
      ensures kv == if f.Lost? then old(kv) else KeyValue.Set(old(kv), now, expires, k, s)
    {
      if !f.Lost? { kv := KeyValue.Set(kv, now, expires, k, s); }
      ok := f.Healthy?;
    }

    method Get(now: Time, k: Key, f: Fault) returns (r: Option<string>)
      ensures r == if f.Healthy? then KeyValue.Get(kv, now, k) else None
    {
      r := if f.Healthy? then KeyValue.Get(kv, now, k) else None;
    }

    method Del(k: Key, f: Fault) returns (ok: bool)
      modifies this
      ensures ok == f.Healthy?
      ensures kv == if f.Lost? then old(kv) else KeyValue.Del(old(kv), k)
    {
      if !f.Lost? { kv := KeyValue.Del(kv, k); }
      ok := f.Healthy?;
    }

    method Incr(now: Time, k: Key, f: Fault) returns (n: Option<int>)
      modifies this
      ensures kv == if f.Lost? then old(kv) else KeyValue.Incr(old(kv), now, k).0
      ensures n == if f.Healthy? then KeyValue.Incr(old(kv), now, k).1 else None
    {
      var (kv', count) := KeyValue.Incr(kv, now, k);
      if !f.Lost? { kv := kv'; }
      n := if f.Healthy? then count else None;
    }

    method Expire(now: Time, k: Key, ttl: Time, f: Fault) returns (ok: bool)
      modifies this
      ensures ok == f.Healthy?
      ensures kv == if f.Lost? then old(kv) else KeyValue.Expire(old(kv), now, k, ttl)
    {
      if !f.Lost? { kv := KeyValue.Expire(kv, now, k, ttl); }
      ok := f.Healthy?;
    }
  }

  /** The external calls of the use cases, in the order they make them. */
  datatype Call =
    | CountCall | WindowCall          // INCR of a counter, EXPIRE that opens its window
    | GetCall | LookupCall | MailCall
    | SetCall | ExpireCall
    | SetIndexCall | ExpireIndexCall
    | DelCall | DelOtherCall
    | DbWriteCall | DbReadBackCall
    | SetCutoffCall | ExpireCutoffCall

  type Faults = Call -> Fault

  /** One attempt counted under faults: only a confirmed first INCR is followed by EXPIRE, whose failure is ignored,
      and an unconfirmed INCR counts as no attempt although it may have taken effect. */
  function CountedUnder(kv: Store, now: Time, k: Key, ttl: Time, incr: Fault, expire: Fault): (Store, int) {
    var (counted, n) := KeyValue.Incr(kv, now, k);
    var kv' := if incr.Lost? then kv else counted;
    if !incr.Healthy? || n.None? then (kv', 0)
    else (if n == Some(1) && !expire.Lost? then KeyValue.Expire(kv', now, k, ttl) else kv', n.value)
  }

  function AttemptUnder(kv: Store, now: Time, k: Key, max: int, ttl: Time, incr: Fault, expire: Fault): (Store, bool) {
    if max <= 0 then (kv, true)
    else var (kv', attempts) := CountedUnder(kv, now, k, ttl, incr, expire); (kv', attempts <= max)
  }

  /** The pair handed out is the user's own, and the identifier of its refresh token is what the store holds until
      that token's exact expiry. */
  ghost predicate Opened(c: Config, kv: Store, r: Outcome, accessJti: string, refreshJti: string, now: Time)
    requires r.Granted?
  {
    && PairFor(r.pair, c.accessHours, c.refreshDays, r.user, accessJti, refreshJti, now)
    && Key.Refresh(r.pair.refresh.jti) in kv
    && kv[Key.Refresh(r.pair.refresh.jti)] == Entry(Text(r.pair.refresh.jti), Some(now + c.refreshDays * DAY))
  }

  /** The user's reverse index, and the outstanding token it names. */
  predicate IndexedBy(kv: Store, now: Time, id: string, k: Key) {
    k == ResetIndex(id) || (k.PasswordReset? && KeyValue.Get(kv, now, ResetIndex(id)) == Some(k.token))
  }

  ghost predicate AllHealthy(f: Faults) { forall c: Call :: f(c) == Healthy }

  lemma IndexIndexed(kv: Store, now: Time, id: string)
    ensures IndexedBy(kv, now, id, ResetIndex(id))
  {
  }

  lemma IndexedSame(kv: Store, kv': Store, now: Time, id: string, k: Key)
    requires Same(kv, kv', ResetIndex(id))
    ensures IndexedBy(kv, now, id, k) <==> IndexedBy(kv', now, id, k)
  {
  }

  function DbRead(f: Fault): Users.Fault { if f.Healthy? then Users.NoFault else Users.ReadFault }

  /** How a failing write, or failing that a failing read-back, looks to the users use cases. */
  function DbWrite(write: Fault, readBack: Fault): Users.Fault {
    if !write.Healthy? then Users.WriteFault else DbRead(readBack)
  }

  class AuthUsecase {
    const redis: RedisCache
    const users: Users.UsersUsecase
    const c: Config

    ghost predicate Valid()
      reads this, redis, users
    {
      users.Valid() && redis.expires == c.setTTL
    }

    ghost function World(): World
      reads this, redis, users
    {
      AuthSpec.World(redis.kv, users.rows)
    }

    constructor (redis: RedisCache, users: Users.UsersUsecase, c: Config)
      requires redis.expires == c.setTTL && users.Valid()
      ensures this.redis == redis && this.users == users && this.c == c && Valid()
    {
      this.redis, this.users, this.c := redis, users, c;
    }

    /** The attempt guard shared by Login and ForgotPassword. */
    method CheckAttempts(now: Time, k: Key, max: int, ttl: Time, f: Faults) returns (admitted: bool)
      modifies redis
      ensures forall o | o != k :: Same(old(redis.kv), redis.kv, o)
      ensures f(CountCall).Healthy? && f(WindowCall).Healthy? ==>
                (redis.kv, admitted) == CountAttempt(old(redis.kv), now, k, max, ttl)
      ensures (redis.kv, admitted) == AttemptUnder(old(redis.kv), now, k, max, ttl, f(CountCall), f(WindowCall))
    {
      admitted := true;
      if max > 0 {
        var attempts := CountOne(now, k, ttl, f);
        admitted := attempts <= max;
      }
    }

    /** INCR, and EXPIRE on the first attempt; a failed INCR counts as no attempt. */
    method CountOne(now: Time, k: Key, ttl: Time, f: Faults) returns (attempts: int)
      modifies redis
      ensures forall o | o != k :: Same(old(redis.kv), redis.kv, o)
      ensures f(CountCall).Healthy? && f(WindowCall).Healthy? ==>
                (redis.kv, attempts) == Counted(old(redis.kv), now, k, ttl)
      ensures (redis.kv, attempts) == CountedUnder(old(redis.kv), now, k, ttl, f(CountCall), f(WindowCall))
    {
      ghost var before := redis.kv;
      var n := redis.Incr(now, k, f(CountCall));
      if n == Some(1) {
        var _ := redis.Expire(now, k, ttl, f(WindowCall));
        assert f(CountCall).Healthy? && f(WindowCall).Healthy? ==> redis.kv == Counted(before, now, k, ttl).0;
      }
      attempts := if n.Some? then n.value else 0;
    }

    /** Store a refresh identifier for as long as its token lives. */
    method RememberRefresh(now: Time, jti: string, expiresAt: Time, f: Faults) returns (ok: bool)
      modifies redis
      ensures forall o | o != Key.Refresh(jti) :: Same(old(redis.kv), redis.kv, o)
      ensures ok ==> now < expiresAt && f(SetCall).Healthy? && f(ExpireCall).Healthy?
      ensures f(SetCall).Healthy? && f(ExpireCall).Healthy? && now < expiresAt ==>
                ok && redis.kv == Until(old(redis.kv), now, Key.Refresh(jti), jti, expiresAt)
      ensures expiresAt <= now ==> redis.kv == old(redis.kv)
    {
      var ttl := expiresAt - now;
      if ttl <= 0 {
        return false;
      }
      SetThenExpire(redis.kv, now, redis.expires, Key.Refresh(jti), jti, ttl);
      ok := redis.Set(now, Key.Refresh(jti), jti, f(SetCall));
      if !ok {
        return false;
      }
      ok := redis.Expire(now, Key.Refresh(jti), ttl, f(ExpireCall));
    }

    method RecordTokenCutoff(now: Time, userId: string, when: Time, f: Faults)
      modifies redis
      ensures forall o | o != TokenCutoff(userId) :: Same(old(redis.kv), redis.kv, o)
      ensures f(SetCutoffCall).Healthy? && f(ExpireCutoffCall).Healthy? ==> redis.kv == PublishCutoff(old(redis.kv), now, userId, when)
    {
      var _ := SetFor(now, TokenCutoff(userId), FormatInt(Unix(when)), CUTOFF_TTL, f(SetCutoffCall), f(ExpireCutoffCall));
    }

    /** The lookup of a caller that has already normalized its address. */
    method FindUser(now: Time, rawEmail: string, f: Fault) returns (r: Users.Reply)
      requires users.Valid()
      modifies users`cache
      ensures users.Valid()
      ensures f.Healthy? ==> r == Users.ReadTable(users.rows, NormalizeEmail(rawEmail))
      ensures r.Found? ==> r == Users.ReadTable(users.rows, NormalizeEmail(rawEmail))
    {
      NormalizeEmailIdempotent(rawEmail);
      r := users.GetByEmail(now, NormalizeEmail(rawEmail), DbRead(f));
      Users.ReadThroughRefines(users.rows, old(users.cache), now, NormalizeEmail(rawEmail), DbRead(f));
    }

    method Login(now: Time, rawEmail: string, password: string, accessJti: string, refreshJti: string, f: Faults)
      returns (r: Outcome)
      requires Valid()
      modifies redis, users`cache
      ensures Valid() && users.rows == old(users.rows)
      ensures AllHealthy(f) ==> (World(), r) == AuthSpec.Login(c, old(World()), now, NormalizeEmail(rawEmail), password, accessJti, refreshJti)
      ensures forall k | k != LoginAttempts(NormalizeEmail(rawEmail)) && k != Key.Refresh(refreshJti) :: Same(old(redis.kv), redis.kv, k)
      ensures r.Granted? ==>
                FindByEmail(users.rows, NormalizeEmail(rawEmail)) == Some(r.user) && r.user.active && r.user.VerifyPassword(password)
      ensures r.Granted? ==> Opened(c, redis.kv, r, accessJti, refreshJti, now)
      ensures r == Rejected(LockedOut) <==>
                !AttemptUnder(old(redis.kv), now, LoginAttempts(NormalizeEmail(rawEmail)), c.loginMax, c.loginTTL,
                              f(CountCall), f(WindowCall)).1
    {
      var email := NormalizeEmail(rawEmail);
      ghost var before := redis.kv;
      var admitted := CheckAttempts(now, LoginAttempts(email), c.loginMax, c.loginTTL, f);
      if !admitted {
        return Rejected(LockedOut);
      }
      var found := FindUser(now, rawEmail, f(LookupCall));
      if !found.Found? {
        return Rejected(BadCredentials);
      }
      ghost var counted := redis.kv;
      r := OpenSession(now, found.user, email, password, accessJti, refreshJti, f);
      forall k | k != LoginAttempts(email) && k != Key.Refresh(refreshJti) ensures Same(before, redis.kv, k) {
        assert Same(before, counted, k) && Same(counted, redis.kv, k);
      }
    }

    method OpenSession(now: Time, user: User, email: string, password: string, accessJti: string, refreshJti: string, f: Faults)
      returns (r: Outcome)
      requires Valid()
      modifies redis
      ensures Valid()
      ensures AllHealthy(f) && FindByEmail(users.rows, email) == Some(user) ==>
                (World(), r) == SignIn(c, old(World()), now, email, password, accessJti, refreshJti)
      ensures forall k | k != LoginAttempts(email) && k != Key.Refresh(refreshJti) :: Same(old(redis.kv), redis.kv, k)
      ensures r.Granted? ==> r.user == user && user.active && user.VerifyPassword(password)
      ensures r != Rejected(LockedOut)
      ensures r.Granted? ==> Opened(c, redis.kv, r, accessJti, refreshJti, now)
    {
      if !user.active {
        return Rejected(NotActivated);
      }
      if !user.VerifyPassword(password) {
        return Rejected(BadCredentials);
      }
      var pair := GenerateTokenPair(c.accessHours, c.refreshDays, user, accessJti, refreshJti, now);
      var ok := RememberRefresh(now, refreshJti, pair.refreshExpiresAt, f);
      if !ok {
        return Rejected(Unavailable);
      }
      var _ := redis.Del(LoginAttempts(email), f(DelCall));
      r := Granted(user, pair);
    }

    /** A refused refresh never revokes the token it was given, whatever failed. */
    method Refresh(now: Time, token: Token, accessJti: string, refreshJti: string, f: Faults) returns (r: Outcome)
      requires Valid()
      modifies redis, users`cache
      ensures Valid() && users.rows == old(users.rows)
      ensures AllHealthy(f) ==> (World(), r) == RefreshToken(c, old(World()), now, token, accessJti, refreshJti)
      ensures r.Rejected? ==> forall k | k != Key.Refresh(refreshJti) :: Same(old(redis.kv), redis.kv, k)
      ensures r.Granted? ==> ParseRefreshToken(token, now).Some? && Live(old(redis.kv), now, Key.Refresh(token.claims.jti))
      ensures r.Granted? ==>
                && FindByEmail(users.rows, NormalizeEmail(token.claims.email)) == Some(r.user)
                && r.user.active && !Superseded(r.user, token.claims)
      ensures r.Granted? && token.claims.jti != refreshJti ==> Opened(c, redis.kv, r, accessJti, refreshJti, now)
    {
      var claims := ParseRefreshToken(token, now);
      if claims.None? {
        return Rejected(InvalidToken);
      }
      var jti := claims.value.jti;
      var alive := redis.Get(now, Key.Refresh(jti), f(GetCall));
      if alive.None? {
        return Rejected(Revoked);
      }
      var found := users.GetByEmail(now, claims.value.email, DbRead(f(LookupCall)));
      Users.ReadThroughRefines(users.rows, old(users.cache), now, NormalizeEmail(claims.value.email), DbRead(f(LookupCall)));
      if !found.Found? {
        return Rejected(UnknownUser);
      }
      var user := found.user;
      if !user.active {
        return Rejected(NotActivated);
      }
      if user.passwordChangedAt.Some? && claims.value.issuedAt < user.passwordChangedAt.value {
        return Rejected(Revoked);
      }
      r := Rotate(now, user, jti, accessJti, refreshJti, f);
    }

    /** Mint, store the new identifier, and only then remove the old one. */
    method Rotate(now: Time, user: User, jti: string, accessJti: string, refreshJti: string, f: Faults) returns (r: Outcome)
      requires redis.expires == c.setTTL
      modifies redis
      ensures r.Rejected? ==> forall k | k != Key.Refresh(refreshJti) :: Same(old(redis.kv), redis.kv, k)
      ensures r.Granted? || r == Rejected(Unavailable)
      ensures r.Granted? ==> r.user == user
      ensures r.Granted? && jti != refreshJti ==> Opened(c, redis.kv, r, accessJti, refreshJti, now)
      ensures AllHealthy(f) ==>
                if c.refreshDays <= 0 then r == Rejected(Unavailable) && redis.kv == old(redis.kv)
                else
                  var pair := GenerateTokenPair(c.accessHours, c.refreshDays, user, accessJti, refreshJti, now);
                  && r == Granted(user, pair)
                  && redis.kv == Until(old(redis.kv), now, Key.Refresh(refreshJti), refreshJti, pair.refreshExpiresAt) - {Key.Refresh(jti)}
    {
      var pair := GenerateTokenPair(c.accessHours, c.refreshDays, user, accessJti, refreshJti, now);
      var ok := RememberRefresh(now, refreshJti, pair.refreshExpiresAt, f);
      if !ok {
        return Rejected(Unavailable);
      }
      var _ := redis.Del(Key.Refresh(jti), f(DelCall));
      r := Granted(user, pair);
    }

    /** Success is reported only once the identifier is gone. */
    method Logout(now: Time, token: Token, f: Faults) returns (r: Outcome)
      requires Valid()
      modifies redis
      ensures Valid() && users.rows == old(users.rows)
      ensures AllHealthy(f) ==> (World(), r) == AuthSpec.Logout(old(World()), now, token)
      ensures r == Done ==> token.Signed? && Key.Refresh(token.claims.jti) !in redis.kv
      ensures forall k | token.Signed? ==> k != Key.Refresh(token.claims.jti) :: Same(old(redis.kv), redis.kv, k)
    {
      var claims := ParseRefreshToken(token, now);
      if claims.None? {
        return Rejected(InvalidToken);
      }
      var ok := redis.Del(Key.Refresh(claims.value.jti), f(DelCall));
      r := if ok then Done else Rejected(Unavailable);
    }

    method SendOTP(now: Time, rawEmail: string, code: string, f: Faults) returns (r: Outcome)
      requires Valid()
      modifies redis, users`cache
      ensures Valid() && users.rows == old(users.rows)
      ensures (forall k | k != MailCall :: f(k) == Healthy) ==>
                (World(), r) == AuthSpec.SendOTP(c, old(World()), now, NormalizeEmail(rawEmail), code, f(MailCall).Healthy?)
      ensures r.Rejected? ==> redis.kv == old(redis.kv)
    {
      var email := NormalizeEmail(rawEmail);
      var found := FindUser(now, rawEmail, f(LookupCall));
      if !found.Found? {
        return Rejected(UnknownUser);
      }
      if found.user.active {
        return Rejected(AlreadyActive);
      }
      if !f(MailCall).Healthy? {
        return Rejected(Unavailable);
      }
      var _ := redis.Set(now, UserOTP(email), code, f(SetCall));
      var _ := redis.Del(OTPAttempts(email), f(DelCall));
      r := Done;
    }

    /** An account is activated only by a submission equal to its live stored code. */
    method VerifyOTP(now: Time, rawEmail: string, code: string, f: Faults) returns (r: Outcome)
      requires Valid()
      modifies redis, users
      ensures f(DbReadBackCall).Healthy? ==> Valid()
      ensures AllHealthy(f) ==> (World(), r) == AuthSpec.VerifyOTP(c, old(World()), now, NormalizeEmail(rawEmail), code)
      ensures users.rows != old(users.rows) ==>
                && KeyValue.Get(old(redis.kv), now, UserOTP(NormalizeEmail(rawEmail))) == Some(code)
                && var found := FindByEmail(old(users.rows), NormalizeEmail(rawEmail));
                   found.Some? && !found.value.active && users.rows == WriteActive(old(users.rows), found.value.id, now)
      ensures r == Done ==> KeyValue.Get(old(redis.kv), now, UserOTP(NormalizeEmail(rawEmail))) == Some(code)
    {
      var found := FindUser(now, rawEmail, f(LookupCall));
      if !found.Found? {
        return Rejected(UnknownUser);
      }
      if found.user.active {
        return Rejected(AlreadyActive);
      }
      r := CheckCode(now, NormalizeEmail(rawEmail), found.user.id, code, f);
    }

    method CheckCode(now: Time, email: string, id: string, code: string, f: Faults) returns (r: Outcome)
      requires Valid()
      modifies redis, users
      ensures f(DbReadBackCall).Healthy? ==> Valid()
      ensures AllHealthy(f) ==> (World(), r) == SubmitCode(c, old(World()), now, email, id, code)
      ensures users.rows != old(users.rows) || r == Done ==> KeyValue.Get(old(redis.kv), now, UserOTP(email)) == Some(code)
      ensures users.rows == old(users.rows) || users.rows == WriteActive(old(users.rows), id, now)
      ensures r == Done ==> users.rows == WriteActive(old(users.rows), id, now)
    {
      ghost var before := redis.kv;
      var attempts := CountOne(now, OTPAttempts(email), c.otpTTL, f);
      assert Same(before, redis.kv, UserOTP(email));
      if attempts > c.otpMax {
        return Rejected(LockedOut);
      }
      var stored := redis.Get(now, UserOTP(email), f(GetCall));
      if stored.None? {
        return Rejected(CodeMissing);
      }
      if stored.value != code {
        return Rejected(CodeWrong);
      }
      var activated := users.Activate(now, id, DbWrite(f(DbWriteCall), f(DbReadBackCall)));
      if activated != Users.Done {
        return Rejected(Unavailable);
      }
      var _ := redis.Del(UserOTP(email), f(DelCall));
      var _ := redis.Del(OTPAttempts(email), f(DelOtherCall));
      r := Done;
    }

    method ForgotPassword(now: Time, rawEmail: string, token: string, f: Faults) returns (r: Outcome)
      requires Valid()
      modifies redis, users`cache
      ensures Valid() && users.rows == old(users.rows)
      ensures (forall k | k != MailCall :: f(k) == Healthy) ==>
                (World(), r) == AuthSpec.ForgotPassword(c, old(World()), now, NormalizeEmail(rawEmail), token, f(MailCall).Healthy?)
      ensures forall k: Key | k != ForgotAttempts(NormalizeEmail(rawEmail)) && k != PasswordReset(token) ::
                && (FindByEmail(users.rows, NormalizeEmail(rawEmail)).None? ==> Same(old(redis.kv), redis.kv, k))
                && (FindByEmail(users.rows, NormalizeEmail(rawEmail)).Some? ==>
                      var id := FindByEmail(users.rows, NormalizeEmail(rawEmail)).value.id;
                      Same(old(redis.kv), redis.kv, k) || IndexedBy(old(redis.kv), now, id, k))
    {
      hide IndexedBy, IssueReset, Counted;
      ghost var before := redis.kv;
      var admitted := CheckAttempts(now, ForgotAttempts(NormalizeEmail(rawEmail)), c.forgotMax, c.forgotTTL, f);
      ghost var counted := redis.kv;
      if !admitted {
        return Rejected(LockedOut);
      }
      var found := FindUser(now, rawEmail, f(LookupCall));
      if found == Users.NotFound {
        WriteDecoy(now, token, f);
        r := Done;
      } else if !found.Found? {
        r := Rejected(Unavailable);
      } else {
        r := IssueResetToken(now, found.user.id, token, f);
      }
      forall k: Key | k != ForgotAttempts(NormalizeEmail(rawEmail)) && k != PasswordReset(token)
        ensures Same(before, redis.kv, k) || (found.Found? && IndexedBy(before, now, found.user.id, k))
      {
        assert Same(before, counted, k);
        assert Same(counted, redis.kv, k) || (found.Found? && IndexedBy(counted, now, found.user.id, k));
        if found.Found? { IndexedSame(before, counted, now, found.user.id, k); }
      }
    }

    /** The same store traffic for an unknown address, leaving nothing behind. */
    method WriteDecoy(now: Time, token: string, f: Faults)
      modifies redis
      ensures forall k | k != PasswordReset(token) :: Same(old(redis.kv), redis.kv, k)
      ensures f(DelCall).Healthy? ==> redis.kv == old(redis.kv) - {PasswordReset(token)}
    {
      var _ := redis.Set(now, PasswordReset(token), "decoy", f(SetCall));
      var _ := redis.Expire(now, PasswordReset(token), c.resetTTL, f(ExpireCall));
      var _ := redis.Del(PasswordReset(token), f(DelCall));
    }

    /** SET, then, if that was confirmed, EXPIRE with its own lifetime. */
    method SetFor(now: Time, k: Key, s: string, ttl: Time, set_: Fault, expire: Fault) returns (ok: bool)
      modifies redis
      ensures ok == set_.Healthy?
      ensures forall o | o != k :: Same(old(redis.kv), redis.kv, o)
      ensures set_.Healthy? && expire.Healthy? ==> redis.kv == Until(old(redis.kv), now, k, s, now + ttl)
    {
      SetThenExpire(redis.kv, now, redis.expires, k, s, ttl);
      ok := redis.Set(now, k, s, set_);
      if ok {
        var _ := redis.Expire(now, k, ttl, expire);
      }
    }

    /** Replace the user's outstanding token, both ways of the index. */
    method IssueResetToken(now: Time, id: string, token: string, f: Faults) returns (r: Outcome)
      requires redis.expires == c.setTTL
      modifies redis
      ensures forall k: Key | k != PasswordReset(token) :: Same(old(redis.kv), redis.kv, k) || IndexedBy(old(redis.kv), now, id, k)
      ensures (forall k | k != MailCall :: f(k) == Healthy) ==>
                && redis.kv == IssueReset(c, old(redis.kv), now, id, token)
                && r == if f(MailCall).Healthy? then Done else Rejected(Unavailable)
    {
      hide IndexedBy, Invalidate;
      ghost var before := redis.kv;
      InvalidatePrior(now, id, f);
      ghost var cleared := redis.kv;
      var ok := SetFor(now, PasswordReset(token), id, c.resetTTL, f(SetCall), f(ExpireCall));
      ghost var stored := redis.kv;
      forall k: Key | k != PasswordReset(token) ensures Same(before, stored, k) || IndexedBy(before, now, id, k) {
        assert Same(cleared, stored, k);
      }
      if !ok {
        return Rejected(Unavailable);
      }
      var _ := SetFor(now, ResetIndex(id), token, c.resetTTL, f(SetIndexCall), f(ExpireIndexCall));
      forall k: Key | k != PasswordReset(token) ensures Same(before, redis.kv, k) || IndexedBy(before, now, id, k) {
        if k == ResetIndex(id) { IndexIndexed(before, now, id); } else { assert Same(stored, redis.kv, k); }
      }
      r := if f(MailCall).Healthy? then Done else Rejected(Unavailable);
    }

    method InvalidatePrior(now: Time, id: string, f: Faults)
      modifies redis
      ensures forall k: Key :: Same(old(redis.kv), redis.kv, k) || IndexedBy(old(redis.kv), now, id, k)
      ensures f(GetCall).Healthy? && f(DelCall).Healthy? ==> redis.kv == Invalidate(old(redis.kv), now, id)
    {
      var prior := redis.Get(now, ResetIndex(id), f(GetCall));
      if prior.Some? && prior.value != "" {
        var _ := redis.Del(PasswordReset(prior.value), f(DelCall));
      }
    }

    /** A password is reset only for the user that the presented live token names. */
    method ResetPassword(now: Time, token: string, password: string, salt: nat, f: Faults) returns (r: Outcome)
      requires Valid()
      modifies redis, users
      ensures Valid()
      ensures AllHealthy(f) ==> (World(), r) == AuthSpec.ResetPassword(old(World()), now, token, password, salt)
      ensures users.rows != old(users.rows) ==> r == Done
      ensures r == Done ==>
                var holder := KeyValue.Get(old(redis.kv), now, PasswordReset(token));
                && holder.Some? && holder.value in old(users.rows)
                && users.rows == WritePassword(old(users.rows), old(users.rows)[holder.value].ChangePassword(password, salt, now))
                && forall q :: users.rows[holder.value].VerifyPassword(q) <==> q == password
    {
      if password == "" || token == "" {
        return Rejected(BadRequest);
      }
      var holder := redis.Get(now, PasswordReset(token), f(GetCall));
      if holder.None? || holder.value == "" {
        return Rejected(InvalidToken);
      }
      var userId := holder.value;
      var found := users.GetByID(userId, DbRead(f(LookupCall)));
      if !found.Found? {
        return Rejected(UnknownUser);
      }
      if !Hashable(password) {
        return Rejected(Unavailable);
      }
      var user := found.user.ChangePassword(password, salt, now);
      var updated := users.UpdatePassword(now, user, DbWrite(f(DbWriteCall), f(DbReadBackCall)));
      if updated != Users.Done {
        return Rejected(Unavailable);
      }
      var _ := redis.Del(PasswordReset(token), f(DelCall));
      var _ := redis.Del(ResetIndex(userId), f(DelOtherCall));
      RecordTokenCutoff(now, userId, now, f);
      r := Done;
    }

    /** A password changes only for a caller who knows the current one. */
    method ChangePassword(now: Time, userId: string, current: string, password: string, salt: nat, f: Faults) returns (r: Outcome)
      requires Valid()
      modifies redis, users
      ensures Valid()
      ensures AllHealthy(f) ==> (World(), r) == AuthSpec.ChangePassword(old(World()), now, userId, current, password, salt)
      ensures users.rows != old(users.rows) ==>
                && r == Done && userId in old(users.rows) && old(users.rows)[userId].VerifyPassword(current)
                && users.rows == WritePassword(old(users.rows), old(users.rows)[userId].ChangePassword(password, salt, now))
      ensures r == Done ==> userId in users.rows && forall q :: users.rows[userId].VerifyPassword(q) <==> q == password
      ensures forall k | k != TokenCutoff(userId) :: Same(old(redis.kv), redis.kv, k)
    {
      if password == "" {
        return Rejected(BadRequest);
      }
      var found := users.GetByID(userId, DbRead(f(LookupCall)));
      if !found.Found? {
        return Rejected(UnknownUser);
      }
      if !found.user.VerifyPassword(current) {
        return Rejected(BadCredentials);
      }
      if !Hashable(password) {
        return Rejected(Unavailable);
      }
      var user := found.user.ChangePassword(password, salt, now);
      var updated := users.UpdatePassword(now, user, DbWrite(f(DbWriteCall), f(DbReadBackCall)));
      if updated != Users.Done {
        return if updated == Users.BadRequest then Rejected(BadRequest) else Rejected(Unavailable);
      }
      RecordTokenCutoff(now, userId, now, f);
      r := Done;
    }

    /** The middleware fails open: a store error can only admit a token that still parses. */
    method Handle(now: Time, token: Token, needAdmin: bool, f: Faults) returns (r: Outcome)
      ensures f(GetCall).Healthy? ==> r == AccessCheck(redis.kv, now, token, needAdmin)
      ensures r == Done ==> ParseToken(token, now).Some? && (needAdmin ==> token.claims.isAdmin)
      ensures !f(GetCall).Healthy? && ParseToken(token, now).Some? ==> r != Rejected(Revoked)
    {
      var claims := ParseToken(token, now);
      if claims.None? {
        return Rejected(InvalidToken);
      }
      var cutoffStr := redis.Get(now, TokenCutoff(claims.value.userId), f(GetCall));
      if cutoffStr.Some? && cutoffStr.value != "" {
        var cutoff := ParseInt(cutoffStr.value);
        if cutoff.Some? && Unix(claims.value.issuedAt) < cutoff.value {
          return Rejected(Revoked);
        }
      }
      if claims.value.isAdmin != needAdmin && !claims.value.isAdmin {
        return Rejected(Forbidden);
      }
      r := Done;
    }
  }
}
