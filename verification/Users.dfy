/** The users use cases: a read-through cache in front of the users table, checked
    against the table alone. */
module Users {
  import opened Base
  import opened Accounts

  const CACHE_TTL: Time := 5 * MINUTE

  datatype Cached = Cached(user: User, deadline: Time)
  type Cache = map<string, Cached>

  function CacheKey(email: string): string { "user/" + email }

  lemma CacheKeyInjective(a: string, b: string)
    requires CacheKey(a) == CacheKey(b)
    ensures a == b
  {
    assert CacheKey(a)[5..] == a && CacheKey(b)[5..] == b;
  }

  predicate Hit(cache: Cache, now: Time, key: string) {
    key in cache && now < cache[key].deadline
  }

  datatype Registration = Registration(username: string, email: string, password: string, roleId: int)

  datatype Request =
    | Store(reg: Registration, id: string, salt: nat, addressOk: bool)
    | Activate(id: string)
    | UpdatePassword(user: User)
    | GetByEmail(email: string)
    | Drop(keys: set<string>)      // the cache forgets entries on its own

  /** Which table access of the request fails, if any. ReadFault hits the SELECT of
      GetByEmail and the read-back that Activate and UpdatePassword use to find the key to evict. */
  datatype Fault = NoFault | WriteFault | ReadFault

  datatype Reply = Found(user: User) | NotFound | Done | BadRequest | Conflict | Internal | DbError

  datatype Step = Step(now: Time, req: Request, fault: Fault)

  /** What domain.NewUser validates before it hashes. */
  predicate ValidInput(reg: Registration, addressOk: bool) {
    TrimSpace(reg.username) != "" && reg.password != "" && NormalizeEmail(reg.email) != "" && addressOk
  }

  /** domain.NewUser: nothing but validated, normalized input builds a user. */
  function NewUser(reg: Registration, id: string, salt: nat, addressOk: bool, now: Time): Option<User> {
    if !ValidInput(reg, addressOk) || !Hashable(reg.password) then None
    else Some(User(id, TrimSpace(reg.username), NormalizeEmail(reg.email), Bcrypt(reg.password, salt), false, reg.roleId, now, None, None))
  }

  /** The partial unique indexes: address, and username regardless of case. */
  ghost predicate Clashes(rows: Rows, u: User) {
    exists id :: id in rows && (rows[id].email == u.email || Lower(rows[id].username) == Lower(u.username))
  }

  ghost function ReadTable(rows: Rows, email: string): Reply {
    match FindByEmail(rows, email)
    case Some(u) => Found(u)
    case None => NotFound
  }

  /** What each request does to the table, and what a direct table read answers. */
  ghost function Plain(rows: Rows, s: Step): (Rows, Reply) {
    match s.req
    case GetByEmail(email) =>
      (rows, ReadTable(rows, NormalizeEmail(email)))
    case Store(reg, id, salt, ok) =>
      (match NewUser(reg, id, salt, ok, s.now)
       case None => (rows, if ValidInput(reg, ok) then Internal else BadRequest)
       case Some(u) =>
         if s.fault.WriteFault? then (rows, DbError)
         else if Clashes(rows, u) || id in rows then (rows, Conflict)
         else (rows[id := u], Found(u)))
    case Activate(id) => if s.fault.WriteFault? then (rows, DbError) else (WriteActive(rows, id, s.now), Done)
    case UpdatePassword(u) =>
      if u.id == "" then (rows, BadRequest)
      else if s.fault.WriteFault? then (rows, DbError)
      else if u.id !in rows then (rows, NotFound)
      else (WritePassword(rows, u), Done)
    case Drop(_) => (rows, Done)
  }

  /** GetByEmail on a normalized address: a hit never reaches the table, a miss of the table is never cached. */
  ghost function ReadThrough(rows: Rows, cache: Cache, now: Time, e: string, fault: Fault): (Cache, Reply) {
    var key := CacheKey(e);
    if Hit(cache, now, key) then (cache, Found(cache[key].user))
    else if fault.ReadFault? then (cache, DbError)
    else match ReadTable(rows, e)
      case Found(u) => (cache[key := Cached(u, now + CACHE_TTL)], Found(u))
      case miss => (cache, miss)
  }

  /** The key an update evicts: the address it was given, else the one it reads back. */
  function Evicted(rows: Rows, id: string, email: string, fault: Fault): set<string> {
    if email != "" then {CacheKey(email)}
    else if fault.ReadFault? || id !in rows then {}
    else {CacheKey(rows[id].email)}
  }

  /** The cache after a request. Store evicts nothing. */
  ghost function CacheAfter(rows: Rows, cache: Cache, s: Step): Cache {
    match s.req
    case GetByEmail(email) => ReadThrough(rows, cache, s.now, NormalizeEmail(email), s.fault).0
    case Store(_, _, _, _) => cache
    case Activate(id) => if s.fault.WriteFault? then cache else cache - Evicted(rows, id, "", s.fault)
    case UpdatePassword(u) =>
      if Plain(rows, s).1 != Done then cache else cache - Evicted(rows, u.id, u.email, s.fault)
    case Drop(keys) => cache - keys
  }

  /** What the cached system answers. */
  ghost function CachedReply(rows: Rows, cache: Cache, s: Step): Reply {
    if s.req.GetByEmail? then ReadThrough(rows, cache, s.now, NormalizeEmail(s.req.email), s.fault).1
    else Plain(rows, s).1
  }

  /** Every cached entry is the current row of the address that forms its key. */
  ghost predicate Coherent(rows: Rows, cache: Cache) {
    forall k | k in cache ::
      var u := cache[k].user;
      u.id in rows && rows[u.id] == u && k == CacheKey(u.email)
  }

  /** The update will find the right key to evict: the given address is the row's own, and a
      read-back that is needed succeeds. */
  predicate EvictsRightKey(rows: Rows, s: Step) {
    match s.req
    case Activate(id) => id in rows ==> !s.fault.ReadFault?
    case UpdatePassword(u) =>
      u.id in rows ==> if u.email == "" then !s.fault.ReadFault? else u.email == rows[u.id].email
    case _ => true
  }

  /** A row write leaves the cache coherent exactly when the row's own entry is gone. */
  lemma CoherentAfterWriteIff(rows: Rows, cache: Cache, id: string, u: User, evicted: set<string>)
    requires RowsOk(rows) && Coherent(rows, cache)
    requires id in rows && u != rows[id]
    ensures Coherent(rows[id := u], cache - evicted) <==> CacheKey(rows[id].email) !in cache || CacheKey(rows[id].email) in evicted
  {
    var key := CacheKey(rows[id].email);
    if key in cache && key !in evicted {
      CacheKeyInjective(cache[key].user.email, rows[id].email);
      assert key in cache - evicted;
    } else {
      forall k | k in cache && k !in evicted
        ensures cache[k].user.id != id
      {
        if cache[k].user.id == id { assert false; }
      }
    }
  }

  /** A read through a coherent cache answers what the table holds and fills the cache coherently. */
  lemma ReadThroughRefines(rows: Rows, cache: Cache, now: Time, e: string, fault: Fault)
    requires RowsOk(rows) && Coherent(rows, cache)
    ensures Coherent(rows, ReadThrough(rows, cache, now, e, fault).0)
    ensures var r := ReadThrough(rows, cache, now, e, fault).1;
            r == ReadTable(rows, e) || (fault.ReadFault? && r == DbError)
  {
    var key := CacheKey(e);
    if Hit(cache, now, key) {
      var u := cache[key].user;
      CacheKeyInjective(u.email, e);
      FindByEmailUnique(rows, u.id);
    }
  }

  /** An insert needs no eviction: the new address had no row, so nothing was cached for it. */
  lemma InsertRefines(rows: Rows, cache: Cache, u: User)
    requires RowsOk(rows) && Coherent(rows, cache)
    requires u.email != ""
    requires u.id !in rows && forall id | id in rows :: rows[id].email != u.email
    ensures RowsOk(rows[u.id := u]) && Coherent(rows[u.id := u], cache)
    ensures CacheKey(u.email) !in cache
  {
    if CacheKey(u.email) in cache { CacheKeyInjective(cache[CacheKey(u.email)].user.email, u.email); }
  }

  lemma UpdateRefines(rows: Rows, cache: Cache, id: string, u: User, evicted: set<string>)
    requires RowsOk(rows) && Coherent(rows, cache)
    requires id in rows && CacheKey(rows[id].email) in evicted
    ensures Coherent(rows[id := u], cache - evicted)
  {
    if u != rows[id] { CoherentAfterWriteIff(rows, cache, id, u, evicted); } else { assert rows[id := u] == rows; }
  }

  /** One request: the answer is the table's own, or an error when the read itself failed,
      and coherence survives. */
  lemma {:induction false} StepRefines(rows: Rows, cache: Cache, s: Step)
    requires RowsOk(rows) && Coherent(rows, cache) && EvictsRightKey(rows, s)
    ensures RowsOk(Plain(rows, s).0) && Coherent(Plain(rows, s).0, CacheAfter(rows, cache, s))
    ensures CachedReply(rows, cache, s) == Plain(rows, s).1 || (s.fault.ReadFault? && CachedReply(rows, cache, s) == DbError)
  {
    match s.req
    case GetByEmail(email) => ReadThroughRefines(rows, cache, s.now, NormalizeEmail(email), s.fault);
    case Store(reg, _, _, _) =>
      var stored := Plain(rows, s).1;
      if stored.Found? { InsertRefines(rows, cache, stored.user); }
    case Activate(id) =>
      if id in rows && !s.fault.WriteFault? {
        WritesKeepRowsOk(rows, rows[id], s.now);
        UpdateRefines(rows, cache, id, WriteActive(rows, id, s.now)[id], Evicted(rows, id, "", s.fault));
      }
    case UpdatePassword(u) =>
      if Plain(rows, s).1 == Done {
        WritesKeepRowsOk(rows, u, s.now);
        UpdateRefines(rows, cache, u.id, WritePassword(rows, u)[u.id], Evicted(rows, u.id, u.email, s.fault));
      }
    case Drop(_) =>
  }

  /** What callers see after an Activate whose read-back fails: while the stale entry lasts, that account's lookups
      differ from the table; every other lookup, and that account's once the entry is gone, answer the table's row. */
  lemma ActivateReadBackFailureAnswers(rows: Rows, cache: Cache, id: string, now: Time, e: string, later: Time)
    requires RowsOk(rows) && Coherent(rows, cache) && id in rows && WriteActive(rows, id, now)[id] != rows[id]
    ensures var s := Step(now, Activate(id), ReadFault);
            var rows', cache' := Plain(rows, s).0, CacheAfter(rows, cache, s);
            ReadThrough(rows', cache', later, e, NoFault).1 == ReadTable(rows', e) <==>
            !(e == rows[id].email && Hit(cache, later, CacheKey(e)))
  {
    var s := Step(now, Activate(id), ReadFault);
    var rows' := Plain(rows, s).0;
    var key := CacheKey(e);
    assert CacheAfter(rows, cache, s) == cache - {} == cache;
    WritesKeepRowsOk(rows, rows[id], now);
    if Hit(cache, later, key) {
      var u := cache[key].user;
      CacheKeyInjective(u.email, e);
      FindByEmailUnique(rows', u.id);
    }
  }

  ghost function CachedRun(rows: Rows, cache: Cache, steps: seq<Step>): (r: seq<Reply>)
    ensures |r| == |steps|
    decreases |steps|
  {
    if steps == [] then []
    else [CachedReply(rows, cache, steps[0])] +
         CachedRun(Plain(rows, steps[0]).0, CacheAfter(rows, cache, steps[0]), steps[1..])
  }

  ghost function PlainRun(rows: Rows, steps: seq<Step>): (r: seq<Reply>)
    ensures |r| == |steps|
    decreases |steps|
  {
    if steps == [] then [] else [Plain(rows, steps[0]).1] + PlainRun(Plain(rows, steps[0]).0, steps[1..])
  }

  ghost predicate RunEvictsRightKeys(rows: Rows, steps: seq<Step>)
    decreases |steps|
  {
    steps == [] || (EvictsRightKey(rows, steps[0]) && RunEvictsRightKeys(Plain(rows, steps[0]).0, steps[1..]))
  }

  /** In every run, under any expiry and any spontaneous eviction, the cached system gives the
      answers of the table read directly; only a failing read can replace one by an error. */
  lemma {:induction false} CacheRefinesTable(rows: Rows, cache: Cache, steps: seq<Step>)
    requires RowsOk(rows) && Coherent(rows, cache) && RunEvictsRightKeys(rows, steps)
    ensures forall i | 0 <= i < |steps| ::
              CachedRun(rows, cache, steps)[i] == PlainRun(rows, steps)[i] ||
              (steps[i].fault.ReadFault? && CachedRun(rows, cache, steps)[i] == DbError)
    decreases |steps|
  {
    hide Plain, CacheAfter, CachedReply, Coherent;
    if steps != [] {
      StepRefines(rows, cache, steps[0]);
      var rows', cache', rest := Plain(rows, steps[0]).0, CacheAfter(rows, cache, steps[0]), steps[1..];
      CacheRefinesTable(rows', cache', rest);
      forall i | 0 <= i < |steps|
        ensures CachedRun(rows, cache, steps)[i] == PlainRun(rows, steps)[i] ||
                (steps[i].fault.ReadFault? && CachedRun(rows, cache, steps)[i] == DbError)
      {
        if i > 0 {
          assert CachedRun(rows, cache, steps)[i] == CachedRun(rows', cache', rest)[i - 1];
          assert PlainRun(rows, steps)[i] == PlainRun(rows', rest)[i - 1];
          assert steps[i] == rest[i - 1];
        }
      }
    }
  }

  /** The use cases over a shared table and cache. */
  class UsersUsecase {
    var rows: Rows
    var cache: Cache

    ghost predicate Valid() reads this { RowsOk(rows) && Coherent(rows, cache) }

    constructor ()
      ensures Valid() && rows == map[] && cache == map[]
    {
      rows, cache := map[], map[];
    }

    /** SELECT * FROM users WHERE email = $1. */
    method SelectByEmail(email: string) returns (r: Option<User>)
      requires RowsOk(rows)
      ensures r == FindByEmail(rows, email)
    {
      if id :| id in rows && rows[id].email == email {
        FindByEmailUnique(rows, id);
        r := Some(rows[id]);
      } else {
        r := None;
      }
    }

    method GetByEmail(now: Time, email: string, fault: Fault) returns (r: Reply)
      requires Valid()
      modifies this`cache
      ensures Valid()
      ensures (cache, r) == ReadThrough(rows, old(cache), now, NormalizeEmail(email), fault)
      ensures !fault.ReadFault? ==> r == ReadTable(rows, NormalizeEmail(email))
    {
      var e := NormalizeEmail(email);
      ReadThroughRefines(rows, cache, now, e, fault);
      var key := CacheKey(e);
      if Hit(cache, now, key) {
        return Found(cache[key].user);
      }
      if fault.ReadFault? {
        return DbError;
      }
      var row := SelectByEmail(e);
      match row {
        case None => r := NotFound;
        case Some(u) =>
          cache := cache[key := Cached(u, now + CACHE_TTL)];
          r := Found(u);
      }
    }

    method GetByID(id: string, fault: Fault) returns (r: Reply)
      ensures r == DbError <==> fault.ReadFault?
      ensures r == NotFound <==> !fault.ReadFault? && id !in rows
      ensures r.Found? <==> !fault.ReadFault? && id in rows
      ensures r.Found? ==> r.user == rows[id]
      ensures RowsOk(rows) && r.Found? ==> r.user.id == id && r == ReadTable(rows, r.user.email)
    {
      r := if fault.ReadFault? then DbError else if id in rows then Found(rows[id]) else NotFound;
    }

    method Activate(now: Time, id: string, fault: Fault) returns (r: Reply)
      requires Valid()
      modifies this
      ensures (rows, r) == Plain(old(rows), Step(now, Request.Activate(id), fault))
      ensures cache == CacheAfter(old(rows), old(cache), Step(now, Request.Activate(id), fault))
      ensures !fault.ReadFault? ==> Valid()
    {
      if !fault.ReadFault? { StepRefines(rows, cache, Step(now, Request.Activate(id), fault)); }
      if fault.WriteFault? {
        return DbError;
      }
      rows := WriteActive(rows, id, now);
      var existing := GetByID(id, fault);
      if existing.Found? && existing.user.email != "" {
        cache := cache - {CacheKey(existing.user.email)};
      }
      r := Done;
    }

    method UpdatePassword(now: Time, user: User, fault: Fault) returns (r: Reply)
      requires Valid()
      modifies this
      ensures (rows, r) == Plain(old(rows), Step(now, Request.UpdatePassword(user), fault))
      ensures cache == CacheAfter(old(rows), old(cache), Step(now, Request.UpdatePassword(user), fault))
      ensures EvictsRightKey(old(rows), Step(now, Request.UpdatePassword(user), fault)) ==> Valid()
    {
      if EvictsRightKey(rows, Step(now, Request.UpdatePassword(user), fault)) {
        StepRefines(rows, cache, Step(now, Request.UpdatePassword(user), fault));
      }
      if user.id == "" {
        return BadRequest;
      }
      if fault.WriteFault? {
        return DbError;
      }
      if user.id !in rows {
        return NotFound;
      }
      rows := WritePassword(rows, user);
      var email := user.email;
      if email == "" {
        var existing := GetByID(user.id, fault);
        if existing.Found? {
          email := existing.user.email;
        }
      }
      if email != "" {
        cache := cache - {CacheKey(email)};
      }
      r := Done;
    }

    method Store(now: Time, reg: Registration, id: string, salt: nat, addressOk: bool, fault: Fault) returns (r: Reply)
      requires Valid()
      modifies this`rows
      ensures Valid()
      ensures (rows, r) == Plain(old(rows), Step(now, Request.Store(reg, id, salt, addressOk), fault))
      ensures cache == old(cache)
    {
      StepRefines(rows, cache, Step(now, Request.Store(reg, id, salt, addressOk), fault));
      var user := NewUser(reg, id, salt, addressOk, now);
      if user.None? {
        return if ValidInput(reg, addressOk) then Internal else BadRequest;
      }
      var u := user.value;
      if fault.WriteFault? {
        return DbError;
      }
      if id in rows || exists other :: other in rows && (rows[other].email == u.email || Lower(rows[other].username) == Lower(u.username)) {
        return Conflict;
      }
      rows := rows[id := u];
      r := Found(u);
    }
  }
}
