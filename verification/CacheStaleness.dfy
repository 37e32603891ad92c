/** GetByEmail, writers and evictions interleaved step by step: how stale an answer can be. */
module CacheStaleness {
  import opened Base
  import opened Accounts
  import Users

  /** The table from one write to the next. */
  datatype Version = Version(from: Time, rows: Rows)

  /** A cached row, with the instant and the version it was read at. */
  datatype Slot = Slot(user: User, readAt: Time, version: nat, deadline: Time)

  /** A single-flight load of one address: started, or holding what it read, before or after its cache write. */
  datatype Flight = Started | HasRead(row: Option<User>, readAt: Time, version: nat, filled: bool)

  datatype State = State(
    now: Time,
    history: seq<Version>,
    cache: map<string, Slot>,
    flights: map<string, Flight>)

  /** Writers may hold a user value read long ago; only the columns they write count. */
  datatype Write = Insert(user: User) | Password(user: User) | Activation(id: string)

  datatype Action =
    | Tick(to: Time)
    | Commit(w: Write)
    | Evict(emails: set<string>)
    | Hit(email: string)
    | Start(email: string)
    | Read(email: string)
    | Fill(email: string)          // writes a found row to the cache; callers may still join
    | Finish(email: string)        // answers every waiting caller
    | Fail(email: string)          // the read failed; every waiting caller gets the error

  function Table(s: State): Rows
    requires s.history != []
  {
    s.history[|s.history| - 1].rows
  }

  /** An insert that clashes with the unique indexes changes nothing. */
  ghost function Written(rows: Rows, w: Write, now: Time): Rows {
    match w
    case Insert(u) => if u.id in rows || u.email == "" || Users.Clashes(rows, u) then rows else rows[u.id := u]
    case Password(u) => WritePassword(rows, u)
    case Activation(id) => WriteActive(rows, id, now)
  }

  predicate Cached(s: State, e: string) { e in s.cache && s.now < s.cache[e].deadline }

  /** No load takes longer than maxLoad between its read and its end. A load starts after a miss seen
      earlier, so the cache may have been filled again by then. */
  predicate Enabled(s: State, a: Action, maxLoad: nat) {
    match a
    case Tick(to) => s.now <= to && forall e | e in s.flights && s.flights[e].HasRead? :: to - s.flights[e].readAt <= maxLoad
    case Commit(_) => true
    case Evict(_) => true
    case Hit(e) => Cached(s, e)
    case Start(e) => e !in s.flights
    case Read(e) => e in s.flights && s.flights[e].Started?
    case Fill(e) => e in s.flights && s.flights[e].HasRead? && s.flights[e].row.Some? && !s.flights[e].filled
    case Finish(e) => e in s.flights && s.flights[e].HasRead? && (s.flights[e].row.Some? ==> s.flights[e].filled)
    case Fail(e) => e in s.flights && s.flights[e].Started?
  }

  ghost function Next(s: State, a: Action, maxLoad: nat): State
    requires s.history != [] && Enabled(s, a, maxLoad)
  {
    match a
    case Tick(to) => s.(now := to)
    case Commit(w) => s.(history := s.history + [Version(s.now, Written(Table(s), w, s.now))])
    case Evict(es) => s.(cache := s.cache - es)
    case Hit(_) => s
    case Start(e) => s.(flights := s.flights[e := Started])
    case Read(e) => s.(flights := s.flights[e := HasRead(FindByEmail(Table(s), e), s.now, |s.history| - 1, false)])
    case Fail(e) => s.(flights := s.flights - {e})
    case Fill(e) =>
      var f := s.flights[e];
      s.(flights := s.flights[e := f.(filled := true)],
         cache := s.cache[e := Slot(f.row.value, f.readAt, f.version, s.now + Users.CACHE_TTL)])
    case Finish(e) => s.(flights := s.flights - {e})
  }

  /** What an answering step tells its caller. */
  function Answer(s: State, a: Action): Option<User>
    requires (a.Hit? && Cached(s, a.email)) || (a.Finish? && a.email in s.flights && s.flights[a.email].HasRead?)
  {
    if a.Hit? then Some(s.cache[a.email].user) else s.flights[a.email].row
  }

  /** The version was the table at that instant. */
  ghost predicate InForce(h: seq<Version>, version: nat, at: Time) {
    && version < |h| && h[version].from <= at
    && (version + 1 < |h| ==> at <= h[version + 1].from)
  }

  /** The row was what a direct read of the address gave at that instant. */
  ghost predicate TrueAt(h: seq<Version>, e: string, row: Option<User>, version: nat, at: Time) {
    InForce(h, version, at) && row == FindByEmail(h[version].rows, e)
  }

  ghost predicate Inv(s: State, maxLoad: nat) {
    && s.history != [] && s.history[|s.history| - 1].from <= s.now
    && (forall e | e in s.cache ::
          var c := s.cache[e];
          && TrueAt(s.history, e, Some(c.user), c.version, c.readAt)
          && c.readAt <= s.now && c.deadline <= c.readAt + maxLoad + Users.CACHE_TTL)
    && (forall e | e in s.flights && s.flights[e].HasRead? ::
          var f := s.flights[e];
          TrueAt(s.history, e, f.row, f.version, f.readAt) && f.readAt <= s.now <= f.readAt + maxLoad)
  }

  lemma CommitKeepsTrue(h: seq<Version>, v: Version, e: string, row: Option<User>, version: nat, at: Time)
    requires TrueAt(h, e, row, version, at) && at <= v.from
    ensures TrueAt(h + [v], e, row, version, at)
  {
  }

  lemma NextKeepsInv(s: State, a: Action, maxLoad: nat)
    requires Inv(s, maxLoad) && Enabled(s, a, maxLoad)
    ensures Inv(Next(s, a, maxLoad), maxLoad)
  {
    if a.Commit? {
      var v := Version(s.now, Written(Table(s), a.w, s.now));
      forall e | e in s.cache ensures TrueAt(s.history + [v], e, Some(s.cache[e].user), s.cache[e].version, s.cache[e].readAt) {
        CommitKeepsTrue(s.history, v, e, Some(s.cache[e].user), s.cache[e].version, s.cache[e].readAt);
      }
      forall e | e in s.flights && s.flights[e].HasRead?
        ensures TrueAt(s.history + [v], e, s.flights[e].row, s.flights[e].version, s.flights[e].readAt)
      {
        CommitKeepsTrue(s.history, v, e, s.flights[e].row, s.flights[e].version, s.flights[e].readAt);
      }
    }
  }

  ghost predicate Runs(s: State, run: seq<State>, acts: seq<Action>, maxLoad: nat) {
    && |run| == |acts| + 1 && run[0] == s
    && forall i | 0 <= i < |acts| ::
         run[i].history != [] && Enabled(run[i], acts[i], maxLoad) && run[i + 1] == Next(run[i], acts[i], maxLoad)
  }

  /** An execution from an empty cache over any table. */
  ghost predicate IsRun(run: seq<State>, acts: seq<Action>, maxLoad: nat) {
    && |run| > 0 && Runs(run[0], run, acts, maxLoad)
    && run[0].history != [] && run[0].history[|run[0].history| - 1].from <= run[0].now
    && run[0].cache == map[] && run[0].flights == map[]
  }

  lemma {:induction false} RunKeepsInv(run: seq<State>, acts: seq<Action>, maxLoad: nat, i: nat)
    requires IsRun(run, acts, maxLoad) && i < |run|
    ensures Inv(run[i], maxLoad)
  {
    if i > 0 {
      RunKeepsInv(run, acts, maxLoad, i - 1);
      NextKeepsInv(run[i - 1], acts[i - 1], maxLoad);
    }
  }

  /** In every interleaving each answer was the true row, or true absence, at an instant less than five minutes
      and one load ago; an answer straight from a load, at most one load ago. */
  lemma AnswersAreRecentTruth(run: seq<State>, acts: seq<Action>, maxLoad: nat, k: nat) returns (version: nat, at: Time)
    requires IsRun(run, acts, maxLoad) && k < |acts| && (acts[k].Hit? || acts[k].Finish?)
    ensures TrueAt(run[k].history, acts[k].email, Answer(run[k], acts[k]), version, at)
    ensures at <= run[k].now < at + maxLoad + Users.CACHE_TTL
    ensures acts[k].Finish? ==> run[k].now <= at + maxLoad
  {
    RunKeepsInv(run, acts, maxLoad, k);
    var s, e := run[k], acts[k].email;
    if acts[k].Hit? {
      version, at := s.cache[e].version, s.cache[e].readAt;
    } else {
      version, at := s.flights[e].version, s.flights[e].readAt;
    }
  }

  /** One version extends another: rows stay, keep their address, and an active account stays active. */
  ghost predicate Extends(rows: Rows, later: Rows) {
    forall id | id in rows :: id in later && later[id].email == rows[id].email && (rows[id].active ==> later[id].active)
  }

  lemma WriteExtends(rows: Rows, w: Write, now: Time)
    ensures Extends(rows, Written(rows, w, now))
  {
  }

  lemma StepExtends(s: State, a: Action, maxLoad: nat)
    requires s.history != [] && Enabled(s, a, maxLoad)
    ensures Next(s, a, maxLoad).history != [] && s.history <= Next(s, a, maxLoad).history
    ensures Extends(Table(s), Table(Next(s, a, maxLoad)))
  {
    if a.Commit? { WriteExtends(Table(s), a.w, s.now); }
  }

  /** In every interleaving, whatever stale values writers carry, Active never reverts between two versions of the table. */
  lemma {:induction false} ActiveNeverReverts(run: seq<State>, acts: seq<Action>, maxLoad: nat, i: nat, k: nat)
    requires IsRun(run, acts, maxLoad) && i <= k < |run|
    ensures run[i].history != [] && run[k].history != [] && run[i].history <= run[k].history
    ensures Extends(Table(run[i]), Table(run[k]))
  {
    hide Next, Inv;
    if i < k {
      ActiveNeverReverts(run, acts, maxLoad, i, k - 1);
      StepExtends(run[k - 1], acts[k - 1], maxLoad);
    } else if i > 0 {
      StepExtends(run[i - 1], acts[i - 1], maxLoad);
    }
  }

  /** A load of the address is open and holds a row that the table no longer has. */
  ghost predicate StaleLoad(s: State, e: string)
    requires s.history != []
  {
    e in s.flights && s.flights[e].HasRead? && s.flights[e].row != FindByEmail(Table(s), e)
  }

  /** Every answer for the address, in every continuation without a commit, is the table's own row. */
  ghost predicate AnswersCurrent(s: State, e: string, maxLoad: nat)
    requires s.history != []
  {
    forall run, acts, k: nat | Runs(s, run, acts, maxLoad) && Quiet(acts) && k < |acts| && Answers(acts[k], e) ::
      Answer(run[k], acts[k]) == FindByEmail(Table(s), e)
  }

  predicate Quiet(acts: seq<Action>) { forall i | 0 <= i < |acts| :: !acts[i].Commit? }

  predicate Answers(a: Action, e: string) { (a.Hit? || a.Finish?) && a.email == e }

  /** No answer for the address can be wrong now: an expired entry answers nobody. */
  ghost predicate Harmless(s: State, e: string)
    requires s.history != []
  {
    !StaleLoad(s, e) && (Cached(s, e) ==> Some(s.cache[e].user) == FindByEmail(Table(s), e))
  }

  lemma HarmlessStep(s: State, a: Action, e: string, maxLoad: nat)
    requires s.history != [] && Enabled(s, a, maxLoad) && !a.Commit? && Harmless(s, e)
    ensures var t := Next(s, a, maxLoad); t.history == s.history && Harmless(t, e)
  {
  }

  lemma {:induction false} HarmlessRun(s: State, run: seq<State>, acts: seq<Action>, e: string, maxLoad: nat, k: nat)
    requires s.history != [] && Harmless(s, e) && Runs(s, run, acts, maxLoad) && Quiet(acts) && k < |run|
    ensures run[k].history == s.history && Harmless(run[k], e)
  {
    if k > 0 {
      HarmlessRun(s, run, acts, e, maxLoad, k - 1);
      hide Next, Harmless;
      HarmlessStep(run[k - 1], acts[k - 1], e, maxLoad);
    }
  }

  /** From any state, every answer for an address until the next commit is the table's own row exactly when neither
      a live entry nor an open load holds another one. */
  lemma AnswersCurrentIff(s: State, e: string, maxLoad: nat)
    requires s.history != []
    ensures AnswersCurrent(s, e, maxLoad) <==> Harmless(s, e)
  {
    if StaleLoad(s, e) && !Enabled(s, Finish(e), maxLoad) {
      var t := Next(s, Fill(e), maxLoad);
      var run, acts := [s, t, Next(t, Finish(e), maxLoad)], [Fill(e), Finish(e)];
      assert Runs(s, run, acts, maxLoad) && Quiet(acts) && Answers(acts[1], e);
      assert Answer(run[1], acts[1]) != FindByEmail(Table(s), e);
    } else if !Harmless(s, e) {
      var a := if StaleLoad(s, e) then Finish(e) else Hit(e);
      var run, acts := [s, Next(s, a, maxLoad)], [a];
      assert Runs(s, run, acts, maxLoad) && Quiet(acts) && Answers(acts[0], e);
      assert Answer(run[0], acts[0]) != FindByEmail(Table(s), e);
    } else {
      forall run, acts, k: nat | Runs(s, run, acts, maxLoad) && Quiet(acts) && k < |acts| && Answers(acts[k], e)
        ensures Answer(run[k], acts[k]) == FindByEmail(Table(s), e)
      {
        HarmlessRun(s, run, acts, e, maxLoad, k);
      }
    }
  }

  /** The eviction that follows a commit works exactly when no open load holds another row than the table: then, and only then, is every later answer for the address the table's own until the next commit. */
  lemma EvictionSufficesIff(s: State, e: string, maxLoad: nat)
    requires s.history != []
    ensures AnswersCurrent(Next(s, Evict({e}), maxLoad), e, maxLoad) <==> !StaleLoad(s, e)
  {
    AnswersCurrentIff(Next(s, Evict({e}), maxLoad), e, maxLoad);
  }

  /** A load reads, and a write commits before the load is done. */
  lemma LoadSpansCommit(s: State, id: string, w: Write) returns (run: seq<State>)
    requires s.history != [] && s.cache == map[] && s.flights == map[]
    requires RowsOk(Table(s)) && id in Table(s)
    ensures var e, u := Table(s)[id].email, Table(s)[id];
            && Runs(s, run, [Start(e), Read(e), Commit(w)], 0)
            && run[3] == s.(flights := map[e := HasRead(Some(u), s.now, |s.history| - 1, false)],
                            history := s.history + [Version(s.now, Written(Table(s), w, s.now))])
  {
    var e, u := Table(s)[id].email, Table(s)[id];
    FindByEmailUnique(Table(s), id);
    var s1 := Next(s, Start(e), 0);
    var s2 := Next(s1, Read(e), 0);
    run := [s, s1, s2, Next(s2, Commit(w), 0)];
  }

  /** The writer evicts, the load fills the cache, and the next call hits the entry. */
  lemma LoadFillsLate(s: State, e: string, u: User, version: nat) returns (run: seq<State>)
    requires s.history != [] && s.cache == map[] && s.flights == map[e := HasRead(Some(u), s.now, version, false)]
    ensures var acts := [Evict({e}), Fill(e), Finish(e), Hit(e)];
            Runs(s, run, acts, 0) && Table(run[3]) == Table(s) && Answer(run[3], acts[3]) == Some(u)
  {
    var s1 := Next(s, Evict({e}), 0);
    var s2 := Next(s1, Fill(e), 0);
    var s3 := Next(s2, Finish(e), 0);
    run := [s, s1, s2, s3, s3];
  }

  /** The failing case is real: over any table with an inactive account some run from an empty cache has a stale
      load, and the call after the eviction is given the old row although the table says active. */
  lemma StaleFillIsPossible(s: State, id: string) returns (run: seq<State>, more: seq<State>)
    requires s.history != [] && s.history[|s.history| - 1].from <= s.now && s.cache == map[] && s.flights == map[]
    requires RowsOk(Table(s)) && id in Table(s) && !Table(s)[id].active
    ensures var e := Table(s)[id].email;
            && IsRun(run, [Start(e), Read(e), Commit(Activation(id))], 0) && run[0] == s
            && run[3].history != [] && StaleLoad(run[3], e)
            && Runs(run[3], more, [Evict({e}), Fill(e), Finish(e), Hit(e)], 0)
            && id in Table(more[3]) && Table(more[3])[id].active && Answer(more[3], Hit(e)) == Some(Table(s)[id])
  {
    hide Next;
    var e, u := Table(s)[id].email, Table(s)[id];
    run := LoadSpansCommit(s, id, Activation(id));
    more := LoadFillsLate(run[3], e, u, |s.history| - 1);
    WritesKeepRowsOk(Table(s), u, s.now);
    FindByEmailUnique(WriteActive(Table(s), id, s.now), id);
  }
}
