/** Migration runners side by side: the advisory lock, the names loaded under it, and one committed file at a time. */
module MigrationLock {
  import opened Migration

  datatype Runner =
    | Waiting(up: bool)
    | Locked(up: bool)
    | Upping(applied: set<string>, todo: seq<string>)
    | Downing(todo: seq<string>)
    | Failing                        // the error is on its way out; only Release is left
    | Finished

  /** One holding of the lock: its direction and how many of its files it got through. */
  datatype Session = Session(up: bool, done: nat)

  datatype State = State(db: Database, lock: set<nat>, runners: map<nat, Runner>, sessions: seq<Session>)

  datatype Action =
    | Start(p: nat, up: bool)
    | Acquire(p: nat)
    | Load(p: nat)                   // list the files, and for Up the recorded names
    | Apply(p: nat, fault: Fault)    // the next file
    | Release(p: nat)                // done, failed, or its session ended and it stopped

  predicate Enabled(s: State, a: Action) {
    match a
    case Start(p, _) => p !in s.runners
    case Acquire(p) => p in s.runners && s.runners[p].Waiting? && s.lock == {}
    case Load(p) => p in s.runners && s.runners[p].Locked?
    case Apply(p, _) =>
      p in s.runners && ((s.runners[p].Upping? && s.runners[p].todo != []) || (s.runners[p].Downing? && s.runners[p].todo != []))
    case Release(p) => p in s.runners && p in s.lock
  }

  function Advance(sessions: seq<Session>): seq<Session> {
    if sessions == [] then [] else var n := |sessions| - 1; sessions[n := sessions[n].(done := sessions[n].done + 1)]
  }

  function Next(s: State, a: Action, ups: seq<string>, downs: seq<string>): State
    requires Enabled(s, a)
  {
    match a
    case Start(p, up) => s.(runners := s.runners[p := Waiting(up)])
    case Acquire(p) =>
      s.(lock := {p}, runners := s.runners[p := Locked(s.runners[p].up)], sessions := s.sessions + [Session(s.runners[p].up, 0)])
    case Load(p) =>
      s.(runners := s.runners[p := if s.runners[p].up then Upping(s.db.recorded, ups) else Downing(Reversed(downs))])
    case Apply(p, fault) =>
      var r := s.runners[p];
      var f := r.todo[0];
      if r.Upping? && f in r.applied then
        s.(runners := s.runners[p := Upping(r.applied, r.todo[1..])], sessions := Advance(s.sessions))
      else
        s.(db := if fault.RollsBack? then s.db else if r.Upping? then ApplyUp(s.db, f) else ApplyDown(s.db, f),
           sessions := if fault.RollsBack? then s.sessions else Advance(s.sessions),
           runners := s.runners[p := if !fault.Commits? then Failing
                                     else if r.Upping? then Upping(r.applied, r.todo[1..]) else Downing(r.todo[1..])])
    case Release(p) => s.(lock := s.lock - {p}, runners := s.runners[p := Finished])
  }

  ghost predicate Inv(s: State) {
    && RecordTrue(s.db) && RanOnce(s.db.executed) && |s.lock| <= 1
    && (forall p | p in s.runners && !s.runners[p].Waiting? && !s.runners[p].Finished? :: p in s.lock)
    && (forall p | p in s.lock :: p in s.runners)
    && (forall p | p in s.runners && s.runners[p].Upping? ::
          var r := s.runners[p];
          Distinct(r.todo) && forall f | f in r.todo :: f in r.applied <==> f in s.db.recorded)
  }

  /** Only one runner can be past the lock. */
  lemma Exclusive(s: State, p: nat, q: nat)
    requires Inv(s) && p in s.lock && q in s.lock
    ensures p == q
  {
    if p != q { assert |{p, q}| == 2 && {p, q} <= s.lock; Subset({p, q}, s.lock); }
  }

  lemma Subset(a: set<nat>, b: set<nat>)
    requires a <= b
    ensures |a| <= |b|
  {
    assert b == a + (b - a);
  }

  lemma ApplyKeepsInv(s: State, p: nat, fault: Fault, ups: seq<string>, downs: seq<string>)
    requires Inv(s) && Enabled(s, Apply(p, fault))
    ensures Inv(Next(s, Apply(p, fault), ups, downs))
  {
    hide RanOnce, RecordTrue, ApplyDown;
    var r := s.runners[p];
    var f := r.todo[0];
    forall q | q in s.runners && s.runners[q].Upping? ensures q == p { Exclusive(s, p, q); }
    if r.Upping? && f !in r.applied && !fault.RollsBack? { ApplyUpTrue(s.db, f); }
    if r.Downing? && !fault.RollsBack? { ApplyDownTrue(s.db, f); }
  }

  lemma LockKeepsInv(s: State, a: Action, ups: seq<string>, downs: seq<string>)
    requires Inv(s) && Enabled(s, a) && (a.Acquire? || a.Release?)
    ensures Inv(Next(s, a, ups, downs))
  {
    hide RanOnce, RecordTrue;
    if a.Release? {
      Subset(s.lock - {a.p}, s.lock);
      forall p | p in s.lock ensures p == a.p { Exclusive(s, p, a.p); }
    }
  }

  lemma NextKeepsInv(s: State, a: Action, ups: seq<string>, downs: seq<string>)
    requires Inv(s) && Enabled(s, a) && Distinct(ups)
    ensures Inv(Next(s, a, ups, downs))
  {
    hide RanOnce, RecordTrue;
    match a
    case Apply(p, fault) => ApplyKeepsInv(s, p, fault, ups, downs);
    case Acquire(_) => LockKeepsInv(s, a, ups, downs);
    case Release(_) => LockKeepsInv(s, a, ups, downs);
    case _ =>
  }

  ghost predicate IsRun(run: seq<State>, acts: seq<Action>, ups: seq<string>, downs: seq<string>) {
    && |run| == |acts| + 1 && run[0] == State(EMPTY, {}, map[], [])
    && forall i | 0 <= i < |acts| :: Enabled(run[i], acts[i]) && run[i + 1] == Next(run[i], acts[i], ups, downs)
  }

  /** In every interleaving of any number of runners, with any failures, each of which stops its runner, each up script commits
      at most once between its downs, and schema_migrations lists exactly the scripts in effect. */
  lemma {:induction false} EachUpRunsOnce(run: seq<State>, acts: seq<Action>, ups: seq<string>, downs: seq<string>, i: nat)
    requires IsRun(run, acts, ups, downs) && i < |run| && Distinct(ups)
    ensures Inv(run[i]) && RanOnce(run[i].db.executed) && RecordTrue(run[i].db)
  {
    hide Next;
    if i > 0 {
      EachUpRunsOnce(run, acts, ups, downs, i - 1);
      NextKeepsInv(run[i - 1], acts[i - 1], ups, downs);
    }
  }

  function Files(up: bool, ups: seq<string>, downs: seq<string>): seq<string> { if up then ups else Reversed(downs) }

  ghost predicate Within(sessions: seq<Session>, ups: seq<string>, downs: seq<string>) {
    forall i | 0 <= i < |sessions| :: sessions[i].done <= |Files(sessions[i].up, ups, downs)|
  }

  /** The database after some sessions one after another, each through a prefix of its files. */
  ghost function Replay(sessions: seq<Session>, ups: seq<string>, downs: seq<string>): Database
    requires Within(sessions, ups, downs)
  {
    if sessions == [] then EMPTY
    else
      var n := |sessions| - 1;
      var before := Replay(sessions[..n], ups, downs);
      if sessions[n].up then UpAll(before, ups[..sessions[n].done]) else DownAll(before, Reversed(downs)[..sessions[n].done])
  }

  /** The database is that of the sessions so far, and the holder of the lock is in the last of them. */
  ghost predicate Serial(s: State, ups: seq<string>, downs: seq<string>) {
    && Within(s.sessions, ups, downs) && s.db == Replay(s.sessions, ups, downs)
    && forall p | p in s.runners :: Placed(s, s.runners[p], ups, downs)
  }

  /** A runner at work has before it exactly the files that the last session has not done. */
  ghost predicate Placed(s: State, r: Runner, ups: seq<string>, downs: seq<string>)
    requires Within(s.sessions, ups, downs)
  {
    var n := |s.sessions| - 1;
    match r
    case Locked(up) => n >= 0 && s.sessions[n] == Session(up, 0)
    case Upping(applied, todo) =>
      && n >= 0 && s.sessions[n].up && todo == ups[s.sessions[n].done..]
      && applied == Replay(s.sessions[..n], ups, downs).recorded
    case Downing(todo) => n >= 0 && !s.sessions[n].up && todo == Reversed(downs)[s.sessions[n].done..]
    case _ => true
  }

  lemma StartSession(sessions: seq<Session>, up: bool, ups: seq<string>, downs: seq<string>)
    requires Within(sessions, ups, downs)
    ensures Within(sessions + [Session(up, 0)], ups, downs)
    ensures Replay(sessions + [Session(up, 0)], ups, downs) == Replay(sessions, ups, downs)
  {
    assert (sessions + [Session(up, 0)])[..|sessions|] == sessions;
  }

  /** One more file of the last session. */
  lemma AdvanceSession(sessions: seq<Session>, ups: seq<string>, downs: seq<string>)
    requires Within(sessions, ups, downs) && sessions != []
    requires var l := sessions[|sessions| - 1]; l.done < |Files(l.up, ups, downs)|
    ensures var n, l := |sessions| - 1, sessions[|sessions| - 1];
            var before, now := Replay(sessions[..n], ups, downs), Replay(sessions, ups, downs);
            && Within(Advance(sessions), ups, downs) && Advance(sessions)[..n] == sessions[..n]
            && Replay(Advance(sessions), ups, downs) ==
                 (if !l.up then ApplyDown(now, Reversed(downs)[l.done])
                  else if ups[l.done] in now.recorded then now else ApplyUp(now, ups[l.done]))
            && (l.up && Distinct(ups) ==> (ups[l.done] in now.recorded <==> ups[l.done] in before.recorded))
  {
    var n, l := |sessions| - 1, sessions[|sessions| - 1];
    var files := Files(l.up, ups, downs);
    assert Advance(sessions)[..n] == sessions[..n];
    assert files[..l.done + 1][..l.done] == files[..l.done];
    if l.up { UpRecords(Replay(sessions[..n], ups, downs), ups[..l.done]); }
  }

  lemma {:induction false} ApplySerial(s: State, p: nat, fault: Fault, ups: seq<string>, downs: seq<string>)
    requires Inv(s) && Serial(s, ups, downs) && Enabled(s, Apply(p, fault)) && Distinct(ups)
    ensures Serial(Next(s, Apply(p, fault), ups, downs), ups, downs)
  {
    hide Replay, RanOnce, RecordTrue, ApplyUp, ApplyDown, UpAll, DownAll;
    var s' := Next(s, Apply(p, fault), ups, downs);
    assert Placed(s, s.runners[p], ups, downs);
    AdvanceSession(s.sessions, ups, downs);
    forall q | q in s'.runners ensures Placed(s', s'.runners[q], ups, downs) {
      if q != p && !s.runners[q].Waiting? && !s.runners[q].Finished? { Exclusive(s, p, q); }
    }
  }

  lemma OtherSerial(s: State, a: Action, ups: seq<string>, downs: seq<string>)
    requires Inv(s) && Serial(s, ups, downs) && Enabled(s, a) && !a.Apply?
    ensures Serial(Next(s, a, ups, downs), ups, downs)
  {
    hide RanOnce, RecordTrue, Replay;
    var s' := Next(s, a, ups, downs);
    if a.Load? {
      var n := |s.sessions| - 1;
      assert Placed(s, s.runners[a.p], ups, downs);
      assert s.sessions == s.sessions[..n] + [Session(s.runners[a.p].up, 0)];
      StartSession(s.sessions[..n], s.runners[a.p].up, ups, downs);
    }
    if a.Acquire? {
      StartSession(s.sessions, s.runners[a.p].up, ups, downs);
      assert s'.sessions[..|s.sessions|] == s.sessions;
    }
    forall q | q in s'.runners ensures Placed(s', s'.runners[q], ups, downs) {
      if q in s.runners { assert Placed(s, s.runners[q], ups, downs); }
    }
  }

  /** Every interleaving of any number of runners, with any failures, leaves the database of the sessions one after
      another: whole Ups and Downs, each stopped after a prefix of its files. */
  lemma {:induction false} RunsAreSessions(run: seq<State>, acts: seq<Action>, ups: seq<string>, downs: seq<string>, i: nat)
    requires IsRun(run, acts, ups, downs) && i < |run| && Distinct(ups)
    ensures Inv(run[i]) && Serial(run[i], ups, downs)
  {
    hide Next, Serial, Inv;
    if i == 0 {
      StartSerial(ups, downs);
    } else {
      EachUpRunsOnce(run, acts, ups, downs, i - 1);
      RunsAreSessions(run, acts, ups, downs, i - 1);
      match acts[i - 1] {
        case Apply(p, fault) => ApplySerial(run[i - 1], p, fault, ups, downs);
        case _ => OtherSerial(run[i - 1], acts[i - 1], ups, downs);
      }
    }
    EachUpRunsOnce(run, acts, ups, downs, i);
  }

  lemma StartSerial(ups: seq<string>, downs: seq<string>)
    ensures Serial(State(EMPTY, {}, map[], []), ups, downs)
  {
  }

  /** Sessions from position d on, all of them Ups. */
  ghost predicate UpsSince(sessions: seq<Session>, d: nat) {
    d <= |sessions| && forall i | d <= i < |sessions| :: sessions[i].up
  }

  function Stops(sessions: seq<Session>): (r: seq<nat>)
    ensures |r| == |sessions|
  {
    seq(|sessions|, i requires 0 <= i < |sessions| => sessions[i].done)
  }

  /** Consecutive Ups are the interrupted runs of one Up. */
  lemma {:induction false} UpsInterrupt(sessions: seq<Session>, d: nat, ups: seq<string>, downs: seq<string>)
    requires Within(sessions, ups, downs) && UpsSince(sessions, d)
    ensures Within(sessions[..d], ups, downs)
    ensures forall i | 0 <= i < |Stops(sessions[d..])| :: Stops(sessions[d..])[i] <= |ups|
    ensures Replay(sessions, ups, downs) == Interrupted(Replay(sessions[..d], ups, downs), ups, Stops(sessions[d..]))
    decreases |sessions|
  {
    hide UpAll, DownAll;
    forall i | d <= i < |sessions| ensures sessions[i].done <= |ups| {}
    if d == |sessions| {
      assert sessions[..d] == sessions && sessions[d..] == [];
    } else {
      var n := |sessions| - 1;
      UpsInterrupt(sessions[..n], d, ups, downs);
      assert sessions[..n][..d] == sessions[..d] && sessions[..n][d..] == sessions[d..n];
      assert Stops(sessions[d..])[..n - d] == Stops(sessions[d..n]);
    }
  }

  /** In every interleaving, when some runner has got through its Up, the database is what one clean Up makes of the
      state the last Down left, however many Ups failed in between and wherever; one more Up changes nothing. */
  lemma CompletedUpConverges(run: seq<State>, acts: seq<Action>, ups: seq<string>, downs: seq<string>, i: nat, p: nat, d: nat)
    requires IsRun(run, acts, ups, downs) && i < |run| && Distinct(ups)
    requires p in run[i].runners && run[i].runners[p].Upping? && run[i].runners[p].todo == []
    requires UpsSince(run[i].sessions, d)
    ensures Within(run[i].sessions[..d], ups, downs)
    ensures run[i].db == UpAll(Replay(run[i].sessions[..d], ups, downs), ups) && UpAll(run[i].db, ups) == run[i].db
  {
    RunsAreSessions(run, acts, ups, downs, i);
    var s := run[i];
    var n := |s.sessions| - 1;
    assert Placed(s, s.runners[p], ups, downs);
    assert s.sessions[n].done == |ups| && ups[..|ups|] == ups;
    if d <= n {
      UpsInterrupt(s.sessions[..n], d, ups, downs);
      assert s.sessions[..n][..d] == s.sessions[..d];
      InterruptedUpConverges(Replay(s.sessions[..d], ups, downs), ups, Stops(s.sessions[..n][d..]));
    } else {
      assert s.sessions[..d] == s.sessions;
      UpResumes(Replay(s.sessions[..n], ups, downs), ups, |ups|);
    }
  }
}
