/** Concurrent Refresh, Login and Logout, one store command at a time, any of which may fail. */
module RefreshInterleaving {
  import opened Base
  import opened KeyValue
  import opened AuthService

  /** Where a running use case stands, with the identifier it was given and the one it minted. */
  datatype Proc =
    | Presented(old_: string)                  // Refresh: parsed, liveness not yet checked
    | Checked(old_: string)                    // Refresh: the identifier was live
    | Minted(old_: string, new_: string)       // Refresh: next is SET of the new identifier
    | Stored(old_: string, new_: string)       // Refresh: next is EXPIRE of it
    | Timed(old_: string, new_: string)        // Refresh: next is DEL of the old one
    | LoginMinted(new_: string)
    | LoginStored(new_: string)
    | LoggingOut(old_: string)
    | Refused                                  // returned an error
    | Returned                                 // returned success

  datatype State = State(
    now: Time,
    kv: map<string, Entry>,      // the refresh family
    minted: set<string>,         // every identifier ever drawn
    given: map<string, Time>,    // those whose token left the service, with the deadline of their key
    procs: map<nat, Proc>,
    deleted: set<string>,        // those whose DEL took effect
    exchanged: map<nat, string>) // the Refresh calls that succeeded, with the identifier each exchanged

  datatype Action =
    | Tick(to: Time)
    | Present(p: nat, j: string)
    | PresentLogout(p: nat, j: string)
    | Check(p: nat, f: Fault)
    | Refuse(p: nat)                       // lookup, activation, cutoff, signing or an elapsed lifetime says no
    | Mint(p: nat, n: string)
    | LoginMint(p: nat, n: string)
    | StoreNew(p: nat, ttl: Time, f: Fault)
    | SetLifetime(p: nat, ttl: Time, f: Fault)
    | Remove(p: nat, f: Fault)

  /** A token can be presented only once it was handed out; identifiers are drawn fresh; a lifetime that is
      not positive is refused before the first command. */
  predicate Enabled(s: State, a: Action) {
    match a
    case Tick(to) => s.now <= to
    case Present(p, j) => p !in s.procs && j in s.given
    case PresentLogout(p, j) => p !in s.procs && j in s.given
    case Check(p, _) => p in s.procs && s.procs[p].Presented?
    case Refuse(p) => p in s.procs && (s.procs[p].Checked? || s.procs[p].Minted? || s.procs[p].LoginMinted?)
    case Mint(p, n) => p in s.procs && s.procs[p].Checked? && n !in s.minted
    case LoginMint(p, n) => p !in s.procs && n !in s.minted
    case StoreNew(p, _, _) => p in s.procs && (s.procs[p].Minted? || s.procs[p].LoginMinted?)
    case SetLifetime(p, ttl, _) => p in s.procs && (s.procs[p].Stored? || s.procs[p].LoginStored?) && ttl > 0
    case Remove(p, _) => p in s.procs && (s.procs[p].Timed? || s.procs[p].LoggingOut?)
  }

  function Deadline(kv: map<string, Entry>, now: Time, j: string): Time {
    if j in kv && kv[j].deadline.Some? then kv[j].deadline.value else now
  }

  function Next(s: State, a: Action): State
    requires Enabled(s, a)
  {
    match a
    case Tick(to) => s.(now := to)
    case Present(p, j) => s.(procs := s.procs[p := Presented(j)])
    case PresentLogout(p, j) => s.(procs := s.procs[p := LoggingOut(j)])
    case Check(p, f) =>
      var live := f.Healthy? && Get(s.kv, s.now, s.procs[p].old_).Some?;
      s.(procs := s.procs[p := if live then Checked(s.procs[p].old_) else Refused])
    case Refuse(p) => s.(procs := s.procs[p := Refused])
    case Mint(p, n) => s.(minted := s.minted + {n}, procs := s.procs[p := Minted(s.procs[p].old_, n)])
    case LoginMint(p, n) => s.(minted := s.minted + {n}, procs := s.procs[p := LoginMinted(n)])
    case StoreNew(p, ttl, f) =>
      var q := s.procs[p];
      s.(kv := if f.Lost? then s.kv else Set(s.kv, s.now, ttl, q.new_, q.new_),
         procs := s.procs[p := if !f.Healthy? then Refused else if q.Minted? then Stored(q.old_, q.new_) else LoginStored(q.new_)])
    case SetLifetime(p, ttl, f) =>
      var q := s.procs[p];
      var kv' := if f.Lost? then s.kv else Expire(s.kv, s.now, q.new_, ttl);
      s.(kv := kv',
         procs := s.procs[p := if !f.Healthy? then Refused else if q.Stored? then Timed(q.old_, q.new_) else Returned],
         given := if f.Healthy? && q.LoginStored? then s.given[q.new_ := Deadline(kv', s.now, q.new_)] else s.given)
    case Remove(p, f) =>
      var q := s.procs[p];
      s.(kv := if f.Lost? then s.kv else Del(s.kv, q.old_),
         deleted := if f.Lost? then s.deleted else s.deleted + {q.old_},
         procs := s.procs[p := if q.Timed? || f.Healthy? then Returned else Refused],
         given := if q.Timed? then s.given[q.new_ := Deadline(s.kv, s.now, q.new_)] else s.given,
         exchanged := if q.Timed? then s.exchanged[p := q.old_] else s.exchanged)
  }

  const START := State(0, map[], {}, map[], map[], {}, map[])

  /** An execution from a state: some enabled action leads from each state to the next. */
  ghost predicate Runs(s: State, run: seq<State>, acts: seq<Action>) {
    && |run| == |acts| + 1 && run[0] == s
    && forall i | 0 <= i < |acts| :: Enabled(run[i], acts[i]) && run[i + 1] == Next(run[i], acts[i])
  }

  ghost predicate IsRun(run: seq<State>, acts: seq<Action>) { Runs(START, run, acts) }

  predicate Holds(q: Proc) { q.Minted? || q.Stored? || q.Timed? || q.LoginMinted? || q.LoginStored? }

  predicate Was(q: Proc) { q.Presented? || q.Checked? || q.Minted? || q.Stored? || q.Timed? || q.LoggingOut? }

  /** The minted identifier is in the store, and after its EXPIRE it has a deadline. */
  predicate InStore(kv: map<string, Entry>, q: Proc) {
    q.Stored? || q.Timed? || q.LoginStored? ==>
      q.new_ in kv && kv[q.new_].value == Text(q.new_) && (q.Timed? ==> kv[q.new_].deadline.Some?)
  }

  /** The key of a token that is out: gone exactly if a DEL took effect, and otherwise as it was handed out. */
  predicate Settled(s: State, j: string)
    requires j in s.given
  {
    (j in s.kv <==> j !in s.deleted) && (j in s.kv ==> s.kv[j] == Entry(Text(j), Some(s.given[j])))
  }

  /** The presented token is out; the minted one is drawn, not yet out, and where its step left it. */
  predicate ProcOk(s: State, q: Proc) {
    && (Was(q) ==> q.old_ in s.given)
    && (Holds(q) ==> q.new_ in s.minted && q.new_ !in s.given && InStore(s.kv, q))
  }

  ghost predicate ProcsOk(s: State) {
    && (forall p | p in s.procs :: ProcOk(s, s.procs[p]))
    && (forall p, q | p in s.procs && q in s.procs && Holds(s.procs[p]) && Holds(s.procs[q]) && s.procs[p].new_ == s.procs[q].new_ :: p == q)
  }

  ghost predicate TokensOk(s: State) {
    && s.given.Keys <= s.minted && s.deleted <= s.given.Keys && (forall j | j in s.given :: Settled(s, j))
    && (forall p | p in s.exchanged :: p in s.procs && s.procs[p].Returned? && s.exchanged[p] in s.given)
  }

  /** Nobody can write an identifier again once its token is out, and a deleted one is out. */
  ghost predicate Inv(s: State) { TokensOk(s) && ProcsOk(s) }

  /** What a step never takes back: tokens that are out, effective deletions, exchanges and time. */
  ghost predicate Onward(s: State, t: State) {
    && s.deleted <= t.deleted && s.now <= t.now
    && (forall j | j in s.given :: j in t.given && t.given[j] == s.given[j])
    && (forall p | p in s.exchanged :: p in t.exchanged && t.exchanged[p] == s.exchanged[p])
  }

  /** A step that moves one call and at most draws an identifier. */
  lemma MoveKeepsInv(s: State, t: State, p: nat, q: Proc)
    requires Inv(s) && s.minted <= t.minted && t == s.(procs := s.procs[p := q], minted := t.minted)
    requires p in s.procs ==> !s.procs[p].Returned?
    requires ProcOk(t, q) && (Holds(q) ==> forall r | r in s.procs && r != p && Holds(s.procs[r]) :: s.procs[r].new_ != q.new_)
    ensures Inv(t) && Onward(s, t)
  {
    assert TokensOk(t) by { assert forall j | j in s.given :: Settled(s, j) == Settled(t, j); }
    forall r | r in t.procs ensures ProcOk(t, t.procs[r]) {
      if r != p { assert ProcOk(s, s.procs[r]); }
    }
  }

  lemma {:induction false} ProcessKeepsInv(s: State, a: Action)
    requires Inv(s) && Enabled(s, a) && !a.StoreNew? && !a.SetLifetime? && !a.Remove?
    ensures Inv(Next(s, a)) && Onward(s, Next(s, a))
  {
    if a.Tick? {
      TickKeepsInv(s, a.to);
    } else {
      var t := Next(s, a);
      hide TokensOk, Settled, Onward;
      if a.p in s.procs { assert ProcOk(s, s.procs[a.p]); }
      if a.Mint? || a.LoginMint? {
        forall r | r in s.procs && Holds(s.procs[r]) ensures s.procs[r].new_ != a.n { assert ProcOk(s, s.procs[r]); }
      }
      assert a.Present? || a.PresentLogout? ==> a.j in s.given;
      MoveKeepsInv(s, t, a.p, t.procs[a.p]);
    }
  }

  lemma TickKeepsInv(s: State, to: Time)
    requires Inv(s) && s.now <= to
    ensures Inv(s.(now := to)) && Onward(s, s.(now := to))
  {
    var t := s.(now := to);
    assert forall j | j in s.given :: Settled(s, j) == Settled(t, j);
    assert forall p | p in s.procs :: ProcOk(s, s.procs[p]) == ProcOk(t, t.procs[p]);
  }

  /** Writing the key of an identifier that is not out concerns only the call that minted it. */
  lemma WriteKeepsOthers(s: State, t: State, p: nat)
    requires Inv(s) && p in s.procs && Holds(s.procs[p])
    requires t.minted == s.minted && t.given == s.given && t.deleted == s.deleted && t.exchanged == s.exchanged
    requires forall j | j != s.procs[p].new_ :: (j in t.kv <==> j in s.kv) && (j in s.kv ==> t.kv[j] == s.kv[j])
    requires p in t.procs && t.procs == s.procs[p := t.procs[p]] && ProcOk(t, t.procs[p])
    requires Holds(t.procs[p]) ==> t.procs[p].new_ == s.procs[p].new_
    ensures Inv(t)
  {
    assert ProcOk(s, s.procs[p]);
    forall j | j in t.given ensures Settled(t, j) { assert Settled(s, j); }
    forall r | r in t.procs ensures ProcOk(t, t.procs[r]) {
      if r != p {
        assert ProcOk(s, s.procs[r]);
        assert Holds(s.procs[r]) ==> s.procs[r].new_ != s.procs[p].new_;
      }
    }
  }

  /** A token whose key is in place leaves the service, and the call that minted it returns. */
  lemma GiveKeepsInv(s: State, t: State, p: nat)
    requires Inv(s) && p in s.procs && (s.procs[p].Timed? || s.procs[p].LoginStored?)
    requires var n := s.procs[p].new_;
             && n in s.kv && s.kv[n].deadline.Some?
             && t == s.(procs := s.procs[p := Returned], given := s.given[n := s.kv[n].deadline.value],
                        exchanged := if s.procs[p].Timed? then s.exchanged[p := s.procs[p].old_] else s.exchanged)
    ensures Inv(t) && Onward(s, t)
  {
    assert ProcOk(s, s.procs[p]);
    forall j | j in t.given ensures Settled(t, j) {
      if j in s.given { assert Settled(s, j); }
    }
    forall r | r in t.procs ensures ProcOk(t, t.procs[r]) {
      if r != p { assert ProcOk(s, s.procs[r]); }
    }
  }

  /** An effective DEL of a token that is out concerns no minted identifier. */
  lemma DeleteKeepsInv(s: State, t: State, j: string)
    requires Inv(s) && j in s.given && t == s.(kv := s.kv - {j}, deleted := s.deleted + {j})
    ensures Inv(t) && Onward(s, t)
  {
    forall i | i in t.given ensures Settled(t, i) { assert Settled(s, i); }
    forall r | r in t.procs ensures ProcOk(t, t.procs[r]) { assert ProcOk(s, s.procs[r]); }
  }

  lemma StoreKeepsInv(s: State, a: Action)
    requires Inv(s) && Enabled(s, a) && a.StoreNew?
    ensures Inv(Next(s, a)) && Onward(s, Next(s, a))
  {
    hide TokensOk;
    assert ProcOk(s, s.procs[a.p]);
    WriteKeepsOthers(s, Next(s, a), a.p);
  }

  lemma LifetimeKeepsInv(s: State, a: Action)
    requires Inv(s) && Enabled(s, a) && a.SetLifetime?
    ensures Inv(Next(s, a)) && Onward(s, Next(s, a))
  {
    hide TokensOk;
    var t, q := Next(s, a), s.procs[a.p];
    assert ProcOk(s, q);
    if a.f.Healthy? && q.LoginStored? {
      var u := s.(kv := t.kv);
      WriteKeepsOthers(s, u, a.p);
      GiveKeepsInv(u, t, a.p);
    } else {
      WriteKeepsOthers(s, t, a.p);
    }
  }

  lemma RemoveKeepsInv(s: State, a: Action)
    requires Inv(s) && Enabled(s, a) && a.Remove?
    ensures Inv(Next(s, a)) && Onward(s, Next(s, a))
  {
    hide TokensOk;
    var t, q := Next(s, a), s.procs[a.p];
    assert ProcOk(s, q);
    var u := s.(kv := t.kv, deleted := t.deleted);
    if !a.f.Lost? { DeleteKeepsInv(s, u, q.old_); }
    if q.Timed? {
      assert Deadline(s.kv, s.now, q.new_) == u.kv[q.new_].deadline.value;
      GiveKeepsInv(u, t, a.p);
    } else {
      MoveKeepsInv(u, t, a.p, t.procs[a.p]);
    }
  }

  lemma {:induction false} NextKeepsInv(s: State, a: Action)
    requires Inv(s) && Enabled(s, a)
    ensures Inv(Next(s, a)) && Onward(s, Next(s, a))
  {
    hide Inv, Next;
    match a
    case StoreNew(_, _, _) => StoreKeepsInv(s, a);
    case SetLifetime(_, _, _) => LifetimeKeepsInv(s, a);
    case Remove(_, _) => RemoveKeepsInv(s, a);
    case _ => ProcessKeepsInv(s, a);
  }

  /** From a state that keeps the invariant every execution keeps it, and goes onward only. */
  lemma {:induction false} RunKeepsInv(s: State, run: seq<State>, acts: seq<Action>, i: nat, k: nat)
    requires Inv(s) && Runs(s, run, acts) && i <= k < |run|
    ensures Inv(run[i]) && Inv(run[k]) && Onward(run[i], run[k])
    decreases k
  {
    hide Inv, Next;
    if i < k {
      RunKeepsInv(s, run, acts, i, k - 1);
      NextKeepsInv(run[k - 1], acts[k - 1]);
    } else if i > 0 {
      RunKeepsInv(s, run, acts, i - 1, k - 1);
      NextKeepsInv(run[k - 1], acts[k - 1]);
    }
  }

  /** Step r issues the DEL of j. */
  ghost predicate Removes(run: seq<State>, acts: seq<Action>, r: nat, j: string)
    requires |run| == |acts| + 1
  {
    r < |acts| && acts[r].Remove? && acts[r].p in run[r].procs &&
    Was(run[r].procs[acts[r].p]) && run[r].procs[acts[r].p].old_ == j
  }

  /** Every DEL of j issued before step k was lost on its way. */
  ghost predicate AllLost(run: seq<State>, acts: seq<Action>, k: nat, j: string)
    requires |run| == |acts| + 1
  {
    forall r: nat | r < k && Removes(run, acts, r, j) :: acts[r].f.Lost?
  }

  /** In every interleaving an identifier counts as deleted exactly when some DEL of it was not lost. */
  lemma {:induction false} DeletedIff(run: seq<State>, acts: seq<Action>, k: nat, j: string)
    requires IsRun(run, acts) && k < |run|
    ensures j in run[k].deleted <==> !AllLost(run, acts, k, j)
  {
    if k > 0 {
      DeletedIff(run, acts, k - 1, j);
      assert AllLost(run, acts, k, j) <==> AllLost(run, acts, k - 1, j) && (Removes(run, acts, k - 1, j) ==> acts[k - 1].f.Lost?);
    }
  }

  lemma StartInv()
    ensures Inv(START)
  {
  }

  lemma SettledLive(s: State, j: string)
    requires Inv(s) && j in s.given
    ensures Get(s.kv, s.now, j).Some? <==> Live(s.kv, s.now, j)
    ensures Live(s.kv, s.now, j) <==> s.now < s.given[j] && j !in s.deleted
  {
    assert Settled(s, j);
  }

  /** In every interleaving, under any faults, a liveness check passes exactly when the store answers, the token's
      lifetime has not ended and every earlier DEL of it was lost. */
  lemma CheckPassesIff(run: seq<State>, acts: seq<Action>, k: nat)
    requires IsRun(run, acts) && k < |acts| && acts[k].Check?
    ensures var p := acts[k].p;
            var j := run[k].procs[p].old_;
            && j in run[k].given
            && (run[k + 1].procs[p] == Checked(j) <==>
                acts[k].f.Healthy? && run[k].now < run[k].given[j] && AllLost(run, acts, k, j))
            && (run[k + 1].procs[p] != Checked(j) ==> run[k + 1].procs[p] == Refused)
  {
    StartInv();
    RunKeepsInv(START, run, acts, k, k);
    var j := run[k].procs[acts[k].p].old_;
    SettledLive(run[k], j);
    DeletedIff(run, acts, k, j);
  }

  /** In every interleaving, under any faults, once the DEL of an identifier has taken effect every later
      liveness check for it is refused. */
  lemma DeletedNeverLiveAgain(run: seq<State>, acts: seq<Action>, i: nat, k: nat)
    requires IsRun(run, acts) && i <= k < |acts|
    requires acts[k].Check? && run[k].procs[acts[k].p].old_ in run[i].deleted
    ensures run[k + 1].procs[acts[k].p] == Refused
  {
    StartInv();
    RunKeepsInv(START, run, acts, i, k);
    SettledLive(run[k], run[k].procs[acts[k].p].old_);
  }

  /** In every interleaving, under any faults, a Refresh that returned an error exchanged nothing. */
  lemma RefusedNeverRevokes(run: seq<State>, acts: seq<Action>, k: nat, p: nat)
    requires IsRun(run, acts) && k < |run| && p in run[k].procs && run[k].procs[p] == Refused
    ensures p !in run[k].exchanged
    ensures forall r: nat, j | r < k && Removes(run, acts, r, j) && acts[r].p == p :: run[r].procs[p].LoggingOut?
  {
    StartInv();
    RunKeepsInv(START, run, acts, k, k);
    forall r: nat, j | r < k && Removes(run, acts, r, j) && acts[r].p == p ensures run[r].procs[p].LoggingOut? {
      if run[r].procs[p].Timed? {
        assert p in run[r + 1].exchanged;
        RunKeepsInv(START, run, acts, r + 1, k);
      }
    }
  }

  /** A token handed out leaves the store only by a DEL of it or at its deadline. */
  lemma OnlyDelRemoves(run: seq<State>, acts: seq<Action>, k: nat, j: string)
    requires IsRun(run, acts) && k < |acts| && j in run[k].given && j in run[k].kv
    ensures j in run[k + 1].kv || Removes(run, acts, k, j)
    ensures j in run[k + 1].kv ==> run[k + 1].kv[j] == run[k].kv[j]
  {
    StartInv();
    RunKeepsInv(START, run, acts, k, k + 1);
    assert Settled(run[k], j) && Settled(run[k + 1], j);
  }

  /** The call presented j and its check passed. */
  predicate PastCheck(q: Proc, j: string) {
    (q.Checked? || q.Minted? || q.Stored? || q.Timed?) && q.old_ == j
  }

  /** Some execution from here ends with a further exchange of j. */
  ghost predicate Exchangeable(s: State, j: string) {
    exists run, acts, q :: Runs(s, run, acts) && Exchanges(s, run, acts, q, j)
  }

  ghost predicate Exchanges(s: State, run: seq<State>, acts: seq<Action>, q: nat, j: string)
    requires |run| == |acts| + 1
  {
    q !in s.exchanged && q in run[|acts|].exchanged && run[|acts|].exchanged[q] == j
  }

  ghost predicate InProgress(s: State, j: string) {
    exists q :: q in s.procs && PastCheck(s.procs[q], j)
  }

  /** Only a passed check brings a call past its check. */
  lemma EntersByCheck(s: State, a: Action, p: nat, j: string)
    requires Enabled(s, a) && p in Next(s, a).procs && PastCheck(Next(s, a).procs[p], j)
    requires !(p in s.procs && PastCheck(s.procs[p], j))
    ensures a.Check? && a.p == p && s.procs[p] == Presented(j) && Next(s, a).procs[p] == Checked(j) && Get(s.kv, s.now, j).Some?
  {
  }

  /** Only a call past its check exchanges. */
  lemma ExchangesPast(s: State, a: Action, p: nat)
    requires Enabled(s, a) && p in Next(s, a).exchanged
    requires !(p in s.exchanged && s.exchanged[p] == Next(s, a).exchanged[p])
    ensures a.Remove? && a.p == p && s.procs[p].Timed? && s.procs[p].old_ == Next(s, a).exchanged[p]
  {
  }

  /** With the token dead and nobody past its check, no step can exchange it or reopen it. */
  lemma {:induction false} ClosedStep(s: State, a: Action, j: string)
    requires Inv(s) && Enabled(s, a) && j in s.given && !Live(s.kv, s.now, j) && !InProgress(s, j)
    ensures var t := Next(s, a);
            && Inv(t) && Onward(s, t) && j in t.given && !Live(t.kv, t.now, j) && !InProgress(t, j)
            && forall q | q in t.exchanged && q !in s.exchanged :: t.exchanged[q] != j
  {
    NextKeepsInv(s, a);
    SettledLive(s, j);
    SettledLive(Next(s, a), j);
    hide Inv, Onward, Next;
    forall q | q in Next(s, a).procs ensures !PastCheck(Next(s, a).procs[q], j) {
      if PastCheck(Next(s, a).procs[q], j) { EntersByCheck(s, a, q, j); }
    }
    forall q | q in Next(s, a).exchanged && q !in s.exchanged ensures Next(s, a).exchanged[q] != j { ExchangesPast(s, a, q); }
  }

  lemma {:induction false} ClosedRun(s: State, run: seq<State>, acts: seq<Action>, k: nat, j: string)
    requires Inv(s) && Runs(s, run, acts) && k < |run|
    requires j in s.given && !Live(s.kv, s.now, j) && !InProgress(s, j)
    ensures Inv(run[k]) && j in run[k].given && !Live(run[k].kv, run[k].now, j) && !InProgress(run[k], j)
    ensures forall q | q in run[k].exchanged && q !in s.exchanged :: run[k].exchanged[q] != j
  {
    hide Inv, Next, InProgress;
    if k > 0 {
      ClosedRun(s, run, acts, k - 1, j);
      ClosedStep(run[k - 1], acts[k - 1], j);
    }
  }

  lemma Prepend(s: State, a: Action, run: seq<State>, acts: seq<Action>)
    requires Enabled(s, a) && Runs(Next(s, a), run, acts)
    ensures Runs(s, [s] + run, [a] + acts) && ([s] + run)[|acts| + 1] == run[|acts|]
  {
    hide Next;
  }

  lemma {:induction false} Bounded(xs: set<string>) returns (k: nat)
    ensures forall x | x in xs :: |x| < k
  {
    if xs == {} {
      k := 0;
    } else {
      var x :| x in xs;
      k := Bounded(xs - {x});
      k := k + |x| + 1;
      forall y | y in xs ensures |y| < k { assert y == x || y in xs - {x}; }
    }
  }

  lemma {:induction false} UnusedProc(ps: set<nat>) returns (k: nat)
    ensures forall p | p in ps :: p < k
  {
    if ps == {} {
      k := 0;
    } else {
      var p :| p in ps;
      k := UnusedProc(ps - {p});
      k := k + p + 1;
      forall q | q in ps ensures q < k { assert q == p || q in ps - {p}; }
    }
  }

  lemma FreshIdentifier(xs: set<string>) returns (n: string)
    ensures n !in xs
  {
    var k := Bounded(xs);
    n := seq(k, _ => 'x');
  }

  /** How many steps a Refresh still has to take. */
  function Rank(q: Proc): nat {
    match q
    case Presented(_) => 5
    case Checked(_) => 4
    case Minted(_, _) => 3
    case Stored(_, _) => 2
    case _ => 1
  }

  /** The next step of a Refresh that meets no refusal and no fault. */
  function Forward(p: nat, q: Proc, n: string): Action {
    match q
    case Presented(_) => Check(p, Healthy)
    case Checked(_) => Mint(p, n)
    case Minted(_, _) => StoreNew(p, 1, Healthy)
    case Stored(_, _) => SetLifetime(p, 1, Healthy)
    case _ => Remove(p, Healthy)
  }

  /** A call past its check, or presenting a live token, can always go on to exchange it. */
  lemma {:induction false} Completes(s: State, p: nat, j: string) returns (run: seq<State>, acts: seq<Action>)
    requires Inv(s) && p in s.procs && p !in s.exchanged
    requires PastCheck(s.procs[p], j) || (s.procs[p] == Presented(j) && Get(s.kv, s.now, j).Some?)
    ensures Runs(s, run, acts) && Exchanges(s, run, acts, p, j)
    decreases Rank(s.procs[p])
  {
    var n := FreshIdentifier(s.minted);
    var a := Forward(p, s.procs[p], n);
    var t := Next(s, a);
    if s.procs[p].Timed? {
      run, acts := [s, t], [a];
    } else {
      NextKeepsInv(s, a);
      run, acts := Completes(t, p, j);
      Prepend(s, a, run, acts);
      run, acts := [s] + run, [a] + acts;
    }
  }

  /** From every state, a token that is out can be exchanged (once more) in some continuation exactly when its key
      is live or some call has passed its check and not yet returned. */
  lemma ExchangeableIff(s: State, j: string)
    requires Inv(s) && j in s.given
    ensures Exchangeable(s, j) <==> Live(s.kv, s.now, j) || InProgress(s, j)
  {
    hide Next;
    if InProgress(s, j) {
      var p :| p in s.procs && PastCheck(s.procs[p], j);
      assert p !in s.exchanged;
      var run, acts := Completes(s, p, j);
    } else if Live(s.kv, s.now, j) {
      LiveExchangeable(s, j);
    } else {
      forall run, acts, q | Runs(s, run, acts) ensures !Exchanges(s, run, acts, q, j) {
        ClosedRun(s, run, acts, |acts|, j);
      }
    }
  }

  lemma LiveExchangeable(s: State, j: string)
    requires Inv(s) && j in s.given && Live(s.kv, s.now, j)
    ensures Exchangeable(s, j)
  {
    SettledLive(s, j);
    var p := UnusedProc(s.procs.Keys);
    var t := Next(s, Present(p, j));
    NextKeepsInv(s, Present(p, j));
    assert p !in s.exchanged;
    var run, acts := Completes(t, p, j);
    Prepend(s, Present(p, j), run, acts);
    assert Exchanges(s, [s] + run, [Present(p, j)] + acts, p, j);
  }

  /** Single use, exactly: once a call has exchanged j, whatever happened before, another exchange of j can follow
      if and only if another call passed its check of j and has not returned, or every DEL of j issued so far was
      lost and the token's lifetime has not ended. */
  lemma SecondExchangeIff(run: seq<State>, acts: seq<Action>, p: nat, j: string)
    requires IsRun(run, acts) && p in run[|acts|].exchanged && run[|acts|].exchanged[p] == j
    ensures var s := run[|acts|];
            && j in s.given
            && (Exchangeable(s, j) <==> InProgress(s, j) || (AllLost(run, acts, |acts|, j) && s.now < s.given[j]))
  {
    StartInv();
    RunKeepsInv(START, run, acts, |acts|, |acts|);
    DeletedIff(run, acts, |acts|, j);
    SettledLive(run[|acts|], j);
    ExchangeableIff(run[|acts|], j);
  }

  /** Step c is the passed check of p for j. */
  ghost predicate Passes(run: seq<State>, acts: seq<Action>, c: nat, p: nat, j: string)
    requires |run| == |acts| + 1
  {
    && c < |acts| && acts[c].Check? && acts[c].p == p && p in run[c].procs && run[c].procs[p] == Presented(j)
    && p in run[c + 1].procs && run[c + 1].procs[p] == Checked(j)
  }

  /** A call past its check passed it at some step. */
  lemma {:induction false} PassedAt(run: seq<State>, acts: seq<Action>, k: nat, p: nat, j: string) returns (c: nat)
    requires IsRun(run, acts) && k < |run| && p in run[k].procs && PastCheck(run[k].procs[p], j)
    ensures c < k && Passes(run, acts, c, p, j)
  {
    hide Next;
    if p in run[k - 1].procs && PastCheck(run[k - 1].procs[p], j) {
      c := PassedAt(run, acts, k - 1, p, j);
    } else {
      EntersByCheck(run[k - 1], acts[k - 1], p, j);
      c := k - 1;
    }
  }

  /** An exchange passed its check and then issued its DEL. */
  lemma {:induction false} ExchangedAt(run: seq<State>, acts: seq<Action>, k: nat, p: nat) returns (c: nat, r: nat)
    requires IsRun(run, acts) && k < |run| && p in run[k].exchanged
    ensures c < r < k && Passes(run, acts, c, p, run[k].exchanged[p])
    ensures Removes(run, acts, r, run[k].exchanged[p]) && acts[r].p == p
  {
    hide Next;
    if p in run[k - 1].exchanged && run[k - 1].exchanged[p] == run[k].exchanged[p] {
      c, r := ExchangedAt(run, acts, k - 1, p);
    } else {
      ExchangesPast(run[k - 1], acts[k - 1], p);
      r := k - 1;
      c := PassedAt(run, acts, r, p, run[k].exchanged[p]);
    }
  }

  /** Two calls exchange one token only if each passed its check before the other's DEL, or that DEL was lost. */
  lemma ExchangedTwice(run: seq<State>, acts: seq<Action>, k: nat, p: nat, q: nat) returns (cp: nat, rp: nat, cq: nat, rq: nat)
    requires IsRun(run, acts) && k < |run| && p in run[k].exchanged && q in run[k].exchanged
    requires run[k].exchanged[p] == run[k].exchanged[q]
    ensures var j := run[k].exchanged[p];
            && cp < rp < k && Passes(run, acts, cp, p, j) && Removes(run, acts, rp, j) && acts[rp].p == p
            && cq < rq < k && Passes(run, acts, cq, q, j) && Removes(run, acts, rq, j) && acts[rq].p == q
    ensures (cq < rp || acts[rp].f.Lost?) && (cp < rq || acts[rq].f.Lost?)
  {
    cp, rp := ExchangedAt(run, acts, k, p);
    cq, rq := ExchangedAt(run, acts, k, q);
    CheckPassesIff(run, acts, cp);
    CheckPassesIff(run, acts, cq);
  }

  function Rotation(p: nat, n: string, f: Fault): seq<Action> {
    [Mint(p, n), StoreNew(p, 9, Healthy), SetLifetime(p, 9, Healthy), Remove(p, f)]
  }

  function Pass(p: nat, j: string): seq<Action> { [Present(p, j), Check(p, Healthy)] }

  /** What a rotation from a passed check to the return leaves, when its DEL meets the given fault. */
  function Rotated(s: State, p: nat, n: string, f: Fault): State
    requires p in s.procs && s.procs[p].Checked?
  {
    var kv, j := s.kv[n := Entry(Text(n), Some(s.now + 9))], s.procs[p].old_;
    s.(kv := if f.Lost? then kv else kv - {j}, deleted := if f.Lost? then s.deleted else s.deleted + {j},
       minted := s.minted + {n}, given := s.given[n := s.now + 9],
       procs := s.procs[p := Returned], exchanged := s.exchanged[p := j])
  }

  lemma Rotates(s: State, p: nat, n: string, f: Fault) returns (run: seq<State>)
    requires p in s.procs && s.procs[p].Checked? && n !in s.minted && s.procs[p].old_ in s.minted
    ensures Runs(s, run, Rotation(p, n, f)) && run[4] == Rotated(s, p, n, f)
  {
    var acts := Rotation(p, n, f);
    var s1 := Next(s, acts[0]);
    var s2 := Next(s1, acts[1]);
    var s3 := Next(s2, acts[2]);
    var s4 := Next(s3, acts[3]);
    run := [s, s1, s2, s3, s4];
    assert s3.kv == s.kv[n := Entry(Text(n), Some(s.now + 9))];
    assert s3.procs == s.procs[p := Timed(s.procs[p].old_, n)];
    assert s4.procs == s.procs[p := Returned];
  }

  /** One call presents a live token and passes its check. */
  lemma PresentsAndPasses(s: State, p: nat, j: string) returns (run: seq<State>)
    requires p !in s.procs && j in s.given && Get(s.kv, s.now, j).Some?
    ensures Runs(s, run, Pass(p, j)) && run[2] == s.(procs := s.procs[p := Checked(j)])
  {
    var s1 := Next(s, Pass(p, j)[0]);
    run := [s, s1, Next(s1, Pass(p, j)[1])];
    assert run[2].procs == s.procs[p := Checked(j)];
  }

  lemma Joined(run: seq<State>, acts: seq<Action>, more: seq<State>, next: seq<Action>) returns (all: seq<State>)
    requires IsRun(run, acts) && Runs(run[|acts|], more, next)
    ensures IsRun(all, acts + next) && |all| == |acts + next| + 1 && all[|acts + next|] == more[|next|]
  {
    hide Next;
    all := run + more[1..];
    forall i | 0 <= i < |acts + next| ensures Enabled(all[i], (acts + next)[i]) && all[i + 1] == Next(all[i], (acts + next)[i]) {
      if i >= |acts| {
        assert all[i] == more[i - |acts|] && all[i + 1] == more[i + 1 - |acts|] && (acts + next)[i] == next[i - |acts|];
      }
    }
  }

  /** Appended to a run: one call that passes its check, and a rotation. */
  lemma ThenPasses(run: seq<State>, acts: seq<Action>, p: nat, j: string) returns (all: seq<State>)
    requires IsRun(run, acts)
    requires var s := run[|acts|]; p !in s.procs && j in s.given && Get(s.kv, s.now, j).Some?
    ensures IsRun(all, acts + Pass(p, j)) && |all| == |acts + Pass(p, j)| + 1
    ensures all[|acts + Pass(p, j)|] == run[|acts|].(procs := run[|acts|].procs[p := Checked(j)])
  {
    hide Next;
    var more := PresentsAndPasses(run[|acts|], p, j);
    all := Joined(run, acts, more, Pass(p, j));
  }

  lemma ThenRotates(run: seq<State>, acts: seq<Action>, p: nat, n: string, f: Fault) returns (all: seq<State>)
    requires IsRun(run, acts)
    requires var s := run[|acts|]; p in s.procs && s.procs[p].Checked? && n !in s.minted && s.procs[p].old_ in s.minted
    ensures IsRun(all, acts + Rotation(p, n, f)) && |all| == |acts + Rotation(p, n, f)| + 1
    ensures all[|acts + Rotation(p, n, f)|] == Rotated(run[|acts|], p, n, f)
  {
    hide Next;
    var more := Rotates(run[|acts|], p, n, f);
    all := Joined(run, acts, more, Rotation(p, n, f));
  }

  const LOGIN := [LoginMint(0, "a"), StoreNew(0, 9, Healthy), SetLifetime(0, 9, Healthy)]

  /** A deployment in which one login handed out the token "a", with nine ticks to live. */
  lemma LoggedIn() returns (run: seq<State>, acts: seq<Action>)
    ensures IsRun(run, acts) && acts == LOGIN
    ensures run[3] == State(0, map["a" := Entry(Text("a"), Some(9))], {"a"}, map["a" := 9], map[0 := Returned], {}, map[])
  {
    acts := LOGIN;
    var s1 := Next(START, acts[0]);
    var s2 := Next(s1, acts[1]);
    var s3 := Next(s2, acts[2]);
    run := [START, s1, s2, s3];
    assert s3.procs == map[0 := Returned] && s3.kv == map["a" := Entry(Text("a"), Some(9))];
  }

  /** The token "a" was exchanged by both calls, and both successors are live. */
  predicate Forked(s: State) {
    && s.exchanged == map[1 := "a", 2 := "a"]
    && "b" in s.given && Live(s.kv, s.now, "b") && "d" in s.given && Live(s.kv, s.now, "d")
  }

  /** Without any fault: two calls that both pass their check before either DEL exchange one token twice. */
  lemma OverlapForks() returns (run: seq<State>, acts: seq<Action>)
    ensures IsRun(run, acts) && Forked(run[|acts|])
    ensures acts == LOGIN + Pass(1, "a") + Pass(2, "a") + Rotation(1, "b", Healthy) + Rotation(2, "d", Healthy)
  {
    hide Next, Runs, IsRun, Pass, Rotation;
    run, acts := LoggedIn();
    run := ThenPasses(run, acts, 1, "a");
    acts := acts + Pass(1, "a");
    run := ThenPasses(run, acts, 2, "a");
    acts := acts + Pass(2, "a");
    run := ThenRotates(run, acts, 1, "b", Healthy);
    acts := acts + Rotation(1, "b", Healthy);
    run := ThenRotates(run, acts, 2, "d", Healthy);
    acts := acts + Rotation(2, "d", Healthy);
  }

  /** Without any overlap: a call whose DEL is lost still succeeds, and the next call exchanges the same token. */
  lemma LostDeleteForks() returns (run: seq<State>, acts: seq<Action>)
    ensures IsRun(run, acts) && Forked(run[|acts|])
    ensures acts == LOGIN + Pass(1, "a") + Rotation(1, "b", Lost) + Pass(2, "a") + Rotation(2, "d", Healthy)
  {
    hide Next, Runs, IsRun, Pass, Rotation;
    run, acts := LoggedIn();
    run := ThenPasses(run, acts, 1, "a");
    acts := acts + Pass(1, "a");
    run := ThenRotates(run, acts, 1, "b", Lost);
    acts := acts + Rotation(1, "b", Lost);
    run := ThenPasses(run, acts, 2, "a");
    acts := acts + Pass(2, "a");
    run := ThenRotates(run, acts, 2, "d", Healthy);
    acts := acts + Rotation(2, "d", Healthy);
  }
}
