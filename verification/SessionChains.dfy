/** Refresh tokens form disjoint chains, each rooted at one successful login. */
module SessionChains {
  import opened Base
  import opened KeyValue
  import opened Keys
  import opened Tokens
  import opened AuthSpec

  /** The event handed out a refresh token. */
  predicate Mints(e: Event) { e.out.Granted? && (e.op.LoginOp? || e.op.RefreshOp?) }

  /** The event exchanged the identifier it was given for a new one. */
  predicate Exchanges(e: Event) { e.out.Granted? && e.op.RefreshOp? && e.op.token.Signed? }

  /** The login event at the root of each identifier's chain. */
  function Root(tr: seq<Event>): map<string, nat> {
    if tr == [] then map[]
    else
      var n := |tr| - 1;
      var e, m := tr[n], Root(tr[..n]);
      if Mints(e) && e.op.LoginOp? then m[e.op.refreshJti := n]
      else if Exchanges(e) && e.op.token.claims.jti in m then m[e.op.refreshJti := m[e.op.token.claims.jti]]
      else m
  }

  /** How often each identifier has been exchanged. */
  function Exchanged(tr: seq<Event>): multiset<string> {
    if tr == [] then multiset{}
    else
      var n := |tr| - 1;
      Exchanged(tr[..n]) + if Exchanges(tr[n]) then multiset{tr[n].op.token.claims.jti} else multiset{}
  }

  /** Identifiers are random UUIDs: none is ever drawn twice. */
  ghost predicate FreshIdentifiers(tr: seq<Event>) {
    tr == [] ||
    (var n := |tr| - 1;
     FreshIdentifiers(tr[..n]) && (Mints(tr[n]) ==> tr[n].op.refreshJti !in Root(tr[..n])))
  }

  /** The identifiers a liveness check accepts at an instant. */
  ghost function LiveJtis(kv: Store, now: Time): (s: set<string>)
    ensures forall j :: j in s <==> Live(kv, now, Refresh(j))
  {
    set k | k in kv && k.Refresh? && Live(kv, now, k) :: k.jti
  }

  /** Stored identifiers belong to chains, no chain holds two, and an exchanged one is never stored. */
  ghost predicate ChainInv(kv: Store, root: map<string, nat>, exchanged: multiset<string>) {
    && (forall j | Refresh(j) in kv :: j in root && exchanged[j] == 0)
    && (forall i, j | Refresh(i) in kv && Refresh(j) in kv && root[i] == root[j] :: i == j)
    && (forall j :: exchanged[j] <= 1 && (j in exchanged ==> j in root))
  }

  ghost predicate SameSessions(kv: Store, kv': Store) {
    forall j :: Same(kv, kv', Refresh(j))
  }

  lemma OthersKeepSessions(c: Config, w: World, now: Time, op: Op)
    requires !op.LoginOp? && !op.RefreshOp? && !op.LogoutOp?
    ensures SameSessions(w.kv, Step(c, w, now, op).0.kv)
  {
    forall j ensures Same(w.kv, Step(c, w, now, op).0.kv, Refresh(j)) { StepFrame(c, w, now, op, Refresh(j)); }
  }

  lemma LoginSessions(c: Config, w: World, now: Time, e: string, p: string, a: string, r: string)
    ensures var (w', out) := Login(c, w, now, e, p, a, r);
            if out.Granted? then SameSessions(w.kv[Refresh(r) := Entry(Text(r), Some(out.pair.refreshExpiresAt))], w'.kv)
            else SameSessions(w.kv, w'.kv)
  {
  }

  lemma RefreshSessions(c: Config, w: World, now: Time, t: Token, a: string, r: string)
    ensures var (w', out) := RefreshToken(c, w, now, t, a, r);
            if out.Granted? then
              && t.Signed? && Live(w.kv, now, Refresh(t.claims.jti)) && now < out.pair.refreshExpiresAt
              && w'.kv == w.kv[Refresh(r) := Entry(Text(r), Some(out.pair.refreshExpiresAt))] - {Refresh(t.claims.jti)}
            else w' == w
  {
  }

  /** What one use case does to the sessions. */
  lemma {:induction false} SessionStep(c: Config, w: World, now: Time, op: Op)
    ensures var (w', out) := Step(c, w, now, op);
            var e := Event(now, op, out);
            if out.Granted? && op.LoginOp? then
              SameSessions(w.kv[Refresh(op.refreshJti) := Entry(Text(op.refreshJti), Some(out.pair.refreshExpiresAt))], w'.kv)
            else if out.Granted? && op.RefreshOp? then
              && Exchanges(e) && Refresh(op.token.claims.jti) in w.kv
              && w'.kv == w.kv[Refresh(op.refreshJti) := Entry(Text(op.refreshJti), Some(out.pair.refreshExpiresAt))]
                            - {Refresh(op.token.claims.jti)}
            else if op.LogoutOp? && out == Done then op.token.Signed? && w'.kv == w.kv - {Refresh(op.token.claims.jti)}
            else SameSessions(w.kv, w'.kv)
  {
    match op
    case LoginOp(m, p, a, r) => LoginSessions(c, w, now, m, p, a, r);
    case RefreshOp(t, a, r) => RefreshSessions(c, w, now, t, a, r);
    case LogoutOp(t) =>
    case _ => OthersKeepSessions(c, w, now, op); NoGrant(c, w, now, op);
  }

  lemma NoGrant(c: Config, w: World, now: Time, op: Op)
    requires !op.LoginOp? && !op.RefreshOp?
    ensures !Step(c, w, now, op).1.Granted?
  {
  }

  /** Each chain is rooted at a login that succeeded. */
  lemma {:induction false} RootsAreLogins(tr: seq<Event>, j: string)
    requires j in Root(tr)
    ensures Root(tr)[j] < |tr| && tr[Root(tr)[j]].op.LoginOp? && tr[Root(tr)[j]].out.Granted?
  {
    var n := |tr| - 1;
    var e := tr[n];
    if !(Mints(e) && e.op.LoginOp? && e.op.refreshJti == j) {
      if Exchanges(e) && e.op.token.claims.jti in Root(tr[..n]) && e.op.refreshJti == j {
        RootsAreLogins(tr[..n], e.op.token.claims.jti);
      } else {
        RootsAreLogins(tr[..n], j);
      }
    }
  }

  lemma ChainSame(kv: Store, kv': Store, root: map<string, nat>, exchanged: multiset<string>)
    requires ChainInv(kv, root, exchanged) && SameSessions(kv, kv')
    ensures ChainInv(kv', root, exchanged)
  {
  }

  lemma ChainStart(kv: Store, kv': Store, root: map<string, nat>, exchanged: multiset<string>, r: string, e: Entry, n: nat)
    requires ChainInv(kv, root, exchanged) && SameSessions(kv[Refresh(r) := e], kv')
    requires r !in root && forall j | j in root :: root[j] < n
    ensures ChainInv(kv', root[r := n], exchanged)
  {
  }

  lemma ChainRotate(kv: Store, root: map<string, nat>, exchanged: multiset<string>, j: string, r: string, e: Entry)
    requires ChainInv(kv, root, exchanged) && Refresh(j) in kv && r !in root
    ensures j in root
    ensures ChainInv(kv[Refresh(r) := e] - {Refresh(j)}, root[r := root[j]], exchanged + multiset{j})
  {
  }

  lemma ChainEnd(kv: Store, root: map<string, nat>, exchanged: multiset<string>, j: string)
    requires ChainInv(kv, root, exchanged)
    ensures ChainInv(kv - {Refresh(j)}, root, exchanged)
  {
  }

  /** Every run keeps the chain invariant. */
  lemma {:induction false} TraceChains(c: Config, tr: seq<Event>)
    requires IsTrace(c, tr) && FreshIdentifiers(tr)
    ensures ChainInv(After(c, tr).kv, Root(tr), Exchanged(tr))
  {
    if tr != [] {
      var n := |tr| - 1;
      TraceChains(c, tr[..n]);
      var w, e := After(c, tr[..n]), tr[n];
      var w', root, ex := Step(c, w, e.now, e.op).0, Root(tr[..n]), Exchanged(tr[..n]);
      hide Step;
      SessionStep(c, w, e.now, e.op);
      if e.out.Granted? && e.op.LoginOp? {
        forall j | j in root ensures root[j] < n { RootsAreLogins(tr[..n], j); }
        ChainStart(w.kv, w'.kv, root, ex, e.op.refreshJti, Entry(Text(e.op.refreshJti), Some(e.out.pair.refreshExpiresAt)), n);
      } else if e.out.Granted? && e.op.RefreshOp? {
        ChainRotate(w.kv, root, ex, e.op.token.claims.jti, e.op.refreshJti, Entry(Text(e.op.refreshJti), Some(e.out.pair.refreshExpiresAt)));
      } else if e.op.LogoutOp? && e.out == Done {
        ChainEnd(w.kv, root, ex, e.op.token.claims.jti);
      } else {
        ChainSame(w.kv, w'.kv, root, ex);
      }
    }
  }

  /** In every run each identifier is exchanged at most once and each chain has at most one live identifier. */
  lemma OneLivePerChain(c: Config, tr: seq<Event>, now: Time)
    requires IsTrace(c, tr) && FreshIdentifiers(tr)
    ensures forall j :: Exchanged(tr)[j] <= 1
    ensures forall j | Live(After(c, tr).kv, now, Refresh(j)) :: j in Root(tr) && j !in Exchanged(tr)
    ensures forall i, j | Live(After(c, tr).kv, now, Refresh(i)) && Live(After(c, tr).kv, now, Refresh(j)) && Root(tr)[i] == Root(tr)[j] :: i == j
  {
    TraceChains(c, tr);
  }

  lemma RotateLive(kv: Store, kv': Store, now: Time, j: string, r: string, e: Entry)
    requires Live(kv, now, Refresh(j)) && Refresh(r) !in kv && e.deadline.Some? && now < e.deadline.value
    requires kv' == kv[Refresh(r) := e] - {Refresh(j)}
    ensures j in LiveJtis(kv, now) && r !in LiveJtis(kv, now)
    ensures LiveJtis(kv', now) == LiveJtis(kv, now) - {j} + {r}
  {
    hide LiveJtis;
    forall i ensures i in LiveJtis(kv', now) <==> i in LiveJtis(kv, now) - {j} + {r} {
      if i == j { assert Refresh(i) !in kv'; }
    }
  }

  /** A rotation keeps the number of live identifiers and the chain of the one presented. */
  lemma RotationConserves(c: Config, tr: seq<Event>)
    requires IsTrace(c, tr) && FreshIdentifiers(tr) && tr != [] && Exchanges(tr[|tr| - 1])
    ensures var n := |tr| - 1;
            var now, j, r := tr[n].now, tr[n].op.token.claims.jti, tr[n].op.refreshJti;
            var live, live' := LiveJtis(After(c, tr[..n]).kv, now), LiveJtis(After(c, tr).kv, now);
            && j in live && r !in live && live' == live - {j} + {r} && |live'| == |live|
            && j in Root(tr[..n]) && r in Root(tr) && Root(tr)[r] == Root(tr[..n])[j]
  {
    hide RefreshToken, LiveJtis;
    var n := |tr| - 1;
    var e, kv := tr[n], After(c, tr[..n]).kv;
    TraceChains(c, tr[..n]);
    RefreshSessions(c, After(c, tr[..n]), e.now, e.op.token, e.op.accessJti, e.op.refreshJti);
    RotateLive(kv, After(c, tr).kv, e.now, e.op.token.claims.jti, e.op.refreshJti,
               Entry(Text(e.op.refreshJti), Some(e.out.pair.refreshExpiresAt)));
  }
}
