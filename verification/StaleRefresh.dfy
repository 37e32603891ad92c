/** Refresh reads the user through the cache: how long a token older than a password change can still pass. */
module StaleRefresh {
  import opened Base
  import opened Accounts
  import opened Tokens
  import opened CacheStaleness
  import Users
  import AuthSpec

  /** One change instant is no later than another. */
  predicate NoLater(a: Option<Time>, b: Option<Time>) { a.None? || (b.Some? && a.value <= b.value) }

  /** Password changes commit in the order of the instants they carry. */
  ghost predicate InStampOrder(run: seq<State>, acts: seq<Action>)
    requires |acts| <= |run|
  {
    forall i | 0 <= i < |acts| && acts[i].Commit? && acts[i].w.Password? && run[i].history != [] ::
      var u := acts[i].w.user;
      u.id in Table(run[i]) ==> NoLater(Table(run[i])[u.id].passwordChangedAt, u.passwordChangedAt)
  }

  /** A table that succeeds another: rows stay with their address, and change instants do not move back. */
  ghost predicate Succeeds(rows: Rows, later: Rows) {
    && RowsExtend(rows, later)
    && forall id | id in rows :: NoLater(rows[id].passwordChangedAt, later[id].passwordChangedAt)
  }

  ghost predicate HistoryOk(h: seq<Version>) {
    && h != [] && RowsOk(h[0].rows)
    && forall v | 0 <= v < |h| - 1 :: h[v].from <= h[v + 1].from && Succeeds(h[v].rows, h[v + 1].rows)
  }

  lemma WriteSucceeds(rows: Rows, w: Write, now: Time)
    requires RowsOk(rows)
    requires w.Password? && w.user.id in rows ==> NoLater(rows[w.user.id].passwordChangedAt, w.user.passwordChangedAt)
    ensures Succeeds(rows, Written(rows, w, now))
  {
    hide NormalizeEmail;
    match w
    case Insert(u) =>
    case Password(u) => WritesKeepRowsOk(rows, u, now);
    case Activation(id) => if id in rows { WritesKeepRowsOk(rows, rows[id], now); }
  }

  lemma {:induction false} HistorySpan(h: seq<Version>, v: nat, w: nat)
    requires HistoryOk(h) && v <= w < |h|
    ensures RowsOk(h[v].rows) && RowsOk(h[w].rows)
    ensures h[v].from <= h[w].from && Succeeds(h[v].rows, h[w].rows)
  {
    if v < w {
      HistorySpan(h, v, w - 1);
    } else if v > 0 {
      HistorySpan(h, v - 1, v - 1);
      assert Succeeds(h[v - 1].rows, h[v - 1 + 1].rows);
    }
  }

  lemma HistoryStep(s: State, a: Action, maxLoad: nat)
    requires HistoryOk(s.history) && s.history[|s.history| - 1].from <= s.now && Enabled(s, a, maxLoad)
    requires a.Commit? && a.w.Password? && a.w.user.id in Table(s) ==>
               NoLater(Table(s)[a.w.user.id].passwordChangedAt, a.w.user.passwordChangedAt)
    ensures HistoryOk(Next(s, a, maxLoad).history)
  {
    hide Succeeds, Written, RowsExtend;
    if a.Commit? {
      HistorySpan(s.history, |s.history| - 1, |s.history| - 1);
      WriteSucceeds(Table(s), a.w, s.now);
    }
  }

  lemma {:induction false} RunHistoryOk(run: seq<State>, acts: seq<Action>, maxLoad: nat, k: nat)
    requires IsRun(run, acts, maxLoad) && HistoryOk(run[0].history) && InStampOrder(run, acts) && k < |run|
    ensures HistoryOk(run[k].history)
  {
    if k > 0 {
      RunHistoryOk(run, acts, maxLoad, k - 1);
      RunKeepsInv(run, acts, maxLoad, k - 1);
      HistoryStep(run[k - 1], acts[k - 1], maxLoad);
      hide Next, HistoryOk, Inv;
    }
  }

  /** In every interleaving, an answer given five minutes and one load or more after a version of the account was
      committed is about that account and carries that version's change instant or a later one. */
  lemma LateAnswerKnowsChange(run: seq<State>, acts: seq<Action>, maxLoad: nat, k: nat, v: nat, id: string)
    requires IsRun(run, acts, maxLoad) && HistoryOk(run[0].history) && InStampOrder(run, acts)
    requires k < |acts| && v < |run[k].history| && id in run[k].history[v].rows
    requires Answers(acts[k], run[k].history[v].rows[id].email)
    requires run[k].history[v].from + maxLoad + Users.CACHE_TTL <= run[k].now
    ensures var answer := Answer(run[k], acts[k]);
            && answer.Some? && answer.value.id == id
            && NoLater(run[k].history[v].rows[id].passwordChangedAt, answer.value.passwordChangedAt)
  {
    hide Next, Inv;
    var h := run[k].history;
    RunHistoryOk(run, acts, maxLoad, k);
    var w, at := AnswersAreRecentTruth(run, acts, maxLoad, k);
    if w < v { HistorySpan(h, w + 1, v); }
    HistorySpan(h, v, w);
    FindByEmailUnique(h[w].rows, id);
  }

  /** So Refresh then refuses every token issued before the change. */
  lemma LateRefreshRefuses(run: seq<State>, acts: seq<Action>, maxLoad: nat, k: nat, v: nat, id: string, claims: Claims)
    requires IsRun(run, acts, maxLoad) && HistoryOk(run[0].history) && InStampOrder(run, acts)
    requires k < |acts| && v < |run[k].history| && id in run[k].history[v].rows
    requires Answers(acts[k], run[k].history[v].rows[id].email)
    requires run[k].history[v].from + maxLoad + Users.CACHE_TTL <= run[k].now
    requires AuthSpec.Superseded(run[k].history[v].rows[id], claims)
    ensures Answer(run[k], acts[k]).Some? && AuthSpec.Superseded(Answer(run[k], acts[k]).value, claims)
  {
    hide Next, Inv, IsRun, HistoryOk, InStampOrder;
    LateAnswerKnowsChange(run, acts, maxLoad, k, v, id);
  }

  /** The wait is not idle: over any table with an account that a token may refresh, some run from an empty cache
      has a load that spans the password change and its eviction, and the next Refresh is answered the old row, by
      which the token passes although the table's row supersedes it. */
  lemma StaleRefreshPasses(s: State, id: string, claims: Claims) returns (run: seq<State>, more: seq<State>)
    requires s.history != [] && s.history[|s.history| - 1].from <= s.now && s.cache == map[] && s.flights == map[]
    requires RowsOk(Table(s)) && id in Table(s) && !AuthSpec.Superseded(Table(s)[id], claims) && claims.issuedAt < s.now
    ensures var e, u := Table(s)[id].email, Table(s)[id];
            && IsRun(run, [Start(e), Read(e), Commit(Password(u.ChangePassword("q", 0, s.now)))], 0) && run[0] == s
            && Runs(run[3], more, [Evict({e}), Fill(e), Finish(e), Hit(e)], 0)
            && id in Table(more[3]) && AuthSpec.Superseded(Table(more[3])[id], claims)
            && Answer(more[3], Hit(e)) == Some(u) && !AuthSpec.Superseded(u, claims)
  {
    hide Next;
    var e, u := Table(s)[id].email, Table(s)[id];
    run := LoadSpansCommit(s, id, Password(u.ChangePassword("q", 0, s.now)));
    more := LoadFillsLate(run[3], e, u, |s.history| - 1);
  }

  /** And the order is needed: of two changes, each already stamped, the one that commits second keeps refusing what
      the first refused exactly when it carries no earlier instant. */
  lemma CommitOrderIff(rows: Rows, id: string, first: Time, second: Time)
    requires RowsOk(rows) && id in rows
    ensures var one := WritePassword(rows, rows[id].ChangePassword("a", 0, first));
            var two := WritePassword(one, rows[id].ChangePassword("b", 0, second));
            && id in one && id in two
            && ((forall claims | AuthSpec.Superseded(one[id], claims) :: AuthSpec.Superseded(two[id], claims)) <==> first <= second)
  {
    if second < first {
      var one := WritePassword(rows, rows[id].ChangePassword("a", 0, first));
      assert AuthSpec.Superseded(one[id], Claims(id, false, "", Refreshing, "", second, first));
    }
  }
}
