/** SendOTP and VerifyOTP for one address, one store command at a time: SendOTP replaces the code and clears the
    counter in two commands, so submissions in between meet the new code on the old counter. */
module OtpInterleaving {
  import opened Base
  import opened KeyValue

  datatype Slot = Code | Counter

  datatype Limits = Limits(max: nat, setTTL: Time, otpTTL: Time)

  /** The calls under way, by their next command, and the books since the last SET of a code. */
  datatype State = State(
    now: Time,
    kv: map<Slot, Entry>,
    opening: set<nat>,      // VerifyOTP: counted first, next is EXPIRE
    admitted: set<nat>,     // VerifyOTP: within the limit, next is GET and the comparison
    matched: set<nat>,      // VerifyOTP: right code, next is DEL of the code
    clearing: set<nat>,     // either: next is DEL of the counter
    flying: nat,            // calls that were opening or admitted at the SET
    admissions: nat,        // calls admitted since
    compared: nat,          // comparisons with the code
    dels: nat,              // DELs of the counter since
    held: bool,             // a counter was live at the SET
    kept: bool,             // and is still the one in place
    lapsed: bool)           // or ran out before any DEL

  datatype Action =
    | Tick(to: Time)
    | Submit(p: nat)
    | SetWindow(p: nat)
    | Compare(p: nat, code: string)
    | DropCode(p: nat)
    | Issue(p: nat, code: string)
    | ClearCounter(p: nat)

  predicate Idle(s: State, p: nat) { p !in s.opening && p !in s.admitted && p !in s.matched && p !in s.clearing }

  predicate Enabled(s: State, a: Action) {
    match a
    case Tick(to) => s.now <= to
    case Submit(p) => Idle(s, p)
    case SetWindow(p) => p in s.opening
    case Compare(p, _) => p in s.admitted
    case DropCode(p) => p in s.matched
    case Issue(p, _) => Idle(s, p)
    case ClearCounter(p) => p in s.clearing
  }

  function Next(l: Limits, s: State, a: Action): State
    requires Enabled(s, a)
  {
    match a
    case Tick(to) => s.(now := to)
    case Submit(p) =>
      var (kv', n) := Incr(s.kv, s.now, Counter);
      var attempts := if n.Some? then n.value else 0;
      var renewed := !Live(s.kv, s.now, Counter);
      s.(kv := kv',
         opening := if attempts == 1 then s.opening + {p} else s.opening,
         admitted := if attempts != 1 && attempts <= l.max then s.admitted + {p} else s.admitted,
         admissions := if attempts <= l.max then s.admissions + 1 else s.admissions,
         kept := s.kept && !renewed, lapsed := s.lapsed || (s.kept && renewed))
    case SetWindow(p) =>
      s.(kv := Expire(s.kv, s.now, Counter, l.otpTTL), opening := s.opening - {p}, admitted := s.admitted + {p})
    case Compare(p, code) =>
      var stored := Get(s.kv, s.now, Code);
      s.(admitted := s.admitted - {p}, compared := if stored.Some? then s.compared + 1 else s.compared,
         matched := if stored == Some(code) then s.matched + {p} else s.matched)
    case DropCode(p) => s.(kv := Del(s.kv, Code), matched := s.matched - {p}, clearing := s.clearing + {p})
    case Issue(p, code) =>
      var live := Live(s.kv, s.now, Counter);
      s.(kv := Set(s.kv, s.now, l.setTTL, Code, code), clearing := s.clearing + {p},
         flying := |s.opening| + |s.admitted|, admissions := 0, compared := 0, dels := 0, held := live, kept := live, lapsed := false)
    case ClearCounter(p) =>
      s.(kv := Del(s.kv, Counter), clearing := s.clearing - {p}, dels := s.dels + 1, kept := false)
  }

  const START := State(0, map[], {}, {}, {}, {}, 0, 0, 0, 0, false, false, false)

  ghost predicate Runs(l: Limits, s: State, run: seq<State>, acts: seq<Action>) {
    && |run| == |acts| + 1 && run[0] == s
    && forall i | 0 <= i < |acts| :: Enabled(run[i], acts[i]) && run[i + 1] == Next(l, run[i], acts[i])
  }

  /** So many whole windows of admissions. */
  function Windows(max: nat, n: nat): nat { if n == 0 then 0 else Windows(max, n - 1) + max }

  lemma {:induction false} WindowsTimes(max: nat, n: nat)
    ensures Windows(max, n) == max * n
  {
    if n > 0 {
      WindowsTimes(max, n - 1);
      assert max * (n - 1) + max == max * n;
    }
  }

  function One(b: bool): nat { if b then 1 else 0 }

  function Min(a: int, b: int): int { if a <= b then a else b }

  /** What the admissions so far can be, given the counter in place. */
  ghost predicate Accounted(l: Limits, s: State)
    requires Typed(l, s) && Code in s.kv
  {
    var closed := Windows(l.max, s.dels + One(s.lapsed)) - One(s.held);
    if s.kept then s.admissions < Min(s.kv[Counter].value.count, l.max)
    else if Live(s.kv, s.now, Counter) then
      && s.admissions <= closed + Min(s.kv[Counter].value.count, l.max)
      && (s.kv[Counter].deadline.Some? ==> s.kv[Code].deadline.value <= s.kv[Counter].deadline.value)
    else s.admissions <= closed
  }

  ghost predicate Typed(l: Limits, s: State) {
    && s.opening !! s.admitted && (s.lapsed ==> s.held)
    && (s.kept ==> s.dels == 0 && !s.lapsed && s.held && Counter in s.kv)
    && (Counter in s.kv ==> s.kv[Counter].value.Count? && s.kv[Counter].value.count >= 1)
    && (Code in s.kv ==> s.kv[Code].value.Text? && s.kv[Code].deadline.Some? && s.kv[Code].deadline.value <= s.now + l.setTTL)
  }

  ghost predicate Inv(l: Limits, s: State) {
    && Typed(l, s)
    && s.compared + |s.opening| + |s.admitted| <= s.flying + s.admissions
    && (Live(s.kv, s.now, Code) ==> Accounted(l, s))
    && s.compared <= s.flying + Windows(l.max, s.dels + 1 + One(s.lapsed)) - One(s.held)
  }

  ghost predicate Sound(l: Limits) { 1 <= l.max && 0 < l.setTTL <= l.otpTTL }

  lemma FirstKeepsInv(l: Limits, s: State, p: nat)
    requires Sound(l) && Inv(l, s) && Enabled(s, Submit(p)) && !Live(s.kv, s.now, Counter)
    ensures Inv(l, Next(l, s, Submit(p)))
  {
    assert Windows(l.max, s.dels + 2) == Windows(l.max, s.dels + 1) + l.max;
    assert Windows(l.max, s.dels + 1) == Windows(l.max, s.dels) + l.max;
    hide Windows;
  }

  lemma LaterKeepsInv(l: Limits, s: State, p: nat)
    requires Sound(l) && Inv(l, s) && Enabled(s, Submit(p)) && Live(s.kv, s.now, Counter)
    ensures Inv(l, Next(l, s, Submit(p)))
  {
    hide Windows;
  }

  lemma CompareKeepsInv(l: Limits, s: State, p: nat, code: string)
    requires Sound(l) && Inv(l, s) && Enabled(s, Compare(p, code))
    ensures Inv(l, Next(l, s, Compare(p, code)))
  {
    assert Windows(l.max, s.dels + 1 + One(s.lapsed)) == Windows(l.max, s.dels + One(s.lapsed)) + l.max;
  }

  lemma ClearKeepsInv(l: Limits, s: State, p: nat)
    requires Sound(l) && Inv(l, s) && Enabled(s, ClearCounter(p))
    ensures Inv(l, Next(l, s, ClearCounter(p)))
  {
    assert Windows(l.max, s.dels + 1 + One(s.lapsed)) == Windows(l.max, s.dels + One(s.lapsed)) + l.max;
    assert Windows(l.max, s.dels + 2 + One(s.lapsed)) == Windows(l.max, s.dels + 1 + One(s.lapsed)) + l.max;
  }

  lemma IssueKeepsInv(l: Limits, s: State, p: nat, code: string)
    requires Sound(l) && Inv(l, s) && Enabled(s, Issue(p, code))
    ensures Inv(l, Next(l, s, Issue(p, code)))
  {
    assert Windows(l.max, 1) == l.max;
  }

  lemma WindowKeepsInv(l: Limits, s: State, p: nat)
    requires Sound(l) && Inv(l, s) && Enabled(s, SetWindow(p))
    ensures Inv(l, Next(l, s, SetWindow(p)))
  {
    hide Windows;
  }

  lemma OtherKeepsInv(l: Limits, s: State, a: Action)
    requires Sound(l) && Inv(l, s) && Enabled(s, a) && (a.Tick? || a.DropCode?)
    ensures Inv(l, Next(l, s, a))
  {
    hide Windows;
  }

  lemma {:induction false} RunKeepsInv(l: Limits, run: seq<State>, acts: seq<Action>, i: nat)
    requires Sound(l) && Runs(l, START, run, acts) && i < |run|
    ensures Inv(l, run[i])
  {
    if i > 0 {
      hide Next, Inv;
      RunKeepsInv(l, run, acts, i - 1);
      match acts[i - 1]
      case Submit(p) =>
        if Live(run[i - 1].kv, run[i - 1].now, Counter) { LaterKeepsInv(l, run[i - 1], p); } else { FirstKeepsInv(l, run[i - 1], p); }
      case Compare(p, code) => CompareKeepsInv(l, run[i - 1], p, code);
      case ClearCounter(p) => ClearKeepsInv(l, run[i - 1], p);
      case Issue(p, code) => IssueKeepsInv(l, run[i - 1], p, code);
      case SetWindow(p) => WindowKeepsInv(l, run[i - 1], p);
      case a => OtherKeepsInv(l, run[i - 1], a);
    }
  }

  /** In every interleaving of any number of calls, a code is compared at most once for each call that was between
      its count and its comparison when the code was stored, and max times for each window since: one for the
      counter in place, one more for each DEL, and one more, short of the submission that opened it, if a counter
      from before the code ran out under it. */
  lemma InterleavedComparisons(l: Limits, run: seq<State>, acts: seq<Action>, i: nat)
    requires Sound(l) && Runs(l, START, run, acts) && i < |run|
    ensures var s := run[i];
            s.compared <= s.flying + l.max * (s.dels + 1 + One(s.lapsed)) - One(s.held)
  {
    RunKeepsInv(l, run, acts, i);
    WindowsTimes(l.max, run[i].dels + 1 + One(run[i].lapsed));
  }

  lemma Joined(l: Limits, s: State, run: seq<State>, acts: seq<Action>, more: seq<State>, next: seq<Action>) returns (all: seq<State>)
    requires Runs(l, s, run, acts) && Runs(l, run[|acts|], more, next)
    ensures Runs(l, s, all, acts + next) && all[|acts + next|] == more[|next|]
  {
    hide Next;
    all := run + more[1..];
    forall i | 0 <= i < |acts + next| ensures Enabled(all[i], (acts + next)[i]) && all[i + 1] == Next(l, all[i], (acts + next)[i]) {
      if i >= |acts| {
        assert all[i] == more[i - |acts|] && all[i + 1] == more[i + 1 - |acts|] && (acts + next)[i] == next[i - |acts|];
      }
    }
  }

  /** The value of a live counter. */
  function Value(s: State): int {
    if Live(s.kv, s.now, Counter) && s.kv[Counter].value.Count? then s.kv[Counter].value.count else 0
  }

  /** Nobody else is between count and comparison, the code "c" is live, and the limit is not used up. */
  predicate Ready(l: Limits, s: State, room: nat) {
    && s.opening == {} && s.admitted == {} && 2 !in s.matched && 2 !in s.clearing
    && Get(s.kv, s.now, Code) == Some("c") && 0 < l.otpTTL
    && (Live(s.kv, s.now, Counter) ==> s.kv[Counter].value.Count? && s.kv[Counter].value.count >= 1)
    && Value(s) + room <= l.max
  }

  /** After k wrong submissions one after another. */
  function Guessed(l: Limits, s: State, k: nat): State
    requires Ready(l, s, k)
  {
    if k == 0 then s
    else
      var n := Value(s);
      s.(kv := s.kv[Counter := Entry(KeyValue.Count(n + k), if n == 0 then Some(s.now + l.otpTTL) else s.kv[Counter].deadline)],
         compared := s.compared + k, admissions := s.admissions + k,
         kept := s.kept && n > 0, lapsed := s.lapsed || (s.kept && n == 0))
  }

  lemma OneGuess(l: Limits, s: State) returns (run: seq<State>, acts: seq<Action>)
    requires Ready(l, s, 1)
    ensures Runs(l, s, run, acts) && run[|acts|] == Guessed(l, s, 1)
  {
    var s1 := Next(l, s, Submit(2));
    if Value(s) == 0 {
      var s2 := Next(l, s1, SetWindow(2));
      run, acts := [s, s1, s2, Next(l, s2, Compare(2, "x"))], [Submit(2), SetWindow(2), Compare(2, "x")];
    } else {
      run, acts := [s, s1, Next(l, s1, Compare(2, "x"))], [Submit(2), Compare(2, "x")];
    }
    assert run[|acts|].kv == Guessed(l, s, 1).kv;
    assert run[|acts|].admitted == {};
  }

  lemma GuessedTwice(l: Limits, s: State, k: nat)
    requires Ready(l, s, k + 1)
    ensures Ready(l, Guessed(l, s, k), 1) && Guessed(l, Guessed(l, s, k), 1) == Guessed(l, s, k + 1)
  {
    if k > 0 { assert Guessed(l, Guessed(l, s, k), 1).kv == Guessed(l, s, k + 1).kv; }
  }

  lemma {:induction false} Guesses(l: Limits, s: State, k: nat) returns (run: seq<State>, acts: seq<Action>)
    requires Ready(l, s, k)
    ensures Runs(l, s, run, acts) && run[|acts|] == Guessed(l, s, k)
  {
    hide Next, Guessed;
    if k == 0 {
      run, acts := [s], [];
      NoGuess(l, s);
    } else {
      run, acts := Guesses(l, s, k - 1);
      GuessedTwice(l, s, k - 1);
      var more, next := OneGuess(l, run[|acts|]);
      run := Joined(l, s, run, acts, more, next);
      acts := acts + next;
    }
  }

  lemma NoGuess(l: Limits, s: State)
    requires Ready(l, s, 0)
    ensures Guessed(l, s, 0) == s
  {
  }

  /** A submission opens a window, and just before it ends SendOTP stores a code; its DEL is still to come. */
  lemma IssuedLate(l: Limits) returns (run: seq<State>, acts: seq<Action>)
    requires Sound(l) && 2 <= l.setTTL
    ensures Runs(l, START, run, acts)
    ensures run[|acts|] == State(l.otpTTL - 1,
              map[Counter := Entry(KeyValue.Count(1), Some(l.otpTTL)), Code := Entry(Text("c"), Some(l.otpTTL - 1 + l.setTTL))],
              {}, {}, {}, {1}, 0, 0, 0, 0, true, true, false)
  {
    acts := [Submit(2), SetWindow(2), Compare(2, "x"), Tick(l.otpTTL - 1), Issue(1, "c")];
    var s1 := Next(l, START, acts[0]);
    var s2 := Next(l, s1, acts[1]);
    var s3 := Next(l, s2, acts[2]);
    var s4 := Next(l, s3, acts[3]);
    run := [START, s1, s2, s3, s4, Next(l, s4, acts[4])];
    assert s3.kv == map[Counter := Entry(KeyValue.Count(1), Some(l.otpTTL))] && s3.opening == {} && s3.admitted == {};
  }

  lemma OneStep(l: Limits, s: State, a: Action) returns (run: seq<State>)
    requires Enabled(s, a)
    ensures Runs(l, s, run, [a]) && run[1] == Next(l, s, a)
  {
    run := [s, Next(l, s, a)];
  }

  /** The bound is reached with nobody in flight and the one DEL of SendOTP itself: the rest of the old window, a
      whole window once it ran out, and a whole one after the DEL make 3 * max - 1 comparisons with one code. */
  lemma InterleavedBoundReached(l: Limits) returns (run: seq<State>, acts: seq<Action>)
    requires Sound(l) && 2 <= l.setTTL
    ensures Runs(l, START, run, acts)
    ensures var s := run[|acts|];
            s.compared == 3 * l.max - 1 && s.flying == 0 && s.dels == 1 && s.held && s.lapsed &&
            s.compared == s.flying + l.max * (s.dels + 1 + One(s.lapsed)) - One(s.held)
  {
    run, acts := IssuedLate(l);
    var more, next := Guesses(l, run[|acts|], l.max - 1);
    run, acts := Appended(l, run, acts, more, next);
    more := OneStep(l, run[|acts|], Tick(l.otpTTL));
    run, acts := Appended(l, run, acts, more, [Tick(l.otpTTL)]);
    more, next := Guesses(l, run[|acts|], l.max);
    run, acts := Appended(l, run, acts, more, next);
    more := OneStep(l, run[|acts|], ClearCounter(1));
    run, acts := Appended(l, run, acts, more, [ClearCounter(1)]);
    more, next := Guesses(l, run[|acts|], l.max);
    run, acts := Appended(l, run, acts, more, next);
  }

  lemma Appended(l: Limits, run: seq<State>, acts: seq<Action>, more: seq<State>, next: seq<Action>)
    returns (all: seq<State>, allActs: seq<Action>)
    requires Runs(l, START, run, acts) && Runs(l, run[|acts|], more, next)
    ensures Runs(l, START, all, allActs) && all[|allActs|] == more[|next|]
  {
    hide Next;
    all := Joined(l, START, run, acts, more, next);
    allActs := acts + next;
  }
}
