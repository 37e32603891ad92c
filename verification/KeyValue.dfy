/** Redis as the service uses it: a map from key to value and optional deadline.
    A key whose deadline has passed is absent. */
module KeyValue {
  import opened Base

  /** SET writes a JSON string, INCR writes a bare integer. */
  datatype Value = Text(text: string) | Count(count: int)

  datatype Entry = Entry(value: Value, deadline: Option<Time>)

  predicate Live<K>(m: map<K, Entry>, now: Time, k: K) {
    k in m && (m[k].deadline.Some? ==> now < m[k].deadline.value)
  }

  /** GET followed by JSON decoding to a string: a counter does not decode. */
  function Get<K>(m: map<K, Entry>, now: Time, k: K): Option<string> {
    if Live(m, now, k) && m[k].value.Text? then Some(m[k].value.text) else None
  }

  /** SET with an expiry; a non-positive expiry means none. */
  function Set<K>(m: map<K, Entry>, now: Time, ttl: Time, k: K, s: string): map<K, Entry> {
    m[k := Entry(Text(s), if ttl > 0 then Some(now + ttl) else None)]
  }

  function Del<K>(m: map<K, Entry>, k: K): map<K, Entry> { m - {k} }

  /** INCR keeps the deadline of a live counter, starts an absent one at 1 without
      a deadline, and fails on a value that is not an integer. */
  function Incr<K>(m: map<K, Entry>, now: Time, k: K): (map<K, Entry>, Option<int>) {
    if !Live(m, now, k) then (m[k := Entry(Count(1), None)], Some(1))
    else match m[k].value
      case Count(n) => (m[k := Entry(Count(n + 1), m[k].deadline)], Some(n + 1))
      case Text(_) => (m, None)
  }

  /** EXPIRE does nothing to an absent key and removes a key given a non-positive lifetime. */
  function Expire<K>(m: map<K, Entry>, now: Time, k: K, ttl: Time): map<K, Entry> {
    if !Live(m, now, k) then m
    else if ttl <= 0 then m - {k}
    else m[k := Entry(m[k].value, Some(now + ttl))]
  }

  /** One command, over an arbitrary key type. */
  datatype Command<K> =
    | GetCmd(k: K)
    | SetCmd(k: K, s: string)
    | DelCmd(k: K)
    | IncrCmd(k: K)
    | ExpireCmd(k: K, ttl: Time)

  datatype Reply = Acked | GotText(t: Option<string>) | GotCount(n: Option<int>)

  function Apply<K>(m: map<K, Entry>, setTTL: Time, now: Time, c: Command<K>): (map<K, Entry>, Reply) {
    match c
    case GetCmd(k) => (m, GotText(Get(m, now, k)))
    case SetCmd(k, s) => (Set(m, now, setTTL, k, s), Acked)
    case DelCmd(k) => (Del(m, k), Acked)
    case IncrCmd(k) => var (m', n) := Incr(m, now, k); (m', GotCount(n))
    case ExpireCmd(k, ttl) => (Expire(m, now, k, ttl), Acked)
  }

  /** The replies to a timed sequence of commands. */
  function Replies<K>(m: map<K, Entry>, setTTL: Time, cs: seq<(Time, Command<K>)>): seq<Reply>
    decreases |cs|
  {
    if cs == [] then []
    else
      var (m', r) := Apply(m, setTTL, cs[0].0, cs[0].1);
      [r] + Replies(m', setTTL, cs[1..])
  }

  /** A written value is read back until its lifetime ends and not after; no other key notices. */
  lemma SetThenGet<K>(m: map<K, Entry>, now: Time, ttl: Time, k: K, s: string, later: Time, o: K)
    ensures Get(Set(m, now, ttl, k, s), later, k) == if ttl <= 0 || later < now + ttl then Some(s) else None
    ensures o != k ==> Get(Set(m, now, ttl, k, s), later, o) == Get(m, later, o)
  {
  }

  /** A removed key stays unreadable, whatever it held. */
  lemma DelThenGet<K>(m: map<K, Entry>, k: K, later: Time, o: K)
    ensures Get(Del(m, k), later, k) == None
    ensures o != k ==> Get(Del(m, k), later, o) == Get(m, later, o)
  {
  }

  /** After EXPIRE a key is live exactly while both it was live before and the new lifetime lasts. */
  lemma ExpireThenLive<K>(m: map<K, Entry>, now: Time, k: K, ttl: Time, later: Time)
    requires now <= later
    ensures Live(Expire(m, now, k, ttl), later, k) <==> Live(m, now, k) && later < now + ttl
  {
  }

  /** The store after INCRs of one key at the given instants. */
  function IncrRun<K>(m: map<K, Entry>, k: K, times: seq<Time>): map<K, Entry> {
    if times == [] then m else var n := |times| - 1; Incr(IncrRun(m, k, times[..n]), times[n], k).0
  }

  /** However many INCRs a live counter gets, each counts once and none moves its deadline. */
  lemma {:induction false} IncrRunCounts<K>(m: map<K, Entry>, k: K, times: seq<Time>)
    requires k in m && m[k].value.Count?
    requires forall i | 0 <= i < |times| :: Live(m, times[i], k)
    ensures IncrRun(m, k, times) == m[k := Entry(Count(m[k].value.count + |times|), m[k].deadline)]
  {
    if times != [] {
      var n := |times| - 1;
      IncrRunCounts(m, k, times[..n]);
    }
  }

  /** The attempt counter's life: the first INCR and its EXPIRE open a window; until it closes every INCR counts
      one more, and the INCR after it starts again at one. */
  lemma CounterWindow<K>(m: map<K, Entry>, k: K, start: Time, ttl: Time, times: seq<Time>, now: Time)
    requires !Live(m, start, k) && ttl > 0
    requires forall i | 0 <= i < |times| :: start <= times[i] < start + ttl
    ensures var first := Expire(Incr(m, start, k).0, start, k, ttl);
            var m' := IncrRun(first, k, times);
            Incr(m', now, k).1 == Some(if now < start + ttl then |times| + 2 else 1)
  {
    IncrRunCounts(Expire(Incr(m, start, k).0, start, k, ttl), k, times);
  }
}
