/** The two-tier response cache of the LLM gateway: a dictionary in each worker process (L1) and Redis (L2). Times are in
    seconds on one clock. */
module LlmCache {
  import opened Wrappers

  /** Role and prompt hash. */
  type Key = (string, string)

  /** A response with what it was generated for and when. */
  datatype Response = Response(key: Key, born: real, content: string)

  datatype L1Entry = L1Entry(response: Response, createdAt: real)

  datatype L2Entry = L2Entry(response: Response, expiresAt: real)

  /** Redis keeps an entry for whole seconds; it refuses an expiry of zero. */
  function SetEx(redis: map<Key, L2Entry>, key: Key, ttl: real, response: Response, now: real): map<Key, L2Entry> {
    if ttl.Floor <= 0 then redis else redis[key := L2Entry(response, now + ttl.Floor as real)]
  }

  function RedisGet(redis: map<Key, L2Entry>, key: Key, now: real): Option<Response> {
    if key in redis && now < redis[key].expiresAt then Some(redis[key].response) else None
  }

  predicate L1Hit(cache: map<Key, L1Entry>, key: Key, ttl: real, now: real) {
    key in cache && now - cache[key].createdAt < ttl
  }

  /** What a read returns. */
  function Read(cache: map<Key, L1Entry>, redis: map<Key, L2Entry>, redisUp: bool, key: Key, ttl: real, now: real)
    : Option<Response>
  {
    if ttl <= 0.0 then None
    else if L1Hit(cache, key, ttl, now) then Some(cache[key].response)
    else if redisUp then RedisGet(redis, key, now)
    else None
  }

  /** L1 after a read: an entry too old is dropped, and a hit in L2 starts a new L1 entry with a new age. */
  function Refilled(cache: map<Key, L1Entry>, redis: map<Key, L2Entry>, redisUp: bool, key: Key, ttl: real, now: real)
    : map<Key, L1Entry>
  {
    if ttl > 0.0 && L1Hit(cache, key, ttl, now) then cache
    else
      var found := Read(cache, redis, redisUp, key, ttl, now);
      if found.Some? then cache[key := L1Entry(found.value, now)] else cache - {key}
  }

  class Redis {
    var entries: map<Key, L2Entry>

    constructor ()
      ensures entries == map[]
    {
      entries := map[];
    }
  }

  class LLMGateway {
    const ttl: real
    const redis: Redis
    var cache: map<Key, L1Entry>

    constructor (ttl: real, redis: Redis)
      ensures this.ttl == ttl && this.redis == redis && cache == map[]
    {
      this.ttl, this.redis, cache := ttl, redis, map[];
    }

    method CacheGet(key: Key, redisUp: bool, now: real) returns (response: Option<Response>)
      modifies this
      ensures response == Read(old(cache), redis.entries, redisUp, key, ttl, now)
      ensures cache == Refilled(old(cache), redis.entries, redisUp, key, ttl, now)
    {
      if ttl <= 0.0 {
        cache := cache - {key};
        return None;
      }
      if key in cache {
        var entry := cache[key];
        if now - entry.createdAt < ttl {
          return Some(entry.response);
        }
        cache := cache - {key};
      }
      if redisUp && key in redis.entries && now < redis.entries[key].expiresAt {
        var found := redis.entries[key].response;
        cache := cache[key := L1Entry(found, now)];
        return Some(found);
      }
      return None;
    }

    method CacheSet(response: Response, redisUp: bool, now: real)
      modifies this, redis
      ensures cache == if ttl <= 0.0 then old(cache) else old(cache)[response.key := L1Entry(response, now)]
      ensures redis.entries == if ttl <= 0.0 || !redisUp then old(redis.entries)
                               else SetEx(old(redis.entries), response.key, ttl, response, now)
    {
      if ttl <= 0.0 {
        return;
      }
      cache := cache[response.key := L1Entry(response, now)];
      if redisUp && ttl.Floor > 0 {
        redis.entries := redis.entries[response.key := L2Entry(response, now + ttl.Floor as real)];
      }
    }
  }

  // ---- Any number of workers -----------------------------------------------------------------------------------------

  type Worker = int

  datatype State = State(caches: map<Worker, map<Key, L1Entry>>, redis: map<Key, L2Entry>, clock: real)

  datatype Action =
    | Tick(time: real)
    | Get(worker: Worker, key: Key, redisUp: bool)
    | Set(worker: Worker, key: Key, content: string, redisUp: bool)
    | Restart(worker: Worker)
    | Evict(key: Key)                          // Redis may drop an entry

  predicate Enabled(s: State, a: Action) {
    a.Tick? ==> s.clock <= a.time
  }

  function CacheOf(s: State, w: Worker): map<Key, L1Entry> {
    if w in s.caches then s.caches[w] else map[]
  }

  function Apply(s: State, ttl: real, a: Action): State
    requires Enabled(s, a)
  {
    match a
    case Tick(time) => s.(clock := time)
    case Get(w, key, up) => s.(caches := s.caches[w := Refilled(CacheOf(s, w), s.redis, up, key, ttl, s.clock)])
    case Set(w, key, content, up) =>
      var response := Response(key, s.clock, content);
      if ttl <= 0.0 then s
      else s.(caches := s.caches[w := CacheOf(s, w)[key := L1Entry(response, s.clock)]],
              redis := if up then SetEx(s.redis, key, ttl, response, s.clock) else s.redis)
    case Restart(w) => s.(caches := s.caches[w := map[]])
    case Evict(key) => s.(redis := s.redis - {key})
  }

  const INITIAL := State(map[], map[], 0.0)

  predicate Runs(s: State, ttl: real, actions: seq<Action>)
    decreases |actions|
  {
    actions == [] || (Enabled(s, actions[0]) && Runs(Apply(s, ttl, actions[0]), ttl, actions[1..]))
  }

  function Exec(s: State, ttl: real, actions: seq<Action>): State
    requires Runs(s, ttl, actions)
    decreases |actions|
  {
    if actions == [] then s else Exec(Apply(s, ttl, actions[0]), ttl, actions[1..])
  }

  /** An L1 entry was made from a response less than a whole L2 lifetime old. */
  predicate L1Valid(e: L1Entry, key: Key, ttl: real, now: real) {
    e.response.key == key && e.response.born <= e.createdAt <= now && e.createdAt - e.response.born < ttl
  }

  predicate L2Valid(e: L2Entry, key: Key, ttl: real, now: real) {
    e.response.key == key && e.response.born <= now && e.expiresAt <= e.response.born + ttl
  }

  ghost predicate CacheValid(cache: map<Key, L1Entry>, ttl: real, now: real) {
    forall k :: k in cache ==> L1Valid(cache[k], k, ttl, now)
  }

  ghost predicate Inv(s: State, ttl: real) {
    && (forall w :: w in s.caches ==> CacheValid(s.caches[w], ttl, s.clock))
    && (forall k :: k in s.redis ==> L2Valid(s.redis[k], k, ttl, s.clock))
  }

  lemma StepKeepsInv(s: State, ttl: real, a: Action)
    requires Inv(s, ttl) && Enabled(s, a)
    ensures Inv(Apply(s, ttl, a), ttl)
  {
    if a.Get? || a.Set? {
      assert CacheValid(CacheOf(s, a.worker), ttl, s.clock);
    }
  }

  lemma {:induction false} ExecKeepsInv(s: State, ttl: real, actions: seq<Action>)
    requires Inv(s, ttl) && Runs(s, ttl, actions)
    ensures Inv(Exec(s, ttl, actions), ttl)
    decreases |actions|
  {
    if actions != [] {
      StepKeepsInv(s, ttl, actions[0]);
      ExecKeepsInv(Apply(s, ttl, actions[0]), ttl, actions[1..]);
    }
  }

  /** Whatever the workers did before, a cached response was generated for the same role and prompt, and less than twice
      the lifetime ago: a hit in L2 starts the L1 age anew. With no positive lifetime nothing is ever returned. */
  lemma ReturnedIsFreshEnough(ttl: real, actions: seq<Action>, w: Worker, key: Key, redisUp: bool)
    requires Runs(INITIAL, ttl, actions)
    ensures var s := Exec(INITIAL, ttl, actions);
      var found := Read(CacheOf(s, w), s.redis, redisUp, key, ttl, s.clock);
      found.Some? ==> ttl > 0.0 && found.value.key == key && found.value.born <= s.clock < found.value.born + 2.0 * ttl
  {
    ExecKeepsInv(INITIAL, ttl, actions);
    var s := Exec(INITIAL, ttl, actions);
    assert CacheValid(CacheOf(s, w), ttl, s.clock);
  }

  /** Nothing between touches what worker `w` wrote for `key`. */
  predicate LeavesAlone(actions: seq<Action>, w: Worker, key: Key) {
    forall a <- actions :: !(a.Restart? && a.worker == w) && !(a.Set? && a.worker == w && a.key == key)
  }

  lemma {:induction false} ClockGrows(s: State, ttl: real, actions: seq<Action>)
    requires Runs(s, ttl, actions)
    ensures s.clock <= Exec(s, ttl, actions).clock
    decreases |actions|
  {
    if actions != [] {
      ClockGrows(Apply(s, ttl, actions[0]), ttl, actions[1..]);
    }
  }

  lemma {:induction false} KeepsOwn(s: State, ttl: real, actions: seq<Action>, w: Worker, key: Key, e: L1Entry)
    requires Runs(s, ttl, actions) && LeavesAlone(actions, w, key) && ttl > 0.0
    requires key in CacheOf(s, w) && CacheOf(s, w)[key] == e && Exec(s, ttl, actions).clock < e.createdAt + ttl
    ensures key in CacheOf(Exec(s, ttl, actions), w) && CacheOf(Exec(s, ttl, actions), w)[key] == e
    decreases |actions|
  {
    if actions != [] {
      ClockGrows(Apply(s, ttl, actions[0]), ttl, actions[1..]);
      assert actions[0] in actions;
      assert forall a <- actions[1..] :: a in actions;
      KeepsOwn(Apply(s, ttl, actions[0]), ttl, actions[1..], w, key, e);
    }
  }

  /** For one lifetime a worker reads back its own latest response, whatever other workers and Redis do. */
  lemma OwnWriteIsReadBack(s: State, ttl: real, w: Worker, key: Key, content: string, up: bool, actions: seq<Action>,
                           redisUp: bool)
    requires ttl > 0.0 && LeavesAlone(actions, w, key)
    requires var t := Apply(s, ttl, Set(w, key, content, up));
      Runs(t, ttl, actions) && Exec(t, ttl, actions).clock < s.clock + ttl
    ensures var t := Exec(Apply(s, ttl, Set(w, key, content, up)), ttl, actions);
      Read(CacheOf(t, w), t.redis, redisUp, key, ttl, t.clock) == Some(Response(key, s.clock, content))
  {
    var t := Apply(s, ttl, Set(w, key, content, up));
    KeepsOwn(t, ttl, actions, w, key, L1Entry(Response(key, s.clock, content), s.clock));
  }

  /** A response a whole lifetime old can only be a hit in L1, in an entry that was refilled from L2 after the response was
      made. A read from L2, or of a worker's own response, never is that old. */
  lemma OverAgeIsRefilled(ttl: real, actions: seq<Action>, w: Worker, key: Key, redisUp: bool)
    requires Runs(INITIAL, ttl, actions)
    requires var s := Exec(INITIAL, ttl, actions);
      var found := Read(CacheOf(s, w), s.redis, redisUp, key, ttl, s.clock);
      found.Some? && s.clock - found.value.born >= ttl
    ensures var s := Exec(INITIAL, ttl, actions);
      var cache := CacheOf(s, w);
      && L1Hit(cache, key, ttl, s.clock)
      && cache[key].createdAt > cache[key].response.born
  {
    ExecKeepsInv(INITIAL, ttl, actions);
    var s := Exec(INITIAL, ttl, actions);
    assert CacheValid(CacheOf(s, w), ttl, s.clock);
  }

  /** At `time`, if nothing else happens, the read returns the entry's response, by then a lifetime old. */
  predicate ReturnedOverAge(s: State, ttl: real, w: Worker, key: Key, redisUp: bool, time: real)
    requires key in CacheOf(s, w)
  {
    && s.clock <= time
    && var response := CacheOf(s, w)[key].response;
       Read(CacheOf(s, w), s.redis, redisUp, key, ttl, time) == Some(response) && time - response.born >= ttl
  }

  /** An entry made with its response is gone when it is a lifetime old, and then L2 has no older one either. */
  lemma NotOverAge(s: State, ttl: real, w: Worker, key: Key, redisUp: bool, time: real)
    requires Inv(s, ttl) && ttl > 0.0 && key in CacheOf(s, w)
    requires CacheOf(s, w)[key].createdAt <= CacheOf(s, w)[key].response.born
    ensures !ReturnedOverAge(s, ttl, w, key, redisUp, time)
  {
  }

  /** The exact condition for an entry that still hits: its response will be returned over age, if the worker waits, if and
      only if the entry was refilled after the response was made. */
  lemma OverAgeIff(ttl: real, actions: seq<Action>, w: Worker, key: Key, redisUp: bool)
    requires Runs(INITIAL, ttl, actions) && ttl > 0.0
    requires var s := Exec(INITIAL, ttl, actions); L1Hit(CacheOf(s, w), key, ttl, s.clock)
    ensures var s := Exec(INITIAL, ttl, actions);
      var entry := CacheOf(s, w)[key];
      (exists time :: ReturnedOverAge(s, ttl, w, key, redisUp, time)) <==> entry.createdAt > entry.response.born
  {
    ExecKeepsInv(INITIAL, ttl, actions);
    var s := Exec(INITIAL, ttl, actions);
    assert CacheValid(CacheOf(s, w), ttl, s.clock);
    var entry := CacheOf(s, w)[key];
    var due := entry.response.born + ttl;
    if entry.createdAt > entry.response.born {
      assert ReturnedOverAge(s, ttl, w, key, redisUp, if s.clock >= due then s.clock else due);
    } else {
      forall time ensures !ReturnedOverAge(s, ttl, w, key, redisUp, time) {
        NotOverAge(s, ttl, w, key, redisUp, time);
      }
    }
  }

  /** The bound is no better than twice the lifetime: one worker sets, another reads just before Redis drops the entry,
      and reads again nearly a lifetime later. */
  lemma OlderThanLifetimeIsReturned(key: Key, content: string)
    ensures var ttl := 300.0;
      var actions := [Set(0, key, content, true), Tick(299.0), Get(1, key, true), Tick(598.0)];
      && Runs(INITIAL, ttl, actions)
      && var s := Exec(INITIAL, ttl, actions);
         Read(CacheOf(s, 1), s.redis, true, key, ttl, s.clock) == Some(Response(key, 0.0, content)) && s.clock == 598.0
  {
    var ttl := 300.0;
    var a, b, c, d := Set(0, key, content, true), Tick(299.0), Get(1, key, true), Tick(598.0);
    var response := Response(key, 0.0, content);
    var s1 := Apply(INITIAL, ttl, a);
    assert s1.redis == map[key := L2Entry(response, 300.0)];
    var s2 := Apply(s1, ttl, b);
    var s3 := Apply(s2, ttl, c);
    assert CacheOf(s3, 1) == map[key := L1Entry(response, 299.0)];
    var s4 := Apply(s3, ttl, d);
    assert [a, b, c, d][1..] == [b, c, d] && [b, c, d][1..] == [c, d] && [c, d][1..] == [d] && [d][1..] == [];
    assert Runs(s4, ttl, []) && Exec(s4, ttl, []) == s4;
    assert Runs(s3, ttl, [d]) && Exec(s3, ttl, [d]) == s4;
    assert Runs(s2, ttl, [c, d]) && Exec(s2, ttl, [c, d]) == s4;
    assert Runs(s1, ttl, [b, c, d]) && Exec(s1, ttl, [b, c, d]) == s4;
  }

  /** Workers share what they generate: while Redis is up and keeps the entry, another worker without an entry of its own
      reads it for the whole seconds of the lifetime, and not longer. */
  lemma OthersReadIt(s: State, ttl: real, v: Worker, w: Worker, key: Key, content: string, time: real)
    requires ttl > 0.0 && v != w && key !in CacheOf(s, v) && key !in s.redis && s.clock <= time
    ensures var t := Apply(s, ttl, Set(w, key, content, true));
      Read(CacheOf(t, v), t.redis, true, key, ttl, time)
      == if time < s.clock + ttl.Floor as real then Some(Response(key, s.clock, content)) else None
  {
  }
}
