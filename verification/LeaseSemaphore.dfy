/** The Redis semaphore for the vision model: a sorted set of tokens scored by the end of their lease, under an expiring
    key. Each script is one atomic step. Times are in milliseconds of the Redis clock. */
module LeaseSemaphore {
  import opened Wrappers

  type Token = string

  type Slots = map<Token, int>

  /** The time after the last lease during which the key lives on. */
  const MARGIN := 1000

  /** The limits are the same for all processes. */
  datatype Config = Config(limit: nat, ttl: nat)

  /** The sorted set as stored, with the expiry of its key. */
  datatype Store = Store(slots: Slots, expiry: Option<int>)

  /** Leases that have not run out. */
  function Unexpired(slots: Slots, now: int): Slots {
    map t | t in slots && slots[t] > now :: slots[t]
  }

  /** What Redis shows: an expired key is gone. */
  function Visible(store: Store, now: int): Slots {
    if store.expiry.Some? && store.expiry.value <= now then map[] else store.slots
  }

  /** ZREMRANGEBYSCORE, ZCARD, ZADD, PEXPIRE. */
  function Acquired(store: Store, token: Token, c: Config, now: int): Store {
    var slots := Unexpired(Visible(store, now), now);
    if |slots| < c.limit then Store(slots[token := now + c.ttl], Some(now + c.ttl + MARGIN))
    else Store(slots, if slots == map[] then None else store.expiry)
  }

  function Released(store: Store, token: Token, now: int): Store {
    var slots := Visible(store, now) - {token};
    Store(slots, if slots == map[] then None else store.expiry)
  }

  class SlotStore {
    const config: Config
    var slots: Slots
    var expiry: Option<int>

    constructor (config: Config)
      ensures this.config == config && slots == map[] && expiry == None
    {
      this.config, slots, expiry := config, map[], None;
    }

    /** The key expires lazily, when it is next looked at. */
    method Expire(now: int)
      modifies this
      ensures slots == Visible(old(Store(slots, expiry)), now)
      ensures slots == map[] || expiry == old(expiry)
      ensures expiry == old(expiry) || expiry == None
    {
      if expiry.Some? && expiry.value <= now {
        slots, expiry := map[], None;
      }
    }

    method TryAcquire(token: Token, now: int) returns (acquired: bool)
      modifies this
      ensures Store(slots, expiry) == Acquired(old(Store(slots, expiry)), token, config, now)
      ensures acquired <==> |Unexpired(Visible(old(Store(slots, expiry)), now), now)| < config.limit
    {
      Expire(now);
      slots := map t | t in slots && slots[t] > now :: slots[t];
      if slots == map[] {
        expiry := None;
      }
      if |slots| < config.limit {
        slots := slots[token := now + config.ttl];
        expiry := Some(now + config.ttl + 1000);
        return true;
      }
      return false;
    }

    method Release(token: Token, now: int)
      modifies this
      ensures Store(slots, expiry) == Released(old(Store(slots, expiry)), token, now)
    {
      Expire(now);
      slots := slots - {token};
      if slots == map[] {
        expiry := None;
      }
    }
  }

  // ---- Processes -----------------------------------------------------------------------------------------------------

  /** `granted` has the time of every grant, `inside` those whose holder is working. */
  datatype State = State(store: Store, clock: int, granted: map<Token, int>, inside: set<Token>)

  datatype Action =
    | Tick(time: int)
    | TryAcquire(token: Token, answered: bool)   // the answer of a granted call may be lost
    | Release(token: Token)
    | Leave(token: Token)                        // crash of the holder, or a release that does not reach Redis

  predicate Enabled(s: State, a: Action) {
    match a
    case Tick(time) => s.clock <= time
    case TryAcquire(t, _) => t !in s.granted     // a token is used until it is granted once
    case Release(t) => t in s.inside
    case Leave(t) => t in s.inside
  }

  function Apply(s: State, c: Config, a: Action): State
    requires Enabled(s, a)
  {
    match a
    case Tick(time) => s.(clock := time)
    case TryAcquire(t, answered) =>
      var store := Acquired(s.store, t, c, s.clock);
      if |Unexpired(Visible(s.store, s.clock), s.clock)| < c.limit then
        State(store, s.clock, s.granted[t := s.clock], if answered then s.inside + {t} else s.inside)
      else s.(store := store)
    case Release(t) => s.(store := Released(s.store, t, s.clock), inside := s.inside - {t})
    case Leave(t) => s.(inside := s.inside - {t})
  }

  const INITIAL := State(Store(map[], None), 0, map[], {})

  predicate Runs(s: State, c: Config, actions: seq<Action>)
    decreases |actions|
  {
    actions == [] || (Enabled(s, actions[0]) && Runs(Apply(s, c, actions[0]), c, actions[1..]))
  }

  function Exec(s: State, c: Config, actions: seq<Action>): State
    requires Runs(s, c, actions)
    decreases |actions|
  {
    if actions == [] then s else Exec(Apply(s, c, actions[0]), c, actions[1..])
  }

  ghost predicate Inv(s: State, c: Config) {
    && |s.store.slots| <= c.limit
    && (forall t :: t in s.store.slots ==> t in s.granted && s.store.slots[t] == s.granted[t] + c.ttl)
    && (s.store.slots != map[] ==> s.store.expiry.Some?)
    && (forall t :: t in s.store.slots ==> s.store.slots[t] + MARGIN <= s.store.expiry.value)
    && (forall t :: t in s.granted ==> s.granted[t] <= s.clock)
    && s.inside <= s.granted.Keys
    && (forall t :: t in s.inside && s.clock < s.granted[t] + c.ttl ==> t in s.store.slots)
  }

  lemma {:induction false} SmallerSet<T>(a: set<T>, b: set<T>)
    requires a <= b
    ensures |a| <= |b|
  {
    assert b == a + (b - a);
  }

  lemma SmallerMap(m: Slots, n: Slots)
    requires m.Keys <= n.Keys
    ensures |m| <= |n|
  {
    SmallerSet(m.Keys, n.Keys);
  }

  lemma OneMore(m: Slots, token: Token, score: int)
    ensures |m[token := score]| <= |m| + 1
  {
    assert m[token := score].Keys == m.Keys + {token};
  }

  /** The expiry of the key never discards a lease that has not run out. */
  lemma KeyExpiryLosesNothing(s: State, c: Config)
    requires Inv(s, c)
    ensures Unexpired(Visible(s.store, s.clock), s.clock) == Unexpired(s.store.slots, s.clock)
  {
  }

  /** The purge alone. */
  lemma PurgeKeepsInv(s: State, c: Config, store: Store)
    requires Inv(s, c) && store.slots == Unexpired(s.store.slots, s.clock)
    requires store.slots != map[] ==> store.expiry == s.store.expiry
    ensures Inv(s.(store := store), c)
  {
    SmallerMap(store.slots, s.store.slots);
  }

  /** A new slot, when there is room. */
  lemma GrantKeepsInv(s: State, c: Config, token: Token, inside: set<Token>)
    requires Inv(s, c) && |s.store.slots| < c.limit && token !in s.granted
    requires inside == s.inside || inside == s.inside + {token}
    requires forall t :: t in s.store.slots ==> s.store.slots[t] + MARGIN <= s.clock + c.ttl + MARGIN
    ensures Inv(State(Store(s.store.slots[token := s.clock + c.ttl], Some(s.clock + c.ttl + MARGIN)), s.clock,
                      s.granted[token := s.clock], inside), c)
  {
    OneMore(s.store.slots, token, s.clock + c.ttl);
  }

  lemma AcquireKeepsInv(s: State, c: Config, a: Action)
    requires Inv(s, c) && Enabled(s, a) && a.TryAcquire?
    ensures Inv(Apply(s, c, a), c)
  {
    KeyExpiryLosesNothing(s, c);
    var slots := Unexpired(s.store.slots, s.clock);
    var purged := Store(slots, if slots == map[] then None else s.store.expiry);
    PurgeKeepsInv(s, c, purged);
    if |slots| < c.limit {
      GrantKeepsInv(s.(store := purged), c, a.token, if a.answered then s.inside + {a.token} else s.inside);
    }
  }

  lemma ReleaseKeepsInv(s: State, c: Config, a: Action)
    requires Inv(s, c) && Enabled(s, a) && a.Release?
    ensures Inv(Apply(s, c, a), c)
  {
    KeyExpiryLosesNothing(s, c);
    var t := Apply(s, c, a);
    SmallerMap(t.store.slots, s.store.slots);
    forall u | u in t.inside && t.clock < t.granted[u] + c.ttl ensures u in t.store.slots {
      assert u in Unexpired(s.store.slots, s.clock);
    }
  }

  lemma StepKeepsInv(s: State, c: Config, a: Action)
    requires Inv(s, c) && Enabled(s, a)
    ensures Inv(Apply(s, c, a), c)
  {
    match a
    case TryAcquire(_, _) => AcquireKeepsInv(s, c, a);
    case Release(_) => ReleaseKeepsInv(s, c, a);
    case Tick(_) =>
    case Leave(_) =>
  }

  lemma {:induction false} ExecKeepsInv(s: State, c: Config, actions: seq<Action>)
    requires Inv(s, c) && Runs(s, c, actions)
    ensures Inv(Exec(s, c, actions), c)
    decreases |actions|
  {
    if actions != [] {
      StepKeepsInv(s, c, actions[0]);
      ExecKeepsInv(Apply(s, c, actions[0]), c, actions[1..]);
    }
  }

  /** Holders whose lease has not run out. */
  function Current(s: State, c: Config): set<Token>
    requires s.inside <= s.granted.Keys
  {
    set t | t in s.inside && s.clock < s.granted[t] + c.ttl
  }

  /** In every reachable state, with crashes and lost answers: at most `limit` slots, and at most `limit` holders within
      their lease. */
  lemma AtMostLimit(c: Config, actions: seq<Action>)
    requires Runs(INITIAL, c, actions)
    ensures var s := Exec(INITIAL, c, actions);
      && |s.store.slots| <= c.limit
      && s.inside <= s.granted.Keys && |Current(s, c)| <= c.limit
  {
    ExecKeepsInv(INITIAL, c, actions);
    var s := Exec(INITIAL, c, actions);
    SmallerSet(Current(s, c), s.store.slots.Keys);
  }

  /** No holder works past its lease. */
  predicate Prompt(s: State, c: Config) {
    forall t :: t in s.inside ==> t in s.granted && s.clock < s.granted[t] + c.ttl
  }

  /** So if nobody overstays, at most `limit` are inside at once. */
  lemma PromptHoldersExclude(c: Config, actions: seq<Action>)
    requires Runs(INITIAL, c, actions) && Prompt(Exec(INITIAL, c, actions), c)
    ensures |Exec(INITIAL, c, actions).inside| <= c.limit
  {
    AtMostLimit(c, actions);
    var s := Exec(INITIAL, c, actions);
    assert Current(s, c) == s.inside;
  }

  /** An acquire succeeds exactly when fewer than `limit` granted leases are neither released nor run out. */
  lemma AcquireSucceedsIff(c: Config, actions: seq<Action>, t: Token, answered: bool)
    requires Runs(INITIAL, c, actions) && Enabled(Exec(INITIAL, c, actions), TryAcquire(t, answered))
    ensures var s := Exec(INITIAL, c, actions);
      t in Apply(s, c, TryAcquire(t, answered)).granted <==> |Unexpired(s.store.slots, s.clock)| < c.limit
  {
    ExecKeepsInv(INITIAL, c, actions);
    KeyExpiryLosesNothing(Exec(INITIAL, c, actions), c);
  }

  /** Crashed holders block nobody for longer than their lease: when every grant is at least a lease old, an acquire
      succeeds whatever happened to the holders. */
  lemma CrashedSlotsComeBack(c: Config, actions: seq<Action>, t: Token, answered: bool)
    requires c.limit > 0 && Runs(INITIAL, c, actions) && Enabled(Exec(INITIAL, c, actions), TryAcquire(t, answered))
    requires var s := Exec(INITIAL, c, actions); forall u :: u in s.granted ==> s.granted[u] + c.ttl <= s.clock
    ensures t in Apply(Exec(INITIAL, c, actions), c, TryAcquire(t, answered)).granted
  {
    ExecKeepsInv(INITIAL, c, actions);
    var s := Exec(INITIAL, c, actions);
    AcquireSucceedsIff(c, actions, t, answered);
    assert Unexpired(s.store.slots, s.clock) == map[];
  }

  /** When the limit is exceeded, exactly: while at most `limit` are inside, one more acquire leads beyond it if and only if
      all places are taken and some slot is free. */
  lemma LimitBreaksIff(c: Config, actions: seq<Action>, t: Token)
    requires Runs(INITIAL, c, actions) && Enabled(Exec(INITIAL, c, actions), TryAcquire(t, true))
    requires |Exec(INITIAL, c, actions).inside| <= c.limit
    ensures var s := Exec(INITIAL, c, actions);
      |Apply(s, c, TryAcquire(t, true)).inside| > c.limit
      <==> |s.inside| == c.limit && |Unexpired(s.store.slots, s.clock)| < c.limit
  {
    ExecKeepsInv(INITIAL, c, actions);
    KeyExpiryLosesNothing(Exec(INITIAL, c, actions), c);
  }

  /** All places are taken and a slot is free only if somebody overstays. */
  lemma FreeSlotMeansOverstaying(c: Config, actions: seq<Action>)
    requires Runs(INITIAL, c, actions)
    requires var s := Exec(INITIAL, c, actions);
      |s.inside| == c.limit && |Unexpired(s.store.slots, s.clock)| < c.limit
    ensures !Prompt(Exec(INITIAL, c, actions), c)
  {
    ExecKeepsInv(INITIAL, c, actions);
    var s := Exec(INITIAL, c, actions);
    var slots := Unexpired(s.store.slots, s.clock);
    if s.inside <= slots.Keys {
      SmallerSet(s.inside, slots.Keys);
    } else {
      var t :| t in s.inside && t !in slots;
      assert s.clock >= s.granted[t] + c.ttl;
    }
  }

  /** The shortest such run: a holder overstays and is not counted, so with one slot two are inside. */
  lemma OverstayingBreaksTheLimit(a: Token, b: Token, ttl: nat)
    requires a != b
    ensures var c, actions := Config(1, ttl), [TryAcquire(a, true), Tick(ttl), TryAcquire(b, true)];
      Runs(INITIAL, c, actions) && Exec(INITIAL, c, actions).inside == {a, b}
  {
    var c, x, y, z := Config(1, ttl), TryAcquire(a, true), Tick(ttl), TryAcquire(b, true);
    var s1 := Apply(INITIAL, c, x);
    var s2 := Apply(s1, c, y);
    assert s2.store.slots == map[a := ttl] && Unexpired(s2.store.slots, ttl) == map[];
    assert Unexpired(Visible(s2.store, ttl), ttl) == map[];
    var s3 := Apply(s2, c, z);
    assert [x, y, z][1..] == [y, z] && [y, z][1..] == [z] && [z][1..] == [];
    assert Runs(s3, c, []) && Exec(s3, c, []) == s3;
    assert Runs(s2, c, [z]) && Exec(s2, c, [z]) == s3;
    assert Runs(s1, c, [y, z]) && Exec(s1, c, [y, z]) == s3;
  }
}
