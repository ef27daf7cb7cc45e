/** Allocation of per-task event indices by concurrent appenders, and the readers of the log. */
module EventLog {
  import Text
  import opened Wrappers

  /** One committed row of the event table; `payload` stands for everything but the index. */
  datatype Entry = Entry(index: nat, payload: string)

  /** What an appender is doing. `Ready` holds the index it will try to insert. */
  datatype Pc =
    | Idle
    | Reading(payload: string, attempt: nat)
    | Ready(payload: string, index: nat, attempt: nat)

  /** The rows of one task in commit order, and the appenders. */
  datatype State = State(log: seq<Entry>, pcs: map<int, Pc>)

  datatype Action =
    | Start(worker: int, payload: string)          // append_event without an index
    | StartExplicit(worker: int, payload: string)  // index = len(list_events) + 1, read now and used later
    | ReadMax(worker: int)
    | Commit(worker: int)
    | Crash(worker: int)

  const MAX_ATTEMPTS := 4

  function MaxIndex(log: seq<Entry>): nat {
    if log == [] then 0
    else
      var rest := MaxIndex(log[..|log| - 1]);
      if log[|log| - 1].index > rest then log[|log| - 1].index else rest
  }

  /** The unique constraint on (task, index). */
  predicate Taken(log: seq<Entry>, index: nat) {
    exists k :: 0 <= k < |log| && log[k].index == index
  }

  predicate Enabled(s: State, a: Action) {
    match a
    case Start(w, _) => w !in s.pcs || s.pcs[w].Idle?
    case StartExplicit(w, _) => w !in s.pcs || s.pcs[w].Idle?
    case ReadMax(w) => w in s.pcs && s.pcs[w].Reading?
    case Commit(w) => w in s.pcs && s.pcs[w].Ready?
    case Crash(w) => w in s.pcs
  }

  function Apply(s: State, a: Action): State
    requires Enabled(s, a)
  {
    match a
    case Start(w, p) => s.(pcs := s.pcs[w := Reading(p, 0)])
    case StartExplicit(w, p) => s.(pcs := s.pcs[w := Ready(p, |s.log| + 1, 0)])
    case ReadMax(w) => s.(pcs := s.pcs[w := Ready(s.pcs[w].payload, MaxIndex(s.log) + 1, s.pcs[w].attempt)])
    case Commit(w) =>
      var pc := s.pcs[w];
      if Taken(s.log, pc.index) then
        s.(pcs := s.pcs[w := if pc.attempt + 1 < MAX_ATTEMPTS then Reading(pc.payload, pc.attempt + 1) else Idle])
      else State(s.log + [Entry(pc.index, pc.payload)], s.pcs[w := Idle])
    case Crash(w) => s.(pcs := s.pcs[w := Idle])
  }

  predicate Runs(s: State, actions: seq<Action>)
    decreases |actions|
  {
    actions == [] || (Enabled(s, actions[0]) && Runs(Apply(s, actions[0]), actions[1..]))
  }

  function Exec(s: State, actions: seq<Action>): State
    requires Runs(s, actions)
    decreases |actions|
  {
    if actions == [] then s else Exec(Apply(s, actions[0]), actions[1..])
  }

  const INITIAL := State([], map[])

  /** The committed indices are 1, 2, ..., n in commit order. */
  predicate Dense(log: seq<Entry>) {
    forall k :: 0 <= k < |log| ==> log[k].index == k + 1
  }

  /** No appender holds an index beyond the next free one, however stale it is. */
  ghost predicate Inv(s: State) {
    && Dense(s.log)
    && forall w :: w in s.pcs && s.pcs[w].Ready? ==> 1 <= s.pcs[w].index <= |s.log| + 1
  }

  lemma {:induction false} MaxOfDense(log: seq<Entry>)
    requires Dense(log)
    ensures MaxIndex(log) == |log|
  {
    if log != [] {
      MaxOfDense(log[..|log| - 1]);
    }
  }

  lemma StepKeepsInv(s: State, a: Action)
    requires Inv(s) && Enabled(s, a)
    ensures Inv(Apply(s, a)) && s.log <= Apply(s, a).log
  {
    MaxOfDense(s.log);
    if a.Commit? {
      var index := s.pcs[a.worker].index;
      if index <= |s.log| {
        assert s.log[index - 1].index == index;
      }
    }
  }

  lemma {:induction false} ExecKeepsInv(s: State, actions: seq<Action>)
    requires Inv(s) && Runs(s, actions)
    ensures Inv(Exec(s, actions)) && s.log <= Exec(s, actions).log
    decreases |actions|
  {
    if actions != [] {
      StepKeepsInv(s, actions[0]);
      ExecKeepsInv(Apply(s, actions[0]), actions[1..]);
    }
  }

  /** Under every interleaving of any number of appenders, with stale explicit indices and crashes, the committed indices
      are dense and in commit order. */
  lemma IndicesAreDense(actions: seq<Action>)
    requires Runs(INITIAL, actions)
    ensures Dense(Exec(INITIAL, actions).log)
  {
    ExecKeepsInv(INITIAL, actions);
  }

  /** A commit appends exactly when the index held is the next one; otherwise it collides and changes no row. */
  lemma CommitAppendsIff(s: State, w: int)
    requires Inv(s) && Enabled(s, Commit(w))
    ensures Apply(s, Commit(w)).log
            == if s.pcs[w].index == |s.log| + 1 then s.log + [Entry(s.pcs[w].index, s.pcs[w].payload)] else s.log
  {
    var index := s.pcs[w].index;
    if index <= |s.log| {
      assert s.log[index - 1].index == index;
    }
  }

  // ---- One call of append_event --------------------------------------------------------------------------------------

  function Numbered(log: seq<Entry>, payloads: seq<string>): seq<Entry>
    decreases |payloads|
  {
    if payloads == [] then log else Numbered(log + [Entry(|log| + 1, payloads[0])], payloads[1..])
  }

  lemma {:induction false} NumberedIsDense(log: seq<Entry>, payloads: seq<string>)
    requires Dense(log)
    ensures Dense(Numbered(log, payloads)) && |Numbered(log, payloads)| == |log| + |payloads|
    ensures log <= Numbered(log, payloads)
    decreases |payloads|
  {
    if payloads != [] {
      NumberedIsDense(log + [Entry(|log| + 1, payloads[0])], payloads[1..]);
    }
  }

  /** The log when attempts `0..n` have been overtaken. */
  function Overtaken(log: seq<Entry>, others: seq<seq<string>>, n: nat): seq<Entry>
    requires n <= |others|
  {
    if n == 0 then log else Numbered(Overtaken(log, others, n - 1), others[n - 1])
  }

  /** `append_event` against interference: `others[k]` is what other appenders commit between the read and the commit of
      attempt `k`. The event gets the next index at the first attempt nobody overtakes; it is dropped exactly when all
      four attempts are overtaken. A stale explicit index counts as an attempt that is overtaken. */
  method AppendEvent(before: seq<Entry>, payload: string, explicit: Option<nat>, others: seq<seq<string>>)
    returns (log: seq<Entry>, result: Option<nat>, ghost n: nat)
    requires Dense(before) && |others| == 4
    requires explicit.Some? ==> 1 <= explicit.value <= |before| + 1
    ensures n <= 4 && Dense(log)
    ensures forall k :: 0 <= k < n ==> others[k] != [] || (k == 0 && explicit.Some? && explicit.value <= |before|)
    ensures result.None? <==> n == 4
    ensures result.None? ==> log == Overtaken(before, others, 4)
    ensures result.Some? ==>
      && others[n] == [] && result.value == |log|
      && log == Overtaken(before, others, n) + [Entry(|log|, payload)]
  {
    log := before;
    var index := explicit;
    n := 0;
    for attempt := 0 to MAX_ATTEMPTS
      invariant n == attempt && Dense(log) && log == Overtaken(before, others, attempt)
      invariant attempt == 0 ==> index == explicit
      invariant attempt > 0 ==> index.None?
      invariant forall k :: 0 <= k < attempt ==>
        others[k] != [] || (k == 0 && explicit.Some? && explicit.value <= |before|)
    {
      MaxOfDense(log);
      var candidate := if index.Some? then index.value else MaxIndex(log) + 1;
      ghost var atRead := log;
      NumberedIsDense(log, others[attempt]);
      log := Numbered(log, others[attempt]);
      if candidate <= |log| {
        assert log[candidate - 1].index == candidate;
      } else {
        assert others[attempt] == [];
      }
      if !Taken(log, candidate) {
        log := log + [Entry(candidate, payload)];
        return log, Some(candidate), attempt;
      }
      index := None;
      n := n + 1;
    }
    result := None;
  }

  // ---- Readers -------------------------------------------------------------------------------------------------------

  function InsertByIndex(e: Entry, s: seq<Entry>): seq<Entry> {
    if s == [] || e.index <= s[0].index then [e] + s else [s[0]] + InsertByIndex(e, s[1..])
  }

  /** `list_events`: the rows with an index above `after`, ordered by index. */
  function ListEvents(log: seq<Entry>, after: int): seq<Entry> {
    if log == [] then []
    else if log[0].index > after then InsertByIndex(log[0], ListEvents(log[1..], after))
    else ListEvents(log[1..], after)
  }

  function Skip(log: seq<Entry>, after: int): seq<Entry> {
    if after <= 0 then log else if after <= |log| then log[after..] else []
  }

  lemma {:induction false} ListFrom(log: seq<Entry>, k: nat, after: int)
    requires Dense(log) && k <= |log|
    ensures ListEvents(log[k..], after) == if after <= k then log[k..] else Skip(log, after)
    decreases |log| - k
  {
    if k < |log| {
      var rest := log[k + 1..];
      ListFrom(log, k + 1, after);
      assert log[k..] == [log[k]] + rest && log[k..][1..] == rest;
      if after <= k {
        assert rest != [] ==> rest[0] == log[k + 1];
      } else {
        assert ListEvents(log[k..], after) == ListEvents(rest, after);
      }
    }
  }

  /** On a dense log a reader gets the suffix behind its cursor. */
  lemma ListIsSuffix(log: seq<Entry>, after: int)
    requires Dense(log)
    ensures ListEvents(log, after) == Skip(log, after)
  {
    ListFrom(log, 0, after);
    assert log[0..] == log;
  }

  function Last(entries: seq<Entry>, cursor: int): int {
    if entries == [] then cursor else entries[|entries| - 1].index
  }

  /** A client that polls growing versions of the log and moves its cursor to the last index it has seen. */
  function Polled(logs: seq<seq<Entry>>, cursor: int): seq<Entry>
    decreases |logs|
  {
    if logs == [] then []
    else ListEvents(logs[0], cursor) + Polled(logs[1..], Last(ListEvents(logs[0], cursor), cursor))
  }

  predicate Growing(logs: seq<seq<Entry>>) {
    logs == [] || (Dense(logs[0]) && (|logs| > 1 ==> logs[0] <= logs[1]) && Growing(logs[1..]))
  }

  lemma {:induction false} GrowsTo(logs: seq<seq<Entry>>)
    requires Growing(logs) && logs != []
    ensures Dense(logs[|logs| - 1]) && logs[0] <= logs[|logs| - 1]
  {
    if |logs| > 1 {
      GrowsTo(logs[1..]);
    }
  }

  /** A polling reader gets every event committed so far exactly once and in order, however its polls fall between the
      commits. */
  lemma {:induction false} PollingIsExact(logs: seq<seq<Entry>>, cursor: nat)
    requires Growing(logs) && logs != [] && cursor <= |logs[0]|
    ensures cursor <= |logs[|logs| - 1]| && Polled(logs, cursor) == logs[|logs| - 1][cursor..]
    decreases |logs|
  {
    var log, final := logs[0], logs[|logs| - 1];
    ListIsSuffix(log, cursor);
    assert ListEvents(log, cursor) == log[cursor..];
    GrowsTo(logs);
    if |logs| == 1 {
      assert logs[1..] == [];
    } else {
      assert Last(log[cursor..], cursor) == |log|;
      PollingIsExact(logs[1..], |log|);
      assert final[cursor..] == log[cursor..] + final[|log|..];
    }
  }

  // ---- The agent's SSE generator -------------------------------------------------------------------------------------

  /** A message from the Redis stream; durable events carry their index, others 0. */
  datatype Pushed = Token | Durable(index: nat)

  /** What one iteration of the generator observes. */
  datatype Round = Round(log: seq<Entry>, pushed: seq<Pushed>, terminal: bool)

  datatype Yielded = YieldToken | YieldEvent(index: nat) | YieldHeartbeat

  function EventsOf(entries: seq<Entry>): seq<Yielded> {
    if entries == [] then [] else [YieldEvent(entries[0].index)] + EventsOf(entries[1..])
  }

  function PushedOut(pushed: seq<Pushed>, cursor: int): (seq<Yielded>, int)
    decreases |pushed|
  {
    if pushed == [] then ([], cursor)
    else
      match pushed[0]
      case Token =>
        var tail := PushedOut(pushed[1..], cursor);
        ([YieldToken] + tail.0, tail.1)
      case Durable(index) =>
        if index <= cursor then PushedOut(pushed[1..], cursor)
        else
          var tail := PushedOut(pushed[1..], index);
          ([YieldEvent(index)] + tail.0, tail.1)
  }

  function LaterOf(a: int, b: int): int { if a >= b then a else b }

  function MaxCursor(entries: seq<Entry>, cursor: int): int {
    if entries == [] then cursor else MaxCursor(entries[1..], LaterOf(cursor, entries[0].index))
  }

  const IDLE_LIMIT := 120

  /** Everything yielded from round `k` on. */
  function Generated(rounds: seq<Round>, k: nat, cursor: int, idle: nat): seq<Yielded>
    requires k <= |rounds|
    decreases |rounds| - k
  {
    if k == |rounds| || idle >= IDLE_LIMIT then []
    else
      var round := rounds[k];
      var events := ListEvents(round.log, cursor);
      if events != [] then EventsOf(events) + Generated(rounds, k + 1, MaxCursor(events, cursor), 0)
      else
        var out := if round.pushed == [] then ([YieldHeartbeat], cursor) else PushedOut(round.pushed, cursor);
        out.0 + if round.terminal then []
                else Generated(rounds, k + 1, out.1, if round.pushed == [] then idle + 1 else 0)
  }

  /** `event_generator`, until the client disconnects after the given rounds. */
  method EventGenerator(rounds: seq<Round>, afterIndex: int) returns (sent: seq<Yielded>)
    ensures sent == Generated(rounds, 0, afterIndex, 0)
  {
    sent := [];
    var cursor := afterIndex;
    var idleTicks := 0;
    var k := 0;
    ghost var goal, todo := Generated(rounds, 0, afterIndex, 0), Generated(rounds, 0, afterIndex, 0);
    while k < |rounds| && idleTicks < IDLE_LIMIT
      invariant 0 <= k <= |rounds|
      invariant todo == Generated(rounds, k, cursor, idleTicks)
      invariant sent + todo == goal
      decreases |rounds| - k
    {
      var round := rounds[k];
      var events := ListEvents(round.log, cursor);
      var out: seq<Yielded>;
      if events != [] {
        idleTicks := 0;
        out := EventsOf(events);
        cursor := MaxCursor(events, cursor);
      } else {
        idleTicks := idleTicks + 1;
        if round.pushed != [] {
          idleTicks := 0;
          var p := PushedOut(round.pushed, cursor);
          out, cursor := p.0, p.1;
        } else {
          out := [YieldHeartbeat];
        }
      }
      ghost var rest := if round.terminal && events == [] then [] else Generated(rounds, k + 1, cursor, idleTicks);
      assert todo == out + rest;
      assert sent + (out + rest) == (sent + out) + rest;
      sent := sent + out;
      todo := rest;
      k := k + 1;
      if round.terminal && events == [] {
        break;
      }
    }
    assert todo == [];
  }

  /** Nothing new, nothing pushed and no terminal status. */
  predicate Silent(round: Round, cursor: int) {
    ListEvents(round.log, cursor) == [] && round.pushed == [] && !round.terminal
  }

  /** A silent stream sends one heartbeat a round, and ends after 120 of them. */
  lemma {:induction false} SilentStreamEnds(rounds: seq<Round>, k: nat, cursor: int, idle: nat)
    requires k <= |rounds| && idle <= 120 && forall i :: k <= i < |rounds| ==> Silent(rounds[i], cursor)
    ensures var sent := Generated(rounds, k, cursor, idle);
      && |sent| == (if |rounds| - k <= 120 - idle then |rounds| - k else 120 - idle)
      && forall y <- sent :: y == YieldHeartbeat
    decreases |rounds| - k
  {
    if k < |rounds| && idle < 120 {
      assert Silent(rounds[k], cursor);
      SilentStreamEnds(rounds, k + 1, cursor, idle + 1);
      assert Generated(rounds, k, cursor, idle) == [YieldHeartbeat] + Generated(rounds, k + 1, cursor, idle + 1);
    }
  }

  /** The durable indices among the yields. */
  function Indices(sent: seq<Yielded>): seq<int> {
    if sent == [] then []
    else (if sent[0].YieldEvent? then [sent[0].index] else []) + Indices(sent[1..])
  }

  predicate StrictlyAbove(s: seq<int>, floor: int) {
    s == [] || (s[0] > floor && StrictlyAbove(s[1..], s[0]))
  }

  lemma {:induction false} IndicesConcat(a: seq<Yielded>, b: seq<Yielded>)
    ensures Indices(a + b) == Indices(a) + Indices(b)
  {
    if a == [] {
      assert a + b == b;
    } else {
      IndicesConcat(a[1..], b);
      assert (a + b)[1..] == a[1..] + b && (a + b)[0] == a[0];
      Text.Assoc(if a[0].YieldEvent? then [a[0].index] else [], Indices(a[1..]), Indices(b));
    }
  }

  lemma {:induction false} AboveConcat(a: seq<int>, b: seq<int>, floor: int, mid: int)
    requires StrictlyAbove(a, floor) && StrictlyAbove(b, mid)
    requires mid >= if a == [] then floor else a[|a| - 1]
    ensures StrictlyAbove(a + b, floor)
    decreases |a|
  {
    if a == [] {
      assert a + b == b;
    } else {
      AboveConcat(a[1..], b, a[0], mid);
      assert (a + b)[1..] == a[1..] + b;
    }
  }

  /** The durable indices a batch yields, and where the cursor ends. */
  ghost predicate Climbs(s: seq<int>, from: int, to: int) {
    StrictlyAbove(s, from) && from <= to == if s == [] then from else s[|s| - 1]
  }

  lemma {:induction false} PushedClimbs(pushed: seq<Pushed>, cursor: int)
    ensures Climbs(Indices(PushedOut(pushed, cursor).0), cursor, PushedOut(pushed, cursor).1)
    decreases |pushed|
  {
    if pushed != [] {
      match pushed[0]
      case Token =>
        PushedClimbs(pushed[1..], cursor);
        var tail := PushedOut(pushed[1..], cursor).0;
        assert ([YieldToken] + tail)[1..] == tail && [] + Indices(tail) == Indices(tail);
      case Durable(index) =>
        if index <= cursor {
          PushedClimbs(pushed[1..], cursor);
        } else {
          PushedClimbs(pushed[1..], index);
          var tail := PushedOut(pushed[1..], index).0;
          assert ([YieldEvent(index)] + tail)[1..] == tail;
          assert ([index as int] + Indices(tail))[1..] == Indices(tail);
        }
    }
  }

  function TokensIn(pushed: seq<Pushed>): nat {
    if pushed == [] then 0 else (if pushed[0].Token? then 1 else 0) + TokensIn(pushed[1..])
  }

  function TokensOf(sent: seq<Yielded>): nat {
    if sent == [] then 0 else (if sent[0].YieldToken? then 1 else 0) + TokensOf(sent[1..])
  }

  /** Every pushed token is yielded. */
  lemma {:induction false} PushedTokens(pushed: seq<Pushed>, cursor: int)
    ensures TokensOf(PushedOut(pushed, cursor).0) == TokensIn(pushed)
    decreases |pushed|
  {
    if pushed != [] {
      var next := if pushed[0].Durable? && pushed[0].index > cursor then pushed[0].index else cursor;
      PushedTokens(pushed[1..], next);
      var tail := PushedOut(pushed[1..], next).0;
      assert ([YieldToken] + tail)[1..] == tail;
      if pushed[0].Durable? {
        assert ([YieldEvent(pushed[0].index)] + tail)[1..] == tail;
      }
    }
  }

  /** At this position the index is pushed, above the cursor and above every durable one before it. */
  predicate Rises(pushed: seq<Pushed>, cursor: int, index: nat, k: int) {
    && 0 <= k < |pushed| && pushed[k] == Durable(index) && index > cursor
    && forall j :: 0 <= j < k && pushed[j].Durable? ==> pushed[j].index < index
  }

  /** A pushed durable event is yielded exactly when its index rises above the cursor and all those before it. */
  lemma {:induction false} PushedEventIff(pushed: seq<Pushed>, cursor: int, index: nat)
    ensures index in Indices(PushedOut(pushed, cursor).0) <==> exists k :: Rises(pushed, cursor, index, k)
    decreases |pushed|
  {
    if pushed != [] {
      var head, rest := pushed[0], pushed[1..];
      var rises := head.Durable? && head.index > cursor;
      var next := if rises then head.index else cursor;
      var tail := PushedOut(rest, next).0;
      PushedEventIff(rest, next, index);
      assert ([YieldToken] + tail)[1..] == tail;
      if rises {
        assert ([YieldEvent(head.index)] + tail)[1..] == tail;
      }
      assert index in Indices(PushedOut(pushed, cursor).0) <==> (rises && index == head.index) || index in Indices(tail);
      if k :| Rises(rest, next, index, k) {
        assert pushed[k + 1] == rest[k];
        assert forall j :: 0 < j < k + 1 ==> pushed[j] == rest[j - 1];
        assert Rises(pushed, cursor, index, k + 1);
      }
      if rises && index == head.index {
        assert Rises(pushed, cursor, index, 0);
      }
      if k :| Rises(pushed, cursor, index, k) {
        if k > 0 {
          assert rest[k - 1] == pushed[k];
          assert forall j :: 0 <= j < k - 1 ==> rest[j] == pushed[j + 1];
          assert Rises(rest, next, index, k - 1);
        }
      }
    }
  }

  lemma {:induction false} SuffixClimbs(log: seq<Entry>, k: nat, cursor: int)
    requires Dense(log) && k <= |log| && cursor <= k
    ensures Climbs(Indices(EventsOf(log[k..])), cursor, MaxCursor(log[k..], cursor))
    ensures MaxCursor(log[k..], cursor) == if k == |log| then cursor else |log|
    decreases |log| - k
  {
    if k < |log| {
      SuffixClimbs(log, k + 1, k + 1);
      assert log[k..][1..] == log[k + 1..];
      var tail := EventsOf(log[k + 1..]);
      assert ([YieldEvent(k + 1)] + tail)[1..] == tail;
      assert ([k + 1] + Indices(tail))[1..] == Indices(tail);
    }
  }

  lemma Appended(out: seq<Yielded>, rest: seq<Yielded>, from: int, to: int)
    requires Climbs(Indices(out), from, to) && StrictlyAbove(Indices(rest), to)
    ensures StrictlyAbove(Indices(out + rest), from)
  {
    IndicesConcat(out, rest);
    AboveConcat(Indices(out), Indices(rest), from, to);
  }

  /** Whatever is pushed, and whatever the rounds show, the durable indices yielded are strictly increasing and above the
      client's starting point: no event is delivered twice. */
  lemma {:induction false} YieldsIncrease(rounds: seq<Round>, k: nat, cursor: int, idle: nat)
    requires forall r <- rounds :: Dense(r.log)
    requires k <= |rounds|
    ensures StrictlyAbove(Indices(Generated(rounds, k, cursor, idle)), cursor)
    decreases |rounds| - k
  {
    if k < |rounds| && idle < IDLE_LIMIT {
      var round := rounds[k];
      var events := ListEvents(round.log, cursor);
      ListIsSuffix(round.log, cursor);
      if events != [] {
        var start := if cursor <= 0 then 0 else cursor;
        assert round.log[0..] == round.log;
        assert events == round.log[start..];
        SuffixClimbs(round.log, start, cursor);
        var next := MaxCursor(events, cursor);
        YieldsIncrease(rounds, k + 1, next, 0);
        Appended(EventsOf(events), Generated(rounds, k + 1, next, 0), cursor, next);
      } else {
        var out := if round.pushed == [] then ([YieldHeartbeat], cursor) else PushedOut(round.pushed, cursor);
        PushedClimbs(round.pushed, cursor);
        assert [YieldHeartbeat][1..] == [];
        var idle' := if round.pushed == [] then idle + 1 else 0;
        YieldsIncrease(rounds, k + 1, out.1, idle');
        var rest := if round.terminal then [] else Generated(rounds, k + 1, out.1, idle');
        Appended(out.0, rest, cursor, out.1);
      }
    }
  }

  predicate Consecutive(s: seq<int>, from: int) {
    s == [] || (s[0] == from + 1 && Consecutive(s[1..], from + 1))
  }

  lemma {:induction false} ConsecutiveConcat(a: seq<int>, b: seq<int>, from: int)
    requires Consecutive(a, from) && Consecutive(b, from + |a|)
    ensures Consecutive(a + b, from)
    decreases |a|
  {
    if a == [] {
      assert a + b == b;
    } else {
      ConsecutiveConcat(a[1..], b, from + 1);
      assert (a + b)[1..] == a[1..] + b;
    }
  }

  lemma {:induction false} SuffixConsecutive(log: seq<Entry>, k: nat)
    requires Dense(log) && k <= |log|
    ensures var s := Indices(EventsOf(log[k..])); Consecutive(s, k) && |s| == |log| - k
    decreases |log| - k
  {
    if k < |log| {
      SuffixConsecutive(log, k + 1);
      assert log[k..][1..] == log[k + 1..];
      var tail := EventsOf(log[k + 1..]);
      assert ([YieldEvent(k + 1)] + tail)[1..] == tail;
      assert ([k + 1] + Indices(tail))[1..] == Indices(tail);
    }
  }

  lemma {:induction false} TokensHaveNoIndex(pushed: seq<Pushed>, cursor: int)
    requires forall p <- pushed :: p.Token?
    ensures Indices(PushedOut(pushed, cursor).0) == [] && PushedOut(pushed, cursor).1 == cursor
    decreases |pushed|
  {
    if pushed != [] {
      assert pushed[0] in pushed;
      TokensHaveNoIndex(pushed[1..], cursor);
      var tail := PushedOut(pushed[1..], cursor).0;
      assert ([YieldToken] + tail)[1..] == tail;
    }
  }

  lemma {:induction false} CursorGrows(entries: seq<Entry>, cursor: int)
    ensures MaxCursor(entries, cursor) >= cursor
  {
    if entries != [] {
      CursorGrows(entries[1..], LaterOf(cursor, entries[0].index));
    }
  }

  /** The listed events, and what is yielded after them. */
  lemma NoGapInEvents(log: seq<Entry>, cursor: nat, rest: seq<Yielded>)
    requires Dense(log) && ListEvents(log, cursor) != []
    requires Consecutive(Indices(rest), MaxCursor(ListEvents(log, cursor), cursor))
    ensures Consecutive(Indices(EventsOf(ListEvents(log, cursor)) + rest), cursor)
  {
    var events := ListEvents(log, cursor);
    ListIsSuffix(log, cursor);
    assert log[0..] == log;
    assert events == log[cursor..];
    SuffixConsecutive(log, cursor);
    SuffixClimbs(log, cursor, cursor);
    IndicesConcat(EventsOf(events), rest);
    ConsecutiveConcat(Indices(EventsOf(events)), Indices(rest), cursor);
  }

  /** While the Redis stream carries tokens only, the generator leaves no gap: it yields the committed events one after
      the other from the client's cursor on. */
  lemma {:induction false} NoGapWithoutPushes(rounds: seq<Round>, k: nat, cursor: nat, idle: nat)
    requires forall r <- rounds :: Dense(r.log) && forall p <- r.pushed :: p.Token?
    requires k <= |rounds|
    ensures Consecutive(Indices(Generated(rounds, k, cursor, idle)), cursor)
    decreases |rounds| - k
  {
    if k < |rounds| && idle < IDLE_LIMIT {
      var round := rounds[k];
      assert round in rounds;
      var events := ListEvents(round.log, cursor);
      if events != [] {
        CursorGrows(events, cursor);
        NoGapWithoutPushes(rounds, k + 1, MaxCursor(events, cursor), 0);
        NoGapInEvents(round.log, cursor, Generated(rounds, k + 1, MaxCursor(events, cursor), 0));
      } else {
        var out := if round.pushed == [] then ([YieldHeartbeat], cursor) else PushedOut(round.pushed, cursor);
        TokensHaveNoIndex(round.pushed, cursor);
        assert [YieldHeartbeat][1..] == [];
        var idle' := if round.pushed == [] then idle + 1 else 0;
        NoGapWithoutPushes(rounds, k + 1, cursor, idle');
        var rest := if round.terminal then [] else Generated(rounds, k + 1, cursor, idle');
        IndicesConcat(out.0, rest);
        assert [] + Indices(rest) == Indices(rest);
      }
    }
  }

  // ---- What the generator delivers -----------------------------------------------------------------------------------

  /** The log a client is served from only grows, and the Redis stream carries tokens only. */
  ghost predicate Orderly(rounds: seq<Round>) {
    && (forall i :: 0 <= i < |rounds| ==> Dense(rounds[i].log) && forall p <- rounds[i].pushed :: p.Token?)
    && (forall i, j :: 0 <= i < j < |rounds| ==> rounds[i].log <= rounds[j].log)
  }

  /** The round of the last poll: the first one that finds nothing new and then reads a terminal status, or the last one
      before the idle limit or the end. */
  function LastPoll(rounds: seq<Round>, k: nat, seen: nat, idle: nat): (last: nat)
    requires k < |rounds| && idle < IDLE_LIMIT
    ensures k <= last < |rounds|
    decreases |rounds| - k
  {
    var quiet := |rounds[k].log| <= seen;
    var idle' := if quiet && rounds[k].pushed == [] then idle + 1 else 0;
    if (quiet && rounds[k].terminal) || k + 1 == |rounds| || idle' >= IDLE_LIMIT then k
    else LastPoll(rounds, k + 1, if quiet then seen else |rounds[k].log|, idle')
  }

  /** Where a client starts: any negative cursor asks for the whole log. */
  function Floor(cursor: int): nat {
    if cursor < 0 then 0 else cursor
  }

  /** How many of the events of a log of this length come after the cursor. */
  function Beyond(length: nat, cursor: nat): nat {
    if length > cursor then length - cursor else 0
  }

  lemma EventsCount(log: seq<Entry>, cursor: nat)
    requires Dense(log) && cursor < |log|
    ensures var events := ListEvents(log, cursor);
      events != [] && |Indices(EventsOf(events))| == |log| - cursor && MaxCursor(events, cursor) == |log|
  {
    ListIsSuffix(log, cursor);
    assert log[0..] == log;
    SuffixConsecutive(log, cursor);
    SuffixClimbs(log, cursor, cursor);
  }

  /** A poll that finds nothing new delivers nothing. */
  lemma QuietRound(rounds: seq<Round>, k: nat, cursor: nat, idle: nat)
    requires Orderly(rounds) && k < |rounds| && idle < IDLE_LIMIT && cursor >= |rounds[k].log|
    ensures var idle' := if rounds[k].pushed == [] then idle + 1 else 0;
      Indices(Generated(rounds, k, cursor, idle))
      == if rounds[k].terminal then [] else Indices(Generated(rounds, k + 1, cursor, idle'))
  {
    var round := rounds[k];
    ListIsSuffix(round.log, cursor);
    TokensHaveNoIndex(round.pushed, cursor);
    assert [YieldHeartbeat][1..] == [];
    var out := if round.pushed == [] then ([YieldHeartbeat], cursor as int) else PushedOut(round.pushed, cursor);
    var idle' := if round.pushed == [] then idle + 1 else 0;
    var rest := if round.terminal then [] else Generated(rounds, k + 1, cursor, idle');
    IndicesConcat(out.0, rest);
    assert [] + Indices(rest) == Indices(rest);
  }

  lemma {:induction false} DeliveredFrom(rounds: seq<Round>, k: nat, cursor: nat, idle: nat)
    requires Orderly(rounds) && k < |rounds| && idle < IDLE_LIMIT
    ensures var last := LastPoll(rounds, k, cursor, idle);
      |Indices(Generated(rounds, k, cursor, idle))| == Beyond(|rounds[last].log|, cursor)
    ensures |rounds[LastPoll(rounds, k, cursor, idle)].log| >= |rounds[k].log|
    decreases |rounds| - k
  {
    var round := rounds[k];
    if cursor < |round.log| {
      EventsCount(round.log, cursor);
      var rest := Generated(rounds, k + 1, |round.log|, 0);
      IndicesConcat(EventsOf(ListEvents(round.log, cursor)), rest);
      if k + 1 < |rounds| {
        assert round.log <= rounds[k + 1].log;
        DeliveredFrom(rounds, k + 1, |round.log|, 0);
      }
    } else {
      QuietRound(rounds, k, cursor, idle);
      var idle' := if round.pushed == [] then idle + 1 else 0;
      if !round.terminal && k + 1 < |rounds| && idle' < IDLE_LIMIT {
        assert round.log <= rounds[k + 1].log;
        DeliveredFrom(rounds, k + 1, cursor, idle');
      }
    }
  }

  lemma {:induction false} TokensIgnoreCursor(pushed: seq<Pushed>, a: int, b: int)
    requires forall p <- pushed :: p.Token?
    ensures PushedOut(pushed, a).0 == PushedOut(pushed, b).0 && PushedOut(pushed, a).1 == a
    decreases |pushed|
  {
    if pushed != [] {
      assert pushed[0] in pushed;
      TokensIgnoreCursor(pushed[1..], a, b);
    }
  }

  /** A negative cursor is as good as zero. */
  lemma {:induction false} NegativeIsZero(rounds: seq<Round>, k: nat, cursor: int, idle: nat)
    requires Orderly(rounds) && k <= |rounds| && cursor < 0
    ensures Generated(rounds, k, cursor, idle) == Generated(rounds, k, 0, idle)
    decreases |rounds| - k
  {
    if k < |rounds| && idle < IDLE_LIMIT {
      var round := rounds[k];
      ListIsSuffix(round.log, cursor);
      ListIsSuffix(round.log, 0);
      if round.log != [] {
        assert round.log[0..] == round.log;
        SuffixClimbs(round.log, 0, cursor);
        SuffixClimbs(round.log, 0, 0);
      } else {
        TokensIgnoreCursor(round.pushed, cursor, 0);
        TokensIgnoreCursor(round.pushed, 0, cursor);
        NegativeIsZero(rounds, k + 1, cursor, if round.pushed == [] then idle + 1 else 0);
      }
    }
  }

  lemma StartIsEnough(rounds: seq<Round>, cursor: int)
    requires Orderly(rounds)
    ensures Generated(rounds, 0, cursor, 0) == Generated(rounds, 0, Floor(cursor), 0)
  {
    if cursor < 0 {
      NegativeIsZero(rounds, 0, cursor, 0);
    }
  }

  /** From any cursor, also a negative one or one ahead of the log, as many events are delivered as the last poll could see
      beyond it. */
  lemma DeliveredCount(rounds: seq<Round>, cursor: int)
    requires Orderly(rounds) && rounds != []
    ensures var last := LastPoll(rounds, 0, Floor(cursor), 0);
      |Indices(Generated(rounds, 0, cursor, 0))| == Beyond(|rounds[last].log|, Floor(cursor))
  {
    StartIsEnough(rounds, cursor);
    DeliveredFrom(rounds, 0, Floor(cursor), 0);
  }

  lemma {:induction false} ConsecutiveMembers(s: seq<int>, from: int, index: int)
    requires Consecutive(s, from)
    ensures index in s <==> from < index <= from + |s|
  {
    if s != [] {
      ConsecutiveMembers(s[1..], from + 1, index);
      assert s == [s[0]] + s[1..];
    }
  }

  /** Which events reach the client, whatever cursor it sends: exactly those after it that were committed before the last
      poll. Since the status is read after the poll, an event committed between the two is lost even if the status was
      saved later. */
  lemma DeliveredIff(rounds: seq<Round>, cursor: int, index: nat)
    requires Orderly(rounds) && rounds != []
    ensures index in Indices(Generated(rounds, 0, cursor, 0))
      <==> Floor(cursor) < index <= |rounds[LastPoll(rounds, 0, Floor(cursor), 0)].log|
  {
    StartIsEnough(rounds, cursor);
    DeliveredFrom(rounds, 0, Floor(cursor), 0);
    forall r <- rounds ensures Dense(r.log) && forall p <- r.pushed :: p.Token? {
    }
    NoGapWithoutPushes(rounds, 0, Floor(cursor), 0);
    ConsecutiveMembers(Indices(Generated(rounds, 0, cursor, 0)), Floor(cursor), index);
  }

  /** So the client gets all it asks for of the log, as it stands in the end, if and only if nothing of that was committed
      after the last poll. */
  lemma NothingMissedIff(rounds: seq<Round>, cursor: int, final: seq<Entry>)
    requires Orderly(rounds) && rounds != [] && rounds[|rounds| - 1].log <= final
    ensures (forall index: nat :: Floor(cursor) < index <= |final| ==> index in Indices(Generated(rounds, 0, cursor, 0)))
      <==> |rounds[LastPoll(rounds, 0, Floor(cursor), 0)].log| == |final| || |final| <= Floor(cursor)
  {
    var last := LastPoll(rounds, 0, Floor(cursor), 0);
    assert rounds[last].log <= rounds[|rounds| - 1].log;
    forall index: nat
      ensures index in Indices(Generated(rounds, 0, cursor, 0)) <==> Floor(cursor) < index <= |rounds[last].log|
    {
      DeliveredIff(rounds, cursor, index);
    }
    if |rounds[last].log| < |final| && Floor(cursor) < |final| {
      assert |final| !in Indices(Generated(rounds, 0, cursor, 0));
    }
  }

  /** The next event after a log that the client has seen, committed right after a poll that is followed by a terminal
      status, never reaches it. */
  lemma {:induction false} TerminalStatusCanHideLastEvent(log: seq<Entry>, next: Entry)
    requires Dense(log) && next.index == |log| + 1
    ensures var rounds := [Round(log, [], true), Round(log + [next], [], true)];
      next.index !in Indices(Generated(rounds, 0, |log|, 0))
  {
    var rounds := [Round(log, [], true), Round(log + [next], [], true)];
    assert Orderly(rounds);
    DeliveredIff(rounds, |log|, next.index);
  }
}
