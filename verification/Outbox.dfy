/** The transactional outbox: any number of API calls create and resume tasks, any number of dispatchers publish, and
    each may crash between its transactions. */
module Outbox {
  import opened AgentTables
  import opened Wrappers

  datatype Session = Session(userId: int, active: TaskId)

  datatype Request = Request(userId: int, key: Option<string>, session: string, id: TaskId)

  datatype Outcome = Task(id: TaskId) | KeyOfAnotherUser | SessionOfAnotherUser

  /** What a call of `create_task` returned or raised. */
  datatype Answer = Answer(request: Request, outcome: Outcome)

  /** `todo` are the listed rows, the one in hand first. */
  datatype Pc =
    | Creating(request: Request)
    | Publishing(todo: seq<nat>)
    | Published(todo: seq<nat>)
    | Failing(todo: seq<nat>)

  /** Rows are numbered from 0 in the order of their ids. `keys` is the unique index on idempotency keys, `broker` counts
      the messages published for each row, `accepted` is the task of every accepted create and resume. */
  datatype State = State(
    tasks: map<TaskId, TaskRow>,
    keys: map<string, TaskId>,
    sessions: map<string, Session>,
    outbox: seq<OutboxRow>,
    broker: multiset<nat>,
    clock: int,
    pcs: map<int, Pc>,
    accepted: seq<TaskId>,
    answers: seq<Answer>,
    used: set<TaskId>)

  datatype Action =
    | Tick(time: int)
    | CreateCheck(worker: int, request: Request)   // look the key up
    | CreateCommit(worker: int)                    // insert task, session, run and outbox row
    | Resume(taskId: TaskId, userId: int, payload: string, event: string)
    | Work(taskId: TaskId, row: TaskRow)           // any other write to a task row
    | List(worker: int, limit: int, only: Option<TaskId>)
    | Publish(worker: int)
    | PublishRaises(worker: int)
    | MarkDispatched(worker: int)
    | MarkRaises(worker: int)
    | MarkFailed(worker: int)
    | Crash(worker: int)                           // also a transaction that fails and is rolled back

  function ClampLimit(limit: int): (clamped: nat)
    ensures 1 <= clamped <= 500 && (1 <= limit <= 500 ==> clamped == limit)
    ensures (limit > 500 ==> clamped == 500) && (limit < 1 ==> clamped == 1)
  {
    var upper := if limit <= 500 then limit else 500;
    if upper >= 1 then upper else 1
  }

  predicate InRange(ids: seq<nat>, n: nat) {
    forall k :: 0 <= k < |ids| ==> ids[k] < n
  }

  /** The ids of the first `limit` rows that are pending and available. */
  function PendingIds(outbox: seq<OutboxRow>, now: int, limit: nat): (ids: seq<nat>)
    ensures |ids| <= limit
    ensures InRange(ids, |outbox|)
    ensures forall k :: 0 <= k < |ids| ==> Listed(outbox[ids[k]], now)
  {
    if outbox == [] then []
    else
      var n := |outbox| - 1;
      var ids := PendingIds(outbox[..n], now, limit);
      if |ids| < limit && Listed(outbox[n], now) then ids + [n] else ids
  }

  /** The API publishes at most one listed row, the first of its own task. */
  function FirstOf(outbox: seq<OutboxRow>, ids: seq<nat>, taskId: TaskId): (own: seq<nat>)
    requires InRange(ids, |outbox|)
    ensures InRange(own, |outbox|)
  {
    if ids == [] then [] else if outbox[ids[0]].taskId == taskId then [ids[0]] else FirstOf(outbox, ids[1..], taskId)
  }

  predicate Enabled(s: State, a: Action) {
    match a
    case Tick(time) => s.clock <= time
    case CreateCheck(w, r) => w !in s.pcs && r.id !in s.used
    case CreateCommit(w) => w in s.pcs && s.pcs[w].Creating?
    case Resume(_, _, _, _) => true
    case Work(t, row) => t in s.tasks ==> row.userId == s.tasks[t].userId
    case List(w, _, _) => w !in s.pcs
    case Publish(w) => w in s.pcs && s.pcs[w].Publishing?
    case PublishRaises(w) => w in s.pcs && s.pcs[w].Publishing?
    case MarkDispatched(w) => w in s.pcs && s.pcs[w].Published?
    case MarkRaises(w) => w in s.pcs && s.pcs[w].Published?
    case MarkFailed(w) => w in s.pcs && s.pcs[w].Failing?
    case Crash(w) => w in s.pcs
  }

  /** The unique constraint on task and event type. */
  predicate HasRow(outbox: seq<OutboxRow>, taskId: TaskId, event: string) {
    exists id: nat :: id < |outbox| && outbox[id].taskId == taskId && outbox[id].eventType == event
  }

  /** The answer of a lookup that found the key. */
  function Existing(s: State, r: Request): Outcome
    requires r.key.Some? && r.key.value in s.keys
  {
    var id := s.keys[r.key.value];
    if id in s.tasks && s.tasks[id].userId != r.userId then KeyOfAnotherUser else Task(id)
  }

  function KnownKey(s: State, r: Request): bool {
    r.key.Some? && r.key.value in s.keys
  }

  function Answered(s: State, w: int, r: Request, outcome: Outcome): State {
    s.(answers := s.answers + [Answer(r, outcome)], pcs := s.pcs - {w})
  }

  function Queued(s: State, taskId: TaskId, event: string): State {
    s.(outbox := s.outbox + [OutboxRow(taskId, event, false, 0, s.clock)], accepted := s.accepted + [taskId])
  }

  function Inserted(s: State, r: Request): State {
    var t := s.(tasks := s.tasks[r.id := Fresh(r.userId)],
                keys := if r.key.Some? then s.keys[r.key.value := r.id] else s.keys,
                sessions := s.sessions[r.session := Session(r.userId, r.id)]);
    Queued(t, r.id, "agent_task_requested")
  }

  /** The session test comes before the commit, so it wins over the unique constraint on the key. */
  function Committed(s: State, w: int, r: Request): State {
    if r.session in s.sessions && s.sessions[r.session].userId != r.userId then Answered(s, w, r, SessionOfAnotherUser)
    else if KnownKey(s, r) then Answered(s, w, r, Existing(s, r))
    else Answered(Inserted(s, r), w, r, Task(r.id))
  }

  /** Go on with the rest of the list. */
  function Next(s: State, w: int, todo: seq<nat>): State {
    s.(pcs := if |todo| <= 1 then s.pcs - {w} else s.pcs[w := Publishing(todo[1..])])
  }

  function UpdateRow(s: State, id: nat, f: OutboxRow -> OutboxRow): State {
    if id < |s.outbox| then s.(outbox := s.outbox[id := f(s.outbox[id])]) else s
  }

  function Head(todo: seq<nat>): nat {
    if todo == [] then 0 else todo[0]
  }

  function Apply(s: State, a: Action): State
    requires Enabled(s, a)
  {
    match a
    case Tick(time) => s.(clock := time)
    case CreateCheck(w, r) =>
      var t := s.(used := s.used + {r.id});
      if KnownKey(s, r) then Answered(t, w, r, Existing(s, r)) else t.(pcs := s.pcs[w := Creating(r)])
    case CreateCommit(w) => Committed(s, w, s.pcs[w].request)
    case Resume(t, u, payload, event) =>
      if t in s.tasks && Resumable(s.tasks[t], u) && !HasRow(s.outbox, t, event) then
        Queued(s.(tasks := s.tasks[t := Resumed(s.tasks[t], payload)]), t, event)
      else s
    case Work(t, row) => if t in s.tasks then s.(tasks := s.tasks[t := row]) else s
    case List(w, limit, only) =>
      var ids := PendingIds(s.outbox, s.clock, ClampLimit(limit));
      var todo := if only.Some? then FirstOf(s.outbox, ids, only.value) else ids;
      if todo == [] then s else s.(pcs := s.pcs[w := Publishing(todo)])
    case Publish(w) =>
      var todo := s.pcs[w].todo;
      s.(broker := s.broker + multiset{Head(todo)}, pcs := s.pcs[w := Published(todo)])
    case PublishRaises(w) => s.(pcs := s.pcs[w := Failing(s.pcs[w].todo)])
    case MarkDispatched(w) =>
      var todo := s.pcs[w].todo;
      Next(UpdateRow(s, Head(todo), Dispatched), w, todo)
    case MarkRaises(w) => s.(pcs := s.pcs[w := Failing(s.pcs[w].todo)])
    case MarkFailed(w) =>
      var todo := s.pcs[w].todo;
      Next(UpdateRow(s, Head(todo), row => PublishFailed(row, s.clock)), w, todo)
    case Crash(w) => s.(pcs := s.pcs - {w})
  }

  const INITIAL := State(map[], map[], map[], [], multiset{}, 0, map[], [], [], {})

  predicate Runs(s: State, actions: seq<Action>)
    decreases |actions|
  {
    actions == [] || (Enabled(s, actions[0]) && Runs(Apply(s, actions[0]), actions[1..]))
  }

  function Exec(s: State, actions: seq<Action>): State
    requires Runs(s, actions)
    decreases |actions|
  {
    if actions == [] then s else Exec(Apply(s, actions[0]), actions[1..])
  }

  // ---- Outbox rows ---------------------------------------------------------------------------------------------------

  /** A row is still pending or was published at least once. */
  predicate NotLost(s: State, id: nat) {
    id < |s.outbox| ==> !s.outbox[id].dispatched || s.broker[id] >= 1
  }

  ghost predicate PcInv(s: State, pc: Pc) {
    match pc
    case Creating(_) => true
    case Publishing(todo) => todo != [] && InRange(todo, |s.outbox|)
    case Published(todo) => todo != [] && InRange(todo, |s.outbox|) && s.broker[todo[0]] >= 1
    case Failing(todo) => todo != [] && InRange(todo, |s.outbox|)
  }

  ghost predicate RowsInv(s: State) {
    && |s.outbox| == |s.accepted|
    && (forall id: nat :: id < |s.outbox| ==> s.outbox[id].taskId == s.accepted[id])
    && (forall id: nat :: NotLost(s, id))
    && (forall id: nat :: id < |s.outbox| ==> s.outbox[id].availableAt <= s.clock + 256)
    && (forall w :: w in s.pcs ==> PcInv(s, s.pcs[w]))
  }

  /** What can happen to a row: it keeps its task, and is never un-dispatched or un-published. */
  ghost predicate Extends(s: State, t: State) {
    && |s.outbox| <= |t.outbox|
    && (forall id: nat :: id < |s.outbox| ==>
         t.outbox[id].taskId == s.outbox[id].taskId && (s.outbox[id].dispatched ==> t.outbox[id].dispatched))
    && (forall id: nat :: s.broker[id] <= t.broker[id])
  }

  /** One row is rewritten: it keeps its task, and is marked as dispatched only if it was published. */
  lemma RowWriteKeepsRows(s: State, t: State, id: nat, row: OutboxRow)
    requires RowsInv(s) && id < |s.outbox| && t.outbox == s.outbox[id := row] && row.taskId == s.outbox[id].taskId
    requires row.dispatched ==> s.outbox[id].dispatched || s.broker[id] >= 1
    requires s.outbox[id].dispatched ==> row.dispatched
    requires row.availableAt <= s.clock + 256
    requires t.accepted == s.accepted && t.broker == s.broker && t.clock == s.clock
    requires forall w :: w in t.pcs ==> PcInv(t, t.pcs[w])
    ensures RowsInv(t) && Extends(s, t)
  {
    forall k: nat ensures NotLost(t, k) {
      assert NotLost(s, k);
    }
  }

  lemma PcKept(s: State, t: State, pc: Pc)
    requires PcInv(s, pc) && |s.outbox| == |t.outbox| && forall id: nat :: s.broker[id] <= t.broker[id]
    ensures PcInv(t, pc)
  {
  }

  /** What `Next` leaves of the processes. */
  lemma NextKeepsPcs(s: State, t: State, w: int, todo: seq<nat>)
    requires RowsInv(s) && w in s.pcs && !s.pcs[w].Creating? && s.pcs[w].todo == todo
    requires |t.outbox| == |s.outbox| && t.broker == s.broker
    requires t.pcs == if |todo| <= 1 then s.pcs - {w} else s.pcs[w := Publishing(todo[1..])]
    ensures forall v :: v in t.pcs ==> PcInv(t, t.pcs[v])
  {
    assert PcInv(s, s.pcs[w]);
    forall v | v in t.pcs ensures PcInv(t, t.pcs[v]) {
      if v != w {
        PcKept(s, t, s.pcs[v]);
      }
    }
  }

  lemma UpdateKeepsRows(s: State, w: int, failed: bool)
    requires RowsInv(s) && w in s.pcs && (if failed then s.pcs[w].Failing? else s.pcs[w].Published?)
    ensures var a := if failed then MarkFailed(w) else MarkDispatched(w);
      RowsInv(Apply(s, a)) && Extends(s, Apply(s, a))
  {
    var t := Apply(s, if failed then MarkFailed(w) else MarkDispatched(w));
    var todo := s.pcs[w].todo;
    assert PcInv(s, s.pcs[w]);
    var id := todo[0];
    BackoffBounded(s.outbox[id].attempts + 1);
    NextKeepsPcs(s, t, w, todo);
    assert NotLost(s, id);
    RowWriteKeepsRows(s, t, id, if failed then PublishFailed(s.outbox[id], s.clock) else Dispatched(s.outbox[id]));
  }

  lemma GrownKeepsRows(s: State, t: State)
    requires RowsInv(s) && s.outbox == t.outbox && s.accepted == t.accepted
    requires s.clock <= t.clock && (forall id: nat :: s.broker[id] <= t.broker[id])
    requires forall w :: w in t.pcs ==> PcInv(t, t.pcs[w])
    ensures RowsInv(t) && Extends(s, t)
  {
    forall id: nat ensures NotLost(t, id) {
      assert NotLost(s, id);
    }
  }

  lemma QueuedKeepsRows(s: State, t: State, taskId: TaskId, event: string)
    requires RowsInv(s) && t.outbox == s.outbox + [OutboxRow(taskId, event, false, 0, s.clock)]
    requires t.accepted == s.accepted + [taskId] && t.broker == s.broker && t.clock == s.clock
    requires forall w :: w in t.pcs ==> w in s.pcs && t.pcs[w] == s.pcs[w]
    ensures RowsInv(t) && Extends(s, t)
  {
    forall id: nat ensures NotLost(t, id) {
      assert NotLost(s, id);
    }
    forall w | w in t.pcs ensures PcInv(t, t.pcs[w]) {
      assert PcInv(s, s.pcs[w]);
    }
  }

  /** What a step does to the process that takes it. */
  lemma OthersKeepPcs(s: State, a: Action)
    requires RowsInv(s) && Enabled(s, a) && !a.MarkDispatched? && !a.MarkFailed?
    requires Apply(s, a).outbox == s.outbox
    ensures forall w :: w in Apply(s, a).pcs ==> PcInv(Apply(s, a), Apply(s, a).pcs[w])
  {
    var t := Apply(s, a);
    forall w | w in t.pcs ensures PcInv(t, t.pcs[w]) {
      if w in s.pcs && t.pcs[w] == s.pcs[w] {
        PcKept(s, t, s.pcs[w]);
      } else if a.List? {
        assert PcInv(s, t.pcs[w]);
      } else if a.Publish? || a.PublishRaises? || a.MarkRaises? {
        assert PcInv(s, s.pcs[w]);
      } else {
        assert t.pcs[w].Creating?;
      }
    }
  }

  lemma StepKeepsRows(s: State, a: Action)
    requires RowsInv(s) && Enabled(s, a)
    ensures RowsInv(Apply(s, a)) && Extends(s, Apply(s, a))
  {
    var t := Apply(s, a);
    match a
    case MarkDispatched(w) => UpdateKeepsRows(s, w, false);
    case MarkFailed(w) => UpdateKeepsRows(s, w, true);
    case CreateCommit(w) =>
      var r := s.pcs[w].request;
      if |t.outbox| == |s.outbox| {
        OthersKeepPcs(s, a);
        GrownKeepsRows(s, t);
      } else {
        QueuedKeepsRows(s, t, r.id, "agent_task_requested");
      }
    case Resume(id, u, _, event) =>
      if id in s.tasks && Resumable(s.tasks[id], u) && !HasRow(s.outbox, id, event) {
        QueuedKeepsRows(s, t, id, event);
      }
    case _ =>
      OthersKeepPcs(s, a);
      GrownKeepsRows(s, t);
  }

  // ---- Listing -------------------------------------------------------------------------------------------------------

  function CountListed(outbox: seq<OutboxRow>, now: int): nat {
    if outbox == [] then 0
    else CountListed(outbox[..|outbox| - 1], now) + if Listed(outbox[|outbox| - 1], now) then 1 else 0
  }

  lemma {:induction false} PendingIdsCount(outbox: seq<OutboxRow>, now: int, limit: nat)
    ensures |PendingIds(outbox, now, limit)| == if CountListed(outbox, now) < limit then CountListed(outbox, now) else limit
  {
    if outbox != [] {
      PendingIdsCount(outbox[..|outbox| - 1], now, limit);
    }
  }

  predicate Increasing(ids: seq<nat>) {
    forall i, j :: 0 <= i < j < |ids| ==> ids[i] < ids[j]
  }

  lemma {:induction false} PendingIdsIncrease(outbox: seq<OutboxRow>, now: int, limit: nat)
    ensures Increasing(PendingIds(outbox, now, limit))
  {
    if outbox != [] {
      var n := |outbox| - 1;
      PendingIdsIncrease(outbox[..n], now, limit);
      var before := PendingIds(outbox[..n], now, limit);
      assert forall k :: 0 <= k < |before| ==> before[k] < n;
      assert Increasing(before + [n]);
    }
  }

  lemma {:induction false} ListedAt(outbox: seq<OutboxRow>, now: int, limit: nat, id: nat)
    requires id < |outbox|
    ensures id in PendingIds(outbox, now, limit) <==> Listed(outbox[id], now) && CountListed(outbox[..id], now) < limit
  {
    var n := |outbox| - 1;
    var before := PendingIds(outbox[..n], now, limit);
    PendingIdsCount(outbox[..n], now, limit);
    assert id in before + [n] <==> id in before || id == n;
    if id < n {
      assert outbox[..n][..id] == outbox[..id];
      ListedAt(outbox[..n], now, limit, id);
    }
  }

  /** The rows that are pending and available. */
  ghost function Ready(outbox: seq<OutboxRow>, now: int): set<int> {
    set j | 0 <= j < |outbox| && !outbox[j].dispatched && outbox[j].availableAt <= now
  }

  lemma ReadySnoc(front: seq<OutboxRow>, last: OutboxRow, now: int)
    ensures Ready(front + [last], now)
            == Ready(front, now) + if !last.dispatched && last.availableAt <= now then {|front|} else {}
  {
    var all := front + [last];
    assert forall j :: 0 <= j < |front| ==> all[j] == front[j];
  }

  lemma {:induction false} CountListedIs(outbox: seq<OutboxRow>, now: int)
    ensures CountListed(outbox, now) == |Ready(outbox, now)|
  {
    if outbox != [] {
      var front, last := outbox[..|outbox| - 1], outbox[|outbox| - 1];
      CountListedIs(front, now);
      ReadySnoc(front, last, now);
      assert outbox == front + [last] && |front| !in Ready(front, now);
    }
  }

  /** A row is listed exactly when it is pending and available and fewer than `limit` such rows stand before it; the list
      is in the order of the ids. */
  lemma ListedIff(outbox: seq<OutboxRow>, now: int, limit: nat, id: nat)
    requires id < |outbox|
    ensures Increasing(PendingIds(outbox, now, limit))
    ensures id in PendingIds(outbox, now, limit) <==>
      !outbox[id].dispatched && outbox[id].availableAt <= now && |Ready(outbox[..id], now)| < limit
  {
    PendingIdsIncrease(outbox, now, limit);
    ListedAt(outbox, now, limit, id);
    CountListedIs(outbox[..id], now);
  }

  predicate FirstAt(outbox: seq<OutboxRow>, ids: seq<nat>, taskId: TaskId, k: int)
    requires InRange(ids, |outbox|)
  {
    && 0 <= k < |ids| && outbox[ids[k]].taskId == taskId
    && forall j :: 0 <= j < k ==> outbox[ids[j]].taskId != taskId
  }

  /** The API publishes the first listed row of its task, if there is one. */
  lemma {:induction false} FirstOfIs(outbox: seq<OutboxRow>, ids: seq<nat>, taskId: TaskId)
    requires InRange(ids, |outbox|)
    ensures var own := FirstOf(outbox, ids, taskId);
      if own == [] then forall k :: 0 <= k < |ids| ==> outbox[ids[k]].taskId != taskId
      else |own| == 1 && exists k :: FirstAt(outbox, ids, taskId, k) && own[0] == ids[k]
  {
    if ids == [] {
    } else if outbox[ids[0]].taskId == taskId {
      assert FirstAt(outbox, ids, taskId, 0);
    } else {
      var rest := ids[1..];
      FirstOfIs(outbox, rest, taskId);
      if FirstOf(outbox, rest, taskId) != [] {
        var k :| FirstAt(outbox, rest, taskId, k) && FirstOf(outbox, rest, taskId)[0] == rest[k];
        assert ids[k + 1] == rest[k];
        assert forall j :: 0 < j < k + 1 ==> ids[j] == rest[j - 1];
        assert FirstAt(outbox, ids, taskId, k + 1);
      } else {
        assert forall j :: 0 < j < |ids| ==> ids[j] == rest[j - 1];
      }
    }
  }

  // ---- Identity of tasks ---------------------------------------------------------------------------------------------

  predicate AnswerInv(s: State, a: Answer) {
    var r := a.request;
    match a.outcome
    case Task(id) =>
      id in s.tasks && s.tasks[id].userId == r.userId && (r.key.Some? ==> r.key.value in s.keys && s.keys[r.key.value] == id)
    case KeyOfAnotherUser =>
      && r.key.Some? && r.key.value in s.keys && s.keys[r.key.value] in s.tasks
      && s.tasks[s.keys[r.key.value]].userId != r.userId
    case SessionOfAnotherUser => r.session in s.sessions && s.sessions[r.session].userId != r.userId
  }

  ghost predicate TasksInv(s: State) {
    && s.tasks.Keys <= s.used
    && (forall k :: k in s.keys ==> s.keys[k] in s.tasks)
    && (forall x :: x in s.sessions ==>
         s.sessions[x].active in s.tasks && s.tasks[s.sessions[x].active].userId == s.sessions[x].userId)
    && (forall w :: w in s.pcs && s.pcs[w].Creating? ==>
         s.pcs[w].request.id in s.used && s.pcs[w].request.id !in s.tasks)
    && (forall v, w :: v in s.pcs && w in s.pcs && v != w && s.pcs[v].Creating? && s.pcs[w].Creating?
         ==> s.pcs[v].request.id != s.pcs[w].request.id)
    && (forall t :: t in s.tasks <==> t in s.accepted)
    && (forall k :: 0 <= k < |s.answers| ==> AnswerInv(s, s.answers[k]))
  }

  /** Tasks keep their user, keys their task, sessions their user. */
  ghost predicate Keeps(s: State, t: State) {
    && (forall id :: id in s.tasks ==> id in t.tasks && t.tasks[id].userId == s.tasks[id].userId)
    && (forall k :: k in s.keys ==> k in t.keys && t.keys[k] == s.keys[k])
    && (forall x :: x in s.sessions ==> x in t.sessions && t.sessions[x].userId == s.sessions[x].userId)
    && s.answers <= t.answers
  }

  lemma KeepsAnswers(s: State, t: State)
    requires TasksInv(s) && Keeps(s, t)
    ensures forall k :: 0 <= k < |s.answers| ==> AnswerInv(t, t.answers[k])
  {
    forall k | 0 <= k < |s.answers| ensures AnswerInv(t, t.answers[k]) {
      assert AnswerInv(s, s.answers[k]);
    }
  }

  lemma InsertKeepsTasks(s: State, w: int)
    requires TasksInv(s) && Enabled(s, CreateCommit(w)) && !KnownKey(s, s.pcs[w].request)
    requires var r := s.pcs[w].request; r.session in s.sessions ==> s.sessions[r.session].userId == r.userId
    ensures TasksInv(Apply(s, CreateCommit(w))) && Keeps(s, Apply(s, CreateCommit(w)))
  {
    var t := Apply(s, CreateCommit(w));
    var r := s.pcs[w].request;
    assert t.tasks == s.tasks[r.id := Fresh(r.userId)];
    KeepsAnswers(s, t);
    assert t.accepted == s.accepted + [r.id];
    assert AnswerInv(t, Answer(r, Task(r.id)));
  }

  /** Nobody new is creating. */
  ghost predicate NoNewCreator(s: State, t: State) {
    forall w :: w in t.pcs && t.pcs[w].Creating? ==> w in s.pcs && t.pcs[w] == s.pcs[w]
  }

  lemma SameTasks(s: State, t: State)
    requires TasksInv(s) && NoNewCreator(s, t)
    requires t.tasks == s.tasks && t.keys == s.keys && t.sessions == s.sessions && t.used == s.used
    requires t.accepted == s.accepted && t.answers == s.answers
    ensures TasksInv(t) && Keeps(s, t)
  {
    KeepsAnswers(s, t);
  }

  lemma AnsweredKeepsTasks(s: State, t: State, a: Answer)
    requires TasksInv(s) && NoNewCreator(s, t) && AnswerInv(s, a)
    requires t.tasks == s.tasks && t.keys == s.keys && t.sessions == s.sessions && s.used <= t.used
    requires t.accepted == s.accepted && t.answers == s.answers + [a]
    ensures TasksInv(t) && Keeps(s, t)
  {
    KeepsAnswers(s, t);
  }

  lemma RowWriteKeepsTasks(s: State, t: State, id: TaskId, row: TaskRow)
    requires TasksInv(s) && id in s.tasks && row.userId == s.tasks[id].userId
    requires t.tasks == s.tasks[id := row] && t.keys == s.keys && t.sessions == s.sessions && t.used == s.used
    requires t.pcs == s.pcs && t.answers == s.answers && (t.accepted == s.accepted || t.accepted == s.accepted + [id])
    ensures TasksInv(t) && Keeps(s, t)
  {
    KeepsAnswers(s, t);
    assert forall x :: x in t.accepted <==> x in s.accepted;
  }

  lemma CheckKeepsTasks(s: State, w: int, r: Request)
    requires TasksInv(s) && Enabled(s, CreateCheck(w, r))
    ensures TasksInv(Apply(s, CreateCheck(w, r))) && Keeps(s, Apply(s, CreateCheck(w, r)))
  {
    var t := Apply(s, CreateCheck(w, r));
    if KnownKey(s, r) {
      AnsweredKeepsTasks(s, t, Answer(r, Existing(s, r)));
    } else {
      KeepsAnswers(s, t);
    }
  }

  lemma CommitKeepsTasks(s: State, w: int)
    requires TasksInv(s) && Enabled(s, CreateCommit(w))
    ensures TasksInv(Apply(s, CreateCommit(w))) && Keeps(s, Apply(s, CreateCommit(w)))
  {
    var t := Apply(s, CreateCommit(w));
    var r := s.pcs[w].request;
    if r.session in s.sessions && s.sessions[r.session].userId != r.userId {
      AnsweredKeepsTasks(s, t, Answer(r, SessionOfAnotherUser));
    } else if KnownKey(s, r) {
      AnsweredKeepsTasks(s, t, Answer(r, Existing(s, r)));
    } else {
      InsertKeepsTasks(s, w);
    }
  }

  lemma DispatchCreatesNobody(s: State, a: Action)
    requires Enabled(s, a) && !a.CreateCheck? && !a.CreateCommit? && !a.Resume? && !a.Work?
    ensures NoNewCreator(s, Apply(s, a))
  {
  }

  /** Dispatchers and the clock touch no task. */
  lemma DispatchTouchesNoTask(s: State, a: Action)
    requires Enabled(s, a) && !a.CreateCheck? && !a.CreateCommit? && !a.Resume? && !a.Work?
    ensures var t := Apply(s, a);
      && t.tasks == s.tasks && t.keys == s.keys && t.sessions == s.sessions && t.used == s.used
      && t.accepted == s.accepted && t.answers == s.answers
  {
    match a
    case Tick(_) =>
    case List(_, _, _) =>
    case Publish(_) =>
    case PublishRaises(_) =>
    case MarkDispatched(_) =>
    case MarkRaises(_) =>
    case MarkFailed(_) =>
    case Crash(_) =>
  }

  lemma ResumeKeepsTasks(s: State, a: Action)
    requires TasksInv(s) && Enabled(s, a) && a.Resume?
    ensures TasksInv(Apply(s, a)) && Keeps(s, Apply(s, a))
  {
    if a.taskId in s.tasks && Resumable(s.tasks[a.taskId], a.userId) && !HasRow(s.outbox, a.taskId, a.event) {
      RowWriteKeepsTasks(s, Apply(s, a), a.taskId, Resumed(s.tasks[a.taskId], a.payload));
    }
  }

  lemma WorkKeepsTasks(s: State, a: Action)
    requires TasksInv(s) && Enabled(s, a) && a.Work?
    ensures TasksInv(Apply(s, a)) && Keeps(s, Apply(s, a))
  {
    if a.taskId in s.tasks {
      RowWriteKeepsTasks(s, Apply(s, a), a.taskId, a.row);
    }
  }

  lemma StepKeepsTasks(s: State, a: Action)
    requires TasksInv(s) && Enabled(s, a)
    ensures TasksInv(Apply(s, a)) && Keeps(s, Apply(s, a))
  {
    var t := Apply(s, a);
    if a.CreateCheck? {
      CheckKeepsTasks(s, a.worker, a.request);
    } else if a.CreateCommit? {
      CommitKeepsTasks(s, a.worker);
    } else if a.Resume? {
      ResumeKeepsTasks(s, a);
    } else if a.Work? {
      WorkKeepsTasks(s, a);
    } else {
      DispatchTouchesNoTask(s, a);
      DispatchCreatesNobody(s, a);
      SameTasks(s, t);
    }
  }

  // ---- Whole runs ----------------------------------------------------------------------------------------------------

  lemma {:induction false} ExecKeeps(s: State, actions: seq<Action>)
    requires RowsInv(s) && TasksInv(s) && Runs(s, actions)
    ensures RowsInv(Exec(s, actions)) && TasksInv(Exec(s, actions))
    ensures Extends(s, Exec(s, actions)) && Keeps(s, Exec(s, actions))
    decreases |actions|
  {
    if actions != [] {
      var t := Apply(s, actions[0]);
      StepKeepsRows(s, actions[0]);
      StepKeepsTasks(s, actions[0]);
      ExecKeeps(t, actions[1..]);
    }
  }

  /** In every reachable state, with any crashes: one outbox row per accepted create or resume, in order and for that
      task; every task has one; and each row is still pending or was published at least once. A pending row that failed
      to publish is available again at most 256 seconds later. */
  lemma NothingIsLost(actions: seq<Action>)
    requires Runs(INITIAL, actions)
    ensures var s := Exec(INITIAL, actions);
      && |s.outbox| == |s.accepted|
      && (forall id: nat :: id < |s.outbox| ==>
           && s.outbox[id].taskId == s.accepted[id]
           && (s.outbox[id].dispatched ==> s.broker[id] >= 1)
           && s.outbox[id].availableAt <= s.clock + 256)
      && forall t :: t in s.tasks <==> t in s.accepted
  {
    ExecKeeps(INITIAL, actions);
    var s := Exec(INITIAL, actions);
    forall id: nat | id < |s.outbox| ensures s.outbox[id].dispatched ==> s.broker[id] >= 1 {
      assert NotLost(s, id);
    }
  }

  /** Idempotent creation under races: two calls with one key that both got a task got the same one, for the same user;
      a call refused for its key has another user than the task of that key. */
  lemma SameKeySameTask(actions: seq<Action>, i: nat, j: nat)
    requires Runs(INITIAL, actions)
    requires var s := Exec(INITIAL, actions);
      && i < |s.answers| && j < |s.answers|
      && s.answers[i].request.key.Some? && s.answers[i].request.key == s.answers[j].request.key
      && s.answers[i].outcome.Task?
    ensures var s := Exec(INITIAL, actions);
      && s.answers[i].outcome.id in s.tasks
      && s.tasks[s.answers[i].outcome.id].userId == s.answers[i].request.userId
      && (s.answers[j].outcome.Task? ==>
           s.answers[j].outcome == s.answers[i].outcome && s.answers[j].request.userId == s.answers[i].request.userId)
      && (s.answers[j].outcome.KeyOfAnotherUser? ==> s.answers[j].request.userId != s.answers[i].request.userId)
  {
    ExecKeeps(INITIAL, actions);
    var s := Exec(INITIAL, actions);
    assert AnswerInv(s, s.answers[i]) && AnswerInv(s, s.answers[j]);
  }

  /** What the answers of `create_task` mean in every reachable state: a task that is there, for the user who asked, or a
      key or a session that belongs to another user. */
  lemma AnswersAreRight(actions: seq<Action>, i: nat)
    requires Runs(INITIAL, actions) && i < |Exec(INITIAL, actions).answers|
    ensures var s := Exec(INITIAL, actions);
      var a := s.answers[i];
      match a.outcome {
        case Task(id) => id in s.tasks && s.tasks[id].userId == a.request.userId
        case KeyOfAnotherUser =>
          && a.request.key.Some? && a.request.key.value in s.keys && s.keys[a.request.key.value] in s.tasks
          && s.tasks[s.keys[a.request.key.value]].userId != a.request.userId
        case SessionOfAnotherUser =>
          a.request.session in s.sessions && s.sessions[a.request.session].userId != a.request.userId
      }
  {
    ExecKeeps(INITIAL, actions);
    var s := Exec(INITIAL, actions);
    assert AnswerInv(s, s.answers[i]);
  }

  /** A task keeps its user for ever, a key its task, and a session its user. */
  lemma IdentitiesLast(before: seq<Action>, more: seq<Action>)
    requires Runs(INITIAL, before) && Runs(Exec(INITIAL, before), more)
    ensures var s := Exec(INITIAL, before);
      var t := Exec(s, more);
      && (forall id :: id in s.tasks ==> id in t.tasks && t.tasks[id].userId == s.tasks[id].userId)
      && (forall k :: k in s.keys ==> k in t.keys && t.keys[k] == s.keys[k])
      && (forall x :: x in s.sessions ==> x in t.sessions && t.sessions[x].userId == s.sessions[x].userId)
  {
    ExecKeeps(INITIAL, before);
    ExecKeeps(Exec(INITIAL, before), more);
  }

  // ---- Delivery ------------------------------------------------------------------------------------------------------

  predicate Leads(s: State, actions: seq<Action>, t: State) {
    Runs(s, actions) && Exec(s, actions) == t
  }

  lemma {:induction false} LeadsTrans(s: State, first: seq<Action>, mid: State, second: seq<Action>, t: State)
    requires Leads(s, first, mid) && Leads(mid, second, t)
    ensures Leads(s, first + second, t)
    decreases |first|
  {
    if first == [] {
      assert first + second == second;
    } else {
      LeadsTrans(Apply(s, first[0]), first[1..], mid, second, t);
      assert (first + second)[1..] == first[1..] + second;
    }
  }

  function CountPending(outbox: seq<OutboxRow>): nat {
    if outbox == [] then 0
    else CountPending(outbox[..|outbox| - 1]) + if outbox[|outbox| - 1].dispatched then 0 else 1
  }

  /** The latest time a row becomes available, if that is after now. */
  function LatestAvailable(outbox: seq<OutboxRow>, now: int): (latest: int)
    ensures latest >= now && forall k :: 0 <= k < |outbox| ==> outbox[k].availableAt <= latest
  {
    if outbox == [] then now
    else
      var rest := LatestAvailable(outbox[..|outbox| - 1], now);
      if outbox[|outbox| - 1].availableAt > rest then outbox[|outbox| - 1].availableAt else rest
  }

  lemma {:induction false} CountPendingUpdate(outbox: seq<OutboxRow>, id: nat)
    requires id < |outbox| && !outbox[id].dispatched
    ensures CountPending(outbox[id := Dispatched(outbox[id])]) == CountPending(outbox) - 1
  {
    var n := |outbox| - 1;
    var updated := outbox[id := Dispatched(outbox[id])];
    if id == n {
      assert updated[..n] == outbox[..n];
    } else {
      assert updated[..n] == outbox[..n][id := Dispatched(outbox[id])];
      CountPendingUpdate(outbox[..n], id);
    }
  }

  predicate AllAvailable(outbox: seq<OutboxRow>, now: int) {
    forall k :: 0 <= k < |outbox| ==> outbox[k].availableAt <= now
  }

  lemma {:induction false} AllAvailableAreListed(outbox: seq<OutboxRow>, now: int)
    requires AllAvailable(outbox, now)
    ensures CountListed(outbox, now) == CountPending(outbox)
  {
    if outbox != [] {
      AllAvailableAreListed(outbox[..|outbox| - 1], now);
    }
  }

  /** The loop of `dispatch_pending_agent_tasks` over `n` listed rows when nothing raises. */
  function PublishAll(w: int, n: nat): seq<Action> {
    if n == 0 then [] else [Publish(w), MarkDispatched(w)] + PublishAll(w, n - 1)
  }

  /** One run of the dispatcher that finds `n` rows. */
  function DispatcherRun(w: int, limit: int, n: nat): seq<Action> {
    [List(w, limit, None)] + PublishAll(w, n)
  }

  function DispatcherRuns(w: int, limit: int, ns: seq<nat>): seq<Action> {
    if ns == [] then [] else DispatcherRun(w, limit, ns[0]) + DispatcherRuns(w, limit, ns[1..])
  }

  /** All runs but the last are full, and none is empty. */
  predicate FullRuns(ns: seq<nat>, limit: int) {
    forall i :: 0 <= i < |ns| ==> 1 <= ns[i] <= ClampLimit(limit) && (i < |ns| - 1 ==> ns[i] == ClampLimit(limit))
  }

  lemma LeadsOne(s: State, a: Action)
    requires Enabled(s, a)
    ensures Leads(s, [a], Apply(s, a))
  {
    assert [a][1..] == [] && Runs(Apply(s, a), []);
  }

  /** The row in hand is published and marked. */
  function HeadDelivered(s: State, w: int): State
    requires w in s.pcs && s.pcs[w].Publishing? && s.pcs[w].todo != [] && InRange(s.pcs[w].todo, |s.outbox|)
  {
    var id := s.pcs[w].todo[0];
    Next(s.(outbox := s.outbox[id := Dispatched(s.outbox[id])], broker := s.broker + multiset{id}), w, s.pcs[w].todo)
  }

  lemma DeliverHead(s: State, w: int)
    requires RowsInv(s) && w in s.pcs && s.pcs[w].Publishing?
    ensures s.pcs[w].todo != [] && InRange(s.pcs[w].todo, |s.outbox|)
    ensures Leads(s, [Publish(w), MarkDispatched(w)], HeadDelivered(s, w)) && RowsInv(HeadDelivered(s, w))
  {
    assert PcInv(s, s.pcs[w]);
    var s1 := Apply(s, Publish(w));
    StepKeepsRows(s, Publish(w));
    var t := Apply(s1, MarkDispatched(w));
    UpdateKeepsRows(s1, w, false);
    LeadsOne(s, Publish(w));
    LeadsOne(s1, MarkDispatched(w));
    LeadsTrans(s, [Publish(w)], s1, [MarkDispatched(w)], t);
    assert [Publish(w)] + [MarkDispatched(w)] == [Publish(w), MarkDispatched(w)];
    assert t.pcs == HeadDelivered(s, w).pcs;
  }

  /** The rows still to do are pending and in id order. */
  predicate ToDo(outbox: seq<OutboxRow>, todo: seq<nat>) {
    && InRange(todo, |outbox|)
    && (forall k :: 0 <= k < |todo| ==> !outbox[todo[k]].dispatched)
    && forall i, j :: 0 <= i < j < |todo| ==> todo[i] < todo[j]
  }

  lemma {:induction false} FinishList(s: State, w: int) returns (t: State)
    requires RowsInv(s) && w in s.pcs && s.pcs[w].Publishing? && ToDo(s.outbox, s.pcs[w].todo)
    requires AllAvailable(s.outbox, s.clock)
    ensures Leads(s, PublishAll(w, |s.pcs[w].todo|), t) && RowsInv(t)
    ensures w !in t.pcs && t.clock == s.clock && |t.outbox| == |s.outbox| && AllAvailable(t.outbox, t.clock)
    ensures CountPending(t.outbox) == CountPending(s.outbox) - |s.pcs[w].todo|
    decreases |s.pcs[w].todo|
  {
    var todo := s.pcs[w].todo;
    DeliverHead(s, w);
    var mid := HeadDelivered(s, w);
    CountPendingUpdate(s.outbox, todo[0]);
    var pair := [Publish(w), MarkDispatched(w)];
    if |todo| == 1 {
      t := mid;
      assert PublishAll(w, 1) == pair + PublishAll(w, 0) == pair;
    } else {
      assert mid.pcs[w] == Publishing(todo[1..]);
      t := FinishList(mid, w);
      LeadsTrans(s, pair, mid, PublishAll(w, |todo| - 1), t);
    }
  }

  /** One run of the dispatcher's loop. */
  lemma DeliverSome(s: State, w: int, limit: int) returns (n: nat, t: State)
    requires RowsInv(s) && w !in s.pcs && CountPending(s.outbox) > 0 && AllAvailable(s.outbox, s.clock)
    ensures Leads(s, DispatcherRun(w, limit, n), t) && RowsInv(t)
    ensures w !in t.pcs && t.clock == s.clock && |t.outbox| == |s.outbox| && AllAvailable(t.outbox, t.clock)
    ensures n == if CountPending(s.outbox) < ClampLimit(limit) then CountPending(s.outbox) else ClampLimit(limit)
    ensures CountPending(t.outbox) == CountPending(s.outbox) - n
  {
    var ids := PendingIds(s.outbox, s.clock, ClampLimit(limit));
    AllAvailableAreListed(s.outbox, s.clock);
    PendingIdsCount(s.outbox, s.clock, ClampLimit(limit));
    PendingIdsIncrease(s.outbox, s.clock, ClampLimit(limit));
    n := |ids|;
    var a := List(w, limit, None);
    var mid := Apply(s, a);
    StepKeepsRows(s, a);
    assert mid == s.(pcs := s.pcs[w := Publishing(ids)]);
    t := FinishList(mid, w);
    LeadsOne(s, a);
    LeadsTrans(s, [a], mid, PublishAll(w, n), t);
  }

  lemma {:induction false} DeliverAll(s: State, w: int, limit: int) returns (ns: seq<nat>, t: State)
    requires RowsInv(s) && w !in s.pcs && AllAvailable(s.outbox, s.clock)
    ensures Leads(s, DispatcherRuns(w, limit, ns), t) && RowsInv(t) && FullRuns(ns, limit)
    ensures |t.outbox| == |s.outbox| && CountPending(t.outbox) == 0 && t.clock == s.clock
    ensures CountPending(s.outbox) == 0 ==> ns == []
    decreases CountPending(s.outbox)
  {
    if CountPending(s.outbox) == 0 {
      ns, t := [], s;
    } else {
      var n, mid := DeliverSome(s, w, limit);
      var rest;
      rest, t := DeliverAll(mid, w, limit);
      LeadsTrans(s, DispatcherRun(w, limit, n), mid, DispatcherRuns(w, limit, rest), t);
      ns := [n] + rest;
      assert ns[1..] == rest;
      assert forall i :: 0 < i < |ns| ==> ns[i] == rest[i - 1];
    }
  }

  lemma {:induction false} PendingZero(outbox: seq<OutboxRow>)
    ensures CountPending(outbox) == 0 <==> forall k :: 0 <= k < |outbox| ==> outbox[k].dispatched
  {
    if outbox != [] {
      PendingZero(outbox[..|outbox| - 1]);
    }
  }

  lemma {:induction false} LatestWithin(outbox: seq<OutboxRow>, now: int, slack: nat)
    requires forall k: nat :: k < |outbox| ==> outbox[k].availableAt <= now + slack
    ensures LatestAvailable(outbox, now) <= now + slack
  {
    if outbox != [] {
      LatestWithin(outbox[..|outbox| - 1], now, slack);
    }
  }

  /** Whatever crashed before, and in whatever state the other processes are, one dispatcher finishes the job: within 256
      seconds, repeated runs of its own loop, with whatever limit it has, publish and mark every row. All runs but the
      last are full. */
  lemma EverythingCanStillBeDelivered(before: seq<Action>, w: int, limit: int) returns (time: int, ns: seq<nat>, t: State)
    requires Runs(INITIAL, before) && w !in Exec(INITIAL, before).pcs
    ensures var s := Exec(INITIAL, before);
      && s.clock <= time <= s.clock + 256 && FullRuns(ns, limit)
      && Leads(s, [Tick(time)] + DispatcherRuns(w, limit, ns), t) && |t.outbox| == |s.outbox|
      && forall id: nat :: id < |t.outbox| ==> t.outbox[id].dispatched && t.broker[id] >= 1
  {
    var s := Exec(INITIAL, before);
    ExecKeeps(INITIAL, before);
    LatestWithin(s.outbox, s.clock, 256);
    time := LatestAvailable(s.outbox, s.clock);
    var mid := Apply(s, Tick(time));
    StepKeepsRows(s, Tick(time));
    LeadsOne(s, Tick(time));
    ns, t := DeliverAll(mid, w, limit);
    LeadsTrans(s, [Tick(time)], mid, DispatcherRuns(w, limit, ns), t);
    PendingZero(t.outbox);
    forall id: nat | id < |t.outbox| ensures t.outbox[id].dispatched && t.broker[id] >= 1 {
      assert NotLost(t, id);
    }
  }
}
