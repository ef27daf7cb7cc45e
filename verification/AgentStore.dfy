/** The store as an object whose methods are its transactions, and the Celery tasks that call it. The protocols in the
    other modules take these transactions as their steps, through the same row functions. */
module AgentStore {
  import opened AgentTables
  import opened Wrappers
  import Outbox
  import ToolReplay

  /** How one publication of an outbox row went; `at` is the clock when the failure is recorded. */
  datatype Attempt = Sent | SendRaised(at: int) | MarkRaised(at: int)

  /** What `run_agent_task` does: it saves a state and returns, or raises. */
  datatype RunOutcome = Finished(status: Status) | CancelledError | BudgetError | OtherError

  datatype TaskResult = Skipped | Ended(status: Status) | Retrying | Raised

  /** Once the limit is reached, later rows are not listed. */
  lemma {:induction false} FullStaysFull(outbox: seq<OutboxRow>, now: int, limit: nat, n: nat)
    requires n <= |outbox| && (n < |outbox| ==> |Outbox.PendingIds(outbox[..n], now, limit)| == limit)
    ensures Outbox.PendingIds(outbox, now, limit) == Outbox.PendingIds(outbox[..n], now, limit)
  {
    if n == |outbox| {
      assert outbox[..n] == outbox;
    } else {
      var rest := outbox[..|outbox| - 1];
      assert rest[..n] == outbox[..n];
      FullStaysFull(rest, now, limit, n);
    }
  }

  class AgentRuntimeStore {
    var tasks: map<TaskId, TaskRow>
    var keys: map<string, TaskId>
    var sessions: map<string, Outbox.Session>
    var outbox: seq<OutboxRow>
    var toolCalls: map<ToolReplay.Key, ToolReplay.Result>

    constructor ()
      ensures tasks == map[] && keys == map[] && sessions == map[] && outbox == [] && toolCalls == map[]
    {
      tasks, keys, sessions, outbox, toolCalls := map[], map[], map[], [], map[];
    }

    ghost predicate KeysValid()
      reads this
    {
      forall k :: k in keys ==> keys[k] in tasks
    }

    /** One task, session, key and outbox row in one transaction, or none of them. */
    method CreateTask(request: Outbox.Request, now: int) returns (outcome: Outbox.Outcome)
      requires KeysValid() && request.id !in tasks
      modifies this`tasks, this`keys, this`sessions, this`outbox
      ensures KeysValid()
      ensures var known := request.key.Some? && request.key.value in old(keys);
        var foreign := request.session in old(sessions) && old(sessions)[request.session].userId != request.userId;
        && (known ==> outcome == if old(tasks)[old(keys)[request.key.value]].userId == request.userId
                                 then Outbox.Task(old(keys)[request.key.value]) else Outbox.KeyOfAnotherUser)
        && (!known ==> outcome == if foreign then Outbox.SessionOfAnotherUser else Outbox.Task(request.id))
        && (known || foreign ==>
             tasks == old(tasks) && keys == old(keys) && sessions == old(sessions) && outbox == old(outbox))
        && (!known && !foreign ==>
             && tasks == old(tasks)[request.id := TaskRow(request.userId, Pending, false, None, None, None, None)]
             && tasks[request.id] == Fresh(request.userId)
             && sessions == old(sessions)[request.session := Outbox.Session(request.userId, request.id)]
             && outbox == old(outbox) + [OutboxRow(request.id, "agent_task_requested", false, 0, now)]
             && keys == if request.key.Some? then old(keys)[request.key.value := request.id] else old(keys))
    {
      if request.key.Some? && request.key.value in keys {
        var existing := keys[request.key.value];
        if tasks[existing].userId != request.userId {
          return Outbox.KeyOfAnotherUser;
        }
        return Outbox.Task(existing);
      }
      if request.session in sessions && sessions[request.session].userId != request.userId {
        return Outbox.SessionOfAnotherUser;
      }
      tasks := tasks[request.id := TaskRow(request.userId, Pending, false, None, None, None, None)];
      sessions := sessions[request.session := Outbox.Session(request.userId, request.id)];
      outbox := outbox + [OutboxRow(request.id, "agent_task_requested", false, 0, now)];
      if request.key.Some? {
        keys := keys[request.key.value := request.id];
      }
      return Outbox.Task(request.id);
    }

    /** Not fenced by the lease: it writes whoever holds it, and keeps the lease and the cancellation mark. */
    method SaveTaskState(taskId: TaskId, status: Status)
      modifies this`tasks
      ensures tasks == if taskId in old(tasks) then old(tasks)[taskId := old(tasks)[taskId].(status := status)] else old(tasks)
    {
      if taskId in tasks {
        tasks := tasks[taskId := tasks[taskId].(status := status)];
      }
    }

    method RequestCancel(taskId: TaskId, userId: int) returns (found: bool)
      modifies this`tasks
      ensures found <==>
        && taskId in old(tasks) && old(tasks)[taskId].userId == userId
        && old(tasks)[taskId].status !in {Completed, Failed, Cancelled}
      ensures tasks == if found then old(tasks)[taskId := old(tasks)[taskId].(cancelRequested := true)] else old(tasks)
    {
      if taskId !in tasks || tasks[taskId].userId != userId || tasks[taskId].status in {Completed, Failed, Cancelled} {
        return false;
      }
      tasks := tasks[taskId := tasks[taskId].(cancelRequested := true)];
      return true;
    }

    /** The response of the user and the outbox row that delivers it are written together. */
    method RequestResume(taskId: TaskId, userId: int, payload: string, event: string, now: int) returns (accepted: bool)
      requires !Outbox.HasRow(outbox, taskId, event)
      modifies this`tasks, this`outbox
      ensures accepted <==>
        taskId in old(tasks) && old(tasks)[taskId].userId == userId && old(tasks)[taskId].status == WaitingUser
      ensures accepted ==>
        && Resumable(old(tasks)[taskId], userId)
        && tasks == old(tasks)[taskId := old(tasks)[taskId].(resumePayload := Some(payload), status := Pending)]
        && tasks[taskId] == Resumed(old(tasks)[taskId], payload)
      ensures !accepted ==> taskId !in old(tasks) || !Resumable(old(tasks)[taskId], userId)
      ensures accepted ==> outbox == old(outbox) + [OutboxRow(taskId, event, false, 0, now)]
      ensures !accepted ==> tasks == old(tasks) && outbox == old(outbox)
    {
      if taskId !in tasks || tasks[taskId].userId != userId {
        return false;
      }
      if tasks[taskId].status != WaitingUser {
        return false;
      }
      tasks := tasks[taskId := tasks[taskId].(resumePayload := Some(payload), status := Pending)];
      outbox := outbox + [OutboxRow(taskId, event, false, 0, now)];
      return true;
    }

    method ClearResumePayload(taskId: TaskId)
      modifies this`tasks
      ensures tasks == if taskId in old(tasks) then old(tasks)[taskId := old(tasks)[taskId].(resumePayload := None)]
                       else old(tasks)
    {
      if taskId in tasks {
        tasks := tasks[taskId := tasks[taskId].(resumePayload := None)];
      }
    }

    method AcquireTaskLease(taskId: TaskId, owner: Owner, now: int, ttl: int) returns (task: Option<TaskRow>)
      modifies this`tasks
      ensures task.Some? <==> taskId in old(tasks) && Acquirable(old(tasks)[taskId], owner, now)
      ensures taskId in old(tasks) ==>
        var row := old(tasks)[taskId];
        task.Some? <==>
          && row.status !in {Completed, Failed, Cancelled} && !row.cancelRequested
          && (row.leaseUntil.None? || row.leaseUntil.value <= now || row.leaseOwner == Some(owner))
      ensures task.Some? ==> task.value == Leased(old(tasks)[taskId], owner, now, ttl)
      ensures task.Some? ==>
        var row := old(tasks)[taskId];
        task.value == row.(leaseOwner := Some(owner), leaseUntil := Some(now + if ttl >= 30 then ttl else 30),
                           status := Active, startedAt := if row.startedAt.Some? then row.startedAt else Some(now))
      ensures task.Some? ==> tasks == old(tasks)[taskId := task.value]
      ensures task.None? ==> tasks == old(tasks)
    {
      var until := now + if ttl > 30 then ttl else 30;
      if taskId !in tasks {
        return None;
      }
      var row := tasks[taskId];
      if row.status in {Completed, Failed, Cancelled} || row.cancelRequested {
        return None;
      }
      if row.leaseUntil.Some? && row.leaseUntil.value > now && row.leaseOwner != Some(owner) {
        return None;
      }
      row := row.(leaseOwner := Some(owner), leaseUntil := Some(until), status := Active);
      if row.startedAt.None? {
        row := row.(startedAt := Some(now));
      }
      tasks := tasks[taskId := row];
      return Some(row);
    }

    /** First statement of a release: find the row by its owner. */
    method SelectForRelease(taskId: TaskId, owner: Owner) returns (found: bool)
      ensures found <==> taskId in tasks && tasks[taskId].leaseOwner == Some(owner)
    {
      return taskId in tasks && tasks[taskId].leaseOwner == Some(owner);
    }

    /** Second statement: clear the lease of the row found, by its primary key and so whoever holds it by then. */
    method ClearLease(taskId: TaskId)
      modifies this`tasks
      ensures tasks == if taskId in old(tasks) then old(tasks)[taskId := Unleased(old(tasks)[taskId])] else old(tasks)
    {
      if taskId in tasks {
        tasks := tasks[taskId := tasks[taskId].(leaseOwner := None, leaseUntil := None)];
      }
    }

    /** With nothing written between its two statements, a release clears the lease of its own owner only. What can happen
        between them is the subject of `TaskLease`. */
    method ReleaseTaskLease(taskId: TaskId, owner: Owner)
      modifies this`tasks
      ensures tasks == if taskId in old(tasks) && old(tasks)[taskId].leaseOwner == Some(owner)
                       then old(tasks)[taskId := old(tasks)[taskId].(leaseOwner := None, leaseUntil := None)] else old(tasks)
      ensures taskId in old(tasks) && old(tasks)[taskId].leaseOwner == Some(owner) ==>
        tasks[taskId] == Unleased(old(tasks)[taskId])
    {
      var found := SelectForRelease(taskId, owner);
      if found {
        ClearLease(taskId);
      }
    }

    method PendingOutbox(limit: int, now: int) returns (ids: seq<nat>)
      ensures ids == Outbox.PendingIds(outbox, now, Outbox.ClampLimit(limit))
    {
      var bound := if limit < 500 then limit else 500;
      if bound < 1 {
        bound := 1;
      }
      ids := [];
      var id := 0;
      while id < |outbox| && |ids| < bound
        invariant 0 <= id <= |outbox|
        invariant ids == Outbox.PendingIds(outbox[..id], now, bound)
      {
        assert outbox[..id + 1][..id] == outbox[..id];
        if !outbox[id].dispatched && outbox[id].availableAt <= now {
          ids := ids + [id];
        }
        id := id + 1;
      }
      FullStaysFull(outbox, now, bound, id);
      assert outbox[..|outbox|] == outbox;
    }

    method MarkOutboxDispatched(id: nat)
      modifies this`outbox
      ensures outbox == if id < |old(outbox)| then old(outbox)[id := Dispatched(old(outbox)[id])] else old(outbox)
    {
      if id < |outbox| {
        outbox := outbox[id := outbox[id].(dispatched := true, attempts := outbox[id].attempts + 1)];
      }
    }

    method MarkOutboxFailed(id: nat, now: int)
      modifies this`outbox
      ensures outbox == if id < |old(outbox)| then old(outbox)[id := PublishFailed(old(outbox)[id], now)] else old(outbox)
    {
      if id < |outbox| {
        var attempts := outbox[id].attempts + 1;
        outbox := outbox[id := outbox[id].(attempts := attempts, availableAt := now + Backoff(attempts))];
      }
    }

    method GetCompletedToolCall(key: ToolReplay.Key) returns (call: Option<ToolReplay.Result>)
      ensures call == if key in toolCalls then Some(toolCalls[key]) else None
    {
      if key !in toolCalls {
        return None;
      }
      return Some(toolCalls[key]);
    }

    method SaveToolCall(key: ToolReplay.Key, result: ToolReplay.Result)
      modifies this`toolCalls
      ensures toolCalls == old(toolCalls)[key := result]
    {
      toolCalls := toolCalls[key := result];
    }
  }

  // ---- Tools ---------------------------------------------------------------------------------------------------------

  /** `answer` is what the tool answers if it is called. A saved result is returned without a call. */
  method ExecuteManagedTool(store: AgentRuntimeStore, key: ToolReplay.Key, answer: ToolReplay.Result)
    returns (result: ToolReplay.Result, called: bool)
    modifies store`toolCalls
    ensures called <==> key !in old(store.toolCalls)
    ensures result == if called then answer else old(store.toolCalls)[key]
    ensures store.toolCalls == old(store.toolCalls)[key := result]
  {
    var completed := store.GetCompletedToolCall(key);
    if completed.Some? {
      result, called := completed.value, false;
      assert store.toolCalls == store.toolCalls[key := result];
    } else {
      result, called := answer, true;
      store.SaveToolCall(key, result);
    }
  }

  // ---- Celery tasks --------------------------------------------------------------------------------------------------

  function Tried(row: OutboxRow, attempt: Attempt): OutboxRow {
    if attempt.Sent? then Dispatched(row) else PublishFailed(row, attempt.at)
  }

  /** The rows after the listed ones have been tried in order. */
  function AfterDispatch(outbox: seq<OutboxRow>, ids: seq<nat>, attempts: nat -> Attempt): (after: seq<OutboxRow>)
    requires Outbox.InRange(ids, |outbox|)
    ensures |after| == |outbox|
    decreases |ids|
  {
    if ids == [] then outbox
    else
      var id := ids[|ids| - 1];
      var before := AfterDispatch(outbox, ids[..|ids| - 1], attempts);
      before[id := Tried(before[id], attempts(id))]
  }

  /** The rows whose message went out: also those whose mark failed. */
  function MessagesOf(ids: seq<nat>, attempts: nat -> Attempt): seq<nat> {
    if ids == [] then []
    else
      var id := ids[|ids| - 1];
      MessagesOf(ids[..|ids| - 1], attempts) + if attempts(id).SendRaised? then [] else [id]
  }

  function CountSent(ids: seq<nat>, attempts: nat -> Attempt): nat {
    if ids == [] then 0 else CountSent(ids[..|ids| - 1], attempts) + if attempts(ids[|ids| - 1]).Sent? then 1 else 0
  }

  /** Each listed row is tried once and no other row is touched. */
  lemma {:induction false} AfterDispatchAt(outbox: seq<OutboxRow>, ids: seq<nat>, attempts: nat -> Attempt, id: nat)
    requires Outbox.InRange(ids, |outbox|) && id < |outbox|
    requires Outbox.Increasing(ids)
    ensures AfterDispatch(outbox, ids, attempts)[id] == if id in ids then Tried(outbox[id], attempts(id)) else outbox[id]
    ensures id in MessagesOf(ids, attempts) <==> id in ids && !attempts(id).SendRaised?
    decreases |ids|
  {
    if ids != [] {
      var n := |ids| - 1;
      AfterDispatchAt(outbox, ids[..n], attempts, id);
      assert id in ids <==> id in ids[..n] || id == ids[n];
      assert ids[n] !in ids[..n];
    }
  }

  /** One more row tried. */
  lemma DispatchOne(outbox: seq<OutboxRow>, ids: seq<nat>, k: nat, attempts: nat -> Attempt)
    requires Outbox.InRange(ids, |outbox|) && k < |ids|
    ensures var before := AfterDispatch(outbox, ids[..k], attempts);
      AfterDispatch(outbox, ids[..k + 1], attempts) == before[ids[k] := Tried(before[ids[k]], attempts(ids[k]))]
    ensures MessagesOf(ids[..k + 1], attempts)
            == MessagesOf(ids[..k], attempts) + if attempts(ids[k]).SendRaised? then [] else [ids[k]]
    ensures CountSent(ids[..k + 1], attempts) == CountSent(ids[..k], attempts) + if attempts(ids[k]).Sent? then 1 else 0
  {
    assert ids[..k + 1][..k] == ids[..k];
  }

  /** Marking as dispatched is inside the same try as publishing, so a message whose mark fails is published again. */
  method DispatchPendingAgentTasks(store: AgentRuntimeStore, limit: int, now: int, attempts: nat -> Attempt)
    returns (dispatched: nat, failed: nat, published: seq<nat>)
    modifies store`outbox
    ensures var ids := Outbox.PendingIds(old(store.outbox), now, Outbox.ClampLimit(limit));
      && store.outbox == AfterDispatch(old(store.outbox), ids, attempts)
      && published == MessagesOf(ids, attempts)
      && dispatched == CountSent(ids, attempts) && dispatched + failed == |ids|
  {
    var ids := store.PendingOutbox(limit, now);
    dispatched, failed, published := 0, 0, [];
    var k := 0;
    while k < |ids|
      invariant k <= |ids| && dispatched == CountSent(ids[..k], attempts) && dispatched + failed == k
      invariant published == MessagesOf(ids[..k], attempts)
      invariant store.outbox == AfterDispatch(old(store.outbox), ids[..k], attempts)
    {
      var id := ids[k];
      DispatchOne(old(store.outbox), ids, k, attempts);
      match attempts(id) {
        case Sent =>
          published := published + [id];
          store.MarkOutboxDispatched(id);
          dispatched := dispatched + 1;
        case SendRaised(at) =>
          store.MarkOutboxFailed(id, at);
          failed := failed + 1;
        case MarkRaised(at) =>
          published := published + [id];
          store.MarkOutboxFailed(id, at);
          failed := failed + 1;
      }
      k := k + 1;
    }
    assert ids[..|ids|] == ids;
  }

  /** A try sets the mark exactly when nothing raised, and puts a failed row off by at most 256 seconds. */
  lemma TriedIs(row: OutboxRow, attempt: Attempt)
    requires !row.dispatched
    ensures Tried(row, attempt).dispatched <==> attempt.Sent?
    ensures !attempt.Sent? ==> attempt.at < Tried(row, attempt).availableAt <= attempt.at + 256
    ensures !attempt.Sent? ==> Tried(row, attempt).availableAt == attempt.at + Backoff(row.attempts + 1)
    ensures Tried(row, attempt).attempts == row.attempts + 1
  {
    BackoffBounded(row.attempts + 1);
  }

  /** A dispatch run loses no row: what was pending is pending still or its message went out, and a row that failed comes
      back later. Rows not listed are untouched. */
  lemma DispatchLosesNothing(outbox: seq<OutboxRow>, limit: int, now: int, attempts: nat -> Attempt, id: nat)
    requires id < |outbox|
    ensures var ids := Outbox.PendingIds(outbox, now, Outbox.ClampLimit(limit));
      var after := AfterDispatch(outbox, ids, attempts)[id];
      && (id !in ids ==> after == outbox[id])
      && (id in ids ==> !outbox[id].dispatched && (after.dispatched <==> attempts(id).Sent?))
      && (id in ids ==> after.attempts == outbox[id].attempts + 1 && after.taskId == outbox[id].taskId)
      && (id in ids && !after.dispatched ==>
            && after.availableAt == attempts(id).at + Backoff(after.attempts)
            && attempts(id).at < after.availableAt <= attempts(id).at + 256)
      && (after.dispatched && !outbox[id].dispatched ==> id in MessagesOf(ids, attempts))
  {
    var ids := Outbox.PendingIds(outbox, now, Outbox.ClampLimit(limit));
    Outbox.PendingIdsIncrease(outbox, now, Outbox.ClampLimit(limit));
    Outbox.ListedAt(outbox, now, Outbox.ClampLimit(limit), id);
    AfterDispatchAt(outbox, ids, attempts, id);
    if id in ids {
      TriedIs(outbox[id], attempts(id));
    }
  }

  /** The row after a run that was not disturbed. */
  function AfterRun(row: TaskRow, owner: Owner, now: int, ttl: int, outcome: RunOutcome, lastAttempt: bool): TaskRow {
    var leased := Leased(row, owner, now, ttl);
    var ended := Unleased(leased);
    match outcome
    case Finished(status) => ended.(status := status, resumePayload := None)
    case CancelledError => ended.(status := Cancelled)
    case BudgetError => ended.(status := Failed)
    case OtherError => if lastAttempt then ended.(status := Failed) else ended
  }

  /** One delivery of a task that nobody else touches. Without the lease nothing happens. With it, the lease is given back
      on every path. The response of the user is cleared after any run that was given one; what that does to a response
      accepted in the meantime is the subject of `ResumeDelivery`. */
  method RunAgentTaskTask(store: AgentRuntimeStore, taskId: TaskId, owner: Owner, now: int, ttl: int, outcome: RunOutcome,
                          attempt: nat, maxRetries: nat) returns (result: TaskResult)
    modifies store`tasks
    ensures result.Skipped? <==> !(taskId in old(store.tasks) && Acquirable(old(store.tasks)[taskId], owner, now))
    ensures result.Skipped? ==> store.tasks == old(store.tasks)
    ensures !result.Skipped? ==>
      && store.tasks == old(store.tasks)[taskId :=
           AfterRun(old(store.tasks)[taskId], owner, now, ttl, outcome, attempt >= maxRetries)]
      && result == match outcome {
                     case Finished(status) => Ended(status)
                     case CancelledError => Ended(Cancelled)
                     case BudgetError => Ended(Failed)
                     case OtherError => if attempt < maxRetries then Retrying else Raised
                   }
    ensures !result.Skipped? ==> taskId in store.tasks
    ensures !result.Skipped? ==>
      var before, after := old(store.tasks)[taskId], store.tasks[taskId];
      && after.leaseOwner == None && after.leaseUntil == None && after.userId == before.userId
      && after.resumePayload == (if outcome.Finished? then None else before.resumePayload)
      && after.status == match outcome {
                           case Finished(status) => status
                           case CancelledError => Cancelled
                           case BudgetError => Failed
                           case OtherError => if attempt < maxRetries then Active else Failed
                         }
  {
    var task := store.AcquireTaskLease(taskId, owner, now, ttl);
    if task.None? {
      return Skipped;
    }
    match outcome {
      case Finished(status) =>
        store.SaveTaskState(taskId, status);
        if task.value.resumePayload.Some? {
          store.ClearResumePayload(taskId);
        }
        store.ReleaseTaskLease(taskId, owner);
        return Ended(status);
      case CancelledError =>
        store.SaveTaskState(taskId, Cancelled);
        store.ReleaseTaskLease(taskId, owner);
        return Ended(Cancelled);
      case BudgetError =>
        store.SaveTaskState(taskId, Failed);
        store.ReleaseTaskLease(taskId, owner);
        return Ended(Failed);
      case OtherError =>
        store.ReleaseTaskLease(taskId, owner);
        if attempt < maxRetries {
          return Retrying;
        }
        store.SaveTaskState(taskId, Failed);
        return Raised;
    }
  }

  /** Who may deliver again after a run: nobody once the task has ended, anybody after a failed attempt. */
  lemma DeliveryAfterRun(row: TaskRow, owner: Owner, now: int, ttl: int, outcome: RunOutcome, lastAttempt: bool,
                         other: Owner, later: int)
    requires Acquirable(row, owner, now)
    ensures var after := AfterRun(row, owner, now, ttl, outcome, lastAttempt);
      Acquirable(after, other, later) <==> !after.status.Terminal()
    ensures outcome.OtherError? && !lastAttempt ==>
      AfterRun(row, owner, now, ttl, outcome, lastAttempt).resumePayload == row.resumePayload
  {
  }
}
