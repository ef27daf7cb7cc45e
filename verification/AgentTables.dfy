/** The rows of the agent runtime store and what one transaction does to a row. Times are in seconds. */
module AgentTables {
  import opened Wrappers

  datatype Status = Pending | Active | WaitingUser | Completed | Failed | Cancelled {
    predicate Terminal() {
      this == Completed || this == Failed || this == Cancelled
    }
  }

  type TaskId = string

  type Owner = string

  /** `Active` is the stored status "running". */
  datatype TaskRow = TaskRow(
    userId: int,
    status: Status,
    cancelRequested: bool,
    leaseOwner: Option<Owner>,
    leaseUntil: Option<int>,
    startedAt: Option<int>,
    resumePayload: Option<string>)

  datatype OutboxRow = OutboxRow(taskId: TaskId, eventType: string, dispatched: bool, attempts: nat, availableAt: int)

  const MIN_LEASE := 30

  function LeaseEnd(now: int, ttl: int): int {
    now + if ttl >= MIN_LEASE then ttl else MIN_LEASE
  }

  /** Whether `owner`, who read the clock at `now`, may take the lease. */
  predicate Acquirable(row: TaskRow, owner: Owner, now: int) {
    && !row.status.Terminal() && !row.cancelRequested
    && !(row.leaseUntil.Some? && row.leaseUntil.value > now && row.leaseOwner != Some(owner))
  }

  function Leased(row: TaskRow, owner: Owner, now: int, ttl: int): TaskRow {
    row.(leaseOwner := Some(owner), leaseUntil := Some(LeaseEnd(now, ttl)), status := Active,
         startedAt := if row.startedAt.Some? then row.startedAt else Some(now))
  }

  function Unleased(row: TaskRow): TaskRow {
    row.(leaseOwner := None, leaseUntil := None)
  }

  function Fresh(userId: int): TaskRow {
    TaskRow(userId, Pending, false, None, None, None, None)
  }

  predicate Resumable(row: TaskRow, userId: int) {
    row.userId == userId && row.status == WaitingUser
  }

  function Resumed(row: TaskRow, payload: string): TaskRow {
    row.(resumePayload := Some(payload), status := Pending)
  }

  // ---- Outbox --------------------------------------------------------------------------------------------------------

  function Dispatched(row: OutboxRow): OutboxRow {
    row.(dispatched := true, attempts := row.attempts + 1)
  }

  function Pow2(n: nat): nat {
    if n == 0 then 1 else 2 * Pow2(n - 1)
  }

  /** Exponential back-off in the number of attempts. */
  function Backoff(attempts: nat): nat {
    var power := Pow2(if attempts <= 8 then attempts else 8);
    if power <= 300 then power else 300
  }

  function PublishFailed(row: OutboxRow, now: int): OutboxRow {
    row.(attempts := row.attempts + 1, availableAt := now + Backoff(row.attempts + 1))
  }

  lemma {:induction false} Pow2Monotone(m: nat, n: nat)
    requires m <= n
    ensures Pow2(m) <= Pow2(n)
    decreases n
  {
    if m < n {
      Pow2Monotone(m, n - 1);
    }
  }

  lemma {:induction false} BackoffBounded(attempts: nat)
    ensures 1 <= Backoff(attempts) <= 256
  {
    var n := if attempts <= 8 then attempts else 8;
    assert Pow2(8) == 256 by {
      assert Pow2(4) == 16;
    }
    Pow2Monotone(n, 8);
    Pow2Monotone(0, n);
  }

  /** The delay doubles with every attempt, from two seconds up to the eighth, and stays there. */
  lemma {:induction false} BackoffDoubles(attempts: nat)
    ensures Backoff(1) == 2
    ensures attempts < 8 ==> Backoff(attempts + 1) == 2 * Backoff(attempts)
    ensures attempts >= 8 ==> Backoff(attempts) == 256
  {
    assert Pow2(8) == 256 by {
      assert Pow2(4) == 16;
    }
    if attempts < 8 {
      BackoffBounded(attempts + 1);
      Pow2Monotone(attempts + 1, 8);
    }
  }

  predicate Listed(row: OutboxRow, now: int) {
    !row.dispatched && row.availableAt <= now
  }
}
