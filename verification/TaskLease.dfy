/** The task lease under any interleaving of worker processes, other writers of the task row, crashes and the clock.
    `acquire_task_lease` reads the clock before it locks the row, and `release_task_lease` selects the row before it
    updates it, so both take two steps. */
module TaskLease {
  import opened AgentTables
  import opened Wrappers

  /** Holding: the task runs; Saved: its final state is saved; Selected: the release has found its own row and is about to
      write it. */
  datatype Pc = Stamped(now: int) | Holding | Saved | Selected | Done {
    predicate HasLease() {
      Holding? || Saved? || Selected?
    }
  }

  /** A lease that was granted; `from` is the time of the commit. */
  datatype Grant = Grant(owner: Owner, from: int, until: int, released: Option<int>)

  function End(g: Grant): int {
    if g.released.Some? && g.released.value < g.until then g.released.value else g.until
  }

  datatype State = State(row: TaskRow, clock: int, workers: map<Owner, Pc>, grants: seq<Grant>)

  datatype Action =
    | Tick(time: int)
    | Stamp(owner: Owner)                 // acquire: read the clock, under an owner name used only once
    | Commit(owner: Owner, ttl: int)      // acquire: lock, test, write
    | Save(owner: Owner, status: Status)  // save_task_state at the end of the run, not fenced by the lease
    | Select(owner: Owner)                // release: find the row by owner
    | Update(owner: Owner)                // release: clear the lease fields
    | GiveUp(owner: Owner)                // save_task_state after the release, on the last failure
    | Crash(owner: Owner)
    | Cancel                              // request_cancel
    | Resume(payload: string)             // request_resume

  predicate Enabled(s: State, a: Action) {
    match a
    case Tick(time) => s.clock <= time
    case Stamp(o) => o !in s.workers
    case Commit(o, _) => o in s.workers && s.workers[o].Stamped?
    case Save(o, _) => o in s.workers && s.workers[o].Holding?
    case Select(o) => o in s.workers && (s.workers[o].Holding? || s.workers[o].Saved?)
    case Update(o) => o in s.workers && s.workers[o].Selected?
    case GiveUp(o) => o in s.workers && s.workers[o].Done?
    case Crash(o) => o in s.workers
    case Cancel => !s.row.status.Terminal()
    case Resume(_) => Resumable(s.row, s.row.userId)
  }

  function MarkReleased(grants: seq<Grant>, owner: Owner, time: int): seq<Grant> {
    if grants == [] then []
    else
      var g := grants[|grants| - 1];
      MarkReleased(grants[..|grants| - 1], owner, time) + [if g.owner == owner then g.(released := Some(time)) else g]
  }

  function Apply(s: State, a: Action): State
    requires Enabled(s, a)
  {
    match a
    case Tick(time) => s.(clock := time)
    case Stamp(o) => s.(workers := s.workers[o := Stamped(s.clock)])
    case Commit(o, ttl) =>
      var now := s.workers[o].now;
      if Acquirable(s.row, o, now) then
        State(Leased(s.row, o, now, ttl), s.clock, s.workers[o := Holding],
              s.grants + [Grant(o, s.clock, LeaseEnd(now, ttl), None)])
      else s.(workers := s.workers[o := Done])
    case Save(o, status) => s.(row := s.row.(status := status), workers := s.workers[o := Saved])
    case Select(o) => s.(workers := s.workers[o := if s.row.leaseOwner == Some(o) then Selected else Done])
    case Update(o) =>
      State(Unleased(s.row), s.clock, s.workers[o := Done], MarkReleased(s.grants, o, s.clock))
    case Crash(o) => s.(workers := s.workers[o := Done])
    case GiveUp(_) => s.(row := s.row.(status := Failed))
    case Cancel => s.(row := s.row.(cancelRequested := true))
    case Resume(payload) => s.(row := Resumed(s.row, payload))
  }

  function Initial(userId: int): State {
    State(Fresh(userId), 0, map[], [])
  }

  predicate Runs(s: State, actions: seq<Action>)
    decreases |actions|
  {
    actions == [] || (Enabled(s, actions[0]) && Runs(Apply(s, actions[0]), actions[1..]))
  }

  function Exec(s: State, actions: seq<Action>): State
    requires Runs(s, actions)
    decreases |actions|
  {
    if actions == [] then s else Exec(Apply(s, actions[0]), actions[1..])
  }

  /** The update of a late release clears the unexpired lease of another owner. */
  predicate Disturbs(s: State, a: Action) {
    && a.Update? && s.row.leaseOwner.Some? && s.row.leaseOwner != Some(a.owner)
    && s.row.leaseUntil.Some? && s.row.leaseUntil.value > s.clock
  }

  predicate Undisturbed(s: State, actions: seq<Action>)
    requires Runs(s, actions)
    decreases |actions|
  {
    actions == [] || (!Disturbs(s, actions[0]) && Undisturbed(Apply(s, actions[0]), actions[1..]))
  }

  /** The release is written while the owner's lease has not run out, which a worker can tell by its clock. */
  predicate Timely(s: State, a: Action) {
    a.Update? ==> forall g <- s.grants :: g.owner == a.owner ==> s.clock < g.until
  }

  predicate AllTimely(s: State, actions: seq<Action>)
    requires Runs(s, actions)
    decreases |actions|
  {
    actions == [] || (Timely(s, actions[0]) && AllTimely(Apply(s, actions[0]), actions[1..]))
  }

  /** Granted intervals follow one another. */
  ghost predicate Disjoint(grants: seq<Grant>) {
    forall i, j :: 0 <= i < j < |grants| ==> End(grants[i]) <= grants[j].from
  }

  ghost predicate OwnersDistinct(grants: seq<Grant>) {
    forall i, j :: 0 <= i < j < |grants| ==> grants[i].owner != grants[j].owner
  }

  /** The row names the last grant, or no lease is in force. */
  ghost predicate RowMatches(row: TaskRow, grants: seq<Grant>, clock: int) {
    if row.leaseOwner.Some? then
      && grants != [] && row.leaseOwner == Some(grants[|grants| - 1].owner)
      && row.leaseUntil == Some(grants[|grants| - 1].until) && grants[|grants| - 1].released.None?
    else row.leaseUntil == None && (grants != [] ==> End(grants[|grants| - 1]) <= clock)
  }

  /** The owner has a grant that it has not released. */
  ghost predicate HasGrant(grants: seq<Grant>, o: Owner) {
    exists i :: 0 <= i < |grants| && grants[i].owner == o && grants[i].released.None?
  }

  /** The part that does not speak of the row. */
  ghost predicate GrantsInv(s: State) {
    && Disjoint(s.grants) && OwnersDistinct(s.grants)
    && (forall g <- s.grants :: g.from <= s.clock && (g.released.Some? ==> g.released.value <= s.clock))
    && (forall g <- s.grants :: g.owner in s.workers && !s.workers[g.owner].Stamped?)
    && (forall o :: o in s.workers && s.workers[o].Stamped? ==> s.workers[o].now <= s.clock)
    && (forall o :: o in s.workers && s.workers[o].HasLease() ==> HasGrant(s.grants, o))
  }

  ghost predicate Inv(s: State) {
    GrantsInv(s) && RowMatches(s.row, s.grants, s.clock)
  }

  lemma {:induction false} MarkReleasedAt(grants: seq<Grant>, owner: Owner, time: int)
    ensures |MarkReleased(grants, owner, time)| == |grants|
    ensures forall i :: 0 <= i < |grants| ==>
      MarkReleased(grants, owner, time)[i]
      == if grants[i].owner == owner then grants[i].(released := Some(time)) else grants[i]
  {
    if grants != [] {
      MarkReleasedAt(grants[..|grants| - 1], owner, time);
    }
  }

  /** When the lease is acquirable, every earlier interval has ended by now. */
  lemma AcquirableMeansEnded(s: State, o: Owner)
    requires Inv(s) && o in s.workers && s.workers[o].Stamped? && Acquirable(s.row, o, s.workers[o].now)
    ensures forall i :: 0 <= i < |s.grants| ==> End(s.grants[i]) <= s.clock && s.grants[i].owner != o
  {
    forall i | 0 <= i < |s.grants| ensures End(s.grants[i]) <= s.clock && s.grants[i].owner != o {
      assert s.grants[i] in s.grants;
      var last := s.grants[|s.grants| - 1];
      assert last in s.grants;
      assert i < |s.grants| - 1 ==> End(s.grants[i]) <= last.from;
    }
  }

  lemma HasGrantGrows(grants: seq<Grant>, g: Grant, p: Owner)
    requires HasGrant(grants, p)
    ensures HasGrant(grants + [g], p)
  {
    var i :| 0 <= i < |grants| && grants[i].owner == p && grants[i].released.None?;
    assert (grants + [g])[i] == grants[i];
  }

  lemma GrantStaysDisjoint(grants: seq<Grant>, g: Grant)
    requires Disjoint(grants) && OwnersDistinct(grants)
    requires forall i :: 0 <= i < |grants| ==> End(grants[i]) <= g.from && grants[i].owner != g.owner
    ensures Disjoint(grants + [g]) && OwnersDistinct(grants + [g])
  {
  }

  lemma GrantKeepsWorkers(s: State, o: Owner, g: Grant)
    requires GrantsInv(s) && o in s.workers && s.workers[o].Stamped? && g.owner == o && g.released == None
    ensures var workers, grants := s.workers[o := Holding], s.grants + [g];
      && (forall h <- grants :: h.owner in workers && !workers[h.owner].Stamped?)
      && (forall p :: p in workers && workers[p].HasLease() ==> HasGrant(grants, p))
  {
    var workers, grants := s.workers[o := Holding], s.grants + [g];
    assert forall h <- grants :: h == g || h in s.grants;
    forall p | p in workers && workers[p].HasLease() ensures HasGrant(grants, p) {
      if p == o {
        assert grants[|s.grants|] == g;
      } else {
        HasGrantGrows(s.grants, g, p);
      }
    }
  }

  lemma GrantKeepsGrants(s: State, o: Owner, g: Grant, t: State)
    requires GrantsInv(s) && o in s.workers && s.workers[o].Stamped?
    requires g.owner == o && g.from == s.clock && g.released == None
    requires forall i :: 0 <= i < |s.grants| ==> End(s.grants[i]) <= s.clock && s.grants[i].owner != o
    requires t.clock == s.clock && t.workers == s.workers[o := Holding] && t.grants == s.grants + [g]
    ensures GrantsInv(t)
  {
    GrantStaysDisjoint(s.grants, g);
    GrantKeepsWorkers(s, o, g);
    assert forall h <- t.grants :: h == g || h in s.grants;
  }

  lemma CommitKeepsInv(s: State, o: Owner, ttl: int)
    requires Inv(s) && Enabled(s, Commit(o, ttl))
    ensures Inv(Apply(s, Commit(o, ttl)))
  {
    var now := s.workers[o].now;
    if Acquirable(s.row, o, now) {
      var g := Grant(o, s.clock, LeaseEnd(now, ttl), None);
      var t := Apply(s, Commit(o, ttl));
      AcquirableMeansEnded(s, o);
      GrantKeepsGrants(s, o, g, t);
      assert t.grants[|t.grants| - 1] == g && RowMatches(t.row, t.grants, t.clock);
    }
  }

  /** Every interval but the last has ended. */
  lemma EarlierHasEnded(s: State, i: nat)
    requires Inv(s) && i < |s.grants|
    ensures i < |s.grants| - 1 ==> End(s.grants[i]) <= s.clock
  {
    assert s.grants[|s.grants| - 1] in s.grants;
  }

  /** A timely release finds the row still its own, so it disturbs nobody. */
  lemma TimelyIsFenced(s: State, o: Owner)
    requires Inv(s) && Enabled(s, Update(o)) && Timely(s, Update(o))
    ensures s.row.leaseOwner == Some(o)
  {
    var i :| 0 <= i < |s.grants| && s.grants[i].owner == o && s.grants[i].released.None?;
    assert s.grants[i] in s.grants;
    EarlierHasEnded(s, i);
  }

  /** Marking a release shortens intervals and moves none. */
  lemma MarkedStayDisjoint(grants: seq<Grant>, o: Owner, time: int)
    requires Disjoint(grants) && OwnersDistinct(grants) && forall g <- grants :: g.from <= time
    requires forall g <- grants :: g.released.Some? ==> g.released.value <= time && g.owner != o
    ensures var marked := MarkReleased(grants, o, time);
      && Disjoint(marked) && OwnersDistinct(marked)
      && (forall g <- marked :: g.from <= time && (g.released.Some? ==> g.released.value <= time))
  {
    MarkReleasedAt(grants, o, time);
    var marked := MarkReleased(grants, o, time);
    forall i | 0 <= i < |grants|
      ensures marked[i].from == grants[i].from <= time && End(marked[i]) <= End(grants[i])
      ensures marked[i].released.Some? ==> marked[i].released.value <= time
    {
      assert grants[i] in grants;
    }
  }

  lemma OwnGrantIsOpen(s: State, o: Owner)
    requires GrantsInv(s) && Enabled(s, Update(o))
    ensures forall g <- s.grants :: g.released.Some? ==> g.owner != o
  {
    var i :| 0 <= i < |s.grants| && s.grants[i].owner == o && s.grants[i].released.None?;
    forall j | 0 <= j < |s.grants| && s.grants[j].released.Some? ensures s.grants[j].owner != o {
      if j < i {
        assert s.grants[j].owner != s.grants[i].owner;
      }
    }
  }

  lemma UpdateKeepsWorkers(s: State, o: Owner)
    requires GrantsInv(s) && Enabled(s, Update(o))
    ensures var t := Apply(s, Update(o));
      && (forall g <- t.grants :: g.owner in t.workers && !t.workers[g.owner].Stamped?)
      && (forall p :: p in t.workers && t.workers[p].HasLease() ==> HasGrant(t.grants, p))
  {
    var t := Apply(s, Update(o));
    MarkReleasedAt(s.grants, o, s.clock);
    forall i | 0 <= i < |t.grants| ensures t.grants[i].owner in t.workers && !t.workers[t.grants[i].owner].Stamped? {
      assert s.grants[i] in s.grants;
    }
    forall p | p in t.workers && t.workers[p].HasLease() ensures HasGrant(t.grants, p) {
      var i :| 0 <= i < |s.grants| && s.grants[i].owner == p && s.grants[i].released.None?;
      assert t.grants[i] == s.grants[i];
    }
  }

  lemma UpdateKeepsGrants(s: State, o: Owner)
    requires GrantsInv(s) && Enabled(s, Update(o))
    ensures GrantsInv(Apply(s, Update(o)))
  {
    OwnGrantIsOpen(s, o);
    MarkedStayDisjoint(s.grants, o, s.clock);
    UpdateKeepsWorkers(s, o);
  }

  lemma UpdateKeepsInv(s: State, o: Owner)
    requires Inv(s) && Enabled(s, Update(o)) && !Disturbs(s, Update(o))
    ensures Inv(Apply(s, Update(o)))
  {
    MarkReleasedAt(s.grants, o, s.clock);
    UpdateKeepsGrants(s, o);
  }

  lemma StepKeepsInv(s: State, a: Action)
    requires Inv(s) && Enabled(s, a) && !Disturbs(s, a)
    ensures Inv(Apply(s, a))
  {
    match a
    case Commit(o, ttl) => CommitKeepsInv(s, o, ttl);
    case Update(o) => UpdateKeepsInv(s, o);
    case Save(_, _) =>
    case Tick(_) =>
    case Stamp(_) =>
    case Select(_) =>
    case GiveUp(_) =>
    case Crash(_) =>
    case Cancel =>
    case Resume(_) =>
  }

  lemma {:induction false} ExecKeepsInv(s: State, actions: seq<Action>)
    requires Inv(s) && Runs(s, actions) && Undisturbed(s, actions)
    ensures Inv(Exec(s, actions))
    decreases |actions|
  {
    if actions != [] {
      StepKeepsInv(s, actions[0]);
      ExecKeepsInv(Apply(s, actions[0]), actions[1..]);
    }
  }

  predicate HeldAt(g: Grant, time: int) {
    g.from <= time < End(g)
  }

  /** No two granted intervals share a moment. */
  ghost predicate Exclusive(grants: seq<Grant>) {
    forall i, j, time :: 0 <= i < |grants| && 0 <= j < |grants| && HeldAt(grants[i], time) && HeldAt(grants[j], time)
      ==> i == j
  }

  /** Mutual exclusion over whole runs: unless a release clears the unexpired lease of another owner, granted intervals
      never overlap, although the clock is read before the row is locked, and however long workers overrun. */
  lemma LeasesNeverOverlap(userId: int, actions: seq<Action>)
    requires Runs(Initial(userId), actions) && Undisturbed(Initial(userId), actions)
    ensures var grants := Exec(Initial(userId), actions).grants; Disjoint(grants) && Exclusive(grants)
  {
    ExecKeepsInv(Initial(userId), actions);
  }

  lemma {:induction false} TimelyIsUndisturbed(s: State, actions: seq<Action>)
    requires Inv(s) && Runs(s, actions) && AllTimely(s, actions)
    ensures Undisturbed(s, actions)
    decreases |actions|
  {
    if actions != [] {
      if actions[0].Update? {
        TimelyIsFenced(s, actions[0].owner);
      }
      StepKeepsInv(s, actions[0]);
      TimelyIsUndisturbed(Apply(s, actions[0]), actions[1..]);
    }
  }

  /** The part a worker can check by itself: releases written within their own lease keep the exclusion. */
  lemma TimelyReleasesExclude(userId: int, actions: seq<Action>)
    requires Runs(Initial(userId), actions) && AllTimely(Initial(userId), actions)
    ensures Exclusive(Exec(Initial(userId), actions).grants)
  {
    TimelyIsUndisturbed(Initial(userId), actions);
    LeasesNeverOverlap(userId, actions);
  }

  /** What holds on every run, however late releases are: clocks were read in the past, and the row never names an owner
      who has not committed. */
  ghost predicate Honest(s: State) {
    && (forall o :: o in s.workers && s.workers[o].Stamped? ==> s.workers[o].now <= s.clock && s.row.leaseOwner != Some(o))
    && (s.row.leaseOwner.Some? ==> s.row.leaseOwner.value in s.workers)
  }

  lemma {:induction false} ExecKeepsHonest(s: State, actions: seq<Action>)
    requires Honest(s) && Runs(s, actions)
    ensures Honest(Exec(s, actions))
    decreases |actions|
  {
    if actions != [] {
      ExecKeepsHonest(Apply(s, actions[0]), actions[1..]);
    }
  }

  /** On every run, a duplicate delivery starts nothing while the row holds a lease that is unexpired at the time of the
      commit, or when the task is terminal or cancelled: the row and the grants stay as they are. */
  lemma DuplicateStartsNothing(userId: int, actions: seq<Action>, o: Owner, ttl: int)
    requires Runs(Initial(userId), actions) && Enabled(Exec(Initial(userId), actions), Commit(o, ttl))
    requires var s := Exec(Initial(userId), actions);
      s.row.status.Terminal() || s.row.cancelRequested || (s.row.leaseUntil.Some? && s.row.leaseUntil.value > s.clock)
    ensures var s := Exec(Initial(userId), actions);
      Apply(s, Commit(o, ttl)).row == s.row && Apply(s, Commit(o, ttl)).grants == s.grants
  {
    ExecKeepsHonest(Initial(userId), actions);
  }

  /** An abandoned lease blocks nobody for longer than it lasts: once it has run out, a live task can be taken. */
  lemma ExpiredLeaseIsFree(s: State, o: Owner, ttl: int)
    requires Enabled(s, Commit(o, ttl))
    requires !s.row.status.Terminal() && !s.row.cancelRequested
    requires s.row.leaseUntil.Some? ==> s.row.leaseUntil.value <= s.workers[o].now
    ensures Apply(s, Commit(o, ttl)).row.leaseOwner == Some(o)
    ensures |Apply(s, Commit(o, ttl)).grants| == |s.grants| + 1
  {
  }

  /** How long a lease lasts: `ttl` seconds from the clock its owner read, but at least 30. Until then no other owner gets
      the row, at whatever time it reads the clock; from then on every one does. */
  lemma GrantLasts(s: State, o: Owner, ttl: int, p: Owner, u: State, other: int)
    requires Enabled(s, Commit(o, ttl)) && |Apply(s, Commit(o, ttl)).grants| > |s.grants|
    requires u.row == Apply(s, Commit(o, ttl)).row && p != o && p in u.workers && u.workers[p].Stamped?
    ensures var from := s.workers[o].now;
      |Apply(u, Commit(p, other)).grants| > |u.grants| <==> u.workers[p].now >= from + if ttl >= 30 then ttl else 30
  {
  }

  lemma {:induction false} ClockGrows(s: State, actions: seq<Action>)
    requires Runs(s, actions)
    ensures s.clock <= Exec(s, actions).clock
    decreases |actions|
  {
    if actions != [] {
      ClockGrows(Apply(s, actions[0]), actions[1..]);
    }
  }

  /** The row carries this lease. */
  predicate Carries(s: State, o: Owner, until: int) {
    s.row.leaseOwner == Some(o) && s.row.leaseUntil == Some(until) && o in s.workers && !s.workers[o].Stamped?
  }

  lemma StepCarries(s: State, a: Action, o: Owner, until: int)
    requires Honest(s) && Carries(s, o, until) && s.clock < until
    requires Enabled(s, a) && !Disturbs(s, a) && a != Update(o)
    ensures Carries(Apply(s, a), o, until) && Apply(s, a).grants == s.grants && Honest(Apply(s, a))
  {
  }

  lemma {:induction false} LeaseIsCarried(s: State, o: Owner, until: int, more: seq<Action>)
    requires Honest(s) && Carries(s, o, until) && Runs(s, more) && Undisturbed(s, more)
    requires Update(o) !in more && Exec(s, more).clock < until
    ensures Carries(Exec(s, more), o, until) && Exec(s, more).grants == s.grants
    decreases |more|
  {
    if more != [] {
      ClockGrows(s, more);
      assert more[0] in more;
      StepCarries(s, more[0], o, until);
      assert forall a <- more[1..] :: a in more;
      LeaseIsCarried(Apply(s, more[0]), o, until, more[1..]);
    }
  }

  /** On runs: after a grant nothing else is granted before those seconds are over, unless the owner releases its lease or
      another release disturbs it. */
  lemma NothingElseIsGranted(userId: int, before: seq<Action>, o: Owner, ttl: int, more: seq<Action>)
    requires Runs(Initial(userId), before)
    requires var s := Exec(Initial(userId), before);
      && Enabled(s, Commit(o, ttl)) && |Apply(s, Commit(o, ttl)).grants| > |s.grants|
      && var t := Apply(s, Commit(o, ttl));
         && Runs(t, more) && Undisturbed(t, more) && Update(o) !in more
         && Exec(t, more).clock < s.workers[o].now + if ttl >= 30 then ttl else 30
    ensures var t := Apply(Exec(Initial(userId), before), Commit(o, ttl));
      Exec(t, more).grants == t.grants && Exec(t, more).row.leaseOwner == Some(o)
  {
    var s := Exec(Initial(userId), before);
    ExecKeepsHonest(Initial(userId), before);
    var t := Apply(s, Commit(o, ttl));
    LeaseIsCarried(t, o, s.workers[o].now + if ttl >= 30 then ttl else 30, more);
  }

  /** The time the task was first started, from which its deadline counts, is set by the first grant and never changes. */
  lemma {:induction false} StartedOnce(s: State, actions: seq<Action>)
    requires Runs(s, actions)
    ensures s.row.startedAt.Some? ==> Exec(s, actions).row.startedAt == s.row.startedAt
    ensures (s.grants != [] ==> s.row.startedAt.Some?) ==>
      Exec(s, actions).grants != [] ==> Exec(s, actions).row.startedAt.Some?
    decreases |actions|
  {
    if actions != [] {
      MarkReleasedAt(s.grants, if actions[0].Update? then actions[0].owner else "", s.clock);
      StartedOnce(Apply(s, actions[0]), actions[1..]);
    }
  }

  predicate Leads(s: State, actions: seq<Action>, t: State) {
    Runs(s, actions) && Exec(s, actions) == t
  }

  lemma {:induction false} LeadsSnoc(s: State, actions: seq<Action>, t: State, a: Action)
    requires Leads(s, actions, t) && Enabled(t, a)
    ensures Leads(s, actions + [a], Apply(t, a))
    decreases |actions|
  {
    if actions == [] {
      assert actions + [a] == [a] && [a][1..] == [];
      assert Runs(Apply(t, a), []);
    } else {
      LeadsSnoc(Apply(s, actions[0]), actions[1..], t, a);
      assert (actions + [a])[1..] == actions[1..] + [a];
    }
  }

  /** First part: `a` is granted the lease, selects its row for release, and its lease runs out. */
  lemma SelectThenExpire(userId: int, a: Owner) returns (actions: seq<Action>, t: State)
    ensures Leads(Initial(userId), actions, t)
    ensures t.clock == 30 && t.workers == map[a := Selected] && t.grants == [Grant(a, 0, 30, None)]
    ensures Acquirable(t.row, "", 30) && t.row.leaseUntil == Some(30) && !t.row.status.Terminal() && !t.row.cancelRequested
  {
    var s := Initial(userId);
    actions, t := [], s;
    LeadsSnoc(s, actions, t, Stamp(a));
    actions, t := actions + [Stamp(a)], Apply(t, Stamp(a));
    LeadsSnoc(s, actions, t, Commit(a, 30));
    actions, t := actions + [Commit(a, 30)], Apply(t, Commit(a, 30));
    LeadsSnoc(s, actions, t, Select(a));
    actions, t := actions + [Select(a)], Apply(t, Select(a));
    LeadsSnoc(s, actions, t, Tick(30));
    actions, t := actions + [Tick(30)], Apply(t, Tick(30));
  }

  /** A fresh owner takes a lease that nobody holds any more. */
  lemma TakeFree(s: State, before: seq<Action>, mid: State, o: Owner) returns (actions: seq<Action>, t: State)
    requires Leads(s, before, mid) && o !in mid.workers
    requires !mid.row.status.Terminal() && !mid.row.cancelRequested
    requires mid.row.leaseUntil.Some? ==> mid.row.leaseUntil.value <= mid.clock
    ensures Leads(s, actions, t)
    ensures t.clock == mid.clock && t.workers == mid.workers[o := Holding]
    ensures t.grants == mid.grants + [Grant(o, mid.clock, mid.clock + 30, None)]
    ensures t.row == Leased(mid.row, o, mid.clock, 30)
  {
    LeadsSnoc(s, before, mid, Stamp(o));
    actions, t := before + [Stamp(o)], Apply(mid, Stamp(o));
    LeadsSnoc(s, actions, t, Commit(o, 30));
    actions, t := actions + [Commit(o, 30)], Apply(t, Commit(o, 30));
  }

  lemma {:induction false} UndisturbedSnoc(s: State, actions: seq<Action>, t: State, a: Action)
    requires Leads(s, actions, t) && Undisturbed(s, actions) && Enabled(t, a) && !Disturbs(t, a)
    ensures Leads(s, actions + [a], Apply(t, a)) && Undisturbed(s, actions + [a])
    decreases |actions|
  {
    LeadsSnoc(s, actions, t, a);
    if actions == [] {
      assert actions + [a] == [a] && [a][1..] == [];
    } else {
      UndisturbedSnoc(Apply(s, actions[0]), actions[1..], t, a);
      assert (actions + [a])[1..] == actions[1..] + [a];
    }
  }

  /** The lease can be granted again some day: the cancellation is not requested, and the status is live or some run has
      still to save its own. */
  ghost predicate Open(s: State) {
    && !s.row.cancelRequested
    && (s.row.status.Terminal() ==> exists o :: o in s.workers && s.workers[o].Holding?)
  }

  lemma StaysOpen(s: State, a: Owner)
    requires Open(s) && Enabled(s, Update(a))
    ensures Open(Apply(s, Update(a)))
  {
    if s.row.status.Terminal() {
      var o :| o in s.workers && s.workers[o].Holding?;
      assert Apply(s, Update(a)).workers[o].Holding?;
    }
  }

  lemma StaysClosed(s: State, a: Action)
    requires GrantsInv(s) && !Open(s) && Enabled(s, a)
    ensures GrantsInv(Apply(s, a)) && !Open(Apply(s, a))
  {
    if a.Update? {
      UpdateKeepsGrants(s, a.owner);
    }
    var t := Apply(s, a);
    if !s.row.cancelRequested {
      forall o | o in t.workers && t.workers[o].Holding? ensures o in s.workers && s.workers[o].Holding? {
      }
    }
  }

  /** A run that is still to save its state can make a terminal status live again. */
  lemma Revive(s: State) returns (more: seq<Action>, t: State)
    requires Open(s)
    ensures Leads(s, more, t) && Undisturbed(s, more)
    ensures !t.row.status.Terminal() && t.row == s.row.(status := t.row.status)
    ensures t.clock == s.clock && t.grants == s.grants && t.workers.Keys == s.workers.Keys
  {
    more, t := [], s;
    if s.row.status.Terminal() {
      var o :| o in s.workers && s.workers[o].Holding?;
      UndisturbedSnoc(s, more, t, Save(o, Active));
      more, t := more + [Save(o, Active)], Apply(t, Save(o, Active));
    }
  }

  /** After a disturbing update, an unused owner can take a lease that overlaps the one that was cleared. */
  lemma DisturbedOverlaps(s: State, a: Action, c: Owner) returns (more: seq<Action>)
    requires Inv(s) && Enabled(s, a) && Disturbs(s, a) && Open(s) && c !in s.workers
    ensures Runs(Apply(s, a), more) && Undisturbed(Apply(s, a), more)
    ensures !Exclusive(Exec(Apply(s, a), more).grants)
  {
    var t := Apply(s, a);
    var n := |s.grants|;
    MarkReleasedAt(s.grants, a.owner, s.clock);
    assert s.grants[n - 1] in s.grants && t.grants[n - 1] == s.grants[n - 1];
    StaysOpen(s, a.owner);
    var u;
    more, u := Revive(t);
    UndisturbedSnoc(t, more, u, Stamp(c));
    more, u := more + [Stamp(c)], Apply(u, Stamp(c));
    UndisturbedSnoc(t, more, u, Commit(c, 30));
    more, u := more + [Commit(c, 30)], Apply(u, Commit(c, 30));
    assert u.grants == t.grants + [Grant(c, s.clock, s.clock + 30, None)];
    assert HeldAt(u.grants[n - 1], s.clock) && HeldAt(u.grants[n], s.clock);
  }

  /** Once it is not open any more nothing is granted, so nothing can overlap. */
  lemma {:induction false} ClosedStaysDisjoint(s: State, actions: seq<Action>)
    requires GrantsInv(s) && !Open(s) && Runs(s, actions)
    ensures Disjoint(Exec(s, actions).grants)
    decreases |actions|
  {
    if actions != [] {
      StaysClosed(s, actions[0]);
      ClosedStaysDisjoint(Apply(s, actions[0]), actions[1..]);
    }
  }

  lemma HarmlessStaysExclusive(s: State, a: Action, more: seq<Action>)
    requires Inv(s) && a.Update? && Enabled(s, a) && !(Disturbs(s, a) && Open(s))
    requires Runs(Apply(s, a), more) && Undisturbed(Apply(s, a), more)
    ensures Exclusive(Exec(Apply(s, a), more).grants)
  {
    if Disturbs(s, a) {
      StaysClosed(s, a);
      ClosedStaysDisjoint(Apply(s, a), more);
    } else {
      StepKeepsInv(s, a);
      ExecKeepsInv(Apply(s, a), more);
    }
  }

  /** A run without further disturbance ends with two leases in force at one time. */
  ghost predicate CanOverlap(s: State, more: seq<Action>) {
    Runs(s, more) && Undisturbed(s, more) && !Exclusive(Exec(s, more).grants)
  }

  /** The exact condition before the update: from any state reached without a disturbance, an update can lead to overlapping
      leases if and only if the row names another owner whose lease has not run out, no cancellation is requested, and the
      status is live or some run has still to save its own. */
  lemma UpdateBreaksExclusionIff(userId: int, before: seq<Action>, a: Action, c: Owner)
    requires Runs(Initial(userId), before) && Undisturbed(Initial(userId), before)
    requires var s := Exec(Initial(userId), before); a.Update? && Enabled(s, a) && c !in s.workers
    ensures var s := Exec(Initial(userId), before);
      (exists more :: CanOverlap(Apply(s, a), more)) <==> Disturbs(s, a) && Open(s)
  {
    var s := Exec(Initial(userId), before);
    ExecKeepsInv(Initial(userId), before);
    if Disturbs(s, a) && Open(s) {
      var more := DisturbedOverlaps(s, a, c);
      assert CanOverlap(Apply(s, a), more);
    } else {
      forall more | Runs(Apply(s, a), more) && Undisturbed(Apply(s, a), more) ensures !CanOverlap(Apply(s, a), more) {
        HarmlessStaysExclusive(s, a, more);
      }
    }
  }

  /** A disturbed run from the start: `a` selects its row, its lease runs out, `b` is granted the lease, the
      late update of `a` erases it, and `c` is granted a lease that overlaps that of `b`. */
  lemma LateReleaseBreaksExclusion(userId: int, a: Owner, b: Owner, c: Owner) returns (actions: seq<Action>)
    requires a != b && b != c && a != c
    ensures Runs(Initial(userId), actions)
    ensures var grants := Exec(Initial(userId), actions).grants;
      |grants| == 3 && HeldAt(grants[1], 30) && HeldAt(grants[2], 30) && grants[1].owner == b && grants[2].owner == c
  {
    var s := Initial(userId);
    var t;
    actions, t := SelectThenExpire(userId, a);
    actions, t := TakeFree(s, actions, t, b);
    LeadsSnoc(s, actions, t, Update(a));
    MarkReleasedAt(t.grants, a, t.clock);
    actions, t := actions + [Update(a)], Apply(t, Update(a));
    actions, t := TakeFree(s, actions, t, c);
  }
}
