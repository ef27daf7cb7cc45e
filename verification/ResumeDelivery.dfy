/** One task with everything that takes part in a human turn: the pausing run, the resume, its outbox row and message, the
    delivery that takes or skips it, and the run that is given the response. */
module ResumeDelivery {
  import opened Wrappers
  import opened AgentTables

  /** Saved: its final state is; Cleared: ready for the release; GivingUp: released, and about to save the failure. */
  datatype Phase = Running | Saved | Cleared | GivingUp

  /** A run that has not ended; `given` is the accepted resume whose response it was started with. */
  datatype Run = Run(phase: Phase, given: Option<nat>)

  /** Accepted resumes are numbered; `held` is the one whose response is in the row, `queued` counts outbox rows still to be
      published, `messages` the published ones, `taken` are the resumes that some run was given. */
  datatype State = State(
    row: TaskRow,
    clock: int,
    turn: nat,
    held: Option<nat>,
    queued: nat,
    messages: nat,
    runs: map<Owner, Run>,
    taken: set<nat>)

  datatype Action =
    | Tick(time: int)
    | Publish(marked: bool)               // a mark that fails leaves the row to be published again
    | Deliver(owner: Owner, ttl: int)     // acquire the lease or skip; the message is gone either way
    | Save(owner: Owner, status: Status)  // run_agent_task saves its final state
    | Clear(owner: Owner)                 // clear_resume_payload, if the run was given a response
    | Stop(owner: Owner, cancelled: bool) // cancelled or over budget: save the terminal status
    | Release(owner: Owner)
    | Fail(owner: Owner, retry: bool)     // any other error, at any point: release, then retry or give up
    | GiveUp(owner: Owner)                // save the failure after the release
    | Crash(owner: Owner)                 // the broker delivers the message again; the lease stays
    | Resume(payload: string)             // request_resume by the owner of the task
    | Cancel                              // request_cancel by the owner of the task

  predicate Enabled(s: State, a: Action) {
    match a
    case Tick(time) => s.clock <= time
    case Publish(_) => s.queued > 0
    case Deliver(o, _) => s.messages > 0 && o !in s.runs && s.row.leaseOwner != Some(o)
    case Save(o, _) => o in s.runs && s.runs[o].phase == Running
    case Clear(o) => o in s.runs && s.runs[o].phase == Saved
    case Stop(o, _) => o in s.runs && s.runs[o].phase == Running
    case Release(o) => o in s.runs && s.runs[o].phase == Cleared
    case Fail(o, _) => o in s.runs && s.runs[o].phase != GivingUp
    case GiveUp(o) => o in s.runs && s.runs[o].phase == GivingUp
    case Crash(o) => o in s.runs
    case Resume(_) => true
    case Cancel => !s.row.status.Terminal()
  }

  function Freed(row: TaskRow, owner: Owner): TaskRow {
    if row.leaseOwner == Some(owner) then Unleased(row) else row
  }

  function Apply(s: State, a: Action): State
    requires Enabled(s, a)
  {
    match a
    case Tick(time) => s.(clock := time)
    case Publish(marked) => s.(queued := if marked then s.queued - 1 else s.queued, messages := s.messages + 1)
    case Deliver(o, ttl) =>
      if Acquirable(s.row, o, s.clock) then
        s.(row := Leased(s.row, o, s.clock, ttl), messages := s.messages - 1, runs := s.runs[o := Run(Running, s.held)],
           taken := if s.held.Some? then s.taken + {s.held.value} else s.taken)
      else s.(messages := s.messages - 1)
    case Save(o, status) => s.(row := s.row.(status := status), runs := s.runs[o := s.runs[o].(phase := Saved)])
    case Clear(o) =>
      var t := s.(runs := s.runs[o := s.runs[o].(phase := Cleared)]);
      if s.runs[o].given.Some? then t.(row := s.row.(resumePayload := None), held := None) else t
    case Stop(o, cancelled) =>
      s.(row := s.row.(status := if cancelled then Cancelled else Failed), runs := s.runs[o := s.runs[o].(phase := Cleared)])
    case Release(o) => s.(row := Freed(s.row, o), runs := s.runs - {o})
    case Fail(o, retry) =>
      var t := s.(row := Freed(s.row, o));
      if retry then t.(runs := s.runs - {o}, messages := s.messages + 1)
      else t.(runs := s.runs[o := s.runs[o].(phase := GivingUp)])
    case GiveUp(o) => s.(row := s.row.(status := Failed), runs := s.runs - {o})
    case Crash(o) => s.(runs := s.runs - {o}, messages := s.messages + 1)
    case Resume(payload) =>
      if Resumable(s.row, s.row.userId) then
        s.(row := Resumed(s.row, payload), held := Some(s.turn), turn := s.turn + 1, queued := s.queued + 1)
      else s
    case Cancel => s.(row := s.row.(cancelRequested := true))
  }

  function Initial(userId: int): State {
    State(Fresh(userId), 0, 0, None, 1, 0, map[], {})
  }

  predicate Runs(s: State, actions: seq<Action>)
    decreases |actions|
  {
    actions == [] || (Enabled(s, actions[0]) && Runs(Apply(s, actions[0]), actions[1..]))
  }

  function Exec(s: State, actions: seq<Action>): State
    requires Runs(s, actions)
    decreases |actions|
  {
    if actions == [] then s else Exec(Apply(s, actions[0]), actions[1..])
  }

  // ---- Resumes accepted when the pausing run is over -----------------------------------------------------------------

  predicate LeaseInForce(s: State) {
    s.row.leaseUntil.Some? && s.row.leaseUntil.value > s.clock
  }

  /** No run is left and no lease is in force, not even that of a crashed run. */
  predicate Settled(s: State) {
    s.runs == map[] && !LeaseInForce(s)
  }

  predicate AcceptsUnsettled(s: State, a: Action) {
    a.Resume? && Resumable(s.row, s.row.userId) && !Settled(s)
  }

  predicate AllSettled(s: State, actions: seq<Action>)
    requires Runs(s, actions)
    decreases |actions|
  {
    actions == [] || (!AcceptsUnsettled(s, actions[0]) && AllSettled(Apply(s, actions[0]), actions[1..]))
  }

  /** The response is in the row, a message for it is published or will be, and nothing can refuse it. */
  predicate Waiting(s: State, n: nat) {
    && n + 1 == s.turn && s.held == Some(n) && s.queued + s.messages > 0
    && s.row.status == Pending && !s.row.cancelRequested && Settled(s)
  }

  ghost predicate Inv(s: State) {
    && (s.held.Some? ==> s.held.value < s.turn)
    && (s.row.cancelRequested || forall m: nat :: m < s.turn ==> m in s.taken || Waiting(s, m))
  }

  lemma StepKeepsInv(s: State, a: Action)
    requires Inv(s) && Enabled(s, a) && !AcceptsUnsettled(s, a)
    ensures Inv(Apply(s, a))
  {
    var t := Apply(s, a);
    if !t.row.cancelRequested {
      forall m: nat | m < t.turn ensures m in t.taken || Waiting(t, m) {
        if m < s.turn {
          assert m in s.taken || Waiting(s, m);
        }
      }
    }
  }

  lemma {:induction false} ExecKeepsInv(s: State, actions: seq<Action>)
    requires Inv(s) && Runs(s, actions) && AllSettled(s, actions)
    ensures Inv(Exec(s, actions))
    decreases |actions|
  {
    if actions != [] {
      StepKeepsInv(s, actions[0]);
      ExecKeepsInv(Apply(s, actions[0]), actions[1..]);
    }
  }

  /** Over all runs, with duplicates, failures and crashes: when resumes are accepted only after the pausing run has released
      its lease, every accepted resume was given to a run, or waits in the row with a message that nothing can refuse, or
      the cancellation is requested. */
  lemma SettledResumesAreTaken(userId: int, actions: seq<Action>, n: nat)
    requires Runs(Initial(userId), actions) && AllSettled(Initial(userId), actions)
    requires n < Exec(Initial(userId), actions).turn
    ensures var s := Exec(Initial(userId), actions); n in s.taken || Waiting(s, n) || s.row.cancelRequested
  {
    ExecKeepsInv(Initial(userId), actions);
  }

  /** And the next delivery takes a resume that waits. */
  lemma NextDeliveryTakes(s: State, n: nat, o: Owner, ttl: int)
    requires Inv(s) && Waiting(s, n) && s.row.leaseOwner != Some(o)
    ensures var published := if s.messages > 0 then s else Apply(s, Publish(true));
      Enabled(published, Deliver(o, ttl)) && n in Apply(published, Deliver(o, ttl)).taken
  {
  }

  // ---- Resumes accepted too early ------------------------------------------------------------------------------------

  /** The resume was not given to a run, and nothing is left that could give it to one. */
  predicate Gone(s: State, n: nat) {
    && n < s.turn && n !in s.taken
    && (s.held == Some(n) ==> s.queued == 0 && s.messages == 0 && s.runs == map[])
  }

  /** What is gone stays gone, whatever happens. */
  lemma {:induction false} GoneForever(s: State, n: nat, actions: seq<Action>)
    requires Gone(s, n) && Runs(s, actions)
    ensures Gone(Exec(s, actions), n)
    decreases |actions|
  {
    if actions != [] {
      GoneForever(Apply(s, actions[0]), n, actions[1..]);
    }
  }

  /** The resume was not given to a run, and the cancellation keeps every delivery from taking it. */
  predicate Refused(s: State, n: nat) {
    n < s.turn && n !in s.taken && s.row.cancelRequested
  }

  lemma {:induction false} RefusedForever(s: State, n: nat, actions: seq<Action>)
    requires Refused(s, n) && Runs(s, actions)
    ensures Refused(Exec(s, actions), n)
    decreases |actions|
  {
    if actions != [] {
      RefusedForever(Apply(s, actions[0]), n, actions[1..]);
    }
  }

  /** Only the system acts: the user neither answers nor cancels. */
  predicate Quiet(a: Action) {
    !a.Resume? && !a.Cancel?
  }

  predicate Leads(s: State, actions: seq<Action>, t: State) {
    Runs(s, actions) && Exec(s, actions) == t && forall a <- actions :: Quiet(a)
  }

  lemma {:induction false} LeadsTrans(s: State, first: seq<Action>, mid: State, second: seq<Action>, t: State)
    requires Leads(s, first, mid) && Leads(mid, second, t)
    ensures Leads(s, first + second, t)
    decreases |first|
  {
    if first == [] {
      assert first + second == second;
    } else {
      assert forall a <- first[1..] :: a in first;
      LeadsTrans(Apply(s, first[0]), first[1..], mid, second, t);
      assert (first + second)[1..] == first[1..] + second;
    }
  }

  lemma LeadsOne(s: State, a: Action)
    requires Enabled(s, a) && Quiet(a)
    ensures Leads(s, [a], Apply(s, a))
  {
    assert [a][1..] == [] && Runs(Apply(s, a), []);
  }

  lemma {:induction false} WithoutResumeIsSettled(s: State, actions: seq<Action>)
    requires Runs(s, actions) && forall a <- actions :: Quiet(a)
    ensures AllSettled(s, actions)
    decreases |actions|
  {
    if actions != [] {
      assert Quiet(actions[0]);
      assert forall a <- actions[1..] :: a in actions;
      WithoutResumeIsSettled(Apply(s, actions[0]), actions[1..]);
    }
  }

  /** A delivery to `o` would be skipped. */
  predicate Refuses(s: State, o: Owner) {
    s.row.leaseOwner != Some(o) && (s.row.status.Terminal() || LeaseInForce(s))
  }

  /** All messages are published and skipped. */
  lemma {:induction false} Drain(s: State, o: Owner) returns (more: seq<Action>, t: State)
    requires Refuses(s, o) && o !in s.runs
    ensures Leads(s, more, t) && t == s.(queued := 0, messages := 0)
    decreases s.queued, s.messages
  {
    if s.queued == 0 && s.messages == 0 {
      more, t := [], s;
    } else {
      var a := if s.queued > 0 then Publish(true) else Deliver(o, 30);
      var rest;
      LeadsOne(s, a);
      rest, t := Drain(Apply(s, a), o);
      LeadsTrans(s, [a], Apply(s, a), rest, t);
      more := [a] + rest;
    }
  }

  lemma SomeRun(runs: map<Owner, Run>) returns (r: Owner)
    requires runs != map[]
    ensures r in runs
  {
    assert runs.Keys != {};
    r :| r in runs.Keys;
  }

  /** A run fails for good. */
  lemma FailOne(s: State, r: Owner) returns (more: seq<Action>, t: State)
    requires r in s.runs
    ensures Leads(s, more, t) && t.row.status == Failed && t.runs == s.runs - {r}
    ensures t.row.leaseOwner == s.row.leaseOwner || t.row.leaseOwner == None
    ensures t.taken == s.taken && t.held == s.held && t.turn == s.turn
  {
    if s.runs[r].phase == GivingUp {
      LeadsOne(s, GiveUp(r));
      more, t := [GiveUp(r)], Apply(s, GiveUp(r));
    } else {
      var mid := Apply(s, Fail(r, false));
      LeadsOne(s, Fail(r, false));
      LeadsOne(mid, GiveUp(r));
      LeadsTrans(s, [Fail(r, false)], mid, [GiveUp(r)], Apply(mid, GiveUp(r)));
      more, t := [Fail(r, false)] + [GiveUp(r)], Apply(mid, GiveUp(r));
    }
  }

  /** All runs fail for good. */
  lemma {:induction false} FailAll(s: State, o: Owner) returns (more: seq<Action>, t: State)
    requires o !in s.runs && s.row.leaseOwner != Some(o) && (s.runs == map[] ==> Refuses(s, o))
    ensures Leads(s, more, t) && t.runs == map[] && Refuses(t, o)
    ensures t.taken == s.taken && t.held == s.held && t.turn == s.turn
    decreases |s.runs|
  {
    if s.runs == map[] {
      more, t := [], s;
    } else {
      var r := SomeRun(s.runs);
      var first, mid := FailOne(s, r);
      var rest;
      assert s.runs.Keys == mid.runs.Keys + {r};
      rest, t := FailAll(mid, o);
      LeadsTrans(s, first, mid, rest, t);
      more := first + rest;
    }
  }

  /** Neither a further early resume nor a cancellation, and this resume is lost in the end. */
  ghost predicate CanLose(s: State, more: seq<Action>, n: nat) {
    && Runs(s, more) && AllSettled(s, more) && (forall a <- more :: !a.Cancel?)
    && (Gone(Exec(s, more), n) || Refused(Exec(s, more), n))
  }

  /** An early resume can be lost: the runs fail, or the lease of a crashed run stands, and every message is skipped. */
  lemma EarlyResumeIsLost(s: State, payload: string, o: Owner) returns (more: seq<Action>)
    requires Inv(s) && Resumable(s.row, s.row.userId) && !Settled(s) && o !in s.runs && s.row.leaseOwner != Some(o)
    requires s.turn !in s.taken
    ensures CanLose(Apply(s, Resume(payload)), more, s.turn)
  {
    var t := Apply(s, Resume(payload));
    var first, mid := FailAll(t, o);
    var second, end := Drain(mid, o);
    LeadsTrans(t, first, mid, second, end);
    more := first + second;
    WithoutResumeIsSettled(t, more);
  }

  ghost predicate TakenBelowTurn(s: State) {
    (forall m <- s.taken :: m < s.turn) && (s.held.Some? ==> s.held.value < s.turn)
  }

  lemma {:induction false} ExecKeepsBelow(s: State, actions: seq<Action>)
    requires TakenBelowTurn(s) && Runs(s, actions)
    ensures TakenBelowTurn(Exec(s, actions))
    decreases |actions|
  {
    if actions != [] {
      ExecKeepsBelow(Apply(s, actions[0]), actions[1..]);
    }
  }

  lemma {:induction false} NotCancelled(s: State, actions: seq<Action>)
    requires Runs(s, actions) && forall a <- actions :: !a.Cancel?
    ensures Exec(s, actions).row.cancelRequested == s.row.cancelRequested
    decreases |actions|
  {
    if actions != [] {
      assert forall a <- actions[1..] :: a in actions;
      NotCancelled(Apply(s, actions[0]), actions[1..]);
    }
  }

  lemma SettledResumeIsKept(s: State, payload: string, more: seq<Action>)
    requires Inv(s) && Resumable(s.row, s.row.userId) && Settled(s) && !s.row.cancelRequested
    ensures !CanLose(Apply(s, Resume(payload)), more, s.turn)
  {
    var t := Apply(s, Resume(payload));
    StepKeepsInv(s, Resume(payload));
    if Runs(t, more) && AllSettled(t, more) && forall a <- more :: !a.Cancel? {
      ExecKeepsInv(t, more);
      NotCancelled(t, more);
    }
  }

  /** The exact condition: after any run whose resumes were settled, a resume that is accepted now can be lost for ever, with
      no further word of the user, if and only if a run is still there, a lease is in force or the task is cancelled. */
  lemma ResumeIsLostIff(userId: int, before: seq<Action>, payload: string, o: Owner)
    requires Runs(Initial(userId), before) && AllSettled(Initial(userId), before)
    requires var s := Exec(Initial(userId), before);
      Resumable(s.row, s.row.userId) && o !in s.runs && s.row.leaseOwner != Some(o)
    ensures var s := Exec(Initial(userId), before);
      (exists more :: CanLose(Apply(s, Resume(payload)), more, s.turn)) <==> !Settled(s) || s.row.cancelRequested
  {
    var s := Exec(Initial(userId), before);
    ExecKeepsInv(Initial(userId), before);
    ExecKeepsBelow(Initial(userId), before);
    if s.row.cancelRequested {
      assert CanLose(Apply(s, Resume(payload)), [], s.turn);
    } else if Settled(s) {
      forall more ensures !CanLose(Apply(s, Resume(payload)), more, s.turn) {
        SettledResumeIsKept(s, payload, more);
      }
    } else {
      var more := EarlyResumeIsLost(s, payload, o);
      assert CanLose(Apply(s, Resume(payload)), more, s.turn);
    }
  }

  /** No failure is needed. The pausing run has saved its state and not yet released: the resume is accepted and published,
      its delivery is skipped because of the lease, and the run ends as usual. */
  lemma SkippedDeliveryLosesResume(s: State, payload: string, r: Owner, o: Owner)
    requires r in s.runs && s.runs[r] == Run(Saved, None) && s.runs.Keys == {r} && s.turn !in s.taken
    requires Resumable(s.row, s.row.userId) && LeaseInForce(s) && s.row.leaseOwner == Some(r) && o != r
    requires s.queued == 0 && s.messages == 0
    ensures var actions := [Resume(payload), Publish(true), Deliver(o, 30), Clear(r), Release(r)];
      Runs(s, actions) && Gone(Exec(s, actions), s.turn)
  {
    var actions := [Resume(payload), Publish(true), Deliver(o, 30), Clear(r), Release(r)];
    var s1 := Apply(s, actions[0]);
    var s2 := Apply(s1, actions[1]);
    var s3 := Apply(s2, actions[2]);
    var s4 := Apply(s3, actions[3]);
    var s5 := Apply(s4, actions[4]);
    assert s5.runs == map[] && s5.queued == 0 && s5.messages == 0;
    assert actions[1..][1..] == actions[2..] && actions[2..][1..] == actions[3..] && actions[3..][1..] == actions[4..];
    assert actions[4..][1..] == [] && Runs(s5, []);
    assert Runs(s4, actions[4..]) && Exec(s4, actions[4..]) == s5;
    assert Runs(s3, actions[3..]) && Exec(s3, actions[3..]) == s5;
    assert Runs(s2, actions[2..]) && Exec(s2, actions[2..]) == s5;
    assert Runs(s1, actions[1..]) && Exec(s1, actions[1..]) == s5;
  }

  lemma {:induction false} RunsAppend(s: State, first: seq<Action>, second: seq<Action>)
    requires Runs(s, first) && Runs(Exec(s, first), second)
    ensures Runs(s, first + second) && Exec(s, first + second) == Exec(Exec(s, first), second)
    decreases |first|
  {
    if first == [] {
      assert first + second == second;
    } else {
      assert (first + second)[1..] == first[1..] + second;
      RunsAppend(Apply(s, first[0]), first[1..], second);
    }
  }

  /** The whole run, from the creation of the task. */
  lemma FirstResumeIsLost(userId: int, payload: string, r: Owner, o: Owner)
    requires r != o
    ensures var actions := [Publish(true), Deliver(r, 30), Save(r, WaitingUser)]
                           + [Resume(payload), Publish(true), Deliver(o, 30), Clear(r), Release(r)];
      Runs(Initial(userId), actions) && Gone(Exec(Initial(userId), actions), 0)
  {
    var s := Initial(userId);
    var pause := [Publish(true), Deliver(r, 30), Save(r, WaitingUser)];
    var s1 := Apply(s, pause[0]);
    var s2 := Apply(s1, pause[1]);
    var s3 := Apply(s2, pause[2]);
    assert pause[1..][1..] == pause[2..] && pause[2..][1..] == [] && Runs(s3, []);
    assert Runs(s2, pause[2..]) && Exec(s2, pause[2..]) == s3;
    assert Runs(s1, pause[1..]) && Exec(s1, pause[1..]) == s3;
    assert s3.runs == map[r := Run(Saved, None)];
    SkippedDeliveryLosesResume(s3, payload, r, o);
    RunsAppend(s, pause, [Resume(payload), Publish(true), Deliver(o, 30), Clear(r), Release(r)]);
  }

  /** On a later pause the end of the pausing run, which was given the earlier response, erases the new one. */
  lemma ClearErasesNewResponse(s: State, payload: string, r: Owner)
    requires r in s.runs && s.runs[r].phase == Saved && s.runs[r].given.Some? && s.turn !in s.taken
    requires Resumable(s.row, s.row.userId)
    ensures var accepted := Apply(s, Resume(payload));
      && accepted.row.resumePayload == Some(payload)
      && Apply(accepted, Clear(r)).row.resumePayload == None && Gone(Apply(accepted, Clear(r)), s.turn)
  {
  }

  // ---- Crashed runs --------------------------------------------------------------------------------------------------

  /** Nobody runs the task, which has not ended. */
  predicate Idle(s: State) {
    s.runs == map[] && !s.row.status.Terminal()
  }

  /** A run starts in the course of these actions. */
  predicate TakenUp(s: State, actions: seq<Action>)
    requires Runs(s, actions)
    decreases |actions|
  {
    actions != [] && (Apply(s, actions[0]).runs != map[] || TakenUp(Apply(s, actions[0]), actions[1..]))
  }

  /** A delivery comes when the lease has run out, and before a cancellation. */
  predicate DeliveredInTime(until: Option<int>, clock: int, actions: seq<Action>)
    decreases |actions|
  {
    actions != [] &&
    match actions[0]
    case Tick(time) => DeliveredInTime(until, time, actions[1..])
    case Deliver(_, _) => (until.Some? ==> until.value <= clock) || DeliveredInTime(until, clock, actions[1..])
    case Cancel => false
    case _ => DeliveredInTime(until, clock, actions[1..])
  }

  lemma {:induction false} CancelledStartsNothing(s: State, actions: seq<Action>)
    requires s.runs == map[] && s.row.cancelRequested && Runs(s, actions)
    ensures !TakenUp(s, actions)
    decreases |actions|
  {
    if actions != [] {
      CancelledStartsNothing(Apply(s, actions[0]), actions[1..]);
    }
  }

  /** Whether a task whose run has crashed is taken up again, for every schedule: exactly when a delivery comes after the
      crashed run's lease has run out, and before a cancellation. */
  lemma {:induction false} CrashedRunIsTakenUpIff(s: State, actions: seq<Action>)
    requires Idle(s) && !s.row.cancelRequested && Runs(s, actions)
    ensures TakenUp(s, actions) <==> DeliveredInTime(s.row.leaseUntil, s.clock, actions)
    decreases |actions|
  {
    if actions != [] {
      var t := Apply(s, actions[0]);
      if actions[0].Cancel? {
        CancelledStartsNothing(t, actions[1..]);
      } else if t.runs == map[] {
        CrashedRunIsTakenUpIff(t, actions[1..]);
      }
    }
  }

  ghost predicate CanBeTakenUp(s: State, actions: seq<Action>) {
    Runs(s, actions) && TakenUp(s, actions)
  }

  /** Nothing is left that could bring the task to a worker. */
  predicate Stranded(s: State) {
    Idle(s) && s.row.status != WaitingUser && s.queued == 0 && s.messages == 0
  }

  /** A stranded task stays as it is for ever: it never ends. */
  lemma {:induction false} StrandedForever(s: State, actions: seq<Action>)
    requires Stranded(s) && Runs(s, actions)
    ensures Stranded(Exec(s, actions)) && Exec(s, actions).row.status == s.row.status && !TakenUp(s, actions)
    decreases |actions|
  {
    if actions != [] {
      StrandedForever(Apply(s, actions[0]), actions[1..]);
    }
  }

  lemma TakenUpAfter(s: State, a: Action, rest: seq<Action>)
    requires Enabled(s, a) && CanBeTakenUp(Apply(s, a), rest)
    ensures CanBeTakenUp(s, [a] + rest)
  {
    assert ([a] + rest)[1..] == rest;
  }

  /** A message, or a user whose answer publishes one, is all it takes. */
  lemma TakeUp(s: State, o: Owner) returns (actions: seq<Action>)
    requires Idle(s) && !s.row.cancelRequested && !Stranded(s) && s.row.leaseOwner != Some(o)
    ensures CanBeTakenUp(s, actions)
    decreases if s.queued + s.messages == 0 then 3 else if s.messages == 0 then 2 else if LeaseInForce(s) then 1 else 0
  {
    if s.messages > 0 && !LeaseInForce(s) {
      actions := [Deliver(o, 30)];
      assert Runs(Apply(s, actions[0]), actions[1..]);
    } else {
      var a := if s.queued + s.messages == 0 then Resume("")
               else if s.messages == 0 then Publish(true) else Tick(s.row.leaseUntil.value);
      var rest := TakeUp(Apply(s, a), o);
      TakenUpAfter(s, a, rest);
      actions := [a] + rest;
    }
  }

  /** So the task can still be taken up unless it is stranded or cancelled. */
  lemma CanBeTakenUpIff(s: State, o: Owner)
    requires Idle(s) && s.row.leaseOwner != Some(o)
    ensures (exists actions :: CanBeTakenUp(s, actions)) <==> !Stranded(s) && !s.row.cancelRequested
  {
    if s.row.cancelRequested {
      forall actions | Runs(s, actions) ensures !CanBeTakenUp(s, actions) {
        CancelledStartsNothing(s, actions);
      }
    } else if Stranded(s) {
      forall actions | Runs(s, actions) ensures !CanBeTakenUp(s, actions) {
        StrandedForever(s, actions);
      }
    } else {
      var actions := TakeUp(s, o);
      assert CanBeTakenUp(s, actions);
    }
  }

  /** While the lease of the crashed run is in force, all that is left can be delivered in vain. */
  lemma OwnLeaseStrandsTask(s: State, o: Owner) returns (more: seq<Action>, t: State)
    requires Idle(s) && s.row.status != WaitingUser && LeaseInForce(s) && s.row.leaseOwner != Some(o)
    ensures Leads(s, more, t) && Stranded(t)
  {
    more, t := Drain(s, o);
  }

  /** The shortest run: the worker crashes, and the broker delivers the message again before the lease has run out. */
  lemma FirstRunIsStranded(userId: int, r: Owner, o: Owner)
    requires r != o
    ensures var actions := [Publish(true), Deliver(r, 30), Crash(r), Deliver(o, 30)];
      Runs(Initial(userId), actions) && Stranded(Exec(Initial(userId), actions))
  {
    var actions := [Publish(true), Deliver(r, 30), Crash(r), Deliver(o, 30)];
    var s1 := Apply(Initial(userId), actions[0]);
    var s2 := Apply(s1, actions[1]);
    var s3 := Apply(s2, actions[2]);
    var s4 := Apply(s3, actions[3]);
    assert s3.runs == map[] && Stranded(s4);
    assert actions[1..][1..] == actions[2..] && actions[2..][1..] == actions[3..] && actions[3..][1..] == [];
    assert Runs(s4, []) && Runs(s3, actions[3..]) && Exec(s3, actions[3..]) == s4;
    assert Runs(s2, actions[2..]) && Exec(s2, actions[2..]) == s4;
    assert Runs(s1, actions[1..]) && Exec(s1, actions[1..]) == s4;
  }
}
