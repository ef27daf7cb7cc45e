/** The budgeted loop of the research agent: gather evidence, propose, verify, and repair until the verification settles
    it. Tools are oracles. */
module ResearchLoop {
  import opened Wrappers

  const MAX_REPAIR_COUNT := 2

  const DEFAULT_MAX_TOOL_CALLS := 12

  datatype Kind = Evidence | WebEvidence | LocalRepair | Proposal | Verified | RepairPlan

  datatype Verdict = Passed | NeedsApproval | Repair | OtherVerdict

  datatype NextAction = Complete | AskUser | Fallback

  datatype Error = TaskCancelled | MaxToolCalls | DeadlineExceeded

  datatype Checked = Allowed | Refused(error: Error)

  /** What the policy sees besides the artifacts: a cancellation request and the deadline. */
  datatype Signal = Signal(cancelled: bool, expired: bool)

  /** One research task with the sources chosen for it, and whether its local retrieval gets a repair call. */
  datatype Task = Task(rag: bool, web: bool, github: bool, repair: bool)

  /** What the tools answer in one pass; `repairCount` is what the planning tool reports, if anything. */
  datatype Pass = Pass(deliverable: bool, verdict: Verdict, repairTasks: seq<Task>, repairCount: int)

  /** `Rejected` is the refused entry, `Ended` the normal exit, `Raised` an error that ends the run. */
  datatype Outcome = Rejected | Ended(next: NextAction, verdict: Verdict, deliverable: bool) | Raised(error: Error)

  /** The order of the tests decides which error is raised. */
  function EnforcePolicy(total: nat, max: int, signal: Signal): Checked {
    if signal.cancelled then Refused(TaskCancelled)
    else if total >= max then Refused(MaxToolCalls)
    else if signal.expired then Refused(DeadlineExceeded)
    else Allowed
  }

  /** Verification alone may exceed the number of tool calls. */
  function Admit(kind: Kind, total: nat, max: int, signal: Signal): Checked {
    var checked := EnforcePolicy(total, max, signal);
    if kind == Verified && checked == Refused(MaxToolCalls) then Allowed else checked
  }

  /** A call may be made, by the fields of the signal alone: the task is not cancelled, and below the budget it is within the
      deadline; at the budget only a verification is made. */
  predicate Clear(kind: Kind, total: nat, max: int, signal: Signal) {
    && !signal.cancelled
    && (total < max ==> !signal.expired)
    && (total >= max ==> kind == Verified)
  }

  /** Why a call is refused. */
  predicate Blocks(error: Error, total: nat, max: int, signal: Signal) {
    match error
    case TaskCancelled => signal.cancelled
    case MaxToolCalls => !signal.cancelled && total >= max
    case DeadlineExceeded => !signal.cancelled && total < max && signal.expired
  }

  lemma AdmitIs(kind: Kind, total: nat, max: int, signal: Signal)
    ensures Admit(kind, total, max, signal).Allowed? <==> Clear(kind, total, max, signal)
    ensures Admit(kind, total, max, signal).Refused? ==> Blocks(Admit(kind, total, max, signal).error, total, max, signal)
  {
  }

  function Requests(tasks: seq<Task>): (calls: seq<Kind>) {
    if tasks == [] then []
    else
      var t := tasks[|tasks| - 1];
      Requests(tasks[..|tasks| - 1])
      + (if t.rag then [Evidence] else []) + (if t.github then [Evidence] else [])
  }

  function WebRequests(tasks: seq<Task>): (calls: seq<Kind>) {
    if tasks == [] then []
    else WebRequests(tasks[..|tasks| - 1]) + if tasks[|tasks| - 1].web then [WebEvidence] else []
  }

  function Repairs(tasks: seq<Task>): (calls: seq<Kind>) {
    if tasks == [] then []
    else Repairs(tasks[..|tasks| - 1]) + if tasks[|tasks| - 1].rag && tasks[|tasks| - 1].repair then [LocalRepair] else []
  }

  function Gathering(tasks: seq<Task>): seq<Kind> {
    Requests(tasks) + WebRequests(tasks) + Repairs(tasks)
  }

  function RepairCountAfter(pass: Pass, repairCount: int): int {
    if pass.repairCount == 0 then repairCount + 1 else pass.repairCount
  }

  function Count(artifacts: seq<Kind>, kind: Kind): nat {
    if artifacts == [] then 0
    else Count(artifacts[..|artifacts| - 1], kind) + if artifacts[|artifacts| - 1] == kind then 1 else 0
  }

  lemma {:induction false} CountConcat(a: seq<Kind>, b: seq<Kind>, kind: Kind)
    ensures Count(a + b, kind) == Count(a, kind) + Count(b, kind)
  {
    if b == [] {
      assert a + b == a;
    } else {
      CountConcat(a, b[..|b| - 1], kind);
      assert (a + b)[..|a + b| - 1] == a + b[..|b| - 1];
    }
  }

  lemma {:induction false} GatheringKinds(tasks: seq<Task>)
    ensures forall k <- Gathering(tasks) :: k != Proposal && k != Verified && k != RepairPlan
  {
    if tasks != [] {
      GatheringKinds(tasks[..|tasks| - 1]);
      var rest := Gathering(tasks[..|tasks| - 1]);
      forall k <- Gathering(tasks) ensures k in rest || k == Evidence || k == WebEvidence || k == LocalRepair {
      }
    }
  }

  lemma {:induction false} CountNone(calls: seq<Kind>, kind: Kind)
    requires kind !in calls
    ensures Count(calls, kind) == 0
  {
    if calls != [] {
      CountNone(calls[..|calls| - 1], kind);
    }
  }

  lemma {:induction false} CountMade(calls: seq<Kind>, made: nat, kind: Kind)
    requires made < |calls|
    ensures Count(calls[..made + 1], kind) == Count(calls[..made], kind) + if calls[made] == kind then 1 else 0
  {
    assert calls[..made + 1][..made] == calls[..made];
  }

  lemma {:induction false} CountAll(calls: seq<Kind>, kind: Kind)
    requires forall k <- calls :: k == kind
    ensures Count(calls, kind) == |calls|
  {
    if calls != [] {
      var n := |calls| - 1;
      assert calls[n] in calls && forall k <- calls[..n] :: k in calls;
      CountAll(calls[..n], kind);
    }
  }

  lemma {:induction false} RequestKinds(tasks: seq<Task>)
    ensures (forall k <- Requests(tasks) :: k == Evidence) && (forall k <- WebRequests(tasks) :: k == WebEvidence)
    ensures forall k <- Repairs(tasks) :: k == LocalRepair
  {
    if tasks != [] {
      RequestKinds(tasks[..|tasks| - 1]);
    }
  }

  /** The web searches among the calls of a pass. */
  lemma CountWeb(tasks: seq<Task>)
    ensures Count(Gathering(tasks) + [Proposal, Verified], WebEvidence) == |WebRequests(tasks)|
  {
    RequestKinds(tasks);
    CountNone(Requests(tasks), WebEvidence);
    CountAll(WebRequests(tasks), WebEvidence);
    CountNone(Repairs(tasks), WebEvidence);
    CountConcat(Requests(tasks), WebRequests(tasks), WebEvidence);
    CountConcat(Requests(tasks) + WebRequests(tasks), Repairs(tasks), WebEvidence);
    CountNone([Proposal, Verified], WebEvidence);
    CountConcat(Gathering(tasks), [Proposal, Verified], WebEvidence);
  }

  function CountTasks(tasks: seq<Task>, chosen: Task -> bool): nat {
    if tasks == [] then 0
    else CountTasks(tasks[..|tasks| - 1], chosen) + if chosen(tasks[|tasks| - 1]) then 1 else 0
  }

  lemma {:induction false} RequestLengths(tasks: seq<Task>)
    ensures |Requests(tasks)| == CountTasks(tasks, (t: Task) => t.rag) + CountTasks(tasks, (t: Task) => t.github)
    ensures |WebRequests(tasks)| == CountTasks(tasks, (t: Task) => t.web)
    ensures |Repairs(tasks)| == CountTasks(tasks, (t: Task) => t.rag && t.repair)
  {
    if tasks != [] {
      RequestLengths(tasks[..|tasks| - 1]);
    }
  }

  /** One call for each source of each task, web searches after the others, and local repairs last, only where the local
      source was chosen. */
  lemma GatheringIs(tasks: seq<Task>)
    ensures var calls := Gathering(tasks);
      var first := CountTasks(tasks, (t: Task) => t.rag) + CountTasks(tasks, (t: Task) => t.github);
      var web := CountTasks(tasks, (t: Task) => t.web);
      && |calls| == first + web + CountTasks(tasks, (t: Task) => t.rag && t.repair)
      && forall i :: 0 <= i < |calls| ==>
           calls[i] == if i < first then Evidence else if i < first + web then WebEvidence else LocalRepair
  {
    RequestLengths(tasks);
    RequestKinds(tasks);
    var calls, a, b := Gathering(tasks), Requests(tasks), WebRequests(tasks);
    forall i | 0 <= i < |calls|
      ensures calls[i] == if i < |a| then Evidence else if i < |a| + |b| then WebEvidence else LocalRepair
    {
      if i < |a| {
        assert calls[i] == a[i] && a[i] in a;
      } else if i < |a| + |b| {
        assert calls[i] == b[i - |a|] && b[i - |a|] in b;
      } else {
        var c := Repairs(tasks);
        assert calls[i] == c[i - |a| - |b|] && c[i - |a| - |b|] in c;
      }
    }
  }

  /** Make the calls in order until one is refused; `checks` numbers the policy checks of the run. A web search has been
      started before, so its call only publishes the result. */
  method CallTools(calls: seq<Kind>, before: nat, max: int, signals: nat -> Signal, checks: nat)
    returns (made: nat, checked: Checked, executed: nat)
    ensures made <= |calls| && (checked.Allowed? <==> made == |calls|)
    ensures executed + Count(calls[..made], WebEvidence) == made
    ensures forall k :: 0 <= k < made ==> Clear(calls[k], before + k, max, signals(checks + k))
    ensures checked.Refused? ==> Blocks(checked.error, before + made, max, signals(checks + made))
  {
    made, executed := 0, 0;
    while made < |calls|
      invariant made <= |calls| && executed + Count(calls[..made], WebEvidence) == made
      invariant forall k :: 0 <= k < made ==> Clear(calls[k], before + k, max, signals(checks + k))
    {
      AdmitIs(calls[made], before + made, max, signals(checks + made));
      checked := Admit(calls[made], before + made, max, signals(checks + made));
      if checked.Refused? {
        return;
      }
      CountMade(calls, made, WebEvidence);
      executed := executed + if calls[made] == WebEvidence then 0 else 1;
      made := made + 1;
    }
    checked := Allowed;
  }

  // ---- What n passes do ----------------------------------------------------------------------------------------------

  function TasksAt(tasks: seq<Task>, passes: nat -> Pass, n: nat): seq<Task> {
    if n == 0 then tasks else passes(n - 1).repairTasks
  }

  function RepairCountAt(repairCount: int, passes: nat -> Pass, n: nat): int {
    if n == 0 then repairCount else RepairCountAfter(passes(n - 1), RepairCountAt(repairCount, passes, n - 1))
  }

  /** Pass `n` is followed by another one, budget permitting. */
  predicate Repairable(repairCount: int, passes: nat -> Pass, n: nat) {
    && passes(n).verdict == Repair && RepairCountAt(repairCount, passes, n) < MAX_REPAIR_COUNT && passes(n).repairTasks != []
  }

  /** Each of the first `n` passes is followed by another one. */
  predicate AllRepairable(repairCount: int, passes: nat -> Pass, n: nat) {
    n == 0 || (AllRepairable(repairCount, passes, n - 1) && Repairable(repairCount, passes, n - 1))
  }

  /** The artifacts of the first `n` passes. */
  function Published(tasks: seq<Task>, passes: nat -> Pass, n: nat): seq<Kind>
    decreases n, 0
  {
    if n == 0 then []
    else
      Started(tasks, passes, n - 1) + Gathering(TasksAt(tasks, passes, n - 1)) + [Proposal, Verified]
  }

  /** The artifacts when pass `n` begins: every pass but the first was planned. */
  function Started(tasks: seq<Task>, passes: nat -> Pass, n: nat): seq<Kind>
    decreases n, 1
  {
    Published(tasks, passes, n) + if n == 0 then [] else [RepairPlan]
  }

  lemma CountPass(start: seq<Kind>, gathered: seq<Kind>, kind: Kind)
    requires kind !in gathered
    ensures Count(start + gathered + [Proposal, Verified], kind)
            == Count(start, kind) + if kind == Proposal || kind == Verified then 1 else 0
  {
    CountNone(gathered, kind);
    CountConcat(start, gathered, kind);
    CountConcat(start + gathered, [Proposal, Verified], kind);
    assert [Proposal, Verified][..1] == [Proposal];
  }

  /** Every pass proposes once and verifies once, and every pass but the first was planned once. */
  lemma {:induction false} PublishedCounts(tasks: seq<Task>, passes: nat -> Pass, n: nat, kind: Kind)
    requires kind == Proposal || kind == Verified || kind == RepairPlan
    ensures Count(Published(tasks, passes, n), kind) == if kind == RepairPlan && n > 0 then n - 1 else n
  {
    if n > 0 {
      PublishedCounts(tasks, passes, n - 1, kind);
      GatheringKinds(TasksAt(tasks, passes, n - 1));
      CountPass(Started(tasks, passes, n - 1), Gathering(TasksAt(tasks, passes, n - 1)), kind);
      CountConcat(Published(tasks, passes, n - 1), [RepairPlan], kind);
    }
  }

  lemma {:induction false} PublishedLength(tasks: seq<Task>, passes: nat -> Pass, n: nat)
    ensures |Published(tasks, passes, n)| >= 3 * n - 1
  {
    if n > 0 {
      PublishedLength(tasks, passes, n - 1);
    }
  }

  /** The action when no repair follows. */
  function ActionFor(verdict: Verdict): NextAction {
    match verdict
    case Passed => Complete
    case NeedsApproval => AskUser
    case Repair => Fallback
    case OtherVerdict => Fallback
  }

  /** Why a run that made `n` passes ended with this action. */
  predicate Settled(next: NextAction, repairCount: int, passes: nat -> Pass, n: nat, planning: Checked)
    requires n > 0
  {
    match passes(n - 1).verdict
    case Passed => next == Complete
    case NeedsApproval => next == AskUser
    case OtherVerdict => next == Fallback
    case Repair =>
      && next == Fallback
      && (|| RepairCountAt(repairCount, passes, n - 1) >= MAX_REPAIR_COUNT
          || (planning.Refused? && planning.error != TaskCancelled)
          || passes(n - 1).repairTasks == [])
  }

  /** A repair is planned after pass `n - 1`. */
  predicate Planned(repairCount: int, passes: nat -> Pass, n: nat)
    requires n > 0
  {
    passes(n - 1).verdict == Repair && RepairCountAt(repairCount, passes, n - 1) < MAX_REPAIR_COUNT
  }

  /** A normal exit after `n` passes: every pass before the last asked for repair, the last verification decides, and the
      artifacts are those of the passes, and of the last planning call if there was one. */
  predicate EndsAfter(outcome: Outcome, artifacts: seq<Kind>, repairCount: int, tasks: seq<Task>, passes: nat -> Pass,
                      n: nat, planning: Checked)
    requires outcome.Ended?
  {
    && n > 0
    && AllRepairable(repairCount, passes, n - 1)
    && Settled(outcome.next, repairCount, passes, n, planning)
    && outcome.verdict == passes(n - 1).verdict && outcome.deliverable == passes(n - 1).deliverable
    && artifacts == if Planned(repairCount, passes, n) && planning.Allowed? then Started(tasks, passes, n)
                    else Published(tasks, passes, n)
  }

  /** Every artifact was checked by the next policy check of the run, the first of which was made at the entry. */
  predicate AllClear(artifacts: seq<Kind>, base: nat, max: int, signals: nat -> Signal) {
    forall i :: 0 <= i < |artifacts| ==> Clear(artifacts[i], base + i, max, signals(i + 1))
  }

  /** The check after the last artifact refuses the next call. */
  predicate BlockedAt(error: Error, artifacts: seq<Kind>, base: nat, max: int, signals: nat -> Signal) {
    Blocks(error, base + |artifacts|, max, signals(|artifacts| + 1))
  }

  lemma ClearGrows(before: seq<Kind>, more: seq<Kind>, base: nat, max: int, signals: nat -> Signal)
    requires AllClear(before, base, max, signals)
    requires forall k :: 0 <= k < |more| ==> Clear(more[k], base + |before| + k, max, signals(|before| + 1 + k))
    ensures AllClear(before + more, base, max, signals)
  {
    var all := before + more;
    forall i | 0 <= i < |all| ensures Clear(all[i], base + i, max, signals(i + 1)) {
      if i < |before| {
        assert all[i] == before[i];
      } else {
        var k := i - |before|;
        assert all[i] == more[k];
        assert Clear(more[k], base + |before| + k, max, signals(|before| + 1 + k));
      }
    }
  }

  /** Admitted calls keep to the budget, except for the verification that ends the pass. */
  lemma AdmittedWithin(tasks: seq<Task>, before: nat, max: int, signals: nat -> Signal, checks: nat, made: nat)
    requires var calls := Gathering(tasks) + [Proposal, Verified];
      && before <= max && made <= |calls|
      && forall k :: 0 <= k < made ==> Clear(calls[k], before + k, max, signals(checks + k))
    ensures before + made <= max + 1
    ensures before + made == max + 1 ==> made == |Gathering(tasks)| + 2
  {
    GatheringKinds(tasks);
    var calls := Gathering(tasks) + [Proposal, Verified];
    var last := if made == |calls| then made - 2 else made - 1;
    if last >= 0 {
      assert calls[last] != Verified by {
        assert last < |Gathering(tasks)| ==> calls[last] in Gathering(tasks);
      }
      assert Clear(calls[last], before + last, max, signals(checks + last));
    }
  }

  /** The calls of a pass, cut short or not, follow what was there when it began. */
  lemma PassPublishes(tasks: seq<Task>, passes: nat -> Pass, n: nat, made: nat)
    requires made <= |Gathering(TasksAt(tasks, passes, n))| + 2
    ensures var calls := Gathering(TasksAt(tasks, passes, n)) + [Proposal, Verified];
      && Started(tasks, passes, n) + calls[..made] <= Published(tasks, passes, n + 1)
      && Started(tasks, passes, n) + calls == Published(tasks, passes, n + 1)
  {
    var calls := Gathering(TasksAt(tasks, passes, n)) + [Proposal, Verified];
    assert Started(tasks, passes, n) + calls == Published(tasks, passes, n + 1);
    assert calls[..made] <= calls;
  }

  /** The web searches of the first `n` passes that have no artifact. */
  function Unpublished(artifacts: seq<Kind>, tasks: seq<Task>, passes: nat -> Pass, n: nat): int {
    Count(Published(tasks, passes, n), WebEvidence) - Count(artifacts, WebEvidence)
  }

  /** The calls executed when pass `n` is cut short: those with an artifact, and the web searches of that pass that have
      none, because they were started before a check refused the publication of their result. */
  predicate CutShort(executed: nat, artifacts: seq<Kind>, tasks: seq<Task>, passes: nat -> Pass, n: nat) {
    && executed == |artifacts| + Unpublished(artifacts, tasks, passes, n + 1)
    && |artifacts| <= executed <= |artifacts| + |WebRequests(TasksAt(tasks, passes, n))|
  }

  lemma WebWithin(tasks: seq<Task>, made: nat)
    requires made <= |Gathering(tasks)| + 2
    ensures Count((Gathering(tasks) + [Proposal, Verified])[..made], WebEvidence) <= |WebRequests(tasks)|
  {
    var calls := Gathering(tasks) + [Proposal, Verified];
    CountWeb(tasks);
    CountConcat(calls[..made], calls[made..], WebEvidence);
    assert calls[..made] + calls[made..] == calls;
  }

  /** What a pass has executed: the calls made but the web searches, and all web searches. */
  lemma PassExecutes(tasks: seq<Task>, passes: nat -> Pass, n: nat, made: nat, called: nat)
    requires made <= |Gathering(TasksAt(tasks, passes, n))| + 2
    requires var calls := Gathering(TasksAt(tasks, passes, n)) + [Proposal, Verified];
      called + Count(calls[..made], WebEvidence) == made
    ensures var todo := TasksAt(tasks, passes, n);
      var calls := Gathering(todo) + [Proposal, Verified];
      CutShort(|Started(tasks, passes, n)| + |WebRequests(todo)| + called, Started(tasks, passes, n) + calls[..made],
               tasks, passes, n)
  {
    var calls := Gathering(TasksAt(tasks, passes, n)) + [Proposal, Verified];
    PassPublishes(tasks, passes, n, made);
    CountWeb(TasksAt(tasks, passes, n));
    WebWithin(TasksAt(tasks, passes, n), made);
    CountConcat(Started(tasks, passes, n), calls, WebEvidence);
    CountConcat(Started(tasks, passes, n), calls[..made], WebEvidence);
  }

  /** At most one artifact more than the maximum, and then the last one is a verification. */
  predicate WithinBudget(base: nat, max: int, artifacts: seq<Kind>) {
    && base + |artifacts| <= max + 1
    && (base + |artifacts| == max + 1 ==> artifacts != [] && artifacts[|artifacts| - 1] == Verified)
  }

  /** What the checks of a pass leave: clear artifacts within the budget. */
  lemma PassIsClear(tasks: seq<Task>, before: seq<Kind>, made: nat, base: nat, max: int, signals: nat -> Signal)
    requires base + |before| <= max && AllClear(before, base, max, signals) && made <= |Gathering(tasks)| + 2
    requires var calls := Gathering(tasks) + [Proposal, Verified];
      forall k :: 0 <= k < made ==> Clear(calls[k], base + |before| + k, max, signals(|before| + 1 + k))
    ensures var after := before + (Gathering(tasks) + [Proposal, Verified])[..made];
      AllClear(after, base, max, signals) && WithinBudget(base, max, after)
  {
    var calls := Gathering(tasks) + [Proposal, Verified];
    AdmittedWithin(tasks, base + |before|, max, signals, |before| + 1, made);
    ClearGrows(before, calls[..made], base, max, signals);
  }

  /** Pass `n`: start the web searches, gather, propose, verify. */
  method RunPass(tasks: seq<Task>, before: seq<Kind>, total: nat, base: nat, max: int, signals: nat -> Signal, checks: nat,
                 ghost initialTasks: seq<Task>, ghost passes: nat -> Pass, ghost n: nat)
    returns (after: seq<Kind>, checked: Checked, executed: nat)
    requires checks == |before| + 1 && AllClear(before, base, max, signals)
    requires base + |before| <= max && before == Started(initialTasks, passes, n) && tasks == TasksAt(initialTasks, passes, n)
    requires total == |before|
    ensures before <= after <= Published(initialTasks, passes, n + 1)
    ensures checked.Allowed? ==> after == Published(initialTasks, passes, n + 1)
    ensures WithinBudget(base, max, after)
    ensures |before| + 1 < |after| || checked.Refused?
    ensures AllClear(after, base, max, signals)
    ensures checked.Refused? ==> BlockedAt(checked.error, after, base, max, signals)
    ensures CutShort(executed, after, initialTasks, passes, n)
    ensures checked.Allowed? ==> executed == |after|
  {
    var calls := Gathering(tasks) + [Proposal, Verified];
    var made, called;
    made, checked, called := CallTools(calls, base + |before|, max, signals, checks);
    after := before + calls[..made];
    assert |after| == |before| + made && checks + made == |after| + 1;
    if checked.Refused? {
      assert BlockedAt(checked.error, after, base, max, signals);
    } else {
      assert calls[..made] == calls;
    }
    PassIsClear(tasks, before, made, base, max, signals);
    executed := total + |WebRequests(tasks)| + called;
    PassPublishes(initialTasks, passes, n, made);
    PassExecutes(initialTasks, passes, n, made, called);
  }

  /** An error that a policy check raised in the middle of pass `n` or before the one after it. */
  predicate RaisesAfter(error: Error, artifacts: seq<Kind>, base: nat, max: int, tasks: seq<Task>,
                              passes: nat -> Pass, n: nat, signals: nat -> Signal) {
    artifacts <= Published(tasks, passes, n + 1) && BlockedAt(error, artifacts, base, max, signals)
  }

  lemma PlanningRaises(base: nat, max: int, tasks: seq<Task>, passes: nat -> Pass, n: nat, signals: nat -> Signal)
    requires signals(|Published(tasks, passes, n)| + 1).cancelled
    ensures RaisesAfter(TaskCancelled, Published(tasks, passes, n), base, max, tasks, passes, n, signals)
  {
    PassPublishes(tasks, passes, n, 0);
    assert Published(tasks, passes, n) <= Started(tasks, passes, n) <= Published(tasks, passes, n + 1);
  }

  lemma EndsHere(outcome: Outcome, artifacts: seq<Kind>, repairCount: int, tasks: seq<Task>, passes: nat -> Pass, n: nat,
                 planning: Checked)
    requires n > 0 && AllRepairable(repairCount, passes, n - 1)
    requires var last := passes(n - 1); outcome == Ended(ActionFor(last.verdict), last.verdict, last.deliverable)
    requires Planned(repairCount, passes, n) ==>
      planning != Refused(TaskCancelled) && (planning.Refused? || passes(n - 1).repairTasks == [])
    requires artifacts == if Planned(repairCount, passes, n) && planning.Allowed? then Started(tasks, passes, n)
                          else Published(tasks, passes, n)
    ensures EndsAfter(outcome, artifacts, repairCount, tasks, passes, n, planning)
  {
  }

  /** How a run stops. */
  predicate Stops(outcome: Outcome, artifacts: seq<Kind>, base: nat, max: int, repairCount: int, tasks: seq<Task>,
                        passes: nat -> Pass, signals: nat -> Signal, n: nat, planning: Checked) {
    match outcome
    case Rejected => false
    case Ended(_, _, _) => EndsAfter(outcome, artifacts, repairCount, tasks, passes, n, planning)
    case Raised(error) => RaisesAfter(error, artifacts, base, max, tasks, passes, n, signals)
  }

  /** What follows pass `n - 1`: stop, or plan the repair and go on. */
  method Decide(pass: Pass, repairs: int, published: seq<Kind>, base: nat, max: int, signals: nat -> Signal, check: nat,
                ghost repairCount: int, ghost tasks: seq<Task>, ghost passes: nat -> Pass, ghost n: nat)
    returns (outcome: Option<Outcome>, artifacts: seq<Kind>, planning: Checked)
    requires n > 0 && pass == passes(n - 1) && repairs == RepairCountAt(repairCount, passes, n - 1)
    requires AllRepairable(repairCount, passes, n - 1)
    requires published == Published(tasks, passes, n) && WithinBudget(base, max, published)
    requires check == |published| + 1 && AllClear(published, base, max, signals)
    ensures WithinBudget(base, max, artifacts) && published <= artifacts && AllClear(artifacts, base, max, signals)
    ensures planning.Refused? ==> BlockedAt(planning.error, artifacts, base, max, signals)
    ensures outcome.Some? ==>
      Stops(outcome.value, artifacts, base, max, repairCount, tasks, passes, signals, n, planning)
    ensures outcome.None? ==>
      && Repairable(repairCount, passes, n - 1) && planning.Allowed?
      && artifacts == Started(tasks, passes, n) && base + |artifacts| <= max
  {
    artifacts, planning, outcome := published, Allowed, None;
    if pass.verdict != Repair || repairs >= MAX_REPAIR_COUNT {
      outcome := Some(Ended(ActionFor(pass.verdict), pass.verdict, pass.deliverable));
      EndsHere(outcome.value, artifacts, repairCount, tasks, passes, n, planning);
      return;
    }
    planning := Admit(RepairPlan, base + |artifacts|, max, signals(check));
    AdmitIs(RepairPlan, base + |artifacts|, max, signals(check));
    if planning == Refused(TaskCancelled) {
      outcome := Some(Raised(TaskCancelled));
      PlanningRaises(base, max, tasks, passes, n, signals);
      return;
    }
    if planning.Allowed? {
      ClearGrows(artifacts, [RepairPlan], base, max, signals);
      artifacts := artifacts + [RepairPlan];
    }
    if planning.Refused? || pass.repairTasks == [] {
      outcome := Some(Ended(Fallback, pass.verdict, pass.deliverable));
      EndsHere(outcome.value, artifacts, repairCount, tasks, passes, n, planning);
    }
  }

  /** The loop after an admitted entry. */
  method RunPasses(base: nat, max: int, repairCount: int, initialTasks: seq<Task>, passes: nat -> Pass,
                   signals: nat -> Signal)
    returns (outcome: Outcome, artifacts: seq<Kind>, n: nat, planning: Checked, executed: nat, cut: bool)
    requires base < max
    ensures Stops(outcome, artifacts, base, max, repairCount, initialTasks, passes, signals, n, planning)
    ensures WithinBudget(base, max, artifacts) && (cut ==> outcome.Raised?)
    ensures AllClear(artifacts, base, max, signals)
    ensures planning.Refused? ==> BlockedAt(planning.error, artifacts, base, max, signals)
    ensures if cut then CutShort(executed, artifacts, initialTasks, passes, n) else executed == |artifacts|
  {
    n, planning, artifacts, executed, cut := 0, Allowed, [], 0, false;
    var checks: nat := 1;
    var repairs, tasks := repairCount, initialTasks;
    while true
      invariant tasks == TasksAt(initialTasks, passes, n) && repairs == RepairCountAt(repairCount, passes, n)
      invariant artifacts == Started(initialTasks, passes, n)
      invariant AllRepairable(repairCount, passes, n)
      invariant base + |artifacts| <= max && executed == |artifacts| && !cut && planning.Allowed?
      invariant checks == |artifacts| + 1 && AllClear(artifacts, base, max, signals)
      decreases max - base - |artifacts|
    {
      var after, checked, total := RunPass(tasks, artifacts, executed, base, max, signals, checks, initialTasks, passes, n);
      checks := checks + |after| - |artifacts|;
      if checked.Refused? {
        return Raised(checked.error), after, n, planning, total, true;
      }
      assert checks == |after| + 1;
      var pass := passes(n);
      n := n + 1;
      var stop;
      stop, artifacts, planning :=
        Decide(pass, repairs, after, base, max, signals, checks, repairCount, initialTasks, passes, n);
      executed := total + |artifacts| - |after|;   // an allowed planning call
      checks := checks + 1;
      if stop.Some? {
        outcome := stop.value;
        return;
      }
      repairs := if pass.repairCount != 0 then pass.repairCount else repairs + 1;
      tasks := pass.repairTasks;
    }
  }

  /** The loop ends whatever the planning tool reports as repair count. On a normal exit the last verification decides the
      action. A refused entry makes no call, and the artifacts of an admitted run stay within the budget but for the last
      verification. Calls without an artifact are only the web searches of a pass that a refused check cuts short. */
  method ResearchAgent(base: nat, maxToolCalls: int, repairCount: int, initialTasks: seq<Task>, passes: nat -> Pass,
                       signals: nat -> Signal)
    returns (outcome: Outcome, artifacts: seq<Kind>, n: nat, planning: Checked, executed: nat, cut: bool)
    ensures var max := if maxToolCalls == 0 then 12 else maxToolCalls;
      && (signals(0).cancelled ==> outcome == Raised(TaskCancelled) && executed == 0)
      && (outcome.Rejected? <==> !signals(0).cancelled && (base >= max || signals(0).expired))
      && (outcome.Rejected? ==> executed == 0)
      && AllClear(artifacts, base, max, signals)
      && (artifacts != [] ==> WithinBudget(base, max, artifacts))
      && (executed > 0 ==> base + executed <= max + 1 + if cut then |WebRequests(TasksAt(initialTasks, passes, n))| else 0)
      && (outcome.Ended? ==> EndsAfter(outcome, artifacts, repairCount, initialTasks, passes, n, planning))
      && (outcome.Ended? && planning.Refused? ==> BlockedAt(planning.error, artifacts, base, max, signals))
      && (outcome.Raised? ==> if signals(0).cancelled then outcome.error == TaskCancelled
                              else RaisesAfter(outcome.error, artifacts, base, max, initialTasks, passes, n, signals))
      && (if cut then outcome.Raised? && CutShort(executed, artifacts, initialTasks, passes, n)
          else executed == |artifacts|)
  {
    var max := if maxToolCalls == 0 then DEFAULT_MAX_TOOL_CALLS else maxToolCalls;
    var entry := EnforcePolicy(base, max, signals(0));
    if entry == Refused(TaskCancelled) {
      return Raised(TaskCancelled), [], 0, Allowed, 0, false;
    }
    if entry.Refused? {
      return Rejected, [], 0, Allowed, 0, false;
    }
    outcome, artifacts, n, planning, executed, cut := RunPasses(base, max, repairCount, initialTasks, passes, signals);
  }

  /** The planning tool counted one up in each of the first `n` passes, or reported no count. */
  predicate CountsUp(repairCount: int, passes: nat -> Pass, n: nat) {
    n == 0 || (CountsUp(repairCount, passes, n - 1)
               && passes(n - 1).repairCount in {0, RepairCountAt(repairCount, passes, n - 1) + 1})
  }

  lemma {:induction false} HonestCount(repairCount: int, passes: nat -> Pass, n: nat)
    requires CountsUp(repairCount, passes, n)
    ensures RepairCountAt(repairCount, passes, n) == repairCount + n
  {
    if n > 0 {
      HonestCount(repairCount, passes, n - 1);
    }
  }

  /** How many passes the contract of `ResearchAgent` leaves: with a planning tool that counts one up, those that the
      repair limit allows; with any tool, those that the budget pays for. */
  lemma PassesBounded(base: nat, max: int, repairCount: int, tasks: seq<Task>, passes: nat -> Pass, n: nat)
    requires n > 0 && AllRepairable(repairCount, passes, n - 1)
    requires base + |Published(tasks, passes, n)| <= max + 1
    ensures 3 * n <= max - base + 2
    ensures CountsUp(repairCount, passes, n - 1)
      ==> n <= if repairCount < 2 then 3 - repairCount else 1
  {
    PublishedLength(tasks, passes, n);
    if n > 1 && CountsUp(repairCount, passes, n - 1) {
      HonestCount(repairCount, passes, n - 2);
      assert Repairable(repairCount, passes, n - 2);
    }
  }
}
