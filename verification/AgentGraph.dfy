/** The orchestration graph as a state machine over its nodes: what the models decide is chosen at every step, and so is
    what the human answers. */
module AgentGraph {
  import opened AgentTables
  import opened Wrappers
  import opened Text
  import R = ResearchLoop

  // ---- The draft of the answer agent ---------------------------------------------------------------------------------

  datatype Repository = Repository(name: string, description: string)

  /** What the answer agent reads of a tool's data; empty stands for missing. */
  datatype ToolData = ToolData(answer: string, repositories: seq<Repository>, readme: string)

  const README_LIMIT := 4000

  const REPOSITORY_LIMIT := 5

  const NO_CLEAR_ANSWER: string :=
    "Registered tools ran, but no clear answer was produced. "
    + "Please add more source material or ask a more specific question."

  function Lines(repositories: seq<Repository>): seq<string> {
    if repositories == [] then []
    else
      var last := repositories[|repositories| - 1];
      Lines(repositories[..|repositories| - 1]) + ["- " + last.name + ": " + last.description]
  }

  function Listing(repositories: seq<Repository>): string {
    var top := if |repositories| <= REPOSITORY_LIMIT then repositories else repositories[..REPOSITORY_LIMIT];
    Join(["Registered GitHub search returned:"] + Lines(top), "\n")
  }

  function ReadmeStart(readme: string): string {
    if |readme| <= README_LIMIT then readme else readme[..README_LIMIT]
  }

  /** The last artifact that has anything to say. */
  function Speaking(artifacts: seq<ToolData>): Option<ToolData> {
    if artifacts == [] then None
    else
      var last := artifacts[|artifacts| - 1];
      if last.answer != "" || last.repositories != [] || last.readme != "" then Some(last)
      else Speaking(artifacts[..|artifacts| - 1])
  }

  /** `_answer_from_tool_artifacts` */
  function AnswerFromTools(artifacts: seq<ToolData>): string {
    match Speaking(artifacts)
    case Some(data) =>
      if data.answer != "" then data.answer
      else if data.repositories != [] then Listing(data.repositories)
      else ReadmeStart(data.readme)
    case None =>
      NO_CLEAR_ANSWER
  }

  /** A tool result that has something to say. */
  predicate Says(data: ToolData) {
    data.answer != "" || data.repositories != [] || data.readme != ""
  }

  /** The draft of the tools: the newest artifact that says anything gives its answer, else its repositories, else the start
      of its readme. */
  lemma {:induction false} NewestSpeaks(artifacts: seq<ToolData>, i: nat)
    requires i < |artifacts| && Says(artifacts[i]) && forall j :: i < j < |artifacts| ==> !Says(artifacts[j])
    ensures var data := artifacts[i];
      AnswerFromTools(artifacts)
      == if data.answer != "" then data.answer
         else if data.repositories != [] then Listing(data.repositories)
         else if |data.readme| <= 4000 then data.readme else data.readme[..4000]
    ensures Speaking(artifacts) == Some(artifacts[i])
  {
    if i < |artifacts| - 1 {
      NewestSpeaks(artifacts[..|artifacts| - 1], i);
    }
  }

  /** The listing has a title and at most five repositories, one to a line. */
  lemma {:induction false} ListedRepositories(repositories: seq<Repository>, i: nat)
    requires i < |repositories|
    ensures |Lines(repositories)| == |repositories|
    ensures Lines(repositories)[i] == "- " + repositories[i].name + ": " + repositories[i].description
  {
    var n := |repositories| - 1;
    if n > 0 {
      ListedRepositories(repositories[..n], if i < n then i else 0);
    }
  }

  predicate Blank(s: string) { Strip(s) == "" }

  lemma VisibleIsNotBlank(s: string, i: nat)
    requires i < |s| && !IsSpace(s[i])
    ensures !Blank(s)
  {
    var a, b := StripCut(s);
  }

  lemma ListingIsNotBlank(repositories: seq<Repository>)
    ensures !Blank(Listing(repositories))
  {
    var top := if |repositories| <= REPOSITORY_LIMIT then repositories else repositories[..REPOSITORY_LIMIT];
    var all := ["Registered GitHub search returned:"] + Lines(top);
    assert all[0] == "Registered GitHub search returned:" && Listing(repositories)[0] == 'R';
    VisibleIsNotBlank(Listing(repositories), 0);
  }

  lemma DefaultIsNotBlank()
    ensures !Blank(NO_CLEAR_ANSWER)
  {
    var n := |NO_CLEAR_ANSWER| - 1;
    assert NO_CLEAR_ANSWER[n] == '.';
    VisibleIsNotBlank(NO_CLEAR_ANSWER, n);
  }

  /** The draft of the tools is blank exactly when the artifact it is taken from has a blank answer, or no answer, no
      repositories and a readme whose first 4000 characters are blank. */
  lemma BlankDraftIff(artifacts: seq<ToolData>)
    ensures Blank(AnswerFromTools(artifacts)) <==>
      && Speaking(artifacts).Some?
      && var data := Speaking(artifacts).value;
         if data.answer != "" then Blank(data.answer)
         else data.repositories == [] && Blank(if |data.readme| <= 4000 then data.readme else data.readme[..4000])
  {
    var speaking := Speaking(artifacts);
    if speaking.None? {
      DefaultIsNotBlank();
    } else {
      ListingIsNotBlank(speaking.value.repositories);
    }
  }

  // ---- The graph -----------------------------------------------------------------------------------------------------

  /** `Gate` is `approval_gate`, where the graph is paused until a human answers. */
  datatype Node = Supervisor | Answer | Planner | Gate | Research | Review | Final | FallbackResponse | End

  datatype Verification = NoVerification | Verification(verdict: R.Verdict)

  /** What was published at the end. */
  datatype Publication = Nothing | Draft | Proposal | SafeFallback

  /** `approvalRequired` belongs to the plan in force, `approved` tells whether a human has approved since that plan was
      made, `from` is the node that ran before, `answered` that the answer agent ran, `direct` that it called no tool. */
  datatype State = State(
    node: Node,
    from: Node,
    status: Status,
    next: R.NextAction,
    answered: bool,
    direct: bool,
    draft: string,
    approvalRequired: bool,
    approved: bool,
    verification: Verification,
    deliverable: bool,
    published: Publication)

  datatype Choice =
    | Supervise(answer: bool)
    | AnswerDirect(text: string)                      // the model's own answer, which the gateway refuses when blank
    | AnswerFrom(fallback: bool, artifacts: seq<ToolData>)
    | PlanWith(approvalRequired: bool)
    | Decide(decision: Option<string>)                // the human's action; None when it is not a dictionary
    | ResearchWith(outcome: R.Outcome)
    | Go                                              // nodes that decide by the state alone

  /** An outcome that the loop of the research agent can return: the last verification decides. */
  predicate Possible(outcome: R.Outcome) {
    match outcome
    case Rejected => true
    case Ended(next, verdict, _) => next == R.ActionFor(verdict)
    case Raised(_) => false
  }

  /** Every normal return of the research loop is one the graph expects. */
  lemma ResearchOutcomesArePossible(outcome: R.Outcome, artifacts: seq<R.Kind>, repairCount: int, tasks: seq<R.Task>,
                                    passes: nat -> R.Pass, n: nat, planning: R.Checked)
    requires outcome.Ended? && R.EndsAfter(outcome, artifacts, repairCount, tasks, passes, n, planning)
    ensures Possible(outcome)
  {
  }

  predicate Enabled(s: State, c: Choice) {
    match s.node
    case Supervisor => c.Supervise?
    case Answer => (c.AnswerDirect? && !Blank(c.text)) || c.AnswerFrom?
    case Planner => c.PlanWith?
    case Gate => c.Decide?
    case Research => c.ResearchWith? && Possible(c.outcome)
    case End => false
    case _ => c.Go?
  }

  // ---- Routes --------------------------------------------------------------------------------------------------------

  function SupervisorRoute(answer: bool): Node {
    if answer then Answer else Planner
  }

  function AnswerRoute(fallback: bool): Node {
    if fallback then FallbackResponse else Final
  }

  function PlanRoute(approvalRequired: bool): Node {
    if approvalRequired then Gate else Research
  }

  function ResearchRoute(next: R.NextAction): Node {
    match next
    case Complete => Review
    case AskUser => Gate
    case Fallback => FallbackResponse
  }

  function ReviewRoute(next: R.NextAction): Node {
    match next
    case Complete => Final
    case AskUser => Gate
    case Fallback => FallbackResponse
  }

  function GateRoute(decision: Option<string>): Node {
    var action := if decision.Some? && decision.value != "" then decision.value else "reject";
    if action == "edit" then Planner else if action == "approve" then Research else FallbackResponse
  }

  // ---- Nodes ---------------------------------------------------------------------------------------------------------

  function ReviewDecision(s: State): R.NextAction {
    if s.verification == Verification(R.NeedsApproval) then R.AskUser
    else if s.verification == Verification(R.Passed) && s.deliverable then R.Complete
    else R.Fallback
  }

  /** Run the current node, then follow its edge. */
  function Apply(s: State, c: Choice): State
    requires Enabled(s, c)
  {
    var t := s.(from := s.node);
    match s.node
    case Supervisor => t.(status := Active, node := SupervisorRoute(c.answer))
    case Answer =>
      if c.AnswerDirect? then t.(status := Active, answered := true, direct := true, draft := c.text, node := AnswerRoute(false))
      else
        t.(status := Active, answered := true, direct := false, node := AnswerRoute(c.fallback),
           draft := if c.fallback then "" else AnswerFromTools(c.artifacts))
    case Planner =>
      t.(status := if c.approvalRequired then WaitingUser else Active,
         approvalRequired := c.approvalRequired, approved := false, node := PlanRoute(c.approvalRequired))
    case Gate =>
      var node := GateRoute(c.decision);
      t.(status := Active, approved := s.approved || node == Research, node := node)
    case Research =>
      if c.outcome.Ended? then
        t.(status := Active, next := c.outcome.next, verification := Verification(c.outcome.verdict),
           deliverable := c.outcome.deliverable, node := ResearchRoute(c.outcome.next))
      else t.(status := Failed, next := R.Fallback, node := ResearchRoute(R.Fallback))
    case Review =>
      t.(status := Active, next := ReviewDecision(s), node := ReviewRoute(ReviewDecision(s)))
    case Final => t.(status := Completed, published := if !Blank(s.draft) then Draft else Proposal, node := End)
    case FallbackResponse => t.(status := Completed, published := SafeFallback, node := End)
    case End => s
  }

  const INITIAL := State(Supervisor, Supervisor, Active, R.Fallback, false, false, "", false, false, NoVerification, false,
                         Nothing)

  predicate Runs(s: State, choices: seq<Choice>)
    decreases |choices|
  {
    choices == [] || (Enabled(s, choices[0]) && Runs(Apply(s, choices[0]), choices[1..]))
  }

  function Exec(s: State, choices: seq<Choice>): State
    requires Runs(s, choices)
    decreases |choices|
  {
    if choices == [] then s else Exec(Apply(s, choices[0]), choices[1..])
  }

  // ---- What every reachable state satisfies --------------------------------------------------------------------------

  predicate Earned(s: State) {
    s.verification == Verification(R.Passed) && s.deliverable && (s.approvalRequired ==> s.approved)
  }

  predicate Inv(s: State) {
    && (s.node == Research ==> s.approvalRequired ==> s.approved)
    && (s.node == Gate ==> s.from == Planner || s.from == Research)
    && (s.node == Gate ==> (s.status == WaitingUser <==> s.from == Planner))
    && (s.node == Review ==> s.verification == Verification(R.Passed) && (s.approvalRequired ==> s.approved))
    && (s.node == Final ==> if s.answered then s.from == Answer else s.from == Review && Earned(s))
    && (s.draft != "" ==> s.answered) && (s.direct ==> !Blank(s.draft)) && (s.node in {Supervisor, Answer} ==> s.verification == NoVerification)
    && (s.answered ==> s.node in {Final, FallbackResponse, End} && s.verification == NoVerification)
    && (s.node == End <==> s.published != Nothing)
    && (s.published == Draft ==> !Blank(s.draft))
    && (s.published == Proposal ==> if s.answered then Blank(s.draft) else Earned(s))
    && (s.node == End ==> s.status == Completed)
    && (s.status == Failed ==> s.node == FallbackResponse)
  }

  lemma StepKeepsInv(s: State, c: Choice)
    requires Inv(s) && Enabled(s, c)
    ensures Inv(Apply(s, c))
  {
  }

  lemma {:induction false} ExecKeepsInv(s: State, choices: seq<Choice>)
    requires Inv(s) && Runs(s, choices)
    ensures Inv(Exec(s, choices))
    decreases |choices|
  {
    if choices != [] {
      StepKeepsInv(s, choices[0]);
      ExecKeepsInv(Apply(s, choices[0]), choices[1..]);
    }
  }

  /** Safety over all runs. Research never runs on a plan that requires approval before a human approved it. On the
      research route a final response is given only with a passed verification, content, and approval where required. A
      finished run is `completed`, even after the research agent failed on its budget. */
  lemma PublicationIsEarned(choices: seq<Choice>)
    requires Runs(INITIAL, choices)
    ensures var s := Exec(INITIAL, choices);
      && (s.node == Research ==> s.approvalRequired ==> s.approved)
      && (s.node == Final ==> s.answered || Earned(s))
      && (s.node == End ==> s.status == Completed)
      && (s.published == Draft ==> s.answered)
  {
    ExecKeepsInv(INITIAL, choices);
  }

  /** A proposal is published without a passed verification exactly when the answer agent took a blank draft from its
      tools: the final response then falls through to the proposal template. */
  lemma UnverifiedProposalIff(choices: seq<Choice>)
    requires Runs(INITIAL, choices) && Exec(INITIAL, choices).published == Proposal
    ensures var s := Exec(INITIAL, choices); !Earned(s) <==> s.answered && !s.direct && Blank(s.draft)
  {
    ExecKeepsInv(INITIAL, choices);
  }

  lemma RunsOfThree(a: Choice, b: Choice, c: Choice)
    requires Enabled(INITIAL, a) && Enabled(Apply(INITIAL, a), b) && Enabled(Apply(Apply(INITIAL, a), b), c)
    ensures Runs(INITIAL, [a, b, c]) && Exec(INITIAL, [a, b, c]) == Apply(Apply(Apply(INITIAL, a), b), c)
  {
    var s1 := Apply(INITIAL, a);
    var s2 := Apply(s1, b);
    var s3 := Apply(s2, c);
    assert [a, b, c][1..] == [b, c] && [b, c][1..] == [c] && [c][1..] == [];
    assert Runs(s3, []) && Exec(s3, []) == s3;
    assert Runs(s2, [c]) && Exec(s2, [c]) == s3;
    assert Runs(s1, [b, c]) && Exec(s1, [b, c]) == s3;
  }

  /** A tool whose answer is a single space is enough. */
  lemma BlankAnswerPublishesTemplate()
    ensures var choices := [Supervise(true), AnswerFrom(false, [ToolData(" ", [], "")]), Go];
      && Runs(INITIAL, choices)
      && var s := Exec(INITIAL, choices);
         s.published == Proposal && s.verification == NoVerification && !s.deliverable
  {
    var tools := [ToolData(" ", [], "")];
    BlankDraftIff(tools);
    var a, b := StripCut(" ");
    RunsOfThree(Supervise(true), AnswerFrom(false, tools), Go);
  }

  /** The branch of the review that asks the user is never taken: review is reached only with a passed verification. */
  lemma ReviewNeverAsks(choices: seq<Choice>)
    requires Runs(INITIAL, choices) && Exec(INITIAL, choices).node == Review
    ensures var s := Exec(INITIAL, choices);
      && ReviewDecision(s) != R.AskUser
      && (ReviewDecision(s) == R.Complete <==> s.deliverable)
  {
    ExecKeepsInv(INITIAL, choices);
  }

  /** A paused run can be resumed through the API exactly when the planner paused it: a pause that the research agent asked
      for leaves the status at "running", and `request_resume` refuses it. */
  lemma PauseIsResumableIff(choices: seq<Choice>, row: TaskRow)
    requires Runs(INITIAL, choices) && Exec(INITIAL, choices).node == Gate
    ensures var s := Exec(INITIAL, choices);
      Resumable(row.(status := s.status), row.userId) <==> s.from == Planner
  {
    ExecKeepsInv(INITIAL, choices);
  }

  lemma ResearchPauseIsStuck(row: TaskRow) returns (choices: seq<Choice>)
    ensures Runs(INITIAL, choices) && Exec(INITIAL, choices).node == Gate
    ensures !Resumable(row.(status := Exec(INITIAL, choices).status), row.userId)
  {
    var a, b, c := Supervise(false), PlanWith(false), ResearchWith(R.Ended(R.AskUser, R.NeedsApproval, true));
    choices := [a, b, c];
    RunsOfThree(a, b, c);
  }

  // ---- What the choices alone tell -----------------------------------------------------------------------------------

  /** The last plan required an approval, and nobody has approved since. */
  predicate Unapproved(choices: seq<Choice>) {
    choices != [] &&
    var front, last := choices[..|choices| - 1], choices[|choices| - 1];
    match last
    case PlanWith(approvalRequired) => approvalRequired
    case Decide(decision) => decision != Some("approve") && Unapproved(front)
    case _ => Unapproved(front)
  }

  lemma {:induction false} ExecSnoc(s: State, choices: seq<Choice>, c: Choice)
    requires Runs(s, choices + [c])
    ensures Runs(s, choices) && Enabled(Exec(s, choices), c)
    ensures Exec(s, choices + [c]) == Apply(Exec(s, choices), c)
    decreases |choices|
  {
    if choices == [] {
      assert choices + [c] == [c] && [c][1..] == [];
    } else {
      assert (choices + [c])[1..] == choices[1..] + [c];
      ExecSnoc(Apply(s, choices[0]), choices[1..], c);
    }
  }

  /** While a required approval is missing, no node but the planner's successors can run. */
  lemma {:induction false} UnapprovedWaits(choices: seq<Choice>)
    requires Runs(INITIAL, choices) && Unapproved(choices)
    ensures Exec(INITIAL, choices).node in {Gate, Planner, FallbackResponse, End}
    decreases |choices|
  {
    var front, last := choices[..|choices| - 1], choices[|choices| - 1];
    assert choices == front + [last];
    ExecSnoc(INITIAL, front, last);
    if !last.PlanWith? {
      UnapprovedWaits(front);
    }
  }

  lemma {:induction false} StaysUnapproved(choices: seq<Choice>, i: nat)
    requires i < |choices| && choices[i] == PlanWith(true)
    requires forall k :: i < k < |choices| ==> !choices[k].PlanWith? && choices[k] != Decide(Some("approve"))
    ensures Unapproved(choices)
    decreases |choices|
  {
    if i < |choices| - 1 {
      StaysUnapproved(choices[..|choices| - 1], i);
    }
  }

  /** Research never runs on a plan that requires approval unless the human's answer was "approve" after that plan. */
  lemma ResearchWasApproved(choices: seq<Choice>, i: nat)
    requires Runs(INITIAL, choices) && Exec(INITIAL, choices).node == Research
    requires i < |choices| && choices[i] == PlanWith(true) && forall k :: i < k < |choices| ==> !choices[k].PlanWith?
    ensures exists j :: i < j < |choices| && choices[j] == Decide(Some("approve"))
  {
    if forall j :: i < j < |choices| ==> choices[j] != Decide(Some("approve")) {
      StaysUnapproved(choices, i);
      UnapprovedWaits(choices);
    }
  }

  /** Which choice comes after which. */
  predicate Follows(a: Choice, b: Choice) {
    match a
    case Supervise(answer) => if answer then b.AnswerDirect? || b.AnswerFrom? else b.PlanWith?
    case AnswerDirect(_) => b.Go?
    case AnswerFrom(_, _) => b.Go?
    case PlanWith(approvalRequired) => if approvalRequired then b.Decide? else b.ResearchWith?
    case Decide(decision) =>
      if decision == Some("approve") then b.ResearchWith? else if decision == Some("edit") then b.PlanWith? else b.Go?
    case ResearchWith(outcome) => if outcome.Ended? && outcome.next == R.AskUser then b.Decide? else b.Go?
    case Go => b.Go?
  }

  lemma StepFollows(s: State, a: Choice, b: Choice)
    requires Inv(s) && Enabled(s, a) && Enabled(Apply(s, a), b)
    ensures Follows(a, b)
  {
  }

  lemma {:induction false} FollowsInRun(s: State, choices: seq<Choice>, i: nat)
    requires Inv(s) && Runs(s, choices) && i + 1 < |choices|
    ensures Follows(choices[i], choices[i + 1])
    decreases |choices|
  {
    if i == 0 {
      assert choices[1..][0] == choices[1];
      StepFollows(s, choices[0], choices[1]);
    } else {
      StepKeepsInv(s, choices[0]);
      FollowsInRun(Apply(s, choices[0]), choices[1..], i - 1);
    }
  }

  /** In every run each choice is followed by what it calls for. */
  lemma ChoicesFollow(choices: seq<Choice>, i: nat)
    requires Runs(INITIAL, choices) && i + 1 < |choices|
    ensures Follows(choices[i], choices[i + 1])
  {
    FollowsInRun(INITIAL, choices, i);
  }

  /** The human's answer is obeyed: "approve" is followed by research, and after "edit" there is no research before a new
      plan. */
  lemma GateObeysHuman(choices: seq<Choice>, i: nat)
    requires Runs(INITIAL, choices) && i < |choices|
    ensures choices[i] == Decide(Some("approve")) && i + 1 < |choices| ==> choices[i + 1].ResearchWith?
    ensures choices[i] == Decide(Some("edit")) ==>
      forall j :: i < j < |choices| && choices[j].ResearchWith? ==> exists k :: i < k < j && choices[k].PlanWith?
  {
    if i + 1 < |choices| {
      ChoicesFollow(choices, i);
      if choices[i] == Decide(Some("edit")) {
        assert choices[i + 1].PlanWith?;
      }
    }
  }

  /** The last choice that was one. */
  function LastWord(choices: seq<Choice>): Choice {
    if choices == [] then Go
    else if choices[|choices| - 1].Go? then LastWord(choices[..|choices| - 1])
    else choices[|choices| - 1]
  }

  /** What a run publishes that ends after this choice. */
  function PublishedAfter(c: Choice): Publication {
    match c
    case AnswerDirect(_) => Draft
    case AnswerFrom(fallback, artifacts) =>
      if fallback then SafeFallback else if Blank(AnswerFromTools(artifacts)) then Proposal else Draft
    case ResearchWith(outcome) =>
      if outcome.Ended? && outcome.verdict == R.Passed && outcome.deliverable then Proposal else SafeFallback
    case _ => SafeFallback
  }

  /** How a state bears out the last choice. */
  predicate Answers(s: State, c: Choice) {
    match s.node
    case Final => PublishedAfter(c) == if Blank(s.draft) then Proposal else Draft
    case Review => c.ResearchWith? && c.outcome.Ended? && c.outcome.verdict == R.Passed && c.outcome.deliverable == s.deliverable
    case FallbackResponse => PublishedAfter(c) == SafeFallback
    case End => PublishedAfter(c) == s.published
    case _ => true
  }

  lemma EmptyIsBlank()
    ensures Blank("")
  {
    var a, b := StripCut("");
  }

  lemma StepAnswers(s: State, c: Choice, before: Choice)
    requires Inv(s) && Enabled(s, c) && Answers(s, before)
    ensures Answers(Apply(s, c), if c.Go? then before else c)
  {
    EmptyIsBlank();
  }

  lemma {:induction false} ExecAnswers(choices: seq<Choice>)
    requires Runs(INITIAL, choices)
    ensures Answers(Exec(INITIAL, choices), LastWord(choices))
    decreases |choices|
  {
    if choices != [] {
      var front, last := choices[..|choices| - 1], choices[|choices| - 1];
      assert choices == front + [last];
      ExecSnoc(INITIAL, front, last);
      ExecAnswers(front);
      ExecKeepsInv(INITIAL, front);
      StepAnswers(Exec(INITIAL, front), last, LastWord(front));
    }
  }

  /** What a finished run has published follows from its last choice alone. */
  lemma LastWordDecides(choices: seq<Choice>)
    requires Runs(INITIAL, choices) && Exec(INITIAL, choices).node == End
    ensures Exec(INITIAL, choices).published == PublishedAfter(LastWord(choices))
  {
    ExecAnswers(choices);
  }

  // ---- How long a run is ---------------------------------------------------------------------------------------------

  /** How many nodes can still run before the next pause or the end. */
  function Rank(node: Node): nat {
    match node
    case Supervisor => 5
    case Planner => 4
    case Research => 3
    case Review => 2
    case Answer => 2
    case Final => 1
    case FallbackResponse => 1
    case Gate => 0
    case End => 0
  }

  function Decisions(choices: seq<Choice>): nat {
    if choices == [] then 0 else (if choices[0].Decide? then 1 else 0) + Decisions(choices[1..])
  }

  lemma {:induction false} RankFalls(s: State, choices: seq<Choice>)
    requires Runs(s, choices)
    ensures |choices| + Rank(Exec(s, choices).node) <= Rank(s.node) + 5 * Decisions(choices)
    decreases |choices|
  {
    if choices != [] {
      assert Rank(Apply(s, choices[0]).node) + 1 <= Rank(s.node) + (if choices[0].Decide? then 5 else 0);
      RankFalls(Apply(s, choices[0]), choices[1..]);
    }
  }

  /** Every cycle passes through the gate: a run without human decisions has at most five nodes, and each decision allows
      five more, itself included. */
  lemma FiveNodesBetweenDecisions(choices: seq<Choice>)
    requires Runs(INITIAL, choices)
    ensures |choices| <= 5 + 5 * Decisions(choices)
    ensures Exec(INITIAL, choices).node == Gate ==> |choices| <= 5 * (1 + Decisions(choices))
  {
    RankFalls(INITIAL, choices);
  }

  /** A run that has neither ended nor paused can go on, so with the bound above it always pauses or ends. */
  lemma NeverStuck(s: State) returns (c: Choice)
    requires s.node != End
    ensures Enabled(s, c)
  {
    match s.node
    case Supervisor => c := Supervise(true);
    case Answer => c := AnswerFrom(true, []);
    case Planner => c := PlanWith(true);
    case Gate => c := Decide(None);
    case Research => c := ResearchWith(R.Rejected);
    case _ => c := Go;
  }

  lemma EndIsLast(s: State, choices: seq<Choice>)
    requires s.node == End && Runs(s, choices)
    ensures choices == []
  {
  }

  /** Whatever is not "edit" or "approve" rejects, and after it the run ends with the safe answer. */
  lemma RejectEndsInFallback(s: State, choices: seq<Choice>)
    requires s.node == Gate && s.published == Nothing && Runs(s, choices) && |choices| >= 2
    requires choices[0].decision != Some("edit") && choices[0].decision != Some("approve")
    ensures |choices| == 2
    ensures Exec(s, choices).node == End && Exec(s, choices).published == SafeFallback
    ensures Exec(s, choices).status == Completed
  {
    var t := Apply(s, choices[0]);
    var u := Apply(t, choices[1..][0]);
    EndIsLast(u, choices[1..][1..]);
    assert Exec(u, choices[1..][1..]) == u;
  }
}
