/** Conversation memory: which messages are folded into the summary, which are shown as they are, and which are in
    neither, over any sequence of new messages and context builds. */
module Compaction {
  import Text

  datatype Message = Message(id: nat, text: string)

  /** `history` recent messages are shown; compaction starts at `threshold` unsummarised ones. */
  datatype Limits = Limits(history: nat, threshold: nat) {
    predicate Valid() {
      threshold >= history + 2
    }
  }

  /** The query for messages after the checkpoint. */
  function After(messages: seq<Message>, checkpoint: nat): seq<Message> {
    if messages == [] then []
    else
      After(messages[..|messages| - 1], checkpoint)
      + if messages[|messages| - 1].id > checkpoint then [messages[|messages| - 1]] else []
  }

  /** The last `n` messages. */
  function LastOf(messages: seq<Message>, n: nat): seq<Message> {
    if |messages| <= n then messages else messages[|messages| - n..]
  }

  predicate Ascending(messages: seq<Message>) {
    && (forall i :: 0 <= i < |messages| ==> messages[i].id > 0)
    && forall i, j :: 0 <= i < j < |messages| ==> messages[i].id < messages[j].id
  }

  /** A conversation: `folded` is everything that was ever merged into the summary, in order. */
  datatype State = State(messages: seq<Message>, checkpoint: nat, folded: seq<Message>) {
    /** The summarised messages are the first ones, and the checkpoint is the id of the last of them. */
    predicate Valid() {
      && Ascending(messages) && folded <= messages
      && checkpoint == if folded == [] then 0 else folded[|folded| - 1].id
    }

    /** Messages not in the summary. */
    function Pending(): seq<Message>
      requires folded <= messages
    {
      messages[|folded|..]
    }
  }

  /** How many of the unsummarised messages a build folds; `oversize` says that together they exceed the token or the
      character limit. */
  function CompactCount(pending: nat, oversize: bool, limits: Limits): (n: nat)
    ensures n <= pending
  {
    if pending < limits.threshold && !oversize then 0
    else if pending > limits.history then pending - limits.history
    else if oversize && pending > 0 then 1
    else 0
  }

  function Fold(s: State, n: nat): State
    requires s.Valid() && n <= |s.Pending()|
  {
    var rows := s.Pending()[..n];
    if rows == [] then s else State(s.messages, rows[n - 1].id, s.folded + rows)
  }

  lemma DropTwice(messages: seq<Message>, a: nat, b: nat)
    requires a + b <= |messages|
    ensures messages[a..][b..] == messages[a + b..]
  {
  }

  lemma FoldIsValid(s: State, n: nat)
    requires s.Valid() && n <= |s.Pending()|
    ensures Fold(s, n).Valid() && Fold(s, n).checkpoint >= s.checkpoint && Fold(s, n).Pending() == s.Pending()[n..]
  {
    if n > 0 {
      var k, t := |s.folded|, Fold(s, n);
      assert t.folded == s.folded + s.Pending()[..n] == s.messages[..k + n];
      assert t.folded[k + n - 1] == s.Pending()[n - 1] == s.messages[k + n - 1];
      assert k > 0 ==> s.checkpoint == s.messages[k - 1].id;
      DropTwice(s.messages, k, n);
    }
  }

  /** With ascending ids, "after the checkpoint" means "not folded". */
  lemma CheckpointCuts(s: State)
    requires s.Valid()
    ensures forall i :: 0 <= i < |s.messages| ==> (s.messages[i].id > s.checkpoint <==> i >= |s.folded|)
  {
    var k := |s.folded|;
    assert k > 0 ==> s.checkpoint == s.messages[k - 1].id;
  }

  lemma {:induction false} AfterCut(messages: seq<Message>, cut: nat, checkpoint: nat)
    requires cut <= |messages|
    requires forall i :: 0 <= i < |messages| ==> (messages[i].id > checkpoint <==> i >= cut)
    ensures After(messages, checkpoint) == messages[cut..]
  {
    if messages != [] {
      var n := |messages| - 1;
      AfterCut(messages[..n], if cut <= n then cut else n, checkpoint);
      if cut <= n {
        assert messages[cut..] == messages[..n][cut..] + [messages[n]];
      }
    }
  }

  lemma AfterIsPending(s: State)
    requires s.Valid()
    ensures After(s.messages, s.checkpoint) == s.Pending()
  {
    CheckpointCuts(s);
    AfterCut(s.messages, |s.folded|, s.checkpoint);
  }

  lemma LastOfIs(messages: seq<Message>, k: nat, n: nat)
    requires k <= |messages|
    ensures LastOf(messages[k..], n) == messages[if |messages| - k <= n then k else |messages| - n..]
  {
    if |messages| - k > n {
      DropTwice(messages, k, |messages| - k - n);
    }
  }

  /** Where a window of at most `history` messages begins. */
  function WindowAt(n: nat, history: nat): (i: nat)
    ensures i <= n
  {
    if n <= history then 0 else n - history
  }

  lemma WindowStart(messages: seq<Message>, n: nat)
    ensures LastOf(messages, n) == messages[WindowAt(|messages|, n)..]
  {
    assert messages[0..] == messages;
  }

  lemma AfterInLast(s: State, last: seq<Message>, start: nat, cut: nat)
    requires s.Valid() && start <= |s.messages| && last == s.messages[start..]
    requires cut == if |s.folded| <= start then 0 else |s.folded| - start
    ensures After(last, s.checkpoint) == s.messages[start + cut..]
  {
    CheckpointCuts(s);
    assert forall i :: 0 <= i < |last| ==> last[i] == s.messages[start + i];
    AfterCut(last, cut, s.checkpoint);
    DropTwice(s.messages, start, cut);
  }

  /** Where it begins among the messages behind the first `k`. */
  function RecentAt(n: nat, k: nat, history: nat): (i: nat)
    requires k <= n
    ensures i <= n
    ensures var start := WindowAt(n, history); i == start + if k <= start then 0 else k - start
  {
    if n - k <= history then k else n - history
  }

  lemma AfterLast(s: State, history: nat)
    requires s.Valid()
    ensures After(LastOf(s.messages, history), s.checkpoint) == s.messages[RecentAt(|s.messages|, |s.folded|, history)..]
  {
    var k, start := |s.folded|, WindowAt(|s.messages|, history);
    WindowStart(s.messages, history);
    AfterInLast(s, LastOf(s.messages, history), start, if k <= start then 0 else k - start);
  }

  /** The recent window is the end of what is not folded. */
  lemma RecentIsPending(s: State, history: nat)
    requires s.Valid()
    ensures After(LastOf(s.messages, history), s.checkpoint) == LastOf(s.Pending(), history)
  {
    AfterLast(s, history);
    LastOfIs(s.messages, |s.folded|, history);
  }

  /** What a build shows and folds, whatever the rule for the count: with more than `history` unsummarised messages the
      last `history` of them are shown, and with at most that many it folds nothing, or the oldest one when together they
      are oversize. Nothing is folded below the threshold unless they are oversize. */
  predicate BuildShows(before: State, oversize: bool, limits: Limits, after: State, recent: seq<Message>)
    requires before.folded <= before.messages
  {
    var pending := before.Pending();
    if |pending| > limits.history then
      && recent == pending[|pending| - limits.history..]
      && after.folded == if |pending| >= limits.threshold || oversize
                         then before.folded + pending[..|pending| - limits.history] else before.folded
    else
      && after.folded == (if oversize && pending != [] then before.folded + [pending[0]] else before.folded)
      && recent == if oversize && pending != [] then pending[1..] else pending
  }

  lemma BuildIs(s: State, oversize: bool, limits: Limits)
    requires s.Valid() && limits.Valid()
    ensures var t := Fold(s, CompactCount(|s.Pending()|, oversize, limits));
      t.Valid() && BuildShows(s, oversize, limits, t, LastOf(t.Pending(), limits.history))
  {
    var pending := s.Pending();
    var n := CompactCount(|pending|, oversize, limits);
    FoldIsValid(s, n);
    if n > 0 {
      assert n == 1 ==> pending[..1] == [pending[0]];
    } else {
      assert pending[0..] == pending;
    }
  }

  class Conversation {
    const limits: Limits
    var messages: seq<Message>
    var summary: string
    var checkpoint: nat
    ghost var folded: seq<Message>

    ghost function View(): State
      reads this
    {
      State(messages, checkpoint, folded)
    }

    ghost predicate Valid()
      reads this
    {
      limits.Valid() && View().Valid()
    }

    constructor (limits: Limits)
      requires limits.Valid()
      ensures Valid() && View() == State([], 0, []) && this.limits == limits && summary == ""
    {
      this.limits, messages, summary, checkpoint, folded := limits, [], "", 0, [];
    }

    method Add(message: Message)
      requires Valid() && message.id > 0 && forall i :: 0 <= i < |messages| ==> messages[i].id < message.id
      modifies this`messages
      ensures Valid() && View() == State(old(messages) + [message], checkpoint, folded)
    {
      messages := messages + [message];
    }

    /** Fold the oldest `count` unsummarised messages into the summary. */
    method Compact(uncompressed: seq<Message>, count: nat, merge: (string, seq<Message>) -> string) returns (compacted: bool)
      requires Valid() && uncompressed == View().Pending() && count <= |uncompressed|
      modifies this`summary, this`checkpoint, this`folded
      ensures Valid() && View() == Fold(old(View()), count)
      ensures compacted <==> count > 0
      ensures summary == if count > 0 then merge(old(summary), uncompressed[..count]) else old(summary)
    {
      FoldIsValid(View(), count);
      var rows := uncompressed[..count];
      compacted := rows != [];
      if compacted {
        summary := merge(summary, rows);
        checkpoint := rows[|rows| - 1].id;
        folded := folded + rows;
      }
    }

    method ChooseCount(pending: nat, oversize: bool) returns (compactCount: nat)
      requires limits.Valid()
      ensures compactCount == CompactCount(pending, oversize, limits)
    {
      compactCount := 0;
      if pending >= limits.threshold || oversize {
        compactCount := if pending > limits.history then pending - limits.history else 0;
        if compactCount == 0 && oversize {
          compactCount := if pending > 0 then 1 else 0;
        }
      }
    }

    /** `build_conversation_context`. */
    method BuildContext(oversize: seq<Message> -> bool, merge: (string, seq<Message>) -> string)
      returns (recent: seq<Message>, compacted: bool)
      requires Valid()
      modifies this`summary, this`checkpoint, this`folded
      ensures Valid()
      ensures var before := old(View());
        var n := CompactCount(|before.Pending()|, oversize(before.Pending()), limits);
        && View() == Fold(before, n) && (compacted <==> n > 0)
        && summary == (if n > 0 then merge(old(summary), before.Pending()[..n]) else old(summary))
        && recent == LastOf(View().Pending(), limits.history)
      ensures BuildShows(old(View()), oversize(old(View()).Pending()), limits, View(), recent)
    {
      BuildIs(View(), oversize(View().Pending()), limits);
      AfterIsPending(View());
      var uncompressed := After(messages, checkpoint);
      var compactCount := ChooseCount(|uncompressed|, oversize(uncompressed));
      compacted := Compact(uncompressed, compactCount, merge);
      recent := ReadRecent();
    }

    method ReadRecent() returns (recent: seq<Message>)
      requires Valid()
      ensures recent == LastOf(View().Pending(), limits.history)
    {
      RecentIsPending(View(), limits.history);
      if limits.history == 0 {
        return [];
      }
      return After(LastOf(messages, limits.history), checkpoint);
    }
  }

  lemma SplitPending(t: State, history: nat)
    requires t.Valid()
    ensures var recent := LastOf(t.Pending(), history);
      |recent| <= |t.Pending()| && t.messages == t.folded + t.Pending()[..|t.Pending()| - |recent|] + recent
  {
    var pending := t.Pending();
    var cut := if |pending| <= history then 0 else |pending| - history;
    assert pending[cut..] == LastOf(pending, history);
    assert pending == pending[..cut] + pending[cut..];
    assert t.messages == t.folded + pending;
    Text.Assoc(t.folded, pending[..cut], pending[cut..]);
  }

  lemma CountIs(pending: nat, oversize: bool, limits: Limits)
    requires limits.Valid()
    ensures var n := CompactCount(pending, oversize, limits);
      && (n > 0 <==> pending > 0 && (pending >= limits.threshold || oversize))
      && (n > 0 ==> pending - n <= limits.history) && (n == 0 ==> pending < limits.threshold)
  {
  }

  /** What a build leaves in neither the summary nor the recent window: a stretch between the two, of at most
      `threshold - 1 - history` messages, and nothing after a build that compacts. A build compacts exactly when there are
      unsummarised messages that are too many or too large. */
  lemma GapIsBounded(s: State, oversize: bool, limits: Limits)
    requires s.Valid() && limits.Valid()
    ensures var n := CompactCount(|s.Pending()|, oversize, limits);
      var t := Fold(s, n);
      var recent := LastOf(t.Pending(), limits.history);
      && t.Valid()
      && (n > 0 <==> |s.Pending()| > 0 && (|s.Pending()| >= limits.threshold || oversize))
      && (n > 0 ==> recent == t.Pending())
      && |t.Pending()| - |recent| <= limits.threshold - 1 - limits.history
      && t.messages == t.folded + t.Pending()[..|t.Pending()| - |recent|] + recent
  {
    var n := CompactCount(|s.Pending()|, oversize, limits);
    CountIs(|s.Pending()|, oversize, limits);
    FoldIsValid(s, n);
    assert |Fold(s, n).Pending()| == |s.Pending()| - n;
    SplitPending(Fold(s, n), limits.history);
  }

  // ---- Whole conversations -------------------------------------------------------------------------------------------

  datatype Event = Said(message: Message) | Built(oversize: bool)

  predicate Enabled(s: State, e: Event) {
    e.Said? ==> e.message.id > 0 && forall i :: 0 <= i < |s.messages| ==> s.messages[i].id < e.message.id
  }

  function Advance(s: State, limits: Limits, e: Event): State
    requires s.Valid() && Enabled(s, e)
  {
    match e
    case Said(message) => s.(messages := s.messages + [message])
    case Built(oversize) => Fold(s, CompactCount(|s.Pending()|, oversize, limits))
  }

  lemma AdvanceIsValid(s: State, limits: Limits, e: Event)
    requires s.Valid() && Enabled(s, e)
    ensures var t := Advance(s, limits, e);
      t.Valid() && t.checkpoint >= s.checkpoint && s.messages <= t.messages && s.folded <= t.folded
  {
    if e.Built? {
      FoldIsValid(s, CompactCount(|s.Pending()|, e.oversize, limits));
    }
  }

  predicate Runs(s: State, limits: Limits, events: seq<Event>)
    decreases |events|
  {
    events == [] ||
    (s.Valid() && Enabled(s, events[0]) && Runs(Advance(s, limits, events[0]), limits, events[1..]))
  }

  function Exec(s: State, limits: Limits, events: seq<Event>): State
    requires Runs(s, limits, events)
    decreases |events|
  {
    if events == [] then s else Exec(Advance(s, limits, events[0]), limits, events[1..])
  }

  /** Over any conversation the checkpoint never moves back, nothing leaves the summary, and what is folded is always the
      first messages in the order of their ids, so each message is folded at most once and none is skipped. */
  lemma {:induction false} FoldedOnceInOrder(s: State, limits: Limits, events: seq<Event>)
    requires s.Valid() && Runs(s, limits, events)
    ensures var t := Exec(s, limits, events);
      && t.Valid() && t.checkpoint >= s.checkpoint && s.folded <= t.folded <= t.messages
      && forall i, j :: 0 <= i < j < |t.folded| ==> t.folded[i].id < t.folded[j].id
    decreases |events|
  {
    if events != [] {
      AdvanceIsValid(s, limits, events[0]);
      FoldedOnceInOrder(Advance(s, limits, events[0]), limits, events[1..]);
    }
  }
}
