/** Replay-safe tool calls: `execute_managed_tool` as run by any number of workers that may crash between the lookup of a
    completed call, the call itself, and saving its result. */
module ToolReplay {

  // ---- The key of an execution ---------------------------------------------------------------------------------------

  const KEY_LIMIT := 128

  function PlainKey(taskId: string, callId: string): string {
    taskId + ":" + callId
  }

  function ExecutionKey(taskId: string, callId: string, hash: string -> string): string {
    var key := PlainKey(taskId, callId);
    if |key| > KEY_LIMIT then "tool-" + hash(key) else key
  }

  lemma FirstColon(t: string, c: string)
    requires ':' !in t
    ensures PlainKey(t, c)[|t|] == ':' && forall i :: 0 <= i < |t| ==> PlainKey(t, c)[i] != ':'
  {
  }

  lemma PlainKeyInjective(t0: string, c0: string, t1: string, c1: string)
    requires ':' !in t0 && ':' !in t1 && PlainKey(t0, c0) == PlainKey(t1, c1)
    ensures t0 == t1 && c0 == c1
  {
    var k0, k1 := PlainKey(t0, c0), PlainKey(t1, c1);
    FirstColon(t0, c0);
    FirstColon(t1, c1);
    assert t0 == k0[..|t0|] && t1 == k1[..|t1|] && c0 == k0[|t0| + 1..] && c1 == k1[|t1| + 1..];
  }

  /** Two executions share a key only if they are the same call of the same task, and every key fits its column. Task ids
      hold no colon; of the hash only this is needed: 64 characters, no colon, and different for the two texts. */
  lemma ExecutionKeyIdentifies(t0: string, c0: string, t1: string, c1: string, hash: string -> string)
    requires ':' !in t0 && ':' !in t1
    requires var k0, k1 := PlainKey(t0, c0), PlainKey(t1, c1);
      && (hash(k0) == hash(k1) ==> k0 == k1)
      && ':' !in hash(k0) && ':' !in hash(k1) && |hash(k0)| == 64
    ensures |ExecutionKey(t0, c0, hash)| <= 128
    ensures |t0| + |c0| < 128 ==> ExecutionKey(t0, c0, hash) == t0 + ":" + c0
    ensures ExecutionKey(t0, c0, hash) == ExecutionKey(t1, c1, hash) <==> t0 == t1 && c0 == c1
  {
    var k0, k1 := PlainKey(t0, c0), PlainKey(t1, c1);
    assert k0[|t0|] == ':' && k1[|t1|] == ':';
    var h0, h1 := "tool-" + hash(k0), "tool-" + hash(k1);
    assert h0[5..] == hash(k0) && h1[5..] == hash(k1);
    assert ':' !in h0 && ':' !in h1;
    if ExecutionKey(t0, c0, hash) == ExecutionKey(t1, c1, hash) {
      assert k0 == k1;
      PlainKeyInjective(t0, c0, t1, c1);
    }
  }

  // ---- Workers -------------------------------------------------------------------------------------------------------

  type Key = string

  /** A result of a tool, successful or not. */
  datatype Result = Result(ok: bool, data: string)

  datatype Pc =
    | Missed(key: Key)                       // no completed call was found
    | Called(key: Key, result: Result)       // the tool answered, nothing saved yet
    | Returning(key: Key, result: Result)

  /** `calls` counts handler calls per key, `lost` the crashes between a call and its save; `first` is the result of the
      first call with a key. */
  datatype State = State(
    saved: map<Key, Result>,
    workers: map<int, Pc>,
    calls: multiset<Key>,
    lost: multiset<Key>,
    first: map<Key, Result>,
    returned: seq<(Key, Result)>)

  datatype Action =
    | Lookup(worker: int, key: Key)
    | Call(worker: int, result: Result)
    | Save(worker: int)
    | Return(worker: int)
    | Crash(worker: int)

  predicate Enabled(s: State, a: Action) {
    match a
    case Lookup(w, _) => w !in s.workers
    case Call(w, _) => w in s.workers && s.workers[w].Missed?
    case Save(w) => w in s.workers && s.workers[w].Called?
    case Return(w) => w in s.workers && s.workers[w].Returning?
    case Crash(w) => w in s.workers
  }

  function Apply(s: State, a: Action): State
    requires Enabled(s, a)
  {
    match a
    case Lookup(w, k) => s.(workers := s.workers[w := if k in s.saved then Returning(k, s.saved[k]) else Missed(k)])
    case Call(w, r) =>
      var k := s.workers[w].key;
      s.(workers := s.workers[w := Called(k, r)], calls := s.calls + multiset{k},
         first := if k in s.first then s.first else s.first[k := r])
    case Save(w) =>
      var pc := s.workers[w];
      s.(workers := s.workers[w := Returning(pc.key, pc.result)], saved := s.saved[pc.key := pc.result])
    case Return(w) =>
      var pc := s.workers[w];
      s.(workers := s.workers - {w}, returned := s.returned + [(pc.key, pc.result)])
    case Crash(w) =>
      var pc := s.workers[w];
      s.(workers := s.workers - {w}, lost := if pc.Called? then s.lost + multiset{pc.key} else s.lost)
  }

  const INITIAL := State(map[], map[], multiset{}, multiset{}, map[], [])

  predicate Runs(s: State, actions: seq<Action>)
    decreases |actions|
  {
    actions == [] || (Enabled(s, actions[0]) && Runs(Apply(s, actions[0]), actions[1..]))
  }

  function Exec(s: State, actions: seq<Action>): State
    requires Runs(s, actions)
    decreases |actions|
  {
    if actions == [] then s else Exec(Apply(s, actions[0]), actions[1..])
  }

  // ---- One execution of a key at a time ------------------------------------------------------------------------------

  /** A worker has missed a saved result of this key and not saved one yet. */
  predicate PastMiss(s: State, k: Key) {
    exists w :: w in s.workers && s.workers[w].key == k && !s.workers[w].Returning?
  }

  predicate Calling(s: State, k: Key) {
    exists w :: w in s.workers && s.workers[w].key == k && s.workers[w].Called?
  }

  /** No lookup misses while another worker is past a miss of that key. */
  predicate SerialStep(s: State, a: Action) {
    a.Lookup? && a.key !in s.saved ==> !PastMiss(s, a.key)
  }

  /** Executions of one key overlap at most when they find a result, as when calls are made inside the task's lease. */
  predicate Serial(s: State, actions: seq<Action>)
    requires Runs(s, actions)
    decreases |actions|
  {
    actions == [] || (SerialStep(s, actions[0]) && Serial(Apply(s, actions[0]), actions[1..]))
  }

  predicate WorkerInv(s: State, pc: Pc) {
    match pc
    case Missed(k) => k !in s.saved
    case Called(k, _) => k !in s.saved && s.calls[k] == s.lost[k] + 1
    case Returning(k, r) => k in s.saved && s.saved[k] == r
  }

  /** At most one worker is past a miss of a key. */
  ghost predicate DistinctKeys(s: State) {
    forall v, w :: v in s.workers && w in s.workers && v != w && !s.workers[v].Returning? && !s.workers[w].Returning?
      ==> s.workers[v].key != s.workers[w].key
  }

  ghost predicate Counted(s: State) {
    forall k :: !Calling(s, k) ==> s.calls[k] == s.lost[k] + if k in s.saved then 1 else 0
  }

  ghost predicate SerialInv(s: State) {
    && DistinctKeys(s)
    && (forall w :: w in s.workers ==> WorkerInv(s, s.workers[w]))
    && Counted(s)
    && (forall i :: 0 <= i < |s.returned| ==>
         s.returned[i].0 in s.saved && s.returned[i].1 == s.saved[s.returned[i].0])
  }

  /** The key a step is about. */
  function KeyOf(s: State, a: Action): Key
    requires Enabled(s, a)
  {
    if a.Lookup? then a.key else s.workers[a.worker].key
  }

  lemma OtherKeys(s: State, a: Action, k: Key)
    requires Enabled(s, a) && k != KeyOf(s, a)
    ensures var t := Apply(s, a);
      && (Calling(s, k) ==> Calling(t, k)) && t.calls[k] == s.calls[k] && t.lost[k] == s.lost[k]
      && (k in t.saved <==> k in s.saved) && (k in s.saved ==> t.saved[k] == s.saved[k])
  {
    var t := Apply(s, a);
    if Calling(s, k) {
      var w :| w in s.workers && s.workers[w].key == k && s.workers[w].Called?;
      assert t.workers[w] == s.workers[w];
    }
  }

  lemma SavedIsNotCalling(s: State, k: Key)
    requires SerialInv(s) && k in s.saved
    ensures !Calling(s, k)
  {
    forall w | w in s.workers && s.workers[w].key == k ensures !s.workers[w].Called? {
      assert WorkerInv(s, s.workers[w]);
    }
  }

  /** The counts of the key a step is about. */
  lemma OwnKey(s: State, a: Action)
    requires SerialInv(s) && Enabled(s, a) && SerialStep(s, a)
    ensures var t, k := Apply(s, a), KeyOf(s, a);
      && (k in s.saved ==> k in t.saved && t.saved[k] == s.saved[k] && t.calls[k] == s.calls[k])
      && t.calls[k] == t.lost[k] + if k in t.saved || a.Call? then 1 else 0
  {
    var k := KeyOf(s, a);
    if k in s.saved {
      SavedIsNotCalling(s, k);
    }
    if a.Lookup? {
      assert k !in s.saved ==> !Calling(s, k);
    } else {
      assert WorkerInv(s, s.workers[a.worker]);
      assert s.workers[a.worker].Called? || !Calling(s, k);
    }
  }

  /** A worker other than the one that takes a step on its key only returns a saved result. */
  lemma OthersReturn(s: State, a: Action, w: int)
    requires SerialInv(s) && Enabled(s, a) && SerialStep(s, a)
    requires w in s.workers && w != a.worker && s.workers[w].key == KeyOf(s, a)
    ensures s.workers[w].Returning?
  {
    assert WorkerInv(s, s.workers[w]);
    if !a.Lookup? {
      assert WorkerInv(s, s.workers[a.worker]);
    }
  }

  lemma KeyIsFree(s: State, a: Action, w: int)
    requires SerialInv(s) && Enabled(s, a) && SerialStep(s, a)
    requires w in s.workers && w != a.worker && !s.workers[w].Returning?
    ensures s.workers[w].key != KeyOf(s, a)
  {
    if s.workers[w].key == KeyOf(s, a) {
      OthersReturn(s, a, w);
    }
  }

  lemma WorkersAfter(s: State, a: Action, w: int)
    requires SerialInv(s) && Enabled(s, a) && SerialStep(s, a) && w in Apply(s, a).workers
    ensures WorkerInv(Apply(s, a), Apply(s, a).workers[w])
  {
    OwnKey(s, a);
    if w != a.worker {
      assert WorkerInv(s, s.workers[w]);
      if s.workers[w].key == KeyOf(s, a) {
        OthersReturn(s, a, w);
      } else {
        OtherKeys(s, a, s.workers[w].key);
      }
    }
  }

  lemma StepKeepsDistinct(s: State, a: Action)
    requires SerialInv(s) && Enabled(s, a) && SerialStep(s, a)
    ensures DistinctKeys(Apply(s, a))
  {
    var t := Apply(s, a);
    if a.worker in t.workers && !t.workers[a.worker].Returning? {
      forall w | w in t.workers && w != a.worker && !t.workers[w].Returning?
        ensures t.workers[w].key != t.workers[a.worker].key
      {
        KeyIsFree(s, a, w);
      }
    }
  }

  lemma StepKeepsCounted(s: State, a: Action)
    requires SerialInv(s) && Enabled(s, a) && SerialStep(s, a)
    ensures Counted(Apply(s, a))
    ensures forall k :: k in s.saved ==>
      k in Apply(s, a).saved && Apply(s, a).saved[k] == s.saved[k] && Apply(s, a).calls[k] == s.calls[k]
  {
    var t := Apply(s, a);
    OwnKey(s, a);
    if a.Call? {
      assert t.workers[a.worker].Called?;
    }
    forall k
      ensures !Calling(t, k) ==> t.calls[k] == t.lost[k] + if k in t.saved then 1 else 0
      ensures k in s.saved ==> k in t.saved && t.saved[k] == s.saved[k] && t.calls[k] == s.calls[k]
    {
      if k != KeyOf(s, a) {
        OtherKeys(s, a, k);
      }
    }
  }

  lemma StepKeepsSerial(s: State, a: Action)
    requires SerialInv(s) && Enabled(s, a) && SerialStep(s, a)
    ensures SerialInv(Apply(s, a))
    ensures forall k :: k in s.saved ==>
      k in Apply(s, a).saved && Apply(s, a).saved[k] == s.saved[k] && Apply(s, a).calls[k] == s.calls[k]
  {
    var t := Apply(s, a);
    StepKeepsCounted(s, a);
    StepKeepsDistinct(s, a);
    forall w | w in t.workers ensures WorkerInv(t, t.workers[w]) {
      WorkersAfter(s, a, w);
    }
    if a.Return? {
      assert WorkerInv(s, s.workers[a.worker]);
    }
  }

  lemma {:induction false} ExecKeepsSerial(s: State, actions: seq<Action>)
    requires SerialInv(s) && Runs(s, actions) && Serial(s, actions)
    ensures var t := Exec(s, actions);
      && SerialInv(t)
      && forall k :: k in s.saved ==> k in t.saved && t.saved[k] == s.saved[k] && t.calls[k] == s.calls[k]
    decreases |actions|
  {
    if actions != [] {
      StepKeepsSerial(s, actions[0]);
      ExecKeepsSerial(Apply(s, actions[0]), actions[1..]);
    }
  }

  /** With executions of a key serialised and crashes at any step: the handler is called for each crash between a call and
      its save, and once more if a result was saved or is about to be. Every result returned for a key is the saved one. */
  lemma CallsAreCrashesPlusOne(actions: seq<Action>, k: Key)
    requires Runs(INITIAL, actions) && Serial(INITIAL, actions)
    ensures var s := Exec(INITIAL, actions);
      && s.calls[k] == s.lost[k] + (if k in s.saved || Calling(s, k) then 1 else 0)
      && forall i :: 0 <= i < |s.returned| && s.returned[i].0 == k ==> k in s.saved && s.returned[i].1 == s.saved[k]
  {
    ExecKeepsSerial(INITIAL, actions);
    var s := Exec(INITIAL, actions);
    if Calling(s, k) {
      var w :| w in s.workers && s.workers[w].key == k && s.workers[w].Called?;
      assert WorkerInv(s, s.workers[w]);
    }
  }

  lemma {:induction false} RunsSplit(s: State, first: seq<Action>, second: seq<Action>)
    requires Runs(s, first + second) && Serial(s, first + second)
    ensures Runs(s, first) && Serial(s, first)
    ensures Runs(Exec(s, first), second) && Serial(Exec(s, first), second)
    ensures Exec(Exec(s, first), second) == Exec(s, first + second)
    decreases |first|
  {
    if first == [] {
      assert first + second == second;
    } else {
      assert (first + second)[1..] == first[1..] + second;
      RunsSplit(Apply(s, first[0]), first[1..], second);
    }
  }

  /** Once a result, success or failure, is saved, it stays, the tool is never called again with that key, and every later
      execution returns it. */
  lemma SavedIsReplayed(before: seq<Action>, after: seq<Action>, k: Key)
    requires Runs(INITIAL, before + after) && Serial(INITIAL, before + after)
    requires Runs(INITIAL, before) && k in Exec(INITIAL, before).saved
    ensures var s, t := Exec(INITIAL, before), Exec(INITIAL, before + after);
      && k in t.saved && t.saved[k] == s.saved[k] && t.calls[k] == s.calls[k]
      && forall i :: 0 <= i < |t.returned| && t.returned[i].0 == k ==> t.returned[i].1 == s.saved[k]
  {
    RunsSplit(INITIAL, before, after);
    ExecKeepsSerial(INITIAL, before);
    ExecKeepsSerial(Exec(INITIAL, before), after);
  }

  // ---- Overlapping executions ----------------------------------------------------------------------------------------

  /** The downstream provider honours the key: a repeated call answers what the first one did. */
  predicate Honours(s: State, actions: seq<Action>)
    requires Runs(s, actions)
    decreases |actions|
  {
    actions == [] ||
    (&& (actions[0].Call? && s.workers[actions[0].worker].key in s.first ==>
           actions[0].result == s.first[s.workers[actions[0].worker].key])
     && Honours(Apply(s, actions[0]), actions[1..]))
  }

  /** Everything known about a key agrees with its first call. */
  ghost predicate AgreeInv(s: State) {
    && (forall k :: k in s.saved ==> k in s.first && s.first[k] == s.saved[k])
    && (forall w :: w in s.workers && !s.workers[w].Missed? ==>
         s.workers[w].key in s.first && s.workers[w].result == s.first[s.workers[w].key])
    && (forall i :: 0 <= i < |s.returned| ==>
         s.returned[i].0 in s.first && s.returned[i].1 == s.first[s.returned[i].0])
  }

  lemma {:induction false} ExecKeepsAgreement(s: State, actions: seq<Action>)
    requires AgreeInv(s) && Runs(s, actions) && Honours(s, actions)
    ensures AgreeInv(Exec(s, actions))
    decreases |actions|
  {
    if actions != [] {
      ExecKeepsAgreement(Apply(s, actions[0]), actions[1..]);
    }
  }

  /** Why the key is passed on: with a provider that honours it, all executions of one call return the same result under
      every interleaving, serialised or not. */
  lemma HonouredKeysAgree(actions: seq<Action>, i: nat, j: nat)
    requires Runs(INITIAL, actions) && Honours(INITIAL, actions)
    requires var r := Exec(INITIAL, actions).returned; i < |r| && j < |r| && r[i].0 == r[j].0
    ensures var r := Exec(INITIAL, actions).returned; r[i].1 == r[j].1
  {
    ExecKeepsAgreement(INITIAL, actions);
  }

  predicate Leads(s: State, actions: seq<Action>, t: State) {
    Runs(s, actions) && Exec(s, actions) == t
  }

  lemma {:induction false} LeadsSnoc(s: State, actions: seq<Action>, t: State, a: Action)
    requires Leads(s, actions, t) && Enabled(t, a)
    ensures Leads(s, actions + [a], Apply(t, a))
    decreases |actions|
  {
    if actions == [] {
      assert actions + [a] == [a] && [a][1..] == [];
      assert Runs(Apply(t, a), []);
    } else {
      LeadsSnoc(Apply(s, actions[0]), actions[1..], t, a);
      assert (actions + [a])[1..] == actions[1..] + [a];
    }
  }

  /** A worker that has called the tool saves and returns. */
  lemma SaveAndReturn(s: State, before: seq<Action>, mid: State, w: int) returns (actions: seq<Action>, t: State)
    requires Leads(s, before, mid) && w in mid.workers && mid.workers[w].Called?
    ensures Leads(s, actions, t)
    ensures var pc := mid.workers[w];
      && t.workers == mid.workers - {w} && t.saved == mid.saved[pc.key := pc.result]
      && t.returned == mid.returned + [(pc.key, pc.result)]
  {
    LeadsSnoc(s, before, mid, Save(w));
    actions, t := before + [Save(w)], Apply(mid, Save(w));
    LeadsSnoc(s, actions, t, Return(w));
    actions, t := actions + [Return(w)], Apply(t, Return(w));
  }

  /** Two executions of a key have returned different results. */
  predicate Disagrees(returned: seq<(Key, Result)>, k: Key) {
    exists i, j :: 0 <= i < |returned| && 0 <= j < |returned|
      && returned[i].0 == k && returned[j].0 == k && returned[i].1 != returned[j].1
  }

  /** A run without further overlap ends with different results for the key. */
  ghost predicate CanDisagree(s: State, more: seq<Action>, k: Key) {
    Runs(s, more) && Serial(s, more) && Disagrees(Exec(s, more).returned, k)
  }

  lemma {:induction false} SerialSnoc(s: State, actions: seq<Action>, t: State, a: Action)
    requires Leads(s, actions, t) && Serial(s, actions) && Enabled(t, a) && !a.Lookup?
    ensures Leads(s, actions + [a], Apply(t, a)) && Serial(s, actions + [a])
    decreases |actions|
  {
    LeadsSnoc(s, actions, t, a);
    if actions == [] {
      assert actions + [a] == [a] && [a][1..] == [];
    } else {
      SerialSnoc(Apply(s, actions[0]), actions[1..], t, a);
      assert (actions + [a])[1..] == actions[1..] + [a];
    }
  }

  lemma SaveThenReturn(s: State, before: seq<Action>, mid: State, w: int) returns (actions: seq<Action>, t: State)
    requires Leads(s, before, mid) && Serial(s, before) && w in mid.workers && mid.workers[w].Called?
    ensures Leads(s, actions, t) && Serial(s, actions)
    ensures t.workers == mid.workers - {w} && t.returned == mid.returned + [(mid.workers[w].key, mid.workers[w].result)]
  {
    SerialSnoc(s, before, mid, Save(w));
    actions, t := before + [Save(w)], Apply(mid, Save(w));
    SerialSnoc(s, actions, t, Return(w));
    actions, t := actions + [Return(w)], Apply(t, Return(w));
  }

  /** From a state with two workers past a miss of one key, one of them not having called yet, a run returns two
      results. */
  lemma TwoPastMissDisagree(s: State, v: int, w: int, k: Key) returns (more: seq<Action>)
    requires v != w && v in s.workers && w in s.workers && s.workers[w] == Missed(k)
    requires s.workers[v].key == k && !s.workers[v].Returning?
    ensures CanDisagree(s, more, k)
  {
    var t := s;
    more := [];
    if s.workers[v].Missed? {
      SerialSnoc(s, more, t, Call(v, Result(true, "")));
      more, t := more + [Call(v, Result(true, ""))], Apply(t, Call(v, Result(true, "")));
    }
    var r := t.workers[v].result;
    var other := Call(w, Result(!r.ok, r.data));
    SerialSnoc(s, more, t, other);
    more, t := more + [other], Apply(t, other);
    more, t := SaveThenReturn(s, more, t, v);
    var first := |t.returned| - 1;
    more, t := SaveThenReturn(s, more, t, w);
    assert t.returned[first] == (k, r) && t.returned[first + 1] == (k, Result(!r.ok, r.data));
  }

  lemma SerialAgrees(s: State, more: seq<Action>, k: Key)
    requires SerialInv(s)
    ensures !CanDisagree(s, more, k)
  {
    if Runs(s, more) && Serial(s, more) {
      ExecKeepsSerial(s, more);
    }
  }

  lemma SecondMiss(s: State, w: int, k: Key) returns (more: seq<Action>)
    requires Enabled(s, Lookup(w, k)) && k !in s.saved && PastMiss(s, k)
    ensures CanDisagree(Apply(s, Lookup(w, k)), more, k)
  {
    var v :| v in s.workers && s.workers[v].key == k && !s.workers[v].Returning?;
    more := TwoPastMissDisagree(Apply(s, Lookup(w, k)), v, w, k);
  }

  lemma OnlyMiss(s: State, w: int, k: Key, more: seq<Action>)
    requires SerialInv(s) && Enabled(s, Lookup(w, k)) && !PastMiss(s, k)
    ensures !CanDisagree(Apply(s, Lookup(w, k)), more, k)
  {
    StepKeepsSerial(s, Lookup(w, k));
    SerialAgrees(Apply(s, Lookup(w, k)), more, k);
  }

  /** The exact condition: after any run without overlap, a lookup that misses can lead to different results for its key if
      and only if another worker is past a miss of that key. */
  lemma OverlapDisagreesIff(before: seq<Action>, w: int, k: Key)
    requires Runs(INITIAL, before) && Serial(INITIAL, before)
    requires var s := Exec(INITIAL, before); Enabled(s, Lookup(w, k)) && k !in s.saved
    ensures var s := Exec(INITIAL, before);
      (exists more :: CanDisagree(Apply(s, Lookup(w, k)), more, k)) <==> PastMiss(s, k)
  {
    var s := Exec(INITIAL, before);
    if PastMiss(s, k) {
      var more := SecondMiss(s, w, k);
    } else {
      ExecKeepsSerial(INITIAL, before);
      forall more ensures !CanDisagree(Apply(s, Lookup(w, k)), more, k) {
        OnlyMiss(s, w, k, more);
      }
    }
  }

  /** The shortest such run: two overlapping executions return different results, the second overwriting the saved one. */
  lemma OverlapCanDisagree(k: Key, x: Result, y: Result) returns (actions: seq<Action>)
    ensures Runs(INITIAL, actions)
    ensures Exec(INITIAL, actions).returned == [(k, x), (k, y)] && Exec(INITIAL, actions).saved == map[k := y]
  {
    var t;
    assert Leads(INITIAL, [], INITIAL);
    LeadsSnoc(INITIAL, [], INITIAL, Lookup(0, k));
    actions, t := [] + [Lookup(0, k)], Apply(INITIAL, Lookup(0, k));
    LeadsSnoc(INITIAL, actions, t, Lookup(1, k));
    actions, t := actions + [Lookup(1, k)], Apply(t, Lookup(1, k));
    LeadsSnoc(INITIAL, actions, t, Call(0, x));
    actions, t := actions + [Call(0, x)], Apply(t, Call(0, x));
    LeadsSnoc(INITIAL, actions, t, Call(1, y));
    actions, t := actions + [Call(1, y)], Apply(t, Call(1, y));
    actions, t := SaveAndReturn(INITIAL, actions, t, 0);
    actions, t := SaveAndReturn(INITIAL, actions, t, 1);
  }
}
