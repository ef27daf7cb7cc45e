/** Expansion of a retrieved chunk by its neighbours, alternating left and right within a token budget. */
module ParentContext {
  import opened Text
  import opened Tokens

  datatype Chunk = Chunk(index: int, content: string)

  /** `{chunk.chunk_index: chunk for chunk in chunks}`: the last chunk with an index wins. */
  function ByIndex(chunks: seq<Chunk>): map<int, string> {
    if chunks == [] then map[]
    else
      var last := chunks[|chunks| - 1];
      ByIndex(chunks[..|chunks| - 1])[last.index := last.content]
  }

  predicate IsLast(chunks: seq<Chunk>, index: int, k: int) {
    && 0 <= k < |chunks| && chunks[k].index == index
    && forall j :: k < j < |chunks| ==> chunks[j].index != index
  }

  /** Of several chunks with one index the last is taken. */
  lemma {:induction false} LastChunkWins(chunks: seq<Chunk>, index: int, k: nat)
    requires IsLast(chunks, index, k)
    ensures index in ByIndex(chunks) && ByIndex(chunks)[index] == chunks[k].content
  {
    var n := |chunks| - 1;
    if k < n {
      var front := chunks[..n];
      assert forall j :: 0 <= j < n ==> front[j] == chunks[j];
      LastChunkWins(front, index, k);
    }
  }

  /** And nothing else is in the table. */
  lemma {:induction false} OnlyChunks(chunks: seq<Chunk>, index: int) returns (k: nat)
    requires index in ByIndex(chunks)
    ensures IsLast(chunks, index, k)
  {
    var n := |chunks| - 1;
    if chunks[n].index == index {
      k := n;
    } else {
      var front := chunks[..n];
      assert forall j :: 0 <= j < n ==> front[j] == chunks[j];
      k := OnlyChunks(front, index);
    }
  }

  predicate Ascending(s: seq<int>) {
    forall i, j :: 0 <= i < j < |s| ==> s[i] < s[j]
  }

  function Insert(x: int, s: seq<int>): seq<int> {
    if s == [] || x <= s[0] then [x] + s else [s[0]] + Insert(x, s[1..])
  }

  function Sort(s: seq<int>): seq<int> {
    if s == [] then [] else Insert(s[|s| - 1], Sort(s[..|s| - 1]))
  }

  /** The indices of `[a, b)` that have a chunk, in order. */
  function Available(table: map<int, string>, a: int, b: int): seq<int>
    decreases b - a
  {
    if a >= b then [] else (if a in table then [a] else []) + Available(table, a + 1, b)
  }

  function Contents(table: map<int, string>, indices: seq<int>): seq<string>
  {
    if indices == [] then []
    else (if indices[0] in table then [table[indices[0]]] else []) + Contents(table, indices[1..])
  }

  function Used(t: Table, table: map<int, string>, a: int, b: int): nat
    decreases b - a
  {
    if a >= b then 0 else (if a in table then Approx(t, table[a]) else 0) + Used(t, table, a + 1, b)
  }

  lemma {:induction false} AvailableIs(table: map<int, string>, a: int, b: int)
    ensures Ascending(Available(table, a, b))
    ensures forall i :: i in Available(table, a, b) <==> a <= i < b && i in table
    decreases b - a
  {
    if a < b {
      AvailableIs(table, a + 1, b);
      var rest := Available(table, a + 1, b);
      assert forall k :: 0 <= k < |rest| ==> rest[k] in rest;
    }
  }

  lemma {:induction false} InsertKeeps(x: int, s: seq<int>)
    requires Ascending(s) && x !in s
    ensures Ascending(Insert(x, s))
    ensures forall i :: i in Insert(x, s) <==> i == x || i in s
  {
    if s != [] && x > s[0] {
      assert x !in s[1..];
      InsertKeeps(x, s[1..]);
      var r := Insert(x, s[1..]);
      assert forall k :: 0 <= k < |r| ==> r[k] in r;
      assert forall i :: i in s <==> i == s[0] || i in s[1..];
    }
  }

  predicate Distinct(s: seq<int>) {
    forall i, j :: 0 <= i < j < |s| ==> s[i] != s[j]
  }

  lemma {:induction false} SortIs(s: seq<int>)
    requires Distinct(s)
    ensures Ascending(Sort(s))
    ensures forall i :: i in Sort(s) <==> i in s
  {
    if s != [] {
      var front, last := s[..|s| - 1], s[|s| - 1];
      SortIs(front);
      InsertKeeps(last, Sort(front));
      assert forall i :: i in s <==> i == last || i in front;
    }
  }

  lemma FirstIn(s: seq<int>)
    requires |s| > 0
    ensures s[0] in s
  {
  }

  /** A strictly ascending sequence is determined by its elements. */
  lemma {:induction false} AscendingUnique(s: seq<int>, r: seq<int>)
    requires Ascending(s) && Ascending(r) && forall i :: i in s <==> i in r
    ensures s == r
    decreases |s|
  {
    if s == [] {
      assert |r| == 0 by {
        if |r| > 0 {
          FirstIn(r);
          assert false;
        }
      }
    } else {
      assert s[0] in r && r != [] && r[0] in s;
      assert s[0] == r[0];
      forall i ensures i in s[1..] <==> i in r[1..] {
        assert i in s[1..] <==> i in s && i != s[0];
        assert i in r[1..] <==> i in r && i != r[0];
      }
      AscendingUnique(s[1..], r[1..]);
    }
  }

  lemma {:induction false} Extremes(chunks: seq<Chunk>) returns (lo: int, hi: int)
    ensures forall k <- ByIndex(chunks).Keys :: lo <= k <= hi
  {
    if chunks == [] {
      lo, hi := 0, 0;
    } else {
      lo, hi := Extremes(chunks[..|chunks| - 1]);
      var index := chunks[|chunks| - 1].index;
      lo, hi := if index < lo then index else lo, if index > hi then index else hi;
    }
  }

  lemma {:induction false} UsedSnoc(t: Table, table: map<int, string>, a: int, b: int)
    requires a <= b
    ensures Used(t, table, a, b + 1) == Used(t, table, a, b) + if b in table then Approx(t, table[b]) else 0
    decreases b - a
  {
    if a < b {
      UsedSnoc(t, table, a + 1, b);
    } else {
      assert Used(t, table, b + 1, b + 1) == 0;
    }
  }

  /** Opening the window on either side adds the neighbour there, if there is one. */
  lemma UsedGrows(t: Table, table: map<int, string>, l: int, r: int)
    requires l < r
    ensures Used(t, table, l, r) == Used(t, table, l + 1, r) + if l in table then Approx(t, table[l]) else 0
    ensures Used(t, table, l + 1, r + 1) == Used(t, table, l + 1, r) + if r in table then Approx(t, table[r]) else 0
  {
    UsedSnoc(t, table, l + 1, r);
  }

  /** The side whose turn it is: left when both sides have advanced equally far. */
  function Turn(center: int, left: int, right: int): int {
    if center - left == right - center then left else right
  }

  /** The expansion stopped for a reason: nothing is left on either side, or the neighbour in turn would overflow. */
  ghost predicate Finished(t: Table, table: map<int, string>, center: int, left: int, right: int, maxTokens: int) {
    || (forall k <- table.Keys :: left < k < right)
    || (var i := Turn(center, left, right);
        i in table && Used(t, table, left + 1, right) + Approx(t, table[i]) > maxTokens)
  }

  /** The open window around the centre: balanced, and within budget unless it holds the centre alone. */
  ghost predicate Window(t: Table, table: map<int, string>, center: int, left: int, right: int, maxTokens: int) {
    && left < center < right && 0 <= (center - left) - (right - center) <= 1
    && (Used(t, table, left + 1, right) <= maxTokens || Available(table, left + 1, right) == [center])
  }

  /** `selected` lists exactly the available indices strictly between `l` and `r`, each once. */
  ghost predicate Collected(table: map<int, string>, selected: seq<int>, l: int, r: int) {
    Distinct(selected) && forall i :: i in selected <==> l < i < r && i in table
  }

  lemma CollectedGrows(table: map<int, string>, selected: seq<int>, l: int, r: int)
    requires Collected(table, selected, l, r) && l < r
    ensures Collected(table, if l in table then selected + [l] else selected, l - 1, r)
    ensures Collected(table, if r in table then selected + [r] else selected, l, r + 1)
  {
    var a, b := selected + [l], selected + [r];
    assert forall i :: i in a <==> i in selected || i == l;
    assert forall i :: i in b <==> i in selected || i == r;
  }

  /** Distance both sides still have to go. */
  function Ahead(l: int, r: int, lo: int, hi: int): nat {
    (if l >= lo then l - lo + 1 else 0) + (if r <= hi then hi - r + 1 else 0)
  }

  /** The side in turn has passed the last index. */
  predicate Exhausted(l: int, r: int, takeLeft: bool, lo: int, hi: int) {
    if takeLeft then l < lo else r > hi
  }

  /** One step of the side in turn brings the end nearer, or passes the turn to a side that can go on. */
  lemma TurnAdvances(l: int, r: int, takeLeft: bool, lo: int, hi: int)
    requires l >= lo || r <= hi
    ensures var l', r' := if takeLeft then l - 1 else l, if takeLeft then r else r + 1;
      Ahead(l', r', lo, hi) < Ahead(l, r, lo, hi)
      || (Ahead(l', r', lo, hi) == Ahead(l, r, lo, hi)
          && Exhausted(l, r, takeLeft, lo, hi) && !Exhausted(l', r', !takeLeft, lo, hi))
  {
  }

  /** What has been taken, and what it costs. */
  ghost predicate Taken(t: Table, table: map<int, string>, selected: seq<int>, used: nat, l: int, r: int) {
    Collected(table, selected, l, r) && used == Used(t, table, l + 1, r)
  }

  lemma TakenGrows(t: Table, table: map<int, string>, selected: seq<int>, used: nat, l: int, r: int, takeLeft: bool)
    requires Taken(t, table, selected, used, l, r) && l < r
    ensures var index := if takeLeft then l else r;
      Taken(t, table, if index in table then selected + [index] else selected,
            used + (if index in table then Approx(t, table[index]) else 0),
            if takeLeft then l - 1 else l, if takeLeft then r else r + 1)
  {
    UsedGrows(t, table, l, r);
    CollectedGrows(table, selected, l, r);
  }

  /** The expansion stops at an overflow of the neighbour in turn, or when both ends are passed. */
  lemma StopsHere(t: Table, table: map<int, string>, center: int, selected: seq<int>, used: nat, l: int, r: int,
                  maxTokens: int)
    requires Taken(t, table, selected, used, l, r)
    ensures var index := Turn(center, l, r);
      (index in table && used + Approx(t, table[index]) > maxTokens) || (forall k <- table.Keys :: l < k < r)
      ==> Finished(t, table, center, l, r, maxTokens)
  {
  }

  /** The expansion loop: the indices taken, in the order they were taken, and the open window they fill. */
  method Expand(t: Table, table: map<int, string>, center: int, maxTokens: int, ghost lo: int, ghost hi: int)
    returns (selected: seq<int>, l: int, r: int)
    requires center in table && forall k <- table.Keys :: lo <= k <= hi
    ensures l < center < r && 0 <= (center - l) - (r - center) <= 1
    ensures Collected(table, selected, l, r)
    ensures Used(t, table, l + 1, r) <= maxTokens || selected == [center]
    ensures Finished(t, table, center, l, r, maxTokens)
  {
    selected := [center];
    var used: nat := Approx(t, table[center]);
    l, r := center - 1, center + 1;
    var takeLeft := true;
    assert Used(t, table, center + 1, center + 1) == 0;
    while true
      invariant l < center < r && takeLeft == (center - l == r - center) && 0 <= (center - l) - (r - center) <= 1
      invariant Taken(t, table, selected, used, l, r)
      invariant used <= maxTokens || selected == [center]
      decreases Ahead(l, r, lo, hi), if Exhausted(l, r, takeLeft, lo, hi) then 1 else 0
    {
      var index := if takeLeft then l else r;
      TakenGrows(t, table, selected, used, l, r, takeLeft);
      StopsHere(t, table, center, selected, used, l, r, maxTokens);
      if index in table {
        var count := Approx(t, table[index]);
        if used + count > maxTokens {
          break;
        }
        selected := selected + [index];
        used := used + count;
      } else if (forall k <- table.Keys :: l < k) && (forall k <- table.Keys :: k < r) {
        break;
      }
      TurnAdvances(l, r, takeLeft, lo, hi);
      takeLeft := !takeLeft;
      if index == l {
        l := l - 1;
      } else {
        r := r + 1;
      }
    }
  }

  /** Sorting the collected indices enumerates the window. */
  lemma SortedWindow(table: map<int, string>, center: int, selected: seq<int>, l: int, r: int)
    requires Collected(table, selected, l, r) && l < center < r && center in table
    ensures Sort(selected) == Available(table, l + 1, r)
    ensures selected == [center] ==> Available(table, l + 1, r) == [center]
  {
    SortIs(selected);
    AvailableIs(table, l + 1, r);
    AscendingUnique(Sort(selected), Available(table, l + 1, r));
    if selected == [center] {
      AscendingUnique(Available(table, l + 1, r), [center]);
    }
  }

  /** The expansion and the join, for a centre that is there; `left` and `right` bound the window from outside. */
  method JoinAround(t: Table, table: map<int, string>, center: int, maxTokens: int, ghost lo: int, ghost hi: int)
    returns (text: string, left: int, right: int)
    requires center in table && forall k <- table.Keys :: lo <= k <= hi
    ensures Window(t, table, center, left, right, maxTokens) && Finished(t, table, center, left, right, maxTokens)
    ensures text == Join(Contents(table, Available(table, left + 1, right)), "\n\n")
  {
    var selected;
    selected, left, right := Expand(t, table, center, maxTokens, lo, hi);
    SortedWindow(table, center, selected, left, right);
    text := Join(Contents(table, Sort(selected)), "\n\n");
  }

  /** `_joined_with_budget`. The text is made of all chunks strictly between `left` and `right`, whatever gaps the index
      set has. */
  method JoinedWithBudget(t: Table, center: int, chunks: seq<Chunk>, maxTokens: int)
    returns (text: string, ghost left: int, ghost right: int)
    ensures center !in ByIndex(chunks) ==> text == ""
    ensures center in ByIndex(chunks) ==> Window(t, ByIndex(chunks), center, left, right, maxTokens)
    ensures center in ByIndex(chunks) ==> Finished(t, ByIndex(chunks), center, left, right, maxTokens)
    ensures center in ByIndex(chunks) ==>
      text == Join(Contents(ByIndex(chunks), Available(ByIndex(chunks), left + 1, right)), "\n\n")
  {
    var table := ByIndex(chunks);
    if center !in table {
      return "", center, center;
    }
    ghost var lo, hi := Extremes(chunks);
    var l, r;
    text, l, r := JoinAround(t, table, center, maxTokens, lo, hi);
    left, right := l, r;
  }

  lemma {:induction false} UsedIsSum(t: Table, table: map<int, string>, a: int, b: int)
    ensures Used(t, table, a, b) == SumApprox(t, Contents(table, Available(table, a, b)))
    decreases b - a
  {
    AvailableIs(table, a, b);
    if a < b {
      AvailableIs(table, a + 1, b);
      UsedIsSum(t, table, a + 1, b);
      var rest := Available(table, a + 1, b);
      if a in table {
        assert ([a] + rest)[1..] == rest;
        assert ([table[a]] + Contents(table, rest))[1..] == Contents(table, rest);
      } else {
        assert [] + rest == rest;
      }
    }
  }

  /** Joining the window with blank lines costs no more than its chunks together. */
  lemma JoinedWithin(t: Table, table: map<int, string>, a: int, b: int)
    requires t.Valid()
    ensures Approx(t, Join(Contents(table, Available(table, a, b)), "\n\n")) <= Used(t, table, a, b)
  {
    UsedIsSum(t, table, a, b);
    ApproxJoin(t, Contents(table, Available(table, a, b)), "\n\n");
  }

  function Interval(from: int, to: int): seq<int>
    decreases to - from
  {
    if from >= to then [] else [from] + Interval(from + 1, to)
  }

  /** On contiguous indices the window is an interval around the centre. */
  lemma {:induction false} ContiguousWindow(table: map<int, string>, a: int, b: int, lo: int, hi: int)
    requires forall i :: i in table <==> lo <= i <= hi
    ensures var from, to := (if a > lo then a else lo), (if b <= hi then b else hi + 1);
      Available(table, a, b) == Interval(from, to)
    decreases b - a
  {
    if a < b {
      ContiguousWindow(table, a + 1, b, lo, hi);
    }
  }
}
