/** Greedy packing of pieces into chunks that re-read the end of their predecessor. */
module Packing {
  import opened Text
  import opened Tokens

  function Cost(t: Table, piece: string): nat {
    if 1 <= Approx(t, piece) then Approx(t, piece) else 1
  }

  function Costs(t: Table, pieces: seq<string>): nat {
    if pieces == [] then 0 else Costs(t, pieces[..|pieces| - 1]) + Cost(t, pieces[|pieces| - 1])
  }

  lemma CostsSnoc(t: Table, front: seq<string>, last: string)
    ensures Costs(t, front + [last]) == Costs(t, front) + Cost(t, last)
  {
    assert (front + [last])[..|front|] == front;
  }

  /** The longest suffix worth at most `budget`. */
  function Carry(t: Table, pieces: seq<string>, budget: int): seq<string> {
    if pieces == [] || Cost(t, pieces[|pieces| - 1]) > budget then []
    else Carry(t, pieces[..|pieces| - 1], budget - Cost(t, pieces[|pieces| - 1])) + [pieces[|pieces| - 1]]
  }

  lemma {:induction false} CarryIsSuffix(t: Table, pieces: seq<string>, budget: int)
    ensures var kept := Carry(t, pieces, budget);
      |kept| <= |pieces| && kept == pieces[|pieces| - |kept|..]
  {
    if pieces != [] && Cost(t, pieces[|pieces| - 1]) <= budget {
      var front, last := pieces[..|pieces| - 1], pieces[|pieces| - 1];
      CarryIsSuffix(t, front, budget - Cost(t, last));
      assert pieces == front + [last];
    }
  }

  /** These last pieces cost at most `budget`, and one more would cost more. */
  predicate Longest(t: Table, pieces: seq<string>, kept: seq<string>, budget: int) {
    && |kept| <= |pieces| && (kept == [] || Costs(t, kept) <= budget)
    && (|kept| < |pieces| ==> Costs(t, kept) + Cost(t, pieces[|pieces| - |kept| - 1]) > budget)
  }

  lemma LongestGrows(t: Table, front: seq<string>, last: string, kept: seq<string>, budget: int)
    requires Longest(t, front, kept, budget - Cost(t, last)) && Cost(t, last) <= budget
    ensures Longest(t, front + [last], kept + [last], budget)
  {
    CostsSnoc(t, kept, last);
  }

  lemma {:induction false} CarryIsLongest(t: Table, pieces: seq<string>, budget: int)
    ensures Longest(t, pieces, Carry(t, pieces, budget), budget)
  {
    if pieces != [] && Cost(t, pieces[|pieces| - 1]) <= budget {
      var front, last := pieces[..|pieces| - 1], pieces[|pieces| - 1];
      CarryIsLongest(t, front, budget - Cost(t, last));
      LongestGrows(t, front, last, Carry(t, front, budget - Cost(t, last)), budget);
      assert pieces == front + [last];
    }
  }

  /** A chunk in the making: its first `carried` pieces repeat the end of the previous chunk. */
  datatype Group = Group(carried: nat, pieces: seq<string>)

  function StartNext(t: Table, previous: seq<string>, piece: string, size: int, overlap: int): Group {
    var kept := Carry(t, previous, overlap);
    if kept != [] && Costs(t, kept) + Cost(t, piece) > size then Group(0, [piece])
    else Group(|kept|, kept + [piece])
  }

  predicate Overflows(t: Table, current: Group, piece: string, size: int) {
    current.pieces != [] && Costs(t, current.pieces) + Cost(t, piece) > size
  }

  function Next(t: Table, current: Group, piece: string, size: int, overlap: int): Group {
    if Overflows(t, current, piece, size) then StartNext(t, current.pieces, piece, size, overlap)
    else Group(current.carried, current.pieces + [piece])
  }

  /** All groups, in order, when `pieces` are still to be placed after `current`. */
  function Groups(t: Table, pieces: seq<string>, size: int, overlap: int, current: Group): seq<Group>
    decreases |pieces|
  {
    if pieces == [] then (if current.pieces == [] then [] else [current])
    else
      (if Overflows(t, current, pieces[0], size) then [current] else [])
      + Groups(t, pieces[1..], size, overlap, Next(t, current, pieces[0], size, overlap))
  }

  const EMPTY := Group(0, [])

  function Texts(groups: seq<Group>, sep: string): seq<string> {
    if groups == [] then [] else Texts(groups[..|groups| - 1], sep) + [Join(groups[|groups| - 1].pieces, sep)]
  }

  /** The last group is dropped when its text repeats the chunk before it. */
  predicate LastRepeats(groups: seq<Group>, sep: string) {
    |groups| >= 2 && Join(groups[|groups| - 1].pieces, sep) == Join(groups[|groups| - 2].pieces, sep)
  }

  function Emitted(groups: seq<Group>, sep: string): seq<Group> {
    if LastRepeats(groups, sep) then groups[..|groups| - 1] else groups
  }

  function Packed(t: Table, pieces: seq<string>, size: int, overlap: int, sep: string): seq<string> {
    Texts(Emitted(Groups(t, pieces, size, overlap, EMPTY), sep), sep)
  }

  /** Placing one piece. */
  lemma PlaceOne(t: Table, pieces: seq<string>, i: nat, size: int, overlap: int, current: Group)
    requires i < |pieces|
    ensures Groups(t, pieces[i..], size, overlap, current)
            == (if Overflows(t, current, pieces[i], size) then [current] else [])
               + Groups(t, pieces[i + 1..], size, overlap, Next(t, current, pieces[i], size, overlap))
  {
    assert pieces[i..][0] == pieces[i] && pieces[i..][1..] == pieces[i + 1..];
  }

  lemma TextsSnoc(front: seq<Group>, last: Group, sep: string)
    ensures Texts(front + [last], sep) == Texts(front, sep) + [Join(last.pieces, sep)]
  {
    assert (front + [last])[..|front|] == front;
  }

  lemma {:induction false} TextsAt(groups: seq<Group>, sep: string, i: nat)
    requires i < |groups|
    ensures |Texts(groups, sep)| == |groups| && Texts(groups, sep)[i] == Join(groups[i].pieces, sep)
  {
    if i < |groups| - 1 {
      TextsAt(groups[..|groups| - 1], sep, i);
    } else if i > 0 {
      TextsAt(groups[..|groups| - 1], sep, 0);
    }
  }

  /** The suppression test on the chunk texts is `LastRepeats` on the groups. */
  lemma LastChunk(done: seq<Group>, last: Group, sep: string)
    ensures var chunks, final := Texts(done, sep), Join(last.pieces, sep);
      Texts(Emitted(done + [last], sep), sep)
      == if chunks == [] || chunks[|chunks| - 1] != final then chunks + [final] else chunks
  {
    var all := done + [last];
    assert all[..|all| - 1] == done;
    TextsSnoc(done, last, sep);
    if done != [] {
      TextsAt(done, sep, |done| - 1);
    }
  }

  lemma {:induction false} CostsConcat(t: Table, a: seq<string>, b: seq<string>)
    ensures Costs(t, a + b) == Costs(t, a) + Costs(t, b)
    decreases |b|
  {
    if b == [] {
      assert a + b == a;
    } else {
      CostsConcat(t, a, b[..|b| - 1]);
      assert (a + b)[..|a + b| - 1] == a + b[..|b| - 1];
    }
  }

  /** The backward loop over `reversed(current)`. */
  method KeepSuffix(t: Table, current: seq<string>, overlap: int) returns (kept: seq<string>, keptTokens: nat)
    ensures kept == Carry(t, current, overlap) && keptTokens == Costs(t, kept)
  {
    kept, keptTokens := [], 0;
    var i := |current|;
    assert current[..i] == current && Carry(t, current, overlap) + [] == Carry(t, current, overlap);
    while i > 0
      invariant 0 <= i <= |current|
      invariant Carry(t, current[..i], overlap - keptTokens) + kept == Carry(t, current, overlap)
      invariant keptTokens == Costs(t, kept)
      decreases i
    {
      var previous := current[i - 1];
      var count := Cost(t, previous);
      if keptTokens + count > overlap {
        break;
      }
      assert current[..i][..i - 1] == current[..i - 1];
      CostsConcat(t, [previous], kept);
      CostsSnoc(t, [], previous);
      Assoc(Carry(t, current[..i - 1], overlap - keptTokens - count), [previous], kept);
      kept := [previous] + kept;
      keptTokens := keptTokens + count;
      i := i - 1;
    }
  }

  /** What the next chunk begins with, before `piece`: the overlap, unless `piece` does not fit behind it. */
  method StartChunk(t: Table, current: seq<string>, piece: string, size: int, overlap: int)
    returns (kept: seq<string>, keptTokens: nat)
    ensures kept + [piece] == StartNext(t, current, piece, size, overlap).pieces && keptTokens == Costs(t, kept)
  {
    kept, keptTokens := KeepSuffix(t, current, overlap);
    if kept != [] && keptTokens + Cost(t, piece) > size {
      kept, keptTokens := [], 0;
    }
  }

  /** The packing loop shared by plain text (`sep` empty) and by markdown blocks (`sep` a blank line). */
  method Pack(t: Table, pieces: seq<string>, size: int, overlap: int, sep: string) returns (chunks: seq<string>)
    ensures chunks == Packed(t, pieces, size, overlap, sep)
  {
    chunks := [];
    var current, tokens := [], 0;
    ghost var group, done := EMPTY, [];
    ghost var all := Groups(t, pieces, size, overlap, EMPTY);
    ghost var todo := all;
    assert pieces[0..] == pieces;
    for i := 0 to |pieces|
      invariant if i == 0 then done == [] && group == EMPTY else current != []
      invariant group.pieces == current && tokens == Costs(t, current)
      invariant todo == Groups(t, pieces[i..], size, overlap, group)
      invariant done + todo == all
      invariant chunks == Texts(done, sep)
    {
      var piece := pieces[i];
      var count := Cost(t, piece);
      PlaceOne(t, pieces, i, size, overlap, group);
      ghost var next := Next(t, group, piece, size, overlap);
      todo := Groups(t, pieces[i + 1..], size, overlap, next);
      if current != [] && tokens + count > size {
        Assoc(done, [group], todo);
        chunks := chunks + [Join(current, sep)];
        TextsSnoc(done, group, sep);
        done := done + [group];
        current, tokens := StartChunk(t, current, piece, size, overlap);
      } else {
        assert [] + todo == todo;
      }
      CostsSnoc(t, current, piece);
      current := current + [piece];
      tokens := tokens + count;
      group := next;
    }
    assert pieces[|pieces|..] == [];
    if current != [] {
      assert all == done + [group];
      LastChunk(done, group, sep);
      var final := Join(current, sep);
      if chunks == [] || chunks[|chunks| - 1] != final {
        chunks := chunks + [final];
      }
    } else {
      assert all == done == [];
    }
  }

  // ---- What packing preserves ----------------------------------------------------------------------------------------

  function New(g: Group): seq<string> {
    if g.carried <= |g.pieces| then g.pieces[g.carried..] else []
  }

  /** The pieces of the groups without their carried prefixes. */
  function Fresh(groups: seq<Group>): seq<string>
  {
    if groups == [] then [] else New(groups[0]) + Fresh(groups[1..])
  }

  /** Neighbouring groups: the carried prefix is a suffix of the previous group worth at most `overlap`, and the next
      fresh piece would not have fitted into the previous group. */
  ghost predicate Linked(t: Table, g: Group, h: Group, size: int, overlap: int) {
    && h.carried < |h.pieces| && h.carried <= |g.pieces|
    && h.pieces[..h.carried] == g.pieces[|g.pieces| - h.carried..]
    && (h.carried > 0 ==> Costs(t, h.pieces[..h.carried]) <= overlap)
    && Costs(t, g.pieces) + Cost(t, h.pieces[h.carried]) > size
  }

  /** Within budget, unless it is one fresh piece alone. */
  ghost predicate Bounded(t: Table, g: Group, size: int) {
    |g.pieces| == 1 || Costs(t, g.pieces) <= size
  }

  ghost predicate WellPacked(t: Table, groups: seq<Group>, size: int, overlap: int) {
    groups == [] ||
    (&& groups[0].carried < |groups[0].pieces| && Bounded(t, groups[0], size)
     && (|groups| > 1 ==> Linked(t, groups[0], groups[1], size, overlap))
     && WellPacked(t, groups[1..], size, overlap))
  }

  /** A group that grows keeps its prefix, so it stays linked to its predecessor. */
  ghost predicate Extends(g: Group, h: Group) {
    g.carried == h.carried && g.pieces <= h.pieces
  }

  lemma LinkExtends(t: Table, g: Group, h: Group, k: Group, size: int, overlap: int)
    requires Linked(t, g, h, size, overlap) && Extends(h, k)
    ensures Linked(t, g, k, size, overlap)
  {
    assert k.pieces[..k.carried] == h.pieces[..h.carried];
  }

  lemma ClosedGroup(t: Table, g: Group, next: Group, tail: seq<Group>, size: int, overlap: int)
    requires g.carried < |g.pieces| && Bounded(t, g, size) && Linked(t, g, next, size, overlap)
    requires |tail| > 0 && Extends(next, tail[0]) && WellPacked(t, tail, size, overlap)
    ensures WellPacked(t, [g] + tail, size, overlap)
  {
    LinkExtends(t, g, next, tail[0], size, overlap);
    assert ([g] + tail)[1..] == tail;
  }

  lemma CarryLinks(t: Table, g: Group, piece: string, size: int, overlap: int)
    requires Costs(t, g.pieces) + Cost(t, piece) > size
    ensures var kept := Carry(t, g.pieces, overlap);
      Linked(t, g, Group(|kept|, kept + [piece]), size, overlap)
  {
    var kept := Carry(t, g.pieces, overlap);
    assert kept == [] || Costs(t, kept) <= overlap by {
      CarryIsLongest(t, g.pieces, overlap);
    }
    CarryIsSuffix(t, g.pieces, overlap);
    assert (kept + [piece])[..|kept|] == kept && (kept + [piece])[|kept|] == piece;
  }

  lemma StartNextLinked(t: Table, g: Group, piece: string, size: int, overlap: int)
    requires Costs(t, g.pieces) + Cost(t, piece) > size
    ensures Linked(t, g, StartNext(t, g.pieces, piece, size, overlap), size, overlap)
  {
    CarryLinks(t, g, piece, size, overlap);
    assert [piece][..0] == g.pieces[|g.pieces|..];
  }

  lemma StartNextBounded(t: Table, previous: seq<string>, piece: string, size: int, overlap: int)
    ensures var h := StartNext(t, previous, piece, size, overlap);
      h.carried < |h.pieces| && Bounded(t, h, size)
  {
    CostsSnoc(t, Carry(t, previous, overlap), piece);
  }

  lemma {:induction false} GroupsWellPacked(t: Table, pieces: seq<string>, size: int, overlap: int, current: Group)
    requires current.carried < |current.pieces| && Bounded(t, current, size)
    ensures var gs := Groups(t, pieces, size, overlap, current);
      |gs| > 0 && Extends(current, gs[0]) && WellPacked(t, gs, size, overlap)
    decreases |pieces|
  {
    if pieces == [] {
      assert [current][1..] == [];
    } else {
      var piece, rest := pieces[0], pieces[1..];
      var next := Next(t, current, piece, size, overlap);
      var tail := Groups(t, rest, size, overlap, next);
      assert pieces == [piece] + rest;
      if Overflows(t, current, piece, size) {
        StartNextLinked(t, current, piece, size, overlap);
        StartNextBounded(t, current.pieces, piece, size, overlap);
        GroupsWellPacked(t, rest, size, overlap, next);
        ClosedGroup(t, current, next, tail, size, overlap);
      } else {
        CostsSnoc(t, current.pieces, piece);
        GroupsWellPacked(t, rest, size, overlap, next);
        assert [] + tail == tail;
      }
    }
  }

  lemma NewOfNext(t: Table, previous: seq<string>, piece: string, size: int, overlap: int)
    ensures var h := StartNext(t, previous, piece, size, overlap); h.carried < |h.pieces| && New(h) == [piece]
  {
    var kept := Carry(t, previous, overlap);
    assert (kept + [piece])[|kept|..] == [piece] && [piece][0..] == [piece];
  }

  /** Without their carried prefixes the groups are the pieces. */
  lemma {:induction false} GroupsFresh(t: Table, pieces: seq<string>, size: int, overlap: int, current: Group)
    requires current.carried < |current.pieces|
    ensures Fresh(Groups(t, pieces, size, overlap, current)) == New(current) + pieces
    decreases |pieces|
  {
    if pieces == [] {
      assert [current][1..] == [];
    } else {
      var piece, rest := pieces[0], pieces[1..];
      var next := Next(t, current, piece, size, overlap);
      var tail := Groups(t, rest, size, overlap, next);
      assert pieces == [piece] + rest;
      Assoc(New(current), [piece], rest);
      if Overflows(t, current, piece, size) {
        NewOfNext(t, current.pieces, piece, size, overlap);
        GroupsFresh(t, rest, size, overlap, next);
        assert ([current] + tail)[1..] == tail;
      } else {
        assert New(next) == New(current) + [piece];
        GroupsFresh(t, rest, size, overlap, next);
        assert [] + tail == tail;
      }
    }
  }

  /** `WellPacked`, read at one position. */
  lemma {:induction false} WellPackedAt(t: Table, groups: seq<Group>, size: int, overlap: int, i: nat)
    requires WellPacked(t, groups, size, overlap) && i < |groups|
    ensures groups[i].carried < |groups[i].pieces| && Bounded(t, groups[i], size)
    ensures i + 1 < |groups| ==> Linked(t, groups[i], groups[i + 1], size, overlap)
  {
    if i > 0 {
      WellPackedAt(t, groups[1..], size, overlap, i - 1);
    }
  }

  /** Packing loses no piece, re-reads only short suffixes, is greedy and stays within budget. */
  lemma PackingIsFaithful(t: Table, pieces: seq<string>, size: int, overlap: int)
    ensures WellPacked(t, Groups(t, pieces, size, overlap, EMPTY), size, overlap)
    ensures Fresh(Groups(t, pieces, size, overlap, EMPTY)) == pieces
  {
    if pieces != [] {
      var first := Group(0, [pieces[0]]);
      assert [] + [pieces[0]] == [pieces[0]] && Next(t, EMPTY, pieces[0], size, overlap) == first;
      assert [] + Groups(t, pieces[1..], size, overlap, first) == Groups(t, pieces[1..], size, overlap, first);
      assert Groups(t, pieces, size, overlap, EMPTY) == Groups(t, pieces[1..], size, overlap, first);
      GroupsWellPacked(t, pieces[1..], size, overlap, first);
      GroupsFresh(t, pieces[1..], size, overlap, first);
      assert New(first) == [pieces[0]] && [pieces[0]] + pieces[1..] == pieces;
    }
  }

  lemma {:induction false} FreshSnoc(front: seq<Group>, last: Group)
    ensures Fresh(front + [last]) == Fresh(front) + New(last)
  {
    if front == [] {
      assert front + [last] == [last] && [last][1..] == [];
    } else {
      FreshSnoc(front[1..], last);
      assert (front + [last])[1..] == front[1..] + [last] && (front + [last])[0] == front[0];
      Assoc(New(front[0]), Fresh(front[1..]), New(last));
    }
  }

  /** Every group brings in a piece, so without the last one some are missing. */
  lemma FrontIsShorter(t: Table, gs: seq<Group>, size: int, overlap: int)
    requires gs != [] && WellPacked(t, gs, size, overlap)
    ensures |Fresh(gs[..|gs| - 1])| < |Fresh(gs)|
  {
    var front, last := gs[..|gs| - 1], gs[|gs| - 1];
    assert gs == front + [last];
    FreshSnoc(front, last);
    WellPackedAt(t, gs, size, overlap, |gs| - 1);
    assert |New(last)| > 0;
  }

  lemma EmittedIff(t: Table, gs: seq<Group>, size: int, overlap: int, sep: string)
    requires WellPacked(t, gs, size, overlap)
    ensures Fresh(Emitted(gs, sep)) == Fresh(gs) <==> !LastRepeats(gs, sep)
  {
    if LastRepeats(gs, sep) {
      FrontIsShorter(t, gs, size, overlap);
    }
  }

  /** The emitted chunks rebuild the exact piece sequence if and only if the final-duplicate suppression stays silent. */
  lemma EmittedRebuildsIff(t: Table, pieces: seq<string>, size: int, overlap: int, sep: string)
    ensures var gs := Groups(t, pieces, size, overlap, EMPTY);
      Fresh(Emitted(gs, sep)) == pieces <==> !LastRepeats(gs, sep)
  {
    PackingIsFaithful(t, pieces, size, overlap);
    EmittedIff(t, Groups(t, pieces, size, overlap, EMPTY), size, overlap, sep);
  }

  lemma {:induction false} FreshPieceHasGroup(groups: seq<Group>, k: nat) returns (i: nat, j: nat)
    requires k < |Fresh(groups)|
    ensures i < |groups| && j < |groups[i].pieces| && groups[i].pieces[j] == Fresh(groups)[k]
  {
    var first, rest := New(groups[0]), Fresh(groups[1..]);
    assert Fresh(groups) == first + rest;
    if k < |first| {
      i, j := 0, groups[0].carried + k;
      assert (first + rest)[k] == first[k];
    } else {
      i, j := FreshPieceHasGroup(groups[1..], k - |first|);
      i := i + 1;
      assert (first + rest)[k] == rest[k - |first|];
    }
  }

  /** The text of every group is emitted: that of a suppressed one is the chunk before it. */
  lemma TextOfGroup(groups: seq<Group>, sep: string, i: nat) returns (c: nat)
    requires i < |groups|
    ensures c < |Texts(Emitted(groups, sep), sep)|
    ensures Texts(Emitted(groups, sep), sep)[c] == Join(groups[i].pieces, sep)
  {
    var out := Emitted(groups, sep);
    c := if i < |out| then i else i - 1;
    TextsAt(out, sep, c);
  }

  /** Every piece occurs in some chunk, even when the final chunk is suppressed. */
  lemma EveryPieceIsChunked(t: Table, pieces: seq<string>, size: int, overlap: int, sep: string, k: nat)
    returns (c: nat)
    requires k < |pieces|
    ensures c < |Packed(t, pieces, size, overlap, sep)|
    ensures Contains(Packed(t, pieces, size, overlap, sep)[c], pieces[k])
  {
    PackingIsFaithful(t, pieces, size, overlap);
    var gs := Groups(t, pieces, size, overlap, EMPTY);
    var i, j := FreshPieceHasGroup(gs, k);
    var pre, post := JoinContains(gs[i].pieces, sep, j);
    ContainsMiddle(pre, pieces[k], post);
    c := TextOfGroup(gs, sep, i);
  }

  // ---- Token bounds --------------------------------------------------------------------------------------------------

  lemma {:induction false} SumApproxSnoc(t: Table, front: seq<string>, last: string)
    ensures SumApprox(t, front + [last]) == SumApprox(t, front) + Approx(t, last)
  {
    if front == [] {
      assert front + [last] == [last] && [last][1..] == [];
    } else {
      SumApproxSnoc(t, front[1..], last);
      assert (front + [last])[1..] == front[1..] + [last];
    }
  }

  lemma {:induction false} SumApproxAtMostCosts(t: Table, pieces: seq<string>)
    ensures SumApprox(t, pieces) <= Costs(t, pieces)
  {
    if pieces != [] {
      var front, last := pieces[..|pieces| - 1], pieces[|pieces| - 1];
      assert pieces == front + [last];
      SumApproxSnoc(t, front, last);
      SumApproxAtMostCosts(t, front);
    }
  }

  lemma {:induction false} NewPieceIsFresh(groups: seq<Group>, i: nat, p: string)
    requires i < |groups| && p in New(groups[i])
    ensures p in Fresh(groups)
  {
    var first, rest := New(groups[0]), Fresh(groups[1..]);
    assert Fresh(groups) == first + rest;
    assert p in first || p in rest ==> p in first + rest;
    if i > 0 {
      NewPieceIsFresh(groups[1..], i - 1, p);
    }
  }

  lemma GroupWithin(t: Table, pieces: seq<string>, size: int, overlap: int, sep: string, bound: nat, i: nat)
    requires t.Valid() && AllSpace(sep) && size <= bound
    requires forall p <- pieces :: Approx(t, p) <= bound
    requires i < |Groups(t, pieces, size, overlap, EMPTY)|
    ensures Approx(t, Join(Groups(t, pieces, size, overlap, EMPTY)[i].pieces, sep)) <= bound
  {
    PackingIsFaithful(t, pieces, size, overlap);
    var gs := Groups(t, pieces, size, overlap, EMPTY);
    WellPackedAt(t, gs, size, overlap, i);
    var g := gs[i];
    if |g.pieces| == 1 {
      NewPieceIsFresh(gs, i, g.pieces[0]);
    } else {
      ApproxJoin(t, g.pieces, sep);
      SumApproxAtMostCosts(t, g.pieces);
    }
  }

  /** If every piece has at most `bound >= size` tokens, so has every chunk. */
  lemma PackedWithin(t: Table, pieces: seq<string>, size: int, overlap: int, sep: string, bound: nat)
    requires t.Valid() && AllSpace(sep) && size <= bound
    requires forall p <- pieces :: Approx(t, p) <= bound
    ensures forall c <- Packed(t, pieces, size, overlap, sep) :: Approx(t, c) <= bound
  {
    var gs := Groups(t, pieces, size, overlap, EMPTY);
    var out := Emitted(gs, sep);
    if out != [] {
      TextsAt(out, sep, 0);
    }
    forall i | 0 <= i < |out| ensures Approx(t, Texts(out, sep)[i]) <= bound {
      TextsAt(out, sep, i);
      GroupWithin(t, pieces, size, overlap, sep, bound, i);
    }
  }
}
