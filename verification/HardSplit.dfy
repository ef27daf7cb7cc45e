/** The sliding-window split of a sentence that is too long for one chunk. */
module HardSplits {
  import opened Text
  import opened Tokens
  import opened Sentences

  predicate HanRange(c: char) {
    '\U{3400}' <= c <= '\U{9fff}'
  }

  /** At least 30 % of the characters lie in the CJK range. */
  predicate MostlyHan(text: string) {
    10 * CountIf(text, HanRange) >= 3 * (if text == "" then 1 else |text|)
  }

  function Scaled(text: string, n: nat): nat {
    if MostlyHan(text) then n else 7 * n / 2
  }

  function Window(text: string, size: nat): (w: nat)
    ensures 1 <= w
  {
    if 1 <= Scaled(text, size) then Scaled(text, size) else 1
  }

  function OverlapChars(text: string, size: nat, overlap: nat): (o: nat)
    ensures o < Window(text, size)
  {
    var o := Scaled(text, overlap);
    if o <= Window(text, size) - 1 then o else Window(text, size) - 1
  }

  function Later(a: nat, b: nat): nat { if a >= b then a else b }

  /** The half-open windows visited from `start` on. */
  function Windows(n: nat, window: nat, overlap: nat, start: nat): seq<(nat, nat)>
    requires overlap < window
    decreases n - start
  {
    if start >= n then []
    else
      var end := if start + window <= n then start + window else n;
      [(start, end)] + if end >= n then [] else Windows(n, window, overlap, Later(start + 1, end - overlap))
  }

  function Cuts(text: string, windows: seq<(nat, nat)>): seq<string>
    requires forall w <- windows :: w.0 <= w.1 <= |text|
  {
    if windows == [] then [] else Emit(text[windows[0].0..windows[0].1]) + Cuts(text, windows[1..])
  }

  predicate Inside(w: (nat, nat), n: nat, window: nat) {
    w.0 < w.1 <= n && w.1 - w.0 <= window
  }

  /** `v` starts exactly `overlap` characters before the end of the full window `w`, and reaches further. */
  predicate Slides(w: (nat, nat), v: (nat, nat), window: nat, overlap: nat) {
    w.1 == w.0 + window && v.0 == w.1 - overlap && w.0 < v.0 <= w.1 < v.1
  }

  /** The windows run from `start` to `n` without a gap. */
  ghost predicate Cover(ws: seq<(nat, nat)>, n: nat, window: nat, overlap: nat, start: nat) {
    && |ws| > 0 && ws[0].0 == start && ws[|ws| - 1].1 == n
    && (forall i :: 0 <= i < |ws| ==> Inside(ws[i], n, window))
    && (forall i :: 0 <= i < |ws| - 1 ==> Slides(ws[i], ws[i + 1], window, overlap))
  }

  lemma CoverCons(tail: seq<(nat, nat)>, n: nat, window: nat, overlap: nat, start: nat)
    requires overlap < window && start + window < n
    requires Cover(tail, n, window, overlap, start + window - overlap)
    requires tail[0].1 > start + window
    ensures Cover([(start, start + window)] + tail, n, window, overlap, start)
  {
    var ws := [(start, start + window)] + tail;
    forall i | 0 <= i < |ws| - 1 ensures Slides(ws[i], ws[i + 1], window, overlap) {
      if i > 0 {
        assert ws[i] == tail[i - 1] && ws[i + 1] == tail[i];
        assert Slides(tail[i - 1], tail[i], window, overlap);
      }
    }
  }

  lemma {:induction false} WindowsCover(n: nat, window: nat, overlap: nat, start: nat)
    requires overlap < window && start < n
    ensures Cover(Windows(n, window, overlap, start), n, window, overlap, start)
    decreases n - start
  {
    if start + window < n {
      var next := start + window - overlap;
      WindowsCover(n, window, overlap, next);
      CoverCons(Windows(n, window, overlap, next), n, window, overlap, start);
    }
  }

  function EndOf(text: string, window: nat, start: nat): (end: nat)
    requires start < |text| && window > 0
    ensures start < end <= |text|
  {
    if start + window <= |text| then start + window else |text|
  }

  /** The parts cut from `start` on. */
  function PartsFrom(text: string, window: nat, overlap: nat, start: nat): seq<string>
    requires overlap < window
    decreases |text| - start, 1
  {
    if start >= |text| then []
    else
      var end := EndOf(text, window, start);
      Emit(text[start..end]) + PartsAfter(text, window, overlap, start, end)
  }

  /** The parts after the window from `start` to `end`. */
  function PartsAfter(text: string, window: nat, overlap: nat, start: nat, end: nat): seq<string>
    requires overlap < window && start < |text| && end == EndOf(text, window, start)
    decreases |text| - start, 0
  {
    if end >= |text| then [] else PartsFrom(text, window, overlap, Later(start + 1, end - overlap))
  }

  function HardParts(text: string, size: nat, overlap: nat): seq<string> {
    PartsFrom(text, Window(text, size), OverlapChars(text, size, overlap), 0)
  }

  method HardSplit(text: string, size: nat, overlap: nat) returns (parts: seq<string>)
    ensures parts == HardParts(text, size, overlap)
  {
    var window, back := Window(text, size), OverlapChars(text, size, overlap);
    parts := [];
    var start := 0;
    ghost var goal, todo := HardParts(text, size, overlap), PartsFrom(text, window, back, 0);
    while start < |text|
      invariant todo == PartsFrom(text, window, back, start)
      invariant parts + todo == goal
      decreases |text| - start
    {
      var end := if start + window <= |text| then start + window else |text|;
      ghost var rest := PartsAfter(text, window, back, start, end);
      assert todo == Emit(text[start..end]) + rest;
      Assoc(parts, Emit(text[start..end]), rest);
      todo := rest;
      var part := Strip(text[start..end]);
      if part != "" {
        assert Emit(text[start..end]) == [part];
        parts := parts + [part];
      } else {
        assert Emit(text[start..end]) == [] && parts + [] == parts;
      }
      if end >= |text| {
        break;
      }
      start := Later(start + 1, end - back);
    }
  }

  lemma WindowsInside(n: nat, window: nat, overlap: nat, start: nat)
    requires overlap < window
    ensures forall w <- Windows(n, window, overlap, start) :: w.0 <= w.1 <= n && w.1 - w.0 <= window
  {
    if start < n {
      WindowsCover(n, window, overlap, start);
    }
  }

  lemma CutsCons(text: string, w: (nat, nat), rest: seq<(nat, nat)>)
    requires w.0 <= w.1 <= |text| && forall v <- rest :: v.0 <= v.1 <= |text|
    ensures Cuts(text, [w] + rest) == Emit(text[w.0..w.1]) + Cuts(text, rest)
  {
    assert ([w] + rest)[1..] == rest;
  }

  lemma {:induction false} PartsAreCuts(text: string, window: nat, overlap: nat, start: nat)
    requires overlap < window
    ensures forall w <- Windows(|text|, window, overlap, start) :: w.0 <= w.1 <= |text|
    ensures PartsFrom(text, window, overlap, start) == Cuts(text, Windows(|text|, window, overlap, start))
    decreases |text| - start
  {
    WindowsInside(|text|, window, overlap, start);
    if start < |text| {
      var end := EndOf(text, window, start);
      var rest := if end >= |text| then [] else Windows(|text|, window, overlap, Later(start + 1, end - overlap));
      assert Windows(|text|, window, overlap, start) == [(start, end)] + rest;
      CutsCons(text, (start, end), rest);
      if end < |text| {
        PartsAreCuts(text, window, overlap, Later(start + 1, end - overlap));
      }
    }
  }

  lemma {:induction false} CutsCover(text: string, ws: seq<(nat, nat)>, i: nat, k: nat)
    returns (p: nat, a: nat, b: nat)
    requires forall w <- ws :: w.0 <= w.1 <= |text|
    requires i < |ws| && ws[i].0 <= k < ws[i].1 && !IsSpace(text[k])
    ensures p < |Cuts(text, ws)| && a <= k < b <= |text| && Cuts(text, ws)[p] == text[a..b]
    decreases |ws|
  {
    var head := text[ws[0].0..ws[0].1];
    var x, y := StripCut(head);
    if i == 0 {
      p, a, b := 0, ws[0].0 + x, ws[0].0 + y;
      assert head[k - ws[0].0] == text[k];
      SliceOfSlice(text, ws[0].0, ws[0].1, x, y);
    } else {
      assert ws[i] == ws[1..][i - 1];
      p, a, b := CutsCover(text, ws[1..], i - 1, k);
      p := p + |Emit(head)|;
    }
  }

  lemma {:induction false} CoverReaches(ws: seq<(nat, nat)>, n: nat, window: nat, overlap: nat, start: nat, k: nat)
    returns (i: nat)
    requires Cover(ws, n, window, overlap, start) && start <= k < n
    ensures i < |ws| && ws[i].0 <= k < ws[i].1
  {
    i := 0;
    while k >= ws[i].1
      invariant i < |ws| && ws[i].0 <= k
      decreases |ws| - i
    {
      assert i < |ws| - 1 && Slides(ws[i], ws[i + 1], window, overlap);
      i := i + 1;
    }
  }

  /** The windows leave no gap: every non-blank character of the text stands in one of the parts. */
  lemma HardSplitLosesNothing(text: string, size: nat, overlap: nat, k: nat)
    returns (p: nat, a: nat, b: nat)
    requires k < |text| && !IsSpace(text[k])
    ensures p < |HardParts(text, size, overlap)|
    ensures a <= k < b <= |text| && HardParts(text, size, overlap)[p] == text[a..b]
  {
    var window, back := Window(text, size), OverlapChars(text, size, overlap);
    var ws := Windows(|text|, window, back, 0);
    PartsAreCuts(text, window, back, 0);
    WindowsCover(|text|, window, back, 0);
    var i := CoverReaches(ws, |text|, window, back, 0, k);
    p, a, b := CutsCover(text, ws, i, k);
  }

  lemma {:induction false} CutsShort(text: string, ws: seq<(nat, nat)>, window: nat)
    requires forall w <- ws :: w.0 <= w.1 <= |text| && w.1 - w.0 <= window
    ensures forall p <- Cuts(text, ws) :: 1 <= |p| <= window
  {
    if ws != [] {
      CutsShort(text, ws[1..], window);
      var x, y := StripCut(text[ws[0].0..ws[0].1]);
    }
  }

  lemma HardPartsShort(text: string, size: nat, overlap: nat)
    ensures forall p <- HardParts(text, size, overlap) :: 1 <= |p| <= Window(text, size)
  {
    var window, back := Window(text, size), OverlapChars(text, size, overlap);
    WindowsInside(|text|, window, back, 0);
    PartsAreCuts(text, window, back, 0);
    CutsShort(text, Windows(|text|, window, back, 0), window);
  }

  /** The scale: with at least 30 % of its characters in the CJK range a text gets windows of `size` characters, and any
      other text 3.5 times as many, with the overlap scaled alike and kept below the window. */
  lemma WindowsScale(text: string, size: nat, overlap: nat)
    requires text != "" && size > 0
    ensures var w, o := Window(text, size), OverlapChars(text, size, overlap);
      if 10 * CountIf(text, HanRange) >= 3 * |text| then w == size && o == if overlap < size then overlap else size - 1
      else w == 7 * size / 2 && o == if 7 * overlap / 2 < w then 7 * overlap / 2 else w - 1
  {
  }

  lemma {:induction false} NoHan(text: string)
    requires forall k :: 0 <= k < |text| ==> !HanRange(text[k])
    ensures CountIf(text, HanRange) == 0
  {
    if text != "" {
      NoHan(text[1..]);
    }
  }

  /** So a text without CJK characters is not split while it has at most 3.5 `size` characters. */
  lemma LatinTextStaysWhole(text: string, size: nat, overlap: nat)
    requires text != "" && size > 0 && |text| <= 7 * size / 2
    requires forall k :: 0 <= k < |text| ==> !HanRange(text[k])
    ensures HardParts(text, size, overlap) == if Strip(text) == "" then [] else [Strip(text)]
  {
    NoHan(text);
    WindowsScale(text, size, overlap);
    var w, o := Window(text, size), OverlapChars(text, size, overlap);
    assert EndOf(text, w, 0) == |text| && PartsAfter(text, w, o, 0, |text|) == [];
    assert text[0..|text|] == text;
    assert Emit(text) + [] == Emit(text);
  }
}
