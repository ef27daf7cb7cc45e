/** String operations shared by the text modules: the whitespace tables of Python and of JavaScript, trimming,
    searching, splitting and joining. */
module Text {

  /** Python's `str.isspace` on one character; the regular-expression class `\s` agrees with it. */
  predicate IsSpace(c: char) {
    || '\t' <= c <= '\r' || '\U{001c}' <= c <= ' ' || c == '\U{0085}' || c == '\U{00a0}' || c == '\U{1680}'
    || '\U{2000}' <= c <= '\U{200a}' || c == '\U{2028}' || c == '\U{2029}' || c == '\U{202f}' || c == '\U{205f}'
    || c == '\U{3000}'
  }

  /** The characters removed by JavaScript's `trim` and `trimEnd`. */
  predicate IsJsSpace(c: char) {
    || '\t' <= c <= '\r' || c == ' ' || c == '\U{00a0}' || c == '\U{1680}' || '\U{2000}' <= c <= '\U{200a}'
    || c == '\U{2028}' || c == '\U{2029}' || c == '\U{202f}' || c == '\U{205f}' || c == '\U{3000}' || c == '\U{feff}'
  }

  /** The separators of Python's `str.splitlines`. */
  predicate IsLineBreak(c: char) {
    || '\n' <= c <= '\r' || '\U{001c}' <= c <= '\U{001e}' || c == '\U{0085}' || c == '\U{2028}' || c == '\U{2029}'
  }

  predicate AllSpace(s: string) {
    forall i :: 0 <= i < |s| ==> IsSpace(s[i])
  }

  function FirstBreak(s: string): (i: nat)
    ensures i <= |s| && (forall j :: 0 <= j < i ==> !IsLineBreak(s[j])) && (i < |s| ==> IsLineBreak(s[i]))
  {
    if s == "" || IsLineBreak(s[0]) then 0 else 1 + FirstBreak(s[1..])
  }

  /** Python's `str.splitlines`: CR LF counts once, and a trailing break opens no further line. */
  function SplitLines(s: string): seq<string>
    decreases |s|
  {
    if s == "" then []
    else
      var i := FirstBreak(s);
      if i == |s| then [s]
      else
        var width := if s[i] == '\r' && i + 1 < |s| && s[i + 1] == '\n' then 2 else 1;
        [s[..i]] + SplitLines(s[i + width..])
  }

  lemma FirstLine(s: string)
    requires s != ""
    ensures SplitLines(s) != [] && SplitLines(s)[0] == s[..FirstBreak(s)]
  {
    assert s[..|s|] == s;
  }

  function TrimStart(s: string, space: char -> bool): string {
    if s != [] && space(s[0]) then TrimStart(s[1..], space) else s
  }

  function TrimEnd(s: string, space: char -> bool): string {
    if s != [] && space(s[|s| - 1]) then TrimEnd(s[..|s| - 1], space) else s
  }

  function LStrip(s: string): string { TrimStart(s, IsSpace) }

  function RStrip(s: string): string { TrimEnd(s, IsSpace) }

  function Strip(s: string): string { RStrip(LStrip(s)) }

  predicate Trimmed(s: string) {
    s == [] || (!IsSpace(s[0]) && !IsSpace(s[|s| - 1]))
  }

  lemma {:induction false} TrimStartCut(s: string, space: char -> bool) returns (a: nat)
    ensures a <= |s| && TrimStart(s, space) == s[a..]
    ensures forall i :: 0 <= i < a ==> space(s[i])
    ensures a < |s| ==> !space(s[a])
  {
    if s != [] && space(s[0]) {
      var b := TrimStartCut(s[1..], space);
      a := b + 1;
      assert s[1..][b..] == s[a..];
      forall i | 0 <= i < a ensures space(s[i]) {
        if i > 0 { assert s[i] == s[1..][i - 1]; }
      }
    } else {
      a := 0;
    }
  }

  lemma {:induction false} TrimEndCut(s: string, space: char -> bool) returns (b: nat)
    ensures b <= |s| && TrimEnd(s, space) == s[..b]
    ensures forall i :: b <= i < |s| ==> space(s[i])
    ensures b > 0 ==> !space(s[b - 1])
  {
    if s != [] && space(s[|s| - 1]) {
      b := TrimEndCut(s[..|s| - 1], space);
      assert s[..|s| - 1][..b] == s[..b];
      forall i | b <= i < |s| ensures space(s[i]) {
        if i < |s| - 1 { assert s[i] == s[..|s| - 1][i]; }
      }
    } else {
      b := |s|;
    }
  }

  /** Stripping keeps a contiguous slice and drops only whitespace around it. */
  lemma StripCut(s: string) returns (a: nat, b: nat)
    ensures a <= b <= |s| && Strip(s) == s[a..b]
    ensures forall i :: 0 <= i < a || b <= i < |s| ==> IsSpace(s[i])
    ensures Trimmed(Strip(s))
    ensures a < b ==> !IsSpace(s[a]) && !IsSpace(s[b - 1])
  {
    a := TrimStartCut(s, IsSpace);
    var t := s[a..];
    var n := TrimEndCut(t, IsSpace);
    b := a + n;
    assert t[..n] == s[a..b];
    forall i | b <= i < |s| ensures IsSpace(s[i]) {
      assert s[i] == t[i - a];
    }
    if n > 0 {
      assert t[n - 1] == s[b - 1] && t[0] == s[a];
    }
  }

  lemma StripTrimmed(s: string)
    requires Trimmed(s)
    ensures Strip(s) == s
  {
  }

  lemma Regroup<T>(a: seq<T>, b: seq<T>, c: seq<T>, d: seq<T>)
    ensures a + b + (c + d) == a + (b + c) + d
  {
  }

  /** A slice of a slice. */
  lemma SliceOfSlice<T>(s: seq<T>, a: nat, b: nat, x: nat, y: nat)
    requires a <= b <= |s| && x <= y <= b - a
    ensures s[a..b][x..y] == s[a + x..a + y]
  {
    var slice := s[a..b];
    assert forall i :: 0 <= i < b - a ==> slice[i] == s[a + i];
    assert forall i :: 0 <= i < y - x ==> slice[x..y][i] == slice[x + i];
  }

  /** The parts of a concatenation. */
  lemma PartsOf<T>(a: seq<T>, b: seq<T>, c: seq<T>)
    ensures var s := a + b + c;
      s[..|a|] == a && s[|a|..|a| + |b|] == b && s[|a| + |b|..] == c
  {
  }

  lemma Assoc<T>(a: seq<T>, b: seq<T>, c: seq<T>)
    ensures a + (b + c) == (a + b) + c
  {
  }

  /** The string without its whitespace: what a splitter must not lose. */
  function Squeeze(s: string): string {
    if s == [] then [] else (if IsSpace(s[0]) then [] else [s[0]]) + Squeeze(s[1..])
  }

  lemma {:induction false} SqueezeConcat(a: string, b: string)
    ensures Squeeze(a + b) == Squeeze(a) + Squeeze(b)
  {
    if a == [] {
      assert a + b == b;
    } else {
      SqueezeConcat(a[1..], b);
      assert (a + b)[1..] == a[1..] + b && (a + b)[0] == a[0];
      Assoc(if IsSpace(a[0]) then [] else [a[0]], Squeeze(a[1..]), Squeeze(b));
    }
  }

  lemma {:induction false} SqueezeSpace(s: string)
    requires AllSpace(s)
    ensures Squeeze(s) == []
  {
    if s != [] {
      SqueezeSpace(s[1..]);
    }
  }

  lemma SqueezeStrip(s: string)
    ensures Squeeze(Strip(s)) == Squeeze(s)
  {
    var a, b := StripCut(s);
    assert s == s[..a] + s[a..b] + s[b..];
    SqueezeConcat(s[..a] + s[a..b], s[b..]);
    SqueezeConcat(s[..a], s[a..b]);
    SqueezeSpace(s[..a]);
    SqueezeSpace(s[b..]);
  }

  function Join(parts: seq<string>, sep: string): string {
    if parts == [] then ""
    else if |parts| == 1 then parts[0]
    else parts[0] + sep + Join(parts[1..], sep)
  }

  lemma {:induction false} JoinSnoc(parts: seq<string>, last: string, sep: string)
    ensures Join(parts + [last], sep) == if parts == [] then last else Join(parts, sep) + sep + last
  {
    if parts == [] {
      assert parts + [last] == [last];
    } else {
      JoinSnoc(parts[1..], last, sep);
      assert (parts + [last])[1..] == parts[1..] + [last];
      assert (parts + [last])[0] == parts[0];
      if |parts| == 1 {
        assert Join(parts + [last], sep) == parts[0] + sep + last;
      } else {
        calc {
          Join(parts + [last], sep);
          parts[0] + sep + (Join(parts[1..], sep) + sep + last);
          (parts[0] + sep + Join(parts[1..], sep)) + sep + last;
        }
      }
    }
  }

  /** Every joined part is a contiguous piece of the result. */
  lemma {:induction false} JoinContains(parts: seq<string>, sep: string, k: nat) returns (pre: string, post: string)
    requires k < |parts|
    ensures Join(parts, sep) == pre + parts[k] + post
  {
    if |parts| == 1 {
      pre, post := "", "";
      assert pre + parts[k] + post == parts[0];
    } else if k == 0 {
      pre, post := "", sep + Join(parts[1..], sep);
      assert pre + parts[0] + post == parts[0] + sep + Join(parts[1..], sep);
    } else {
      var p, q := JoinContains(parts[1..], sep, k - 1);
      pre, post := parts[0] + sep + p, q;
      assert pre + parts[k] + post == parts[0] + sep + (p + parts[k] + q);
    }
  }

  /** Whether `pat` stands in `s` at position `i`. */
  predicate At(s: string, pat: string, i: nat) {
    i + |pat| <= |s| && s[i..i + |pat|] == pat
  }

  /** Index of the first occurrence of `pat` at or after `from`, or -1. */
  function Find(s: string, pat: string, from: nat): (r: int)
    ensures r == -1 || (from <= r && At(s, pat, r))
    ensures forall i: nat :: from <= i && (r == -1 || i < r) ==> !At(s, pat, i)
    decreases |s| - from
  {
    if from > |s| then -1
    else if At(s, pat, from) then from
    else if from == |s| then -1
    else Find(s, pat, from + 1)
  }

  lemma FindIs(s: string, pat: string, from: nat, r: nat)
    requires from <= r && At(s, pat, r)
    requires forall i: nat :: from <= i < r ==> !At(s, pat, i)
    ensures Find(s, pat, from) == r
  {
  }

  lemma AtMiddle(a: string, b: string, c: string)
    ensures At(a + b + c, b, |a|)
  {
    PartsOf(a, b, c);
  }

  lemma AtChars(s: string, pat: string, j: nat)
    requires pat != ""
    ensures At(s, pat, j) ==> s[j] == pat[0] && (|pat| > 1 ==> s[j + 1] == pat[1])
  {
    if At(s, pat, j) {
      var w := s[j..j + |pat|];
      assert s[j] == w[0] && (|pat| > 1 ==> s[j + 1] == w[1]);
    }
  }

  /** A convenient sufficient condition: before `n`, the first two characters of `pat` never stand together. */
  lemma FindFirst(s: string, pat: string, from: nat, n: nat)
    requires pat != "" && from <= n && At(s, pat, n)
    requires forall j :: from <= j < n ==> s[j] != pat[0] || (|pat| > 1 && s[j + 1] != pat[1])
    ensures Find(s, pat, from) == n
  {
    forall j: nat | from <= j < n ensures !At(s, pat, j) {
      AtChars(s, pat, j);
      assert s[j] != pat[0] || (|pat| > 1 && s[j + 1] != pat[1]);
    }
    FindIs(s, pat, from, n);
  }

  lemma FindNone(s: string, c: char)
    requires c !in s
    ensures Find(s, [c], 0) == -1
  {
    var i := Find(s, [c], 0);
    if i >= 0 {
      AtChars(s, [c], i);
    }
  }

  predicate Contains(s: string, sub: string) {
    exists i: nat :: i <= |s| && At(s, sub, i)
  }

  lemma ContainsMiddle(pre: string, sub: string, post: string)
    ensures Contains(pre + sub + post, sub)
  {
    var s := pre + sub + post;
    assert s[|pre|..|pre| + |sub|] == sub;
    assert At(s, sub, |pre|);
  }
}
