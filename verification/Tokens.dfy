/** The token estimate of `approx_token_len` and of the fallback path of `count_tokens`: one token per CJK character,
    one per punctuation mark, and one per four characters of a word. The two differ only in their CJK table. */
module Tokens {
  import opened Text

  /** The character tables of the two regular expressions. `word` is `\w`; no whitespace character matches either. */
  datatype Table = Table(cjk: char -> bool, word: char -> bool) {
    ghost predicate Valid() {
      forall c :: IsSpace(c) ==> !word(c) && !cjk(c)
    }
  }

  predicate ChunkerCjk(c: char) {
    '\U{3400}' <= c <= '\U{4dbf}' || '\U{4e00}' <= c <= '\U{9fff}' || '\U{f900}' <= c <= '\U{faff}'
  }

  predicate BudgetCjk(c: char) {
    '\U{4e00}' <= c <= '\U{9fff}'
  }

  function ChunkerTable(word: char -> bool): Table { Table(ChunkerCjk, word) }

  function BudgetTable(word: char -> bool): Table { Table(BudgetCjk, word) }

  /** Both tables meet the condition: no word character of a regular expression is whitespace, and no CJK character is. */
  lemma TablesAreValid(word: char -> bool)
    requires forall c :: IsSpace(c) ==> !word(c)
    ensures ChunkerTable(word).Valid() && BudgetTable(word).Valid()
  {
  }

  function CountIf(s: string, p: char -> bool): nat {
    if s == [] then 0 else (if p(s[0]) then 1 else 0) + CountIf(s[1..], p)
  }

  /** The text with every CJK character blanked out. */
  function Blank(s: string, cjk: char -> bool): (b: string)
    ensures |b| == |s|
    ensures forall i :: 0 <= i < |s| ==> b[i] == if cjk(s[i]) then ' ' else s[i]
  {
    seq(|s|, i requires 0 <= i < |s| => if cjk(s[i]) then ' ' else s[i])
  }

  /** Length of the longest prefix of word characters. */
  function WordRun(s: string, word: char -> bool): (n: nat)
    ensures n <= |s|
    ensures forall i :: 0 <= i < n ==> word(s[i])
    ensures n < |s| ==> !word(s[n])
  {
    if s != [] && word(s[0]) then 1 + WordRun(s[1..], word) else 0
  }

  /** `re.findall(r"\w+|[^\w\s]", s)` */
  function FindTokens(s: string, word: char -> bool): seq<string>
    decreases |s|
  {
    if s == [] then []
    else if word(s[0]) then
      var n := WordRun(s, word);
      [s[..n]] + FindTokens(s[n..], word)
    else if IsSpace(s[0]) then FindTokens(s[1..], word)
    else [s[..1]] + FindTokens(s[1..], word)
  }

  function TokenCost(token: string): nat {
    if 1 <= (|token| + 3) / 4 then (|token| + 3) / 4 else 1
  }

  function SumCosts(tokens: seq<string>): nat {
    if tokens == [] then 0 else TokenCost(tokens[0]) + SumCosts(tokens[1..])
  }

  function Approx(t: Table, s: string): nat {
    if s == [] then 0 else CountIf(s, t.cjk) + SumCosts(FindTokens(Blank(s, t.cjk), t.word))
  }

  // ---- One left-to-right scan computes the same number -------------------------------------------------------------

  function Quarter(n: nat): nat { (n + 3) / 4 }

  /** The cost of `s` when `run` word characters are still waiting to be charged. */
  function Scan(t: Table, s: string, run: nat): nat
    decreases |s|
  {
    if s == [] then Quarter(run)
    else if t.cjk(s[0]) then Quarter(run) + 1 + Scan(t, s[1..], 0)
    else if t.word(s[0]) then Scan(t, s[1..], run + 1)
    else if IsSpace(s[0]) then Quarter(run) + Scan(t, s[1..], 0)
    else Quarter(run) + 1 + Scan(t, s[1..], 0)
  }

  lemma {:induction false} ScanWordRun(t: Table, s: string, n: nat, run: nat)
    requires n <= |s| && forall i :: 0 <= i < n ==> !t.cjk(s[i]) && t.word(s[i])
    ensures Scan(t, s, run) == Scan(t, s[n..], run + n)
    ensures CountIf(s, t.cjk) == CountIf(s[n..], t.cjk)
    decreases n
  {
    if n == 0 {
      assert s[0..] == s;
    } else {
      ScanWordRun(t, s[1..], n - 1, run + 1);
      assert s[1..][n - 1..] == s[n..];
    }
  }

  lemma {:induction false} ScanIsFindTokens(t: Table, s: string)
    requires t.Valid()
    ensures Scan(t, s, 0) == CountIf(s, t.cjk) + SumCosts(FindTokens(Blank(s, t.cjk), t.word))
    decreases |s|
  {
    var b := Blank(s, t.cjk);
    if s == [] {
    } else if t.cjk(s[0]) || !t.word(s[0]) {
      assert IsSpace(' ');
      assert b[1..] == Blank(s[1..], t.cjk);
      ScanIsFindTokens(t, s[1..]);
      if !t.cjk(s[0]) && !IsSpace(s[0]) {
        assert FindTokens(b, t.word) == [b[..1]] + FindTokens(b[1..], t.word);
        assert TokenCost(b[..1]) == 1;
      }
    } else {
      var n := WordRun(b, t.word);
      assert IsSpace(' ');
      assert forall i :: 0 <= i < n ==> !t.cjk(s[i]) && t.word(s[i]);
      ScanWordRun(t, s, n, 0);
      assert b[n..] == Blank(s[n..], t.cjk);
      ScanIsFindTokens(t, s[n..]);
      assert n < |s| ==> t.cjk(s[n]) || !t.word(s[n]);
      assert n < |s| ==> s[n..][0] == s[n];
      assert Scan(t, s[n..], n) == Quarter(n) + Scan(t, s[n..], 0);
      assert FindTokens(b, t.word) == [b[..n]] + FindTokens(b[n..], t.word);
      assert TokenCost(b[..n]) == Quarter(n);
    }
  }

  lemma ApproxIsScan(t: Table, s: string)
    requires t.Valid()
    ensures Approx(t, s) == Scan(t, s, 0)
  {
    ScanIsFindTokens(t, s);
  }

  // ---- Arithmetic of the counter ------------------------------------------------------------------------------------

  lemma {:induction false} ScanAtMostLength(t: Table, s: string, run: nat)
    ensures Quarter(run) <= Scan(t, s, run) <= Quarter(run) + |s|
    decreases |s|
  {
    if s != [] {
      ScanAtMostLength(t, s[1..], if !t.cjk(s[0]) && t.word(s[0]) then run + 1 else 0);
    }
  }

  lemma {:induction false} ScanRuns(t: Table, s: string, p: nat, q: nat)
    ensures Scan(t, s, q) <= Scan(t, s, p + q) <= Quarter(p) + Scan(t, s, q)
    decreases |s|
  {
    if s != [] && !t.cjk(s[0]) && t.word(s[0]) {
      ScanRuns(t, s[1..], p, q + 1);
    }
  }

  lemma {:induction false} ScanConcat(t: Table, a: string, b: string, run: nat)
    ensures Scan(t, a, run) <= Scan(t, a + b, run) <= Scan(t, a, run) + Scan(t, b, 0)
    ensures Scan(t, b, 0) <= Scan(t, a + b, run)
    decreases |a|
  {
    if a == [] {
      assert a + b == b;
      ScanRuns(t, b, run, 0);
      ScanAtMostLength(t, b, run);
    } else {
      assert (a + b)[1..] == a[1..] + b;
      ScanConcat(t, a[1..], b, if !t.cjk(a[0]) && t.word(a[0]) then run + 1 else 0);
    }
  }

  /** The counter is subadditive under concatenation, and monotone in both parts. */
  lemma ApproxConcat(t: Table, a: string, b: string)
    requires t.Valid()
    ensures Approx(t, a) <= Approx(t, a + b) && Approx(t, b) <= Approx(t, a + b)
    ensures Approx(t, a + b) <= Approx(t, a) + Approx(t, b)
  {
    ApproxIsScan(t, a);
    ApproxIsScan(t, b);
    ApproxIsScan(t, a + b);
    ScanConcat(t, a, b, 0);
  }

  /** No text costs more tokens than it has characters. */
  lemma ApproxAtMostLength(t: Table, s: string)
    requires t.Valid()
    ensures Approx(t, s) <= |s|
  {
    ApproxIsScan(t, s);
    ScanAtMostLength(t, s, 0);
  }

  /** A slice never costs more than the text it is cut from. */
  lemma ApproxSlice(t: Table, s: string, a: nat, b: nat)
    requires t.Valid() && a <= b <= |s|
    ensures Approx(t, s[a..b]) <= Approx(t, s)
  {
    assert s == s[..a] + s[a..];
    ApproxConcat(t, s[..a], s[a..]);
    assert s[a..] == s[a..b] + s[b..];
    ApproxConcat(t, s[a..b], s[b..]);
  }

  lemma {:induction false} ApproxSpace(t: Table, s: string)
    requires t.Valid() && AllSpace(s)
    ensures Scan(t, s, 0) == 0
    decreases |s|
  {
    if s != [] {
      ApproxSpace(t, s[1..]);
    }
  }

  function SumApprox(t: Table, parts: seq<string>): nat {
    if parts == [] then 0 else Approx(t, parts[0]) + SumApprox(t, parts[1..])
  }

  /** Joining with whitespace (or with nothing) never adds tokens. */
  lemma {:induction false} ApproxJoin(t: Table, parts: seq<string>, sep: string)
    requires t.Valid() && AllSpace(sep)
    ensures Approx(t, Join(parts, sep)) <= SumApprox(t, parts)
    decreases |parts|
  {
    if |parts| == 1 {
      assert parts[1..] == [];
    } else if |parts| > 1 {
      ApproxJoin(t, parts[1..], sep);
      var rest := Join(parts[1..], sep);
      ApproxConcat(t, parts[0] + sep, rest);
      ApproxConcat(t, parts[0], sep);
      ApproxIsScan(t, sep);
      ApproxSpace(t, sep);
    }
  }

  // ---- What a token is -----------------------------------------------------------------------------------------------

  /** A word costs a quarter of its characters, rounded up. */
  lemma WordCosts(t: Table, s: string)
    requires t.Valid() && forall i :: 0 <= i < |s| ==> t.word(s[i]) && !t.cjk(s[i])
    ensures 4 * Approx(t, s) - 4 < |s| <= 4 * Approx(t, s)
  {
    ApproxIsScan(t, s);
    ScanWordRun(t, s, |s|, 0);
    assert s[|s|..] == [];
  }

  lemma {:induction false} CharactersCost(t: Table, s: string)
    requires t.Valid() && forall i :: 0 <= i < |s| ==> t.cjk(s[i]) || !t.word(s[i])
    ensures Scan(t, s, 0) == CountIf(s, c => t.cjk(c) || !IsSpace(c))
    decreases |s|
  {
    if s != [] {
      CharactersCost(t, s[1..]);
    }
  }

  lemma {:induction false} ScanBreaks(t: Table, a: string, b: string, run: nat)
    requires b != "" && (t.cjk(b[0]) || !t.word(b[0]))
    ensures Scan(t, a + b, run) == Scan(t, a, run) + Scan(t, b, 0)
    decreases |a|
  {
    if a == [] {
      assert a + b == b;
    } else {
      assert (a + b)[1..] == a[1..] + b;
      ScanBreaks(t, a[1..], b, if !t.cjk(a[0]) && t.word(a[0]) then run + 1 else 0);
    }
  }

  /** Every CJK character and every punctuation mark costs one token, and whitespace nothing. */
  lemma MarksCost(t: Table, s: string)
    requires t.Valid() && forall i :: 0 <= i < |s| ==> t.cjk(s[i]) || !t.word(s[i])
    ensures Approx(t, s) == CountIf(s, c => t.cjk(c) || !IsSpace(c))
  {
    ApproxIsScan(t, s);
    CharactersCost(t, s);
  }

  /** The text before such a character and the text from it on are counted apart. */
  lemma MarksBreak(t: Table, a: string, b: string)
    requires t.Valid() && b != "" && (t.cjk(b[0]) || !t.word(b[0]))
    ensures Approx(t, a + b) == Approx(t, a) + Approx(t, b)
  {
    ApproxIsScan(t, a);
    ApproxIsScan(t, b);
    ApproxIsScan(t, a + b);
    ScanBreaks(t, a, b, 0);
  }
}
