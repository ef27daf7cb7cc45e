/** Trimming text and lists of lines to a token budget, on the path where no tokenizer library is available. */
module TokenBudget {
  import opened Text
  import opened Tokens

  /** The text without `cut` characters: at the front when the end is kept, else at the back. */
  function Cut(text: string, cut: nat, keepEnd: bool): (r: string)
    requires cut <= |text|
    ensures |r| == |text| - cut
  {
    if keepEnd then text[cut..] else text[..|text| - cut]
  }

  lemma CutTwice(text: string, a: nat, b: nat, keepEnd: bool)
    requires a + b <= |text|
    ensures Cut(Cut(text, a, keepEnd), b, keepEnd) == Cut(text, a + b, keepEnd)
  {
  }

  lemma StripWithin(t: Table, s: string)
    requires t.Valid()
    ensures Approx(t, Strip(s)) <= Approx(t, s)
  {
    var a, b := StripCut(s);
    ApproxSlice(t, s, a, b);
  }

  /** A tenth, but at least one. */
  function Step(length: nat): (step: nat)
    ensures step >= 1 && (length >= 10 ==> 10 * step <= length < 10 * step + 10)
    ensures length < 10 ==> step == 1
  {
    if length / 10 >= 1 then length / 10 else 1
  }

  /** The first guess: the part of the text that the budget is of its tokens, and at least one character. */
  function FirstKept(text: string, maxTokens: nat, count: nat): nat
    requires 0 < count
  {
    var budget := |text| * maxTokens / count;
    if budget >= 1 then budget else 1
  }

  lemma MulMono(a: nat, b: nat, d: nat)
    requires a <= b
    ensures a * d <= b * d
  {
  }

  /** The first guess is the proportion, rounded down: `kept` of all characters is at most what `maxTokens` is of all
      tokens, and one character more would be above it. */
  lemma FirstKeptIs(text: string, maxTokens: nat, count: nat)
    requires 0 < count
    ensures var kept := FirstKept(text, maxTokens, count);
      && kept >= 1 && (kept == 1 || kept * count <= |text| * maxTokens)
      && |text| * maxTokens < (kept + 1) * count
  {
    var product := |text| * maxTokens;
    assert product == product / count * count + product % count;
    if product / count == 0 {
      assert product < count;
      MulMono(1, 2, count);
    }
  }

  /** Cut a tenth more until the rest fits. */
  function LastCut(t: Table, text: string, cut: nat, maxTokens: nat, keepEnd: bool): (last: nat)
    requires cut <= |text|
    ensures cut <= last <= |text|
    decreases |text| - cut
  {
    var rest := Cut(text, cut, keepEnd);
    if rest == "" || Approx(t, rest) <= maxTokens then cut
    else LastCut(t, text, cut + Step(|rest|), maxTokens, keepEnd)
  }

  lemma MulLess(a: nat, b: nat, c: nat)
    requires 0 < a && b < c
    ensures a * b < a * c
  {
  }

  lemma DivBelow(n: nat, d: nat, q: nat)
    requires 0 < d && n < q * d
    ensures n / d < q
  {
    if n / d >= q {
      MulMono(q, n / d, d);
      assert false;
    }
  }

  lemma ProportionBelow(length: nat, part: nat, whole: nat)
    requires 0 < part < whole <= length
    ensures 0 <= length * part / whole < length && 1 < length
  {
    MulLess(length, part, whole);
    DivBelow(length * part, whole, length);
  }

  lemma FirstKeptBelow(t: Table, text: string, maxTokens: int)
    requires t.Valid() && 0 < maxTokens < Approx(t, text)
    ensures 1 <= FirstKept(text, maxTokens, Approx(t, text)) < |text|
  {
    ApproxAtMostLength(t, text);
    ProportionBelow(|text|, maxTokens, Approx(t, text));
  }

  /** How much of an oversized text is cut. */
  function CutFor(t: Table, text: string, maxTokens: nat, keepEnd: bool): (cut: nat)
    requires t.Valid() && 0 < maxTokens < Approx(t, text)
    ensures cut <= |text|
  {
    FirstKeptBelow(t, text, maxTokens);
    LastCut(t, text, |text| - FirstKept(text, maxTokens, Approx(t, text)), maxTokens, keepEnd)
  }

  function Truncated(t: Table, text: string, maxTokens: int, keepEnd: bool): string
    requires t.Valid()
  {
    if maxTokens <= 0 || text == "" then ""
    else if Approx(t, text) <= maxTokens then text
    else
      Strip(Cut(text, CutFor(t, text, maxTokens, keepEnd), keepEnd))
  }

  /** What is left when a tenth more is cut until the rest fits. */
  function Shrunk(t: Table, rest: string, maxTokens: nat, keepEnd: bool): string
    decreases |rest|
  {
    if rest == "" || Approx(t, rest) <= maxTokens then rest
    else Shrunk(t, Cut(rest, Step(|rest|), keepEnd), maxTokens, keepEnd)
  }

  lemma LastCutUnfold(t: Table, text: string, cut: nat, step: nat, maxTokens: nat, keepEnd: bool)
    requires cut < |text| && step == Step(|text| - cut) && Approx(t, Cut(text, cut, keepEnd)) > maxTokens
    ensures LastCut(t, text, cut, maxTokens, keepEnd) == LastCut(t, text, cut + step, maxTokens, keepEnd)
  {
  }

  lemma ShrunkUnfold(t: Table, rest: string, next: string, maxTokens: nat, keepEnd: bool)
    requires rest != "" && Approx(t, rest) > maxTokens && next == Cut(rest, Step(|rest|), keepEnd)
    ensures Shrunk(t, rest, maxTokens, keepEnd) == Shrunk(t, next, maxTokens, keepEnd)
  {
  }

  lemma {:induction false} ShrunkIsCut(t: Table, text: string, cut: nat, maxTokens: nat, keepEnd: bool)
    requires cut <= |text|
    ensures Shrunk(t, Cut(text, cut, keepEnd), maxTokens, keepEnd)
            == Cut(text, LastCut(t, text, cut, maxTokens, keepEnd), keepEnd)
    decreases |text| - cut
  {
    var rest := Cut(text, cut, keepEnd);
    if rest != "" && Approx(t, rest) > maxTokens {
      var step := Step(|rest|);
      CutTwice(text, cut, step, keepEnd);
      LastCutUnfold(t, text, cut, step, maxTokens, keepEnd);
      ShrunkUnfold(t, rest, Cut(text, cut + step, keepEnd), maxTokens, keepEnd);
      ShrunkIsCut(t, text, cut + step, maxTokens, keepEnd);
    }
  }

  method CutToFit(t: Table, text: string, maxTokens: nat, keepEnd: bool) returns (trimmed: string)
    ensures trimmed == Shrunk(t, text, maxTokens, keepEnd)
  {
    trimmed := text;
    while trimmed != "" && Approx(t, trimmed) > maxTokens
      invariant Shrunk(t, trimmed, maxTokens, keepEnd) == Shrunk(t, text, maxTokens, keepEnd)
      decreases |trimmed|
    {
      var shrinkBy := if |trimmed| / 10 >= 1 then |trimmed| / 10 else 1;
      trimmed := Cut(trimmed, shrinkBy, keepEnd);
    }
  }

  lemma TruncatedLong(t: Table, text: string, maxTokens: int, keepEnd: bool)
    requires t.Valid() && 0 < maxTokens < Approx(t, text)
    ensures var chars := FirstKept(text, maxTokens, Approx(t, text));
      && chars <= |text|
      && Truncated(t, text, maxTokens, keepEnd) == Strip(Shrunk(t, Cut(text, |text| - chars, keepEnd), maxTokens, keepEnd))
  {
    FirstKeptBelow(t, text, maxTokens);
    ShrunkIsCut(t, text, |text| - FirstKept(text, maxTokens, Approx(t, text)), maxTokens, keepEnd);
    assert text != "";
  }

  method TruncateTokens(t: Table, text: string, maxTokens: int, keepEnd: bool) returns (r: string)
    requires t.Valid()
    ensures r == Truncated(t, text, maxTokens, keepEnd)
  {
    if maxTokens <= 0 || text == "" {
      return "";
    }
    var count := Approx(t, text);
    if count <= maxTokens {
      return text;
    }
    TruncatedLong(t, text, maxTokens, keepEnd);
    var chars := FirstKept(text, maxTokens, count);
    var trimmed := CutToFit(t, Cut(text, |text| - chars, keepEnd), maxTokens, keepEnd);
    r := Strip(trimmed);
  }

  lemma TooLongHasMore(t: Table, rest: string, maxTokens: nat)
    requires t.Valid() && 0 < maxTokens < Approx(t, rest)
    ensures Step(|rest|) < |rest|
  {
    ApproxAtMostLength(t, rest);
  }

  /** At `previous` the rest did not fit, and one step leads to `last`. */
  predicate TooLongAt(t: Table, text: string, previous: nat, last: nat, maxTokens: nat, keepEnd: bool) {
    previous < last <= |text| && last == previous + Step(|text| - previous) && Approx(t, Cut(text, previous, keepEnd)) > maxTokens
  }

  ghost predicate OneStepTooLong(t: Table, text: string, last: nat, maxTokens: nat, keepEnd: bool) {
    exists previous: nat :: TooLongAt(t, text, previous, last, maxTokens, keepEnd)
  }

  lemma {:induction false} LastCutIs(t: Table, text: string, cut: nat, maxTokens: nat, keepEnd: bool)
    requires t.Valid() && cut < |text| && 0 < maxTokens
    ensures var last := LastCut(t, text, cut, maxTokens, keepEnd);
      && last < |text| && Approx(t, Cut(text, last, keepEnd)) <= maxTokens
      && (last > cut ==> OneStepTooLong(t, text, last, maxTokens, keepEnd))
    decreases |text| - cut
  {
    var rest := Cut(text, cut, keepEnd);
    if Approx(t, rest) > maxTokens {
      var next := cut + Step(|rest|);
      TooLongHasMore(t, rest, maxTokens);
      LastCutUnfold(t, text, cut, Step(|rest|), maxTokens, keepEnd);
      LastCutIs(t, text, next, maxTokens, keepEnd);
      assert TooLongAt(t, text, cut, next, maxTokens, keepEnd);
    }
  }

  /** A text that does not fit. */
  lemma LongIsCut(t: Table, text: string, maxTokens: int, keepEnd: bool) returns (cut: nat)
    requires t.Valid() && 0 < maxTokens < Approx(t, text)
    ensures 0 < cut < |text| && Truncated(t, text, maxTokens, keepEnd) == Strip(Cut(text, cut, keepEnd))
    ensures Approx(t, Truncated(t, text, maxTokens, keepEnd)) <= maxTokens
    ensures cut == |text| - FirstKept(text, maxTokens, Approx(t, text)) || OneStepTooLong(t, text, cut, maxTokens, keepEnd)
  {
    FirstKeptBelow(t, text, maxTokens);
    var first := |text| - FirstKept(text, maxTokens, Approx(t, text));
    cut := LastCut(t, text, first, maxTokens, keepEnd);
    LastCutIs(t, text, first, maxTokens, keepEnd);
    StripWithin(t, Cut(text, cut, keepEnd));
  }

  /** What truncation promises: within budget always; text that fits is returned as it is; anything else is cut on one side
      only, never to nothing before the final strip, and beyond the first guess by no more than the one step that made it
      fit. */
  lemma TruncatedIs(t: Table, text: string, maxTokens: int, keepEnd: bool) returns (cut: nat)
    requires t.Valid()
    ensures maxTokens <= 0 ==> Truncated(t, text, maxTokens, keepEnd) == ""
    ensures maxTokens > 0 ==> Approx(t, Truncated(t, text, maxTokens, keepEnd)) <= maxTokens
    ensures maxTokens > 0 && Approx(t, text) <= maxTokens ==> Truncated(t, text, maxTokens, keepEnd) == text
    ensures maxTokens > 0 && Approx(t, text) > maxTokens ==>
      && 0 < cut < |text|
      && Truncated(t, text, maxTokens, keepEnd) == Strip(if keepEnd then text[cut..] else text[..|text| - cut])
      && (cut == |text| - FirstKept(text, maxTokens, Approx(t, text)) || OneStepTooLong(t, text, cut, maxTokens, keepEnd))
  {
    cut := 0;
    if maxTokens > 0 && Approx(t, text) > maxTokens {
      cut := LongIsCut(t, text, maxTokens, keepEnd);
    }
  }

  /** The bound for the estimate that `count_tokens` falls back to. */
  lemma TruncatedWithin(word: char -> bool, text: string, maxTokens: nat, keepEnd: bool)
    requires forall c :: IsSpace(c) ==> !word(c)
    ensures BudgetTable(word).Valid()
    ensures Approx(BudgetTable(word), Truncated(BudgetTable(word), text, maxTokens, keepEnd)) <= maxTokens
  {
    TablesAreValid(word);
    var _ := TruncatedIs(BudgetTable(word), text, maxTokens, keepEnd);
    ApproxAtMostLength(BudgetTable(word), "");
  }

  /** The newest lines that fit: as many as possible, or the end of the newest line when it alone is too long. */
  method FitRecentLines(t: Table, lines: seq<string>, maxTokens: int) returns (r: seq<string>)
    requires t.Valid()
    ensures maxTokens <= 0 || lines == [] ==> r == []
    ensures maxTokens > 0 ==> SumApprox(t, r) <= maxTokens
    ensures maxTokens > 0 && lines != [] && Approx(t, lines[|lines| - 1]) <= maxTokens ==>
      && 0 < |r| <= |lines| && r == lines[|lines| - |r|..]
      && (|r| < |lines| ==> SumApprox(t, r) + Approx(t, lines[|lines| - |r| - 1]) > maxTokens)
    ensures maxTokens > 0 && lines != [] && Approx(t, lines[|lines| - 1]) > maxTokens ==>
      r == [Truncated(t, lines[|lines| - 1], maxTokens, true)]
  {
    r := [];
    if maxTokens <= 0 {
      return;
    }
    var used := 0;
    var i := |lines|;
    while i > 0
      invariant 0 <= i <= |lines|
      invariant i < |lines| ==> Approx(t, lines[|lines| - 1]) <= maxTokens
      invariant r == lines[i..] && used == SumApprox(t, r) <= maxTokens
      decreases i
    {
      var line := lines[i - 1];
      var count := Approx(t, line);
      if r != [] && used + count > maxTokens {
        break;
      }
      if count > maxTokens {
        var short := TruncateTokens(t, line, maxTokens, true);
        var _ := TruncatedIs(t, line, maxTokens, true);
        assert r == [] && i == |lines|;
        r := [short];
        assert SumApprox(t, r) == Approx(t, short) by { assert r[1..] == []; }
        return;
      }
      assert ([line] + r)[1..] == r;
      r := [line] + r;
      used := used + count;
      i := i - 1;
    }
  }

  const BLANK_LINE := "\n\n"

  lemma AppendedWithin(t: Table, parts: seq<string>, last: string)
    requires t.Valid()
    ensures Approx(t, Join(parts + [last], BLANK_LINE)) <= Approx(t, Join(parts, BLANK_LINE)) + Approx(t, last)
  {
    JoinSnoc(parts, last, BLANK_LINE);
    if parts != [] {
      var front := Join(parts, BLANK_LINE);
      ApproxConcat(t, front + BLANK_LINE, last);
      ApproxConcat(t, front, BLANK_LINE);
      ApproxIsScan(t, BLANK_LINE);
      ApproxSpace(t, BLANK_LINE);
    }
  }

  /** `_append_with_budget`: a summary that fits stays within budget, whatever is appended, and loses nothing. */
  method AppendWithBudget(t: Table, parts: seq<string>, text: string, maxTokens: int) returns (r: seq<string>)
    requires t.Valid()
    ensures Approx(t, Join(parts, BLANK_LINE)) <= maxTokens ==> Approx(t, Join(r, BLANK_LINE)) <= maxTokens
    ensures r == parts || (|r| == |parts| + 1 && parts <= r)
    ensures text == "" ==> r == parts
    ensures text != "" && Approx(t, Join(parts + [text], BLANK_LINE)) <= maxTokens ==> r == parts + [text]
    ensures text != "" && Approx(t, Join(parts + [text], BLANK_LINE)) > maxTokens ==>
      var clipped := Truncated(t, text, maxTokens - Approx(t, Join(parts, BLANK_LINE)), true);
      r == if clipped == "" then parts else parts + [clipped]
  {
    if text == "" {
      return parts;
    }
    var candidate := parts + [text];
    if Approx(t, Join(candidate, BLANK_LINE)) <= maxTokens {
      return candidate;
    }
    var remaining := maxTokens - Approx(t, Join(parts, BLANK_LINE));
    if remaining <= 0 {
      return parts;
    }
    var clipped := TruncateTokens(t, text, remaining, true);
    var _ := TruncatedIs(t, text, remaining, true);
    AppendedWithin(t, parts, clipped);
    r := if clipped != "" then parts + [clipped] else parts;
  }
}
