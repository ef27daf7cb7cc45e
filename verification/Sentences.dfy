/** Sentence splitting of plain text. */
module Sentences {
  import opened Text

  predicate EndsSentence(c: char) {
    c in "。！？?!."
  }

  predicate IsNewline(c: char) {
    c == '\n'
  }

  function Run(s: string, i: nat, p: char -> bool): (e: nat)
    requires i <= |s|
    ensures i <= e <= |s| && (forall k :: i <= k < e ==> p(s[k])) && (e < |s| ==> !p(s[e]))
    decreases |s| - i
  {
    if i < |s| && p(s[i]) then Run(s, i + 1, p) else i
  }

  function Emit(part: string): seq<string> {
    if Strip(part) == "" then [] else [Strip(part)]
  }

  /** `re.split(r"(?<=[。！？?!.])\s*|\n+", s)`, stripped and without blanks, resumed at position `i` of the segment that
      began at `start`. An empty match is not tried twice at one position. */
  function SentencesFrom(s: string, start: nat, i: nat): seq<string>
    requires start <= i <= |s|
    decreases |s| - i, i - start
  {
    if i > start && EndsSentence(s[i - 1]) then
      var e := Run(s, i, IsSpace);
      Emit(s[start..i]) + SentencesFrom(s, e, e)
    else if i == |s| then Emit(s[start..i])
    else if IsNewline(s[i]) then
      var e := Run(s, i, IsNewline);
      Emit(s[start..i]) + SentencesFrom(s, e, e)
    else SentencesFrom(s, start, i + 1)
  }

  function SplitSentences(s: string): seq<string> { SentencesFrom(s, 0, 0) }

  function Flatten(parts: seq<string>): string {
    if parts == [] then "" else parts[0] + Flatten(parts[1..])
  }

  lemma FlattenEmit(cut: string, rest: seq<string>)
    ensures Flatten(Emit(cut) + rest) == Strip(cut) + Flatten(rest)
  {
    if Strip(cut) == "" {
      assert Emit(cut) + rest == rest;
    } else {
      assert (Emit(cut) + rest)[1..] == rest;
    }
  }

  lemma SqueezeEmit(cut: string, rest: seq<string>)
    ensures Squeeze(Flatten(Emit(cut) + rest)) == Squeeze(cut) + Squeeze(Flatten(rest))
  {
    FlattenEmit(cut, rest);
    SqueezeConcat(Strip(cut), Flatten(rest));
    SqueezeStrip(cut);
  }

  lemma SqueezeGap(cut: string, gap: string, rest: string)
    requires forall k :: 0 <= k < |gap| ==> IsSpace(gap[k])
    ensures Squeeze(cut + (gap + rest)) == Squeeze(cut) + Squeeze(rest)
  {
    SqueezeSpace(gap);
    SqueezeConcat(cut, gap + rest);
    SqueezeConcat(gap, rest);
    assert [] + Squeeze(rest) == Squeeze(rest);
  }

  /** One cut: the segment is emitted and the separator that is skipped is whitespace. */
  lemma CutKeepsText(s: string, start: nat, i: nat, e: nat, rest: seq<string>)
    requires start <= i <= e <= |s|
    requires forall k :: i <= k < e ==> IsSpace(s[k])
    requires Squeeze(Flatten(rest)) == Squeeze(s[e..])
    ensures Squeeze(Flatten(Emit(s[start..i]) + rest)) == Squeeze(s[start..])
  {
    SqueezeEmit(s[start..i], rest);
    SqueezeGap(s[start..i], s[i..e], s[e..]);
    assert s[start..] == s[start..i] + (s[i..e] + s[e..]);
  }

  lemma {:induction false} SentencesFromKeepText(s: string, start: nat, i: nat)
    requires start <= i <= |s|
    ensures Squeeze(Flatten(SentencesFrom(s, start, i))) == Squeeze(s[start..])
    decreases |s| - i, i - start
  {
    if i > start && EndsSentence(s[i - 1]) {
      var e := Run(s, i, IsSpace);
      var rest := SentencesFrom(s, e, e);
      assert SentencesFrom(s, start, i) == Emit(s[start..i]) + rest;
      SentencesFromKeepText(s, e, e);
      CutKeepsText(s, start, i, e, rest);
    } else if i == |s| {
      assert Emit(s[start..i]) + [] == Emit(s[start..i]);
      CutKeepsText(s, start, i, i, []);
    } else if IsNewline(s[i]) {
      var e := Run(s, i, IsNewline);
      var rest := SentencesFrom(s, e, e);
      assert SentencesFrom(s, start, i) == Emit(s[start..i]) + rest;
      SentencesFromKeepText(s, e, e);
      CutKeepsText(s, start, i, e, rest);
    } else {
      SentencesFromKeepText(s, start, i + 1);
    }
  }

  /** Sentence splitting loses nothing but whitespace. */
  lemma SplitSentencesKeepsText(s: string)
    ensures Squeeze(Flatten(SplitSentences(s))) == Squeeze(s)
  {
    SentencesFromKeepText(s, 0, 0);
    assert s[0..] == s;
  }

  // ---- Where the cuts are --------------------------------------------------------------------------------------------

  /** No line break inside, and no sentence end before the last character. */
  predicate Uncut(part: string) {
    && (forall k :: 0 <= k < |part| ==> !IsNewline(part[k]))
    && (forall k :: 0 <= k < |part| - 1 ==> !EndsSentence(part[k]))
  }

  lemma UncutSlice(part: string)
    requires Uncut(part)
    ensures forall p <- Emit(part) :: p != "" && Trimmed(p) && Uncut(p)
  {
    var a, b := StripCut(part);
  }

  lemma {:induction false} CutEverywhere(s: string, start: nat, i: nat)
    requires start <= i <= |s| && (forall k :: start <= k < i ==> !IsNewline(s[k]))
    requires forall k :: start <= k < i - 1 ==> !EndsSentence(s[k])
    ensures forall p <- SentencesFrom(s, start, i) :: p != "" && Trimmed(p) && Uncut(p)
    decreases |s| - i, i - start
  {
    if i > start && EndsSentence(s[i - 1]) {
      CutEverywhere(s, Run(s, i, IsSpace), Run(s, i, IsSpace));
      UncutSlice(s[start..i]);
    } else if i == |s| {
      UncutSlice(s[start..i]);
    } else if IsNewline(s[i]) {
      CutEverywhere(s, Run(s, i, IsNewline), Run(s, i, IsNewline));
      UncutSlice(s[start..i]);
    } else {
      CutEverywhere(s, start, i + 1);
    }
  }

  /** Every sentence end and every line break cuts: no part has one inside. */
  lemma SentencesAreCut(s: string)
    ensures forall p <- SplitSentences(s) :: p != "" && Trimmed(p) && Uncut(p)
  {
    CutEverywhere(s, 0, 0);
  }

  lemma EmptyStrips()
    ensures Emit("") == []
  {
    var a, b := StripCut("");
  }

  lemma {:induction false} NothingElseCuts(s: string, i: nat)
    requires i <= |s| && Uncut(s)
    ensures SentencesFrom(s, 0, i) == Emit(s)
    decreases |s| - i
  {
    assert s[0..|s|] == s;
    if i > 0 && EndsSentence(s[i - 1]) {
      assert i == |s| && Run(s, i, IsSpace) == i && s[i..i] == "";
      EmptyStrips();
      assert SentencesFrom(s, i, i) == [];
      assert Emit(s) + [] == Emit(s);
    } else if i < |s| {
      NothingElseCuts(s, i + 1);
    }
  }

  /** And nothing else does: a text without either inside is one sentence. */
  lemma UncutIsOneSentence(s: string)
    requires Uncut(s)
    ensures SplitSentences(s) == if Strip(s) == "" then [] else [Strip(s)]
  {
    NothingElseCuts(s, 0);
  }
}
