/** The small YAML-frontmatter subset of skill files: printer and parser. */
module Frontmatter {
  import opened Text

  datatype Document = Document(meta: map<string, string>, body: string)

  // ---- Parser --------------------------------------------------------------------------------------------------------

  predicate Wrapped(v: string, quote: char) {
    |v| >= 2 && v[0] == quote && v[|v| - 1] == quote
  }

  function Unquote(v: string): string {
    if Wrapped(v, '\'') || Wrapped(v, '"') then v[1..|v| - 1] else v
  }

  /** One line of the block; comments, blank lines and lines without a colon add nothing. */
  function ParseLine(meta: map<string, string>, line: string): map<string, string> {
    var stripped := Strip(line);
    var colon := Find(stripped, ":", 0);
    if stripped == "" || stripped[0] == '#' || colon == -1 then meta
    else
      var key := Strip(stripped[..colon]);
      if key == "" then meta else meta[key := Unquote(Strip(stripped[colon + 1..]))]
  }

  function ParseLines(meta: map<string, string>, lines: seq<string>): map<string, string>
    decreases |lines|
  {
    if lines == [] then meta else ParseLines(ParseLine(meta, lines[0]), lines[1..])
  }

  function Parse(text: string): Document {
    var end := Find(text, "\n---", 4);
    if !("---\n" <= text) || end == -1 then Document(map[], text)
    else
      var rest := text[end + 4..];
      var body := if rest != "" && rest[0] == '\n' then rest[1..] else rest;
      Document(ParseLines(map[], SplitLines(text[4..end])), body)
  }

  /** A blank line, a comment or a line without a colon. */
  predicate Idle(line: string) {
    var stripped := Strip(line);
    stripped == "" || stripped[0] == '#' || ':' !in stripped
  }

  lemma FoundColon(s: string)
    requires Find(s, ":", 0) >= 0
    ensures ':' in s
  {
    var k := Find(s, ":", 0);
    assert s[k..k + 1][0] == s[k];
  }

  /** Such a line adds nothing, wherever it stands. */
  lemma {:induction false} IdleLinesAddNothing(meta: map<string, string>, before: seq<string>, line: string, after: seq<string>)
    requires Idle(line)
    ensures ParseLines(meta, before + [line] + after) == ParseLines(meta, before + after)
    decreases |before|
  {
    var all := before + [line] + after;
    if before == [] {
      if Find(Strip(line), ":", 0) >= 0 {
        FoundColon(Strip(line));
      }
      assert all[0] == line && all[1..] == after && before + after == after;
    } else {
      assert all[1..] == before[1..] + [line] + after && (before + after)[1..] == before[1..] + after;
      IdleLinesAddNothing(ParseLine(meta, before[0]), before[1..], line, after);
    }
  }

  method ParseFrontmatter(raw: string) returns (d: Document)
    ensures d == Parse(raw)
  {
    if !("---\n" <= raw) {
      return Document(map[], raw);
    }
    var end := Find(raw, "\n---", 4);
    if end < 0 {
      return Document(map[], raw);
    }
    var body := raw[end + 4..];
    if body != "" && body[0] == '\n' {
      body := body[1..];
    }
    var meta: map<string, string> := map[];
    var lines := SplitLines(raw[4..end]);
    assert lines[0..] == lines;
    for i := 0 to |lines|
      invariant ParseLines(meta, lines[i..]) == ParseLines(map[], lines)
    {
      assert lines[i..][0] == lines[i] && lines[i..][1..] == lines[i + 1..];
      meta := ParseLine(meta, lines[i]);
    }
    assert lines[|lines|..] == [];
    d := Document(meta, body);
  }

  // ---- Printer -------------------------------------------------------------------------------------------------------

  predicate Special(v: string) {
    ':' in v || '#' in v || '\n' in v || '"' in v
  }

  function Escape(v: string): string {
    if v == "" then "" else (if v[0] == '"' then "\\\"" else [v[0]]) + Escape(v[1..])
  }

  function PrintValue(v: string): string {
    if Special(v) then "\"" + Escape(v) + "\"" else v
  }

  function PrintLine(key: string, value: string): string { key + ": " + PrintValue(value) }

  function PrintLines(meta: map<string, string>, keys: seq<string>): seq<string>
    requires forall k <- keys :: k in meta
  {
    if keys == [] then [] else [PrintLine(keys[0], meta[keys[0]])] + PrintLines(meta, keys[1..])
  }

  function Terminated(lines: seq<string>): string {
    if lines == [] then "" else lines[0] + "\n" + Terminated(lines[1..])
  }

  /** The printed text when the keys come in the given order. */
  function Format(meta: map<string, string>, keys: seq<string>, body: string): string
    requires forall k <- keys :: k in meta
  {
    "---\n" + Terminated(PrintLines(meta, keys)) + "---\n" + "\n" + RStrip(body) + "\n"
  }

  /** Code-point order of Python strings. */
  predicate LexLe(a: string, b: string) {
    a == "" || (b != "" && (a[0] < b[0] || (a[0] == b[0] && LexLe(a[1..], b[1..]))))
  }

  lemma {:induction false} LexTotal(a: string, b: string)
    ensures LexLe(a, b) || LexLe(b, a)
    ensures LexLe(a, b) && LexLe(b, a) ==> a == b
  {
    if a != "" && b != "" && a[0] == b[0] {
      LexTotal(a[1..], b[1..]);
      assert a == [a[0]] + a[1..] && b == [b[0]] + b[1..];
    }
  }

  lemma {:induction false} LexTransitive(a: string, b: string, c: string)
    requires LexLe(a, b) && LexLe(b, c)
    ensures LexLe(a, c)
  {
    if a != "" && a[0] == b[0] == c[0] {
      LexTransitive(a[1..], b[1..], c[1..]);
    }
  }

  lemma {:induction false} LeastKey(keys: set<string>) returns (least: string)
    requires keys != {}
    ensures least in keys && forall k <- keys :: LexLe(least, k)
    decreases |keys|
  {
    var x :| x in keys;
    least := x;
    LexTotal(x, x);
    if keys != {x} {
      var rest := keys - {x};
      var y := LeastKey(rest);
      LexTotal(x, y);
      least := if LexLe(x, y) then x else y;
      forall k <- keys ensures LexLe(least, k) {
        if k != x && least == x { LexTransitive(x, y, k); }
      }
    }
  }

  predicate Sorted(keys: seq<string>) {
    forall i, j :: 0 <= i < j < |keys| ==> keys[i] != keys[j] && LexLe(keys[i], keys[j])
  }

  /** The keys already printed, in order, and those still to come. */
  ghost predicate Partition(all: set<string>, keys: seq<string>, rest: set<string>) {
    && (forall k :: k in all <==> k in keys || k in rest)
    && (forall i, k :: 0 <= i < |keys| && k in rest ==> keys[i] != k && LexLe(keys[i], k))
    && Sorted(keys)
  }

  lemma PartitionStep(all: set<string>, keys: seq<string>, rest: set<string>, key: string)
    requires Partition(all, keys, rest) && key in rest && forall k <- rest :: LexLe(key, k)
    ensures Partition(all, keys + [key], rest - {key})
  {
    var more := keys + [key];
    assert forall k :: k in more <==> k in keys || k == key;
    forall i, j | 0 <= i < j < |more| ensures more[i] != more[j] && LexLe(more[i], more[j]) {
      if j < |keys| { assert more[i] == keys[i] && more[j] == keys[j]; }
    }
  }

  /** The text lists the keys of `meta`, each once and in sorted order. */
  ghost predicate Prints(text: string, meta: map<string, string>, keys: seq<string>, body: string) {
    Sorted(keys) && (forall k :: k in keys <==> k in meta) && text == Format(meta, keys, body)
  }

  lemma {:induction false} LexAntisymmetric(a: string, b: string)
    requires LexLe(a, b) && LexLe(b, a)
    ensures a == b
    decreases |a|
  {
    if a != "" {
      LexAntisymmetric(a[1..], b[1..]);
      assert a == [a[0]] + a[1..] && b == [b[0]] + b[1..];
    }
  }

  lemma HasFirst(y: seq<string>)
    ensures y == [] || exists k :: k in y
  {
    if y != [] {
      assert y[0] in y;
    }
  }

  lemma {:induction false} LexReflexive(a: string)
    ensures LexLe(a, a)
  {
    if a != "" {
      LexReflexive(a[1..]);
    }
  }

  lemma {:induction false} SortedUnique(x: seq<string>, y: seq<string>)
    requires Sorted(x) && Sorted(y) && forall k :: k in x <==> k in y
    ensures x == y
    decreases |x|
  {
    if x == [] {
      HasFirst(y);
    } else {
      assert x[0] in y && y[0] in x;
      LexReflexive(x[0]);
      LexAntisymmetric(x[0], y[0]);
      forall k ensures k in x[1..] <==> k in y[1..] {
        assert k in x[1..] <==> k in x && k != x[0];
        assert k in y[1..] <==> k in y && k != y[0];
      }
      SortedUnique(x[1..], y[1..]);
    }
  }

  /** So metadata and body determine the printed text. */
  lemma PrintedTextIsUnique(t: string, u: string, meta: map<string, string>, x: seq<string>, y: seq<string>, body: string)
    requires Prints(t, meta, x, body) && Prints(u, meta, y, body)
    ensures t == u
  {
    SortedUnique(x, y);
  }

  lemma {:induction false} JoinTerminated(lines: seq<string>, tail: seq<string>)
    requires tail != []
    ensures Join(lines + tail, "\n") == Terminated(lines) + Join(tail, "\n")
  {
    if lines == [] {
      assert lines + tail == tail;
    } else {
      JoinTerminated(lines[1..], tail);
      var all := lines + tail;
      assert all[1..] == lines[1..] + tail && all[0] == lines[0];
      assert Join(all, "\n") == all[0] + "\n" + Join(all[1..], "\n");
      Assoc(lines[0] + "\n", Terminated(lines[1..]), Join(tail, "\n"));
    }
  }

  lemma JoinFour(w: string, x: string, y: string, z: string)
    ensures Join([w, x, y, z], "\n") == w + "\n" + x + "\n" + y + "\n" + z
  {
    assert [w, x, y, z][1..] == [x, y, z] && [x, y, z][1..] == [y, z] && [y, z][1..] == [z];
    assert Join([y, z], "\n") == y + "\n" + z;
    assert Join([x, y, z], "\n") == x + "\n" + (y + "\n" + z);
  }

  lemma FencedJoin(printed: seq<string>, r: string)
    ensures Join(["---"] + printed + ["---", "", r, ""], "\n") == "---\n" + Terminated(printed) + "---\n" + "\n" + r + "\n"
  {
    JoinTerminated(["---"] + printed, ["---", "", r, ""]);
    JoinFour("---", "", r, "");
    assert (["---"] + printed)[1..] == printed;
    assert Terminated(["---"] + printed) == "---\n" + Terminated(printed);
  }

  lemma FormatIsJoin(meta: map<string, string>, keys: seq<string>, body: string)
    requires forall k <- keys :: k in meta
    ensures Join(["---"] + PrintLines(meta, keys) + ["---", "", RStrip(body), ""], "\n") == Format(meta, keys, body)
  {
    FencedJoin(PrintLines(meta, keys), RStrip(body));
  }

  lemma {:induction false} PrintLinesSnoc(meta: map<string, string>, keys: seq<string>, key: string)
    requires key in meta && forall k <- keys :: k in meta
    ensures PrintLines(meta, keys + [key]) == PrintLines(meta, keys) + [PrintLine(key, meta[key])]
  {
    if keys == [] {
      assert keys + [key] == [key] && [key][1..] == [];
    } else {
      PrintLinesSnoc(meta, keys[1..], key);
      assert (keys + [key])[1..] == keys[1..] + [key];
    }
  }

  /** `format_frontmatter`: one line per key, in sorted order. */
  method FormatFrontmatter(meta: map<string, string>, body: string) returns (text: string)
    ensures exists keys :: Prints(text, meta, keys, body)
  {
    var lines := ["---"];
    ghost var keys := [];
    var rest := meta.Keys;
    while rest != {}
      invariant Partition(meta.Keys, keys, rest)
      invariant lines == ["---"] + PrintLines(meta, keys)
      decreases |rest|
    {
      ghost var least := LeastKey(rest);
      var key :| key in rest && forall k <- rest :: LexLe(key, k);
      PartitionStep(meta.Keys, keys, rest, key);
      PrintLinesSnoc(meta, keys, key);
      lines := lines + [PrintLine(key, meta[key])];
      keys := keys + [key];
      rest := rest - {key};
    }
    FormatIsJoin(meta, keys, body);
    text := Join(lines + ["---", "", RStrip(body), ""], "\n");
    assert Prints(text, meta, keys, body);
  }

  // ---- Reading back one line -----------------------------------------------------------------------------------------

  predicate OneLine(s: string) {
    forall i :: 0 <= i < |s| ==> !IsLineBreak(s[i])
  }

  predicate GoodKey(key: string) {
    && key != "" && Trimmed(key) && OneLine(key) && ':' !in key && key[0] != '#' && !("---" <= key)
  }

  /** What the parser makes of a printed value. */
  function Reread(v: string): string { Unquote(Strip(PrintValue(v))) }

  /** The values that come back unchanged: those without a double quote that are quoted because of another character, or
      that are trimmed and not wrapped in single quotes. */
  predicate Survives(v: string) {
    && '"' !in v
    && (':' in v || '#' in v || '\n' in v || (Trimmed(v) && !(|v| >= 2 && v[0] == '\'' && v[|v| - 1] == '\'')))
  }

  lemma {:induction false} EscapeLength(v: string)
    ensures |Escape(v)| >= |v|
    ensures '"' in v ==> |Escape(v)| > |v|
    ensures '"' !in v ==> Escape(v) == v
  {
    if v != "" {
      EscapeLength(v[1..]);
    }
  }

  /** What escaping does: a backslash before each double quote, and nothing else. */
  lemma EscapeOne(c: char)
    ensures Escape([c]) == if c == '"' then "\\\"" else [c]
  {
    assert [c][1..] == "";
    assert (if c == '"' then "\\\"" else [c]) + "" == if c == '"' then "\\\"" else [c];
  }

  lemma {:induction false} EscapeConcat(a: string, b: string)
    ensures Escape(a + b) == Escape(a) + Escape(b)
  {
    if a == "" {
      assert a + b == b;
    } else {
      EscapeConcat(a[1..], b);
      assert (a + b)[1..] == a[1..] + b;
      Assoc(if a[0] == '"' then "\\\"" else [a[0]], Escape(a[1..]), Escape(b));
    }
  }

  /** So a value with a double quote comes back with the backslashes of the printer. */
  lemma QuotesComeBackEscaped(v: string)
    requires '"' in v
    ensures Reread(v) == Escape(v)
  {
    var q := "\"" + Escape(v) + "\"";
    StripTrimmed(q);
    assert Unquote(q) == Escape(v);
  }

  /** A value survives the round trip if and only if the stated condition holds. */
  lemma RereadIff(v: string)
    ensures Reread(v) == v <==> Survives(v)
  {
    if Special(v) {
      EscapeLength(v);
      var q := "\"" + Escape(v) + "\"";
      StripTrimmed(q);
      assert Unquote(q) == Escape(v);
    } else {
      var a, b := StripCut(v);
      if Trimmed(v) {
        StripTrimmed(v);
      } else {
        assert |Strip(v)| < |v|;
      }
    }
  }

  lemma StripIs(s: string, a: nat, b: nat)
    requires a <= b <= |s| && Trimmed(s[a..b])
    requires forall i :: 0 <= i < a || b <= i < |s| ==> IsSpace(s[i])
    ensures Strip(s) == s[a..b]
  {
    var x, y := StripCut(s);
    if a < b {
      assert s[a..b][0] == s[a] && s[a..b][|s[a..b]| - 1] == s[b - 1];
    }
  }

  /** A space before the text, and the blanks after it gone, change nothing. */
  lemma StripPadded(enc: string, x: nat, y: nat)
    requires x < y <= |enc| && !IsSpace(enc[x]) && !IsSpace(enc[y - 1]) && forall i :: 0 <= i < x ==> IsSpace(enc[i])
    ensures Strip(" " + enc[..y]) == enc[x..y]
  {
    var tail := " " + enc[..y];
    assert forall i :: 1 <= i < 1 + y ==> tail[i] == enc[i - 1];
    assert tail[1 + x..1 + y] == enc[x..y];
    StripIs(tail, 1 + x, 1 + y);
  }

  /** What a printed line is stripped to. */
  lemma StripLine(head: string, enc: string, cut: nat)
    requires head != "" && !IsSpace(head[0]) && |head| <= cut <= |head| + 1 + |enc|
    requires !IsSpace((head + (" " + enc))[cut - 1])
    requires forall i :: cut <= i < |head| + 1 + |enc| ==> IsSpace((head + (" " + enc))[i])
    ensures Strip(head + (" " + enc)) == head + (" " + enc)[..cut - |head|]
  {
    var line := head + (" " + enc);
    assert line[0] == head[0];
    StripIs(line, 0, cut);
    assert line[0..cut] == head + (" " + enc)[..cut - |head|];
  }

  /** Stripping a printed line keeps the key and the colon; what follows strips to the stripped value. */
  lemma StripPrinted(key: string, enc: string) returns (tail: string)
    requires GoodKey(key)
    ensures Strip(key + ": " + enc) == key + ":" + tail
    ensures Strip(tail) == Strip(enc)
  {
    var head := key + ":";
    assert key + ": " + enc == head + (" " + enc);
    assert head[0] == key[0];
    var x, y := StripCut(enc);
    if x < y {
      tail := " " + enc[..y];
      assert (" " + enc)[..y + 1] == tail;
      StripLine(head, enc, |head| + 1 + y);
      StripPadded(enc, x, y);
    } else {
      tail := "";
      StripLine(head, enc, |head|);
    }
  }

  lemma ParseKeyed(meta: map<string, string>, line: string, key: string, tail: string)
    requires GoodKey(key) && Strip(line) == key + ":" + tail
    ensures ParseLine(meta, line) == meta[key := Unquote(Strip(tail))]
  {
    var stripped, n := key + ":" + tail, |key|;
    assert stripped[n..n + 1] == ":";
    FindFirst(stripped, ":", 0, n);
    assert stripped[..n] == key && stripped[n + 1..] == tail;
    StripTrimmed(key);
    assert stripped[0] == key[0];
  }

  lemma ParsePrintedLine(meta: map<string, string>, key: string, value: string)
    requires GoodKey(key)
    ensures ParseLine(meta, PrintLine(key, value)) == meta[key := Reread(value)]
  {
    var tail := StripPrinted(key, PrintValue(value));
    ParseKeyed(meta, PrintLine(key, value), key, tail);
  }

  /** The metadata as it comes back. */
  function Back(meta: map<string, string>): map<string, string> {
    map k | k in meta :: Reread(meta[k])
  }

  function Restrict(m: map<string, string>, keys: seq<string>): map<string, string> {
    map k | k in keys && k in m :: m[k]
  }

  lemma RestrictCons(m0: map<string, string>, m: map<string, string>, keys: seq<string>)
    requires keys != [] && keys[0] in m
    ensures m0[keys[0] := m[keys[0]]] + Restrict(m, keys[1..]) == m0 + Restrict(m, keys)
  {
    assert forall k :: k in keys <==> k == keys[0] || k in keys[1..];
  }

  lemma {:induction false} ParsePrintedLines(m0: map<string, string>, meta: map<string, string>, keys: seq<string>)
    requires forall k <- keys :: k in meta && GoodKey(k)
    ensures ParseLines(m0, PrintLines(meta, keys)) == m0 + Restrict(Back(meta), keys)
    decreases |keys|
  {
    if keys != [] {
      var line, rest := PrintLine(keys[0], meta[keys[0]]), PrintLines(meta, keys[1..]);
      ParsePrintedLine(m0, keys[0], meta[keys[0]]);
      assert PrintLines(meta, keys) == [line] + rest && ([line] + rest)[1..] == rest;
      ParsePrintedLines(m0[keys[0] := Reread(meta[keys[0]])], meta, keys[1..]);
      RestrictCons(m0, Back(meta), keys);
    } else {
      assert Restrict(Back(meta), keys) == map[];
    }
  }

  // ---- Finding the block again ---------------------------------------------------------------------------------------

  /** A printed line: without line break, and not to be mistaken for the closing fence. */
  predicate GoodLine(line: string) {
    OneLine(line) && |line| >= 3 && line[..3] != "---"
  }

  lemma {:induction false} EscapeOneLine(v: string)
    requires OneLine(v)
    ensures OneLine(Escape(v))
  {
    if v != "" {
      EscapeOneLine(v[1..]);
    }
  }

  lemma OneLineConcat(a: string, b: string)
    requires OneLine(a) && OneLine(b)
    ensures OneLine(a + b)
  {
  }

  lemma PrintedLineIsGood(key: string, value: string)
    requires GoodKey(key) && OneLine(value)
    ensures GoodLine(PrintLine(key, value))
  {
    EscapeOneLine(value);
    var line := PrintLine(key, value);
    OneLineConcat(key, ": ");
    OneLineConcat(key + ": ", PrintValue(value));
    if |key| >= 3 {
      assert line[..3] == key[..3];
    } else {
      assert line[..3][|key|] == ':';
    }
  }

  lemma AtShift(p: string, s: string, pat: string, j: nat)
    ensures At(p + s, pat, |p| + j) <==> At(s, pat, j)
  {
    if j + |pat| <= |s| {
      var all := p + s;
      assert all[|p|..] == s;
      assert all[|p| + j..|p| + j + |pat|] == all[|p|..][j..j + |pat|];
    }
  }

  lemma FindNowhere(p: string, s: string, pat: string, from: nat)
    requires Find(s, pat, from) == -1
    ensures Find(p + s, pat, |p| + from) == -1
  {
    var f := Find(p + s, pat, |p| + from);
    if f >= 0 {
      AtShift(p, s, pat, f - |p|);
    }
  }

  lemma FindShift(p: string, s: string, pat: string, from: nat)
    ensures Find(p + s, pat, |p| + from)
            == if Find(s, pat, from) == -1 then -1 else |p| + Find(s, pat, from)
  {
    var r := Find(s, pat, from);
    if r >= 0 {
      forall i: nat | |p| + from <= i < |p| + r ensures !At(p + s, pat, i) {
        AtShift(p, s, pat, i - |p|);
      }
      AtShift(p, s, pat, r);
      FindIs(p + s, pat, |p| + from, |p| + r);
    } else {
      FindNowhere(p, s, pat, from);
    }
  }

  lemma NoFenceInLine(line: string, rest: string, j: nat)
    requires OneLine(line) && j < |line|
    ensures !At(line + "\n" + rest, "\n---", j)
  {
    AtChars(line + "\n" + rest, "\n---", j);
  }

  lemma FenceAt(line: string, tail: string)
    ensures At(line + "\n" + ("---" + tail), "\n---", |line|)
  {
    Regroup(line, "\n", "---", tail);
    assert "\n" + "---" == "\n---";
    AtMiddle(line, "\n---", tail);
  }

  lemma FenceHere(line: string, tail: string)
    requires OneLine(line)
    ensures Find(line + "\n" + ("---" + tail), "\n---", 0) == |line|
  {
    var s := line + "\n" + ("---" + tail);
    forall j: nat | j < |line| ensures !At(s, "\n---", j) {
      NoFenceInLine(line, "---" + tail, j);
    }
    FenceAt(line, tail);
    FindIs(s, "\n---", 0, |line|);
  }

  lemma NoFenceAfterLine(line: string, rest: string)
    requires |rest| >= 3 && rest[..3] != "---"
    ensures !At(line + "\n" + rest, "\n---", |line|)
  {
    var s := line + "\n" + rest;
    assert s[|line|..|line| + 4][1..] == rest[..3];
    assert "\n---"[1..] == "---";
  }

  lemma FenceLater(line: string, rest: string)
    requires OneLine(line) && |rest| >= 3 && rest[..3] != "---" && Find(rest, "\n---", 0) >= 0
    ensures Find(line + "\n" + rest, "\n---", 0) == |line| + 1 + Find(rest, "\n---", 0)
  {
    var s := line + "\n" + rest;
    FindShift(line + "\n", rest, "\n---", 0);
    var r := Find(s, "\n---", |line| + 1);
    assert r == |line| + 1 + Find(rest, "\n---", 0);
    forall j: nat | j < r ensures !At(s, "\n---", j) {
      if j < |line| {
        NoFenceInLine(line, rest, j);
      } else if j == |line| {
        NoFenceAfterLine(line, rest);
      }
    }
    FindIs(s, "\n---", 0, r);
  }

  lemma MoreStarts(lines: seq<string>, tail: string)
    requires |lines| > 1 && forall l <- lines :: GoodLine(l)
    ensures var rest := Terminated(lines[1..]) + ("---" + tail); |rest| >= 3 && rest[..3] != "---"
  {
    var next := lines[1];
    assert next in lines && lines[1..][0] == next;
    var rest := Terminated(lines[1..]) + ("---" + tail);
    assert Terminated(lines[1..]) == next + "\n" + Terminated(lines[1..][1..]);
    assert rest[..3] == next[..3];
  }

  lemma {:induction false} FindFence(lines: seq<string>, tail: string)
    requires lines != [] && forall l <- lines :: GoodLine(l)
    ensures Find(Terminated(lines) + ("---" + tail), "\n---", 0) == |Terminated(lines)| - 1
    decreases |lines|
  {
    var line, more := lines[0], Terminated(lines[1..]);
    assert line in lines;
    Assoc(line + "\n", more, "---" + tail);
    if |lines| == 1 {
      assert lines[1..] == [] && more == "" && more + ("---" + tail) == "---" + tail;
      FenceHere(line, tail);
    } else {
      FindFence(lines[1..], tail);
      MoreStarts(lines, tail);
      FenceLater(line, more + ("---" + tail));
    }
  }

  lemma SplitOne(line: string)
    requires OneLine(line) && line != ""
    ensures SplitLines(line) == [line]
  {
    assert FirstBreak(line) == |line|;
  }

  lemma SplitCons(line: string, rest: string)
    requires OneLine(line)
    ensures SplitLines(line + "\n" + rest) == [line] + SplitLines(rest)
  {
    var s := line + "\n" + rest;
    assert s[|line|] == '\n' && forall j :: 0 <= j < |line| ==> s[j] == line[j];
    assert FirstBreak(s) == |line|;
    assert s[..|line|] == line && s[|line| + 1..] == rest;
  }

  lemma {:induction false} SplitJoin(lines: seq<string>)
    requires lines != [] && forall l <- lines :: GoodLine(l)
    ensures SplitLines(Join(lines, "\n")) == lines
    decreases |lines|
  {
    assert lines[0] in lines;
    if |lines| == 1 {
      SplitOne(lines[0]);
    } else {
      SplitJoin(lines[1..]);
      SplitCons(lines[0], Join(lines[1..], "\n"));
    }
  }

  lemma {:induction false} TerminatedIsJoin(lines: seq<string>)
    requires lines != []
    ensures Terminated(lines) == Join(lines, "\n") + "\n"
  {
    if |lines| == 1 {
      assert lines[1..] == [];
    } else {
      TerminatedIsJoin(lines[1..]);
    }
  }

  /** The block between the fences, split back into its lines. */
  lemma SplitTerminated(lines: seq<string>)
    requires lines != [] && forall l <- lines :: GoodLine(l)
    ensures Terminated(lines) != "" && SplitLines(Terminated(lines)[..|Terminated(lines)| - 1]) == lines
  {
    SplitJoin(lines);
    TerminatedIsJoin(lines);
    var t := Terminated(lines);
    assert t[..|t| - 1] == Join(lines, "\n");
  }

  lemma {:induction false} PrintedLinesAreGood(meta: map<string, string>, keys: seq<string>)
    requires forall k <- keys :: k in meta && GoodKey(k) && OneLine(meta[k])
    ensures |PrintLines(meta, keys)| == |keys|
    ensures forall l <- PrintLines(meta, keys) :: GoodLine(l)
  {
    if keys != [] {
      PrintedLinesAreGood(meta, keys[1..]);
      PrintedLineIsGood(keys[0], meta[keys[0]]);
    }
  }

  lemma FenceFound(lines: seq<string>, tail: string)
    requires lines != [] && forall l <- lines :: GoodLine(l)
    ensures Find("---\n" + (Terminated(lines) + ("---" + tail)), "\n---", 4) == 3 + |Terminated(lines)|
  {
    FindFence(lines, tail);
    FindShift("---\n", Terminated(lines) + ("---" + tail), "\n---", 0);
  }

  lemma FormatShape(meta: map<string, string>, keys: seq<string>, body: string)
    requires forall k <- keys :: k in meta
    ensures Format(meta, keys, body)
            == "---\n" + (Terminated(PrintLines(meta, keys)) + ("---" + ("\n" + ("\n" + RStrip(body) + "\n"))))
  {
    var t, after := Terminated(PrintLines(meta, keys)), "\n" + RStrip(body) + "\n";
    assert "---\n" == "---" + "\n";
    assert "---\n" + t + "---\n" + after == "---\n" + (t + ("---" + ("\n" + after)));
    assert Format(meta, keys, body) == "---\n" + t + "---\n" + after;
  }

  lemma FenceSlices(t: string, after: string)
    requires t != ""
    ensures var text := "---\n" + (t + ("---" + ("\n" + after)));
      && "---\n" <= text && text[4..3 + |t|] == t[..|t| - 1]
      && text[3 + |t| + 4..] == "\n" + after && text[3 + |t| + 4..][1..] == after
  {
  }

  lemma ParseAt(text: string, t: string, after: string)
    requires t != "" && "---\n" <= text && Find(text, "\n---", 4) == 3 + |t|
    requires text[4..3 + |t|] == t[..|t| - 1] && text[3 + |t| + 4..] == "\n" + after
    ensures Parse(text) == Document(ParseLines(map[], SplitLines(t[..|t| - 1])), after)
  {
    assert ("\n" + after)[1..] == after;
  }

  lemma TerminatedNotEmpty(lines: seq<string>)
    requires lines != []
    ensures Terminated(lines) != ""
  {
  }

  lemma ParseFenced(text: string, lines: seq<string>, after: string)
    requires lines != [] && forall l <- lines :: GoodLine(l)
    requires text == "---\n" + (Terminated(lines) + ("---" + ("\n" + after)))
    ensures var t := Terminated(lines);
      t != "" && Parse(text) == Document(ParseLines(map[], SplitLines(t[..|t| - 1])), after)
  {
    TerminatedNotEmpty(lines);
    FenceFound(lines, "\n" + after);
    FenceSlices(Terminated(lines), after);
    ParseAt(text, Terminated(lines), after);
  }

  /** Reading a printed document back, whatever the order of its keys: the body returns between a blank line and a final
      line break, and each value as `Reread`. */
  lemma ParseFormat(meta: map<string, string>, keys: seq<string>, body: string)
    requires keys != [] && forall k <- keys :: k in meta && GoodKey(k) && OneLine(meta[k])
    ensures Parse(Format(meta, keys, body)) == Document(Restrict(Back(meta), keys), "\n" + RStrip(body) + "\n")
  {
    var lines := PrintLines(meta, keys);
    var after := "\n" + RStrip(body) + "\n";
    PrintedLinesAreGood(meta, keys);
    FormatShape(meta, keys, body);
    ParseFenced(Format(meta, keys, body), lines, after);
    SplitTerminated(lines);
    ParsePrintedLines(map[], meta, keys);
    assert map[] + Restrict(Back(meta), keys) == Restrict(Back(meta), keys);
  }

  lemma RestrictAll(m: map<string, string>, keys: seq<string>)
    requires forall k :: k in keys <==> k in m
    ensures Restrict(m, keys) == m
  {
  }

  lemma MapsAgree(m: map<string, string>, n: map<string, string>)
    requires m.Keys == n.Keys
    ensures m == n <==> forall k <- n.Keys :: m[k] == n[k]
  {
  }

  lemma BackIff(meta: map<string, string>)
    ensures Back(meta) == meta <==> forall k <- meta.Keys :: Survives(meta[k])
  {
    var back := Back(meta);
    forall k <- meta.Keys ensures back[k] == meta[k] <==> Survives(meta[k]) {
      RereadIff(meta[k]);
    }
    MapsAgree(back, meta);
  }

  /** The round trip law, with its exact condition: the metadata comes back if and only if every value survives. */
  lemma RoundTripIff(meta: map<string, string>, keys: seq<string>, body: string)
    requires meta != map[] && forall k :: k in keys <==> k in meta
    requires forall k <- keys :: GoodKey(k) && OneLine(meta[k])
    ensures Parse(Format(meta, keys, body)).body == "\n" + RStrip(body) + "\n"
    ensures Parse(Format(meta, keys, body)).meta == meta <==> forall k <- meta.Keys :: Survives(meta[k])
  {
    assert keys != [];
    ParseFormat(meta, keys, body);
    RestrictAll(Back(meta), keys);
    BackIff(meta);
  }

  /** Without metadata the law fails for every body: the two fences share a line break, so the closing one is not
      seen. */
  lemma EmptyMetadataNeverRoundTrips(body: string)
    ensures Parse(Format(map[], [], body)).body != "\n" + RStrip(body) + "\n"
  {
    var text, r := Format(map[], [], body), RStrip(body);
    assert text == "---\n---\n\n" + r + "\n";
    forall j: nat | 4 <= j < 8 ensures !At(text, "\n---", j) {
      AtChars(text, "\n---", j);
    }
    var end := Find(text, "\n---", 4);
    assert end == -1 || end >= 8;
  }
}
