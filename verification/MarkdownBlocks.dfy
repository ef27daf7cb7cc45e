/** Chunking of markdown by blocks. An oversized block is split by its kind: fenced code, table or plain text. */
module MarkdownBlocks {
  import opened Text
  import opened Tokens
  import Chunker
  import Packing

  function PieceOf(header: seq<string>, rows: seq<string>): string {
    Join(header + rows, "\n")
  }

  predicate Overflows(t: Table, header: seq<string>, rows: seq<string>, row: string, size: int) {
    rows != [] && Approx(t, PieceOf(header, rows + [row])) > size
  }

  /** The rows of each piece, when `rows` are still to be placed after `current`. */
  function Split(t: Table, header: seq<string>, rows: seq<string>, size: int, current: seq<string>): seq<seq<string>>
    decreases |rows|
  {
    if rows == [] then [current]
    else if Overflows(t, header, current, rows[0], size) then [current] + Split(t, header, rows[1..], size, [rows[0]])
    else Split(t, header, rows[1..], size, current + [rows[0]])
  }

  function Pieces(header: seq<string>, groups: seq<seq<string>>): seq<string> {
    if groups == [] then [] else Pieces(header, groups[..|groups| - 1]) + [PieceOf(header, groups[|groups| - 1])]
  }

  lemma PiecesSnoc(header: seq<string>, front: seq<seq<string>>, last: seq<string>)
    ensures Pieces(header, front + [last]) == Pieces(header, front) + [PieceOf(header, last)]
  {
    assert (front + [last])[..|front|] == front;
  }

  /** Two header lines when the second is the rule below the titles, else one. */
  function HeaderSize(rows: seq<string>, isRule: string -> bool): nat {
    if |rows| > 1 && isRule(rows[1]) then 2 else 1
  }

  lemma SplitOne(t: Table, header: seq<string>, data: seq<string>, i: nat, size: int, current: seq<string>)
    requires i < |data|
    ensures Split(t, header, data[i..], size, current)
            == if Overflows(t, header, current, data[i], size)
               then [current] + Split(t, header, data[i + 1..], size, [data[i]])
               else Split(t, header, data[i + 1..], size, current + [data[i]])
  {
    assert data[i..][0] == data[i] && data[i..][1..] == data[i + 1..];
  }

  /** The table branch of `_split_oversized_markdown_block`, on the lines of the block. */
  method SplitTable(t: Table, rows: seq<string>, size: int, isRule: string -> bool) returns (pieces: seq<string>)
    requires rows != []
    ensures var n := HeaderSize(rows, isRule);
      pieces == Pieces(rows[..n], Split(t, rows[..n], rows[n..], size, []))
  {
    var n := HeaderSize(rows, isRule);
    var header, data := rows[..n], rows[n..];
    pieces := [];
    var current := header;
    ghost var group, done := [], [];
    ghost var all := Split(t, header, data, size, []);
    ghost var todo := all;
    assert data[0..] == data && header + [] == header;
    for i := 0 to |data|
      invariant current == header + group && (i == 0 ==> done == [] && group == []) && (i > 0 ==> group != [])
      invariant todo == Split(t, header, data[i..], size, group) && done + todo == all
      invariant pieces == Pieces(header, done)
    {
      var row := data[i];
      var candidate := Join(current + [row], "\n");
      SplitOne(t, header, data, i, size, group);
      Assoc(header, group, [row]);
      if |current| > |header| && Approx(t, candidate) > size {
        PiecesSnoc(header, done, group);
        pieces := pieces + [Join(current, "\n")];
        current := header;
        todo := Split(t, header, data[i + 1..], size, [row]);
        Assoc(done, [group], todo);
        done, group := done + [group], [row];
      } else {
        group := group + [row];
        todo := Split(t, header, data[i + 1..], size, group);
      }
      current := current + [row];
    }
    assert data[|data|..] == [];
    PiecesSnoc(header, done, group);
    if |current| > |header| || pieces == [] {
      pieces := pieces + [Join(current, "\n")];
    }
  }

  /** Each piece is the header and the rows of its group, one to a line. */
  lemma {:induction false} PiecesAt(header: seq<string>, groups: seq<seq<string>>, i: nat)
    requires i < |groups|
    ensures |Pieces(header, groups)| == |groups| && Pieces(header, groups)[i] == Join(header + groups[i], "\n")
  {
    var n := |groups| - 1;
    if n > 0 {
      PiecesAt(header, groups[..n], if i < n then i else 0);
    }
  }

  function Flatten(groups: seq<seq<string>>): seq<string> {
    if groups == [] then [] else groups[0] + Flatten(groups[1..])
  }

  /** A group is within the budget or a single row, and the row after it would not have fitted. */
  predicate Fits(t: Table, header: seq<string>, rows: seq<string>, size: int) {
    |rows| <= 1 || Approx(t, PieceOf(header, rows)) <= size
  }

  predicate WellSplit(t: Table, header: seq<string>, groups: seq<seq<string>>, size: int) {
    groups == [] ||
    (&& Fits(t, header, groups[0], size)
     && (|groups| > 1 ==> groups[0] != [] && groups[1] != [] && Overflows(t, header, groups[0], groups[1][0], size))
     && WellSplit(t, header, groups[1..], size))
  }

  lemma {:induction false} SplitIs(t: Table, header: seq<string>, rows: seq<string>, size: int, current: seq<string>)
    requires Fits(t, header, current, size)
    ensures var groups := Split(t, header, rows, size, current);
      && Flatten(groups) == current + rows
      && |groups| > 0 && current <= groups[0] && WellSplit(t, header, groups, size)
    decreases |rows|
  {
    if rows == [] {
      assert [current][1..] == [] && current + [] == current;
    } else {
      var row, rest := rows[0], rows[1..];
      assert rows == [row] + rest;
      Assoc(current, [row], rest);
      if Overflows(t, header, current, row, size) {
        SplitIs(t, header, rest, size, [row]);
        var tail := Split(t, header, rest, size, [row]);
        assert ([current] + tail)[1..] == tail;
      } else {
        SplitIs(t, header, rest, size, current + [row]);
      }
    }
  }

  /** No row is lost, repeated or moved; a piece exceeds the budget only for a row that does not fit with the header alone;
      and no split is made that was not needed. */
  lemma TableRowsAreConserved(t: Table, rows: seq<string>, size: int, isRule: string -> bool)
    requires rows != []
    ensures var n := HeaderSize(rows, isRule);
      var groups := Split(t, rows[..n], rows[n..], size, []);
      Flatten(groups) == rows[n..] && WellSplit(t, rows[..n], groups, size)
  {
    var n := HeaderSize(rows, isRule);
    SplitIs(t, rows[..n], rows[n..], size, []);
    assert [] + rows[n..] == rows[n..];
  }

  /** Every piece begins with the header: the first line, and the second one too when it is the rule below the titles. */
  lemma EveryPieceHasHeader(t: Table, rows: seq<string>, size: int, isRule: string -> bool, i: nat)
    requires rows != []
    requires i < |Split(t, rows[..HeaderSize(rows, isRule)], rows[HeaderSize(rows, isRule)..], size, [])|
    ensures var n := HeaderSize(rows, isRule);
      var groups := Split(t, rows[..n], rows[n..], size, []);
      var pieces := Pieces(rows[..n], groups);
      var header := if |rows| > 1 && isRule(rows[1]) then [rows[0], rows[1]] else [rows[0]];
      i < |pieces| && pieces[i] == Join(header + groups[i], "\n")
  {
    var n := HeaderSize(rows, isRule);
    PiecesAt(rows[..n], Split(t, rows[..n], rows[n..], size, []), i);
    assert rows[..n] == if |rows| > 1 && isRule(rows[1]) then [rows[0], rows[1]] else [rows[0]];
  }

  // ---- One oversized block -------------------------------------------------------------------------------------------

  /** The text cleaning that `chunk_text` starts with; nothing is asked of it. */
  type Cleaner = string -> string

  predicate Fenced(s: string) {
    "```" <= s || "~~~" <= s
  }

  /** `^\s*\|?\s*:?-+`: the line between titles and rows. */
  predicate IsRule(row: string) {
    var a := LStrip(row);
    var b := if a != "" && a[0] == '|' then LStrip(a[1..]) else a;
    var c := if b != "" && b[0] == ':' then b[1..] else b;
    c != "" && c[0] == '-'
  }

  /** Optional characters stand here. */
  predicate Optional(s: string, c: char) {
    s == "" || s == [c]
  }

  lemma {:induction false} LStripGap(gap: string, s: string)
    requires AllSpace(gap) && s != "" && !IsSpace(s[0])
    ensures LStrip(gap + s) == s
  {
    if gap == "" {
      assert gap + s == s;
    } else {
      assert (gap + s)[1..] == gap[1..] + s;
      LStripGap(gap[1..], s);
    }
  }

  lemma LStripParts(s: string) returns (gap: string)
    ensures AllSpace(gap) && s == gap + LStrip(s)
  {
    var a := TrimStartCut(s, IsSpace);
    gap := s[..a];
  }

  /** What a rule looks like: whitespace, perhaps a bar and more whitespace, perhaps a colon, and a dash. */
  predicate RuleShape(row: string, a: string, bar: string, b: string, colon: string, rest: string) {
    && row == a + (bar + (b + (colon + ("-" + rest))))
    && AllSpace(a) && AllSpace(b) && Optional(bar, '|') && Optional(colon, ':') && (bar == "" ==> b == "")
  }

  lemma HeadTail(s: string, c: char)
    requires s != "" && s[0] == c
    ensures s == [c] + s[1..]
  {
  }

  /** A colon, if there is one, and the dash after it. */
  lemma DashHasShape(y: string) returns (colon: string, rest: string)
    requires var z := if y != "" && y[0] == ':' then y[1..] else y; z != "" && z[0] == '-'
    ensures Optional(colon, ':') && y == colon + ("-" + rest)
  {
    var z := if y != "" && y[0] == ':' then y[1..] else y;
    colon, rest := if y[0] == ':' then ":" else "", z[1..];
    HeadTail(z, '-');
    if y[0] == ':' {
      HeadTail(y, ':');
    } else {
      assert "" + y == y;
    }
  }

  /** A bar and the whitespace after it, if there is one. */
  lemma BarHasShape(x: string) returns (bar: string, b: string, y: string)
    ensures Optional(bar, '|') && AllSpace(b) && (bar == "" ==> b == "") && x == bar + (b + y)
    ensures y == if x != "" && x[0] == '|' then LStrip(x[1..]) else x
  {
    if x != "" && x[0] == '|' {
      bar, y := "|", LStrip(x[1..]);
      b := LStripParts(x[1..]);
      HeadTail(x, '|');
    } else {
      bar, b, y := "", "", x;
      assert "" + x == x;
    }
  }

  lemma RuleHasShape(row: string) returns (a: string, bar: string, b: string, colon: string, rest: string)
    requires IsRule(row)
    ensures RuleShape(row, a, bar, b, colon, rest)
  {
    var y;
    a := LStripParts(row);
    bar, b, y := BarHasShape(LStrip(row));
    colon, rest := DashHasShape(y);
  }

  lemma ShapeIsRule(row: string, a: string, bar: string, b: string, colon: string, rest: string)
    requires RuleShape(row, a, bar, b, colon, rest)
    ensures IsRule(row)
  {
    var z := "-" + rest;
    var y := colon + z;
    assert z[0] == '-' && (y[0] == ':' || y[0] == '-') && (colon == ":" ==> y[1..] == z) && (colon == "" ==> y == z);
    var x := bar + (b + y);
    if bar == "" {
      assert b + y == y && x == y;
    } else {
      assert x[0] == '|' && x[1..] == b + y;
      LStripGap(b, y);
    }
    LStripGap(a, x);
  }

  /** So a line is a rule exactly when it has that shape. */
  lemma RuleIff(row: string)
    ensures IsRule(row) <==> exists a, bar, b, colon, rest :: RuleShape(row, a, bar, b, colon, rest)
  {
    if IsRule(row) {
      var a, bar, b, colon, rest := RuleHasShape(row);
    } else if a, bar, b, colon, rest :| RuleShape(row, a, bar, b, colon, rest) {
      ShapeIsRule(row, a, bar, b, colon, rest);
    }
  }

  /** The first line of a fenced block, its last line or what stands in for it, and the lines between. */
  function FenceOf(block: string): string
    requires block != ""
  {
    FirstLine(block);
    SplitLines(block)[0]
  }

  function ClosingOf(block: string): string
    requires block != ""
  {
    FirstLine(block);
    var lines := SplitLines(block);
    if |lines| > 1 && Fenced(lines[|lines| - 1]) then lines[|lines| - 1]
    else if |lines[0]| <= 3 then lines[0] else lines[0][..3]
  }

  function BodyOf(block: string): string
    requires block != ""
  {
    FirstLine(block);
    var lines := SplitLines(block);
    var inner := if lines[|lines| - 1] != ClosingOf(block) then lines[1..]
                 else if |lines| > 1 then lines[1..|lines| - 1] else [];
    Join(inner, "\n")
  }

  function FencedSize(size: int): (inner: int)
    ensures size >= 40 ==> inner == size - 8
    ensures size < 40 ==> inner == 32
  {
    if size - 8 >= 32 then size - 8 else 32
  }

  function FencedOverlap(size: int, overlap: int): (inner: int)
    ensures inner <= overlap && (size >= 0 ==> 4 * inner <= size)
    ensures size >= 0 && 4 * overlap <= size ==> inner == overlap
  {
    var quarter := if size / 4 > 0 then size / 4 else 0;
    if overlap <= quarter then overlap else quarter
  }

  function Wrap(fence: string, pieces: seq<string>, closing: string): seq<string> {
    if pieces == [] then []
    else Wrap(fence, pieces[..|pieces| - 1], closing) + [fence + "\n" + pieces[|pieces| - 1] + "\n" + closing]
  }

  /** What closes a piece is a fence, also where it stands in for a missing one. */
  lemma CutIsFence(block: string)
    requires block != "" && Fenced(block)
    ensures Fenced(ClosingOf(block))
  {
  }

  /** The lines of a fenced block are its fence, its body, and the closing fence if it has one. */
  lemma BodyIsBetween(block: string) returns (inner: seq<string>)
    requires block != "" && Fenced(block)
    ensures var lines := SplitLines(block);
      && lines != [] && BodyOf(block) == Join(inner, "\n")
      && lines == [FenceOf(block)] + inner
                  + if |lines| > 1 && Fenced(lines[|lines| - 1]) then [ClosingOf(block)] else []
  {
    FirstLine(block);
    var lines := SplitLines(block);
    var n := |lines| - 1;
    if lines[n] != ClosingOf(block) {
      inner := lines[1..];
      assert lines == [lines[0]] + inner + [];
    } else if n > 0 {
      inner := lines[1..n];
      assert lines == [lines[0]] + inner + [lines[n]];
      CutIsFence(block);
    } else {
      inner := [];
    }
  }

  lemma {:induction false} WrapAt(fence: string, pieces: seq<string>, closing: string, i: nat)
    requires i < |pieces|
    ensures |Wrap(fence, pieces, closing)| == |pieces|
    ensures Wrap(fence, pieces, closing)[i] == fence + "\n" + pieces[i] + "\n" + closing
  {
    var n := |pieces| - 1;
    if n > 0 {
      WrapAt(fence, pieces[..n], closing, if i < n then i else 0);
    }
  }

  function HeaderOf(block: string): seq<string>
    requires block != ""
  {
    FirstLine(block);
    SplitLines(block)[..HeaderSize(SplitLines(block), IsRule)]
  }

  function DataRows(block: string): seq<string>
    requires block != ""
  {
    FirstLine(block);
    SplitLines(block)[HeaderSize(SplitLines(block), IsRule)..]
  }

  function FencedPieces(t: Table, clean: Cleaner, block: string, size: int, overlap: int): seq<string>
    requires block != ""
  {
    Chunker.ChunksOf(t, clean(BodyOf(block)), FencedSize(size), FencedOverlap(size, overlap))
  }

  /** The pieces of an oversized block. */
  function SplitBlock(t: Table, clean: Cleaner, block: string, size: int, overlap: int): seq<string>
    requires block != ""
  {
    if Fenced(block) then
      var pieces := FencedPieces(t, clean, block, size, overlap);
      if pieces == [] then [block] else Wrap(FenceOf(block), pieces, ClosingOf(block))
    else if block[0] == '|' then Pieces(HeaderOf(block), Split(t, HeaderOf(block), DataRows(block), size, []))
    else Chunker.ChunksOf(t, clean(block), size, overlap)
  }

  /** An oversized table is split between rows: its lines are the header and the rows of the groups, and each piece is the
      header with the rows of one group. */
  lemma TableIsSplitByRows(t: Table, clean: Cleaner, block: string, size: int, overlap: int)
    returns (header: seq<string>, groups: seq<seq<string>>)
    requires block != "" && block[0] == '|'
    ensures SplitLines(block) == header + Flatten(groups) && WellSplit(t, header, groups, size)
    ensures header == SplitLines(block)[..if |SplitLines(block)| > 1 && IsRule(SplitLines(block)[1]) then 2 else 1]
    ensures SplitBlock(t, clean, block, size, overlap) == Pieces(header, groups)
  {
    FirstLine(block);
    header, groups := HeaderOf(block), Split(t, HeaderOf(block), DataRows(block), size, []);
    TableRowsAreConserved(t, SplitLines(block), size, IsRule);
    assert header + DataRows(block) == SplitLines(block);
  }

  /** Every piece of oversized code stands between the fences of its block. */
  lemma CodePiecesAreFenced(t: Table, clean: Cleaner, block: string, size: int, overlap: int, i: nat)
    requires block != "" && Fenced(block) && i < |SplitBlock(t, clean, block, size, overlap)|
    ensures var pieces := SplitBlock(t, clean, block, size, overlap);
      var inner := FencedPieces(t, clean, block, size, overlap);
      if inner == [] then pieces == [block]
      else |inner| == |pieces| && pieces[i] == FenceOf(block) + "\n" + inner[i] + "\n" + ClosingOf(block)
  {
    var inner := FencedPieces(t, clean, block, size, overlap);
    if inner != [] {
      WrapAt(FenceOf(block), inner, ClosingOf(block), if i < |inner| then i else 0);
    }
  }

  /** `chunk_text` refuses the block. */
  predicate Refused(clean: Cleaner, block: string, size: int) {
    block != "" && !Fenced(block) && block[0] != '|' && clean(block) != "" && size <= 0
  }

  method WrapAll(fence: string, pieces: seq<string>, closing: string) returns (wrapped: seq<string>)
    ensures wrapped == Wrap(fence, pieces, closing)
  {
    wrapped := [];
    for i := 0 to |pieces|
      invariant wrapped == Wrap(fence, pieces[..i], closing)
    {
      assert pieces[..i + 1][..i] == pieces[..i];
      wrapped := wrapped + [fence + "\n" + pieces[i] + "\n" + closing];
    }
    assert pieces[..|pieces|] == pieces;
  }

  method SplitOversizedBlock(t: Table, clean: Cleaner, block: string, size: int, overlap: int)
    returns (r: Chunker.ChunkResult)
    requires block != ""
    ensures r == if Refused(clean, block, size) then Chunker.InvalidSize
                 else Chunker.Chunks(SplitBlock(t, clean, block, size, overlap))
  {
    FirstLine(block);
    if Fenced(block) {
      var inner := Chunker.ChunkText(t, clean(BodyOf(block)), FencedSize(size), FencedOverlap(size, overlap));
      if inner.chunks == [] {
        return Chunker.Chunks([block]);
      }
      var pieces := WrapAll(FenceOf(block), inner.chunks, ClosingOf(block));
      return Chunker.Chunks(pieces);
    }
    if block[0] == '|' {
      var pieces := SplitTable(t, SplitLines(block), size, IsRule);
      return Chunker.Chunks(pieces);
    }
    r := Chunker.ChunkText(t, clean(block), size, overlap);
  }

  // ---- Blocks --------------------------------------------------------------------------------------------------------

  /** What a block contributes. */
  function PiecesOf(t: Table, clean: Cleaner, block: string, size: int, overlap: int): seq<string> {
    if Approx(t, block) > size && block != "" then SplitBlock(t, clean, block, size, overlap) else [block]
  }

  function Expanded(t: Table, clean: Cleaner, blocks: seq<string>, size: int, overlap: int): seq<string> {
    if blocks == [] then []
    else
      Expanded(t, clean, blocks[..|blocks| - 1], size, overlap)
      + PiecesOf(t, clean, blocks[|blocks| - 1], size, overlap)
  }

  predicate AnyRefused(t: Table, clean: Cleaner, blocks: seq<string>, size: int) {
    blocks != [] &&
    (|| AnyRefused(t, clean, blocks[..|blocks| - 1], size)
     || (Approx(t, blocks[|blocks| - 1]) > size && Refused(clean, blocks[|blocks| - 1], size)))
  }

  lemma {:induction false} RefusedStays(t: Table, clean: Cleaner, blocks: seq<string>, size: int, n: nat)
    requires n <= |blocks| && AnyRefused(t, clean, blocks[..n], size)
    ensures AnyRefused(t, clean, blocks, size)
  {
    if n < |blocks| {
      assert blocks[..|blocks| - 1][..n] == blocks[..n];
      RefusedStays(t, clean, blocks[..|blocks| - 1], size, n);
    } else {
      assert blocks[..n] == blocks;
    }
  }

  method ExpandBlock(t: Table, clean: Cleaner, block: string, size: int, overlap: int) returns (r: Chunker.ChunkResult)
    requires block != ""
    ensures r == if Approx(t, block) > size && Refused(clean, block, size) then Chunker.InvalidSize
                 else Chunker.Chunks(PiecesOf(t, clean, block, size, overlap))
  {
    if Approx(t, block) > size {
      r := SplitOversizedBlock(t, clean, block, size, overlap);
    } else {
      r := Chunker.Chunks([block]);
    }
  }

  /** `_chunk_markdown_blocks`, on the blocks of the text, none of which is blank. */
  method ChunkMarkdownBlocks(t: Table, clean: Cleaner, blocks: seq<string>, size: int, overlap: int)
    returns (r: Chunker.ChunkResult)
    requires forall i :: 0 <= i < |blocks| ==> blocks[i] != ""
    ensures r == if AnyRefused(t, clean, blocks, size) then Chunker.InvalidSize
                 else Chunker.Chunks(Packing.Packed(t, Expanded(t, clean, blocks, size, overlap), size, overlap, "\n\n"))
  {
    var expanded: seq<string> := [];
    for i := 0 to |blocks|
      invariant expanded == Expanded(t, clean, blocks[..i], size, overlap)
      invariant !AnyRefused(t, clean, blocks[..i], size)
    {
      assert blocks[..i + 1][..i] == blocks[..i];
      var pieces := ExpandBlock(t, clean, blocks[i], size, overlap);
      if pieces.InvalidSize? {
        RefusedStays(t, clean, blocks, size, i + 1);
        return Chunker.InvalidSize;
      }
      expanded := expanded + pieces.chunks;
    }
    assert blocks[..|blocks|] == blocks;
    var chunks := Packing.Pack(t, expanded, size, overlap, "\n\n");
    r := Chunker.Chunks(chunks);
  }

  lemma {:induction false} ExpandedHas(t: Table, clean: Cleaner, blocks: seq<string>, size: int, overlap: int, i: nat,
                                       piece: string)
    requires i < |blocks| && piece in PiecesOf(t, clean, blocks[i], size, overlap)
    ensures piece in Expanded(t, clean, blocks, size, overlap)
  {
    if i < |blocks| - 1 {
      ExpandedHas(t, clean, blocks[..|blocks| - 1], size, overlap, i, piece);
    }
  }

  /** Every block that fits stands in some chunk as it is, and of an oversized one every piece does. */
  lemma EveryBlockIsChunked(t: Table, clean: Cleaner, blocks: seq<string>, size: int, overlap: int, i: nat, piece: string)
    returns (c: nat)
    requires i < |blocks| && piece in PiecesOf(t, clean, blocks[i], size, overlap)
    ensures var chunks := Packing.Packed(t, Expanded(t, clean, blocks, size, overlap), size, overlap, "\n\n");
      c < |chunks| && Contains(chunks[c], piece)
  {
    ExpandedHas(t, clean, blocks, size, overlap, i, piece);
    var pieces := Expanded(t, clean, blocks, size, overlap);
    var k :| 0 <= k < |pieces| && pieces[k] == piece;
    c := Packing.EveryPieceIsChunked(t, pieces, size, overlap, "\n\n", k);
  }

  /** So a block that fits is not split. */
  lemma FittingBlockStaysWhole(t: Table, clean: Cleaner, blocks: seq<string>, size: int, overlap: int, i: nat)
    returns (c: nat)
    requires i < |blocks| && Approx(t, blocks[i]) <= size
    ensures var chunks := Packing.Packed(t, Expanded(t, clean, blocks, size, overlap), size, overlap, "\n\n");
      c < |chunks| && Contains(chunks[c], blocks[i])
  {
    c := EveryBlockIsChunked(t, clean, blocks, size, overlap, i, blocks[i]);
  }

  // ---- Token bounds --------------------------------------------------------------------------------------------------

  lemma {:induction false} SplitWithin(t: Table, header: seq<string>, rows: seq<string>, size: int, current: seq<string>,
                                       bound: nat)
    requires size <= bound && forall row <- rows :: Approx(t, PieceOf(header, [row])) <= bound
    requires current != [] || rows == [] ==> Approx(t, PieceOf(header, current)) <= bound
    ensures forall g <- Split(t, header, rows, size, current) :: Approx(t, PieceOf(header, g)) <= bound
    decreases |rows|
  {
    if rows != [] {
      var row := rows[0];
      assert row in rows;
      assert [] + [row] == [row];
      assert forall r <- rows[1..] :: r in rows;
      if Overflows(t, header, current, row, size) {
        SplitWithin(t, header, rows[1..], size, [row], bound);
      } else {
        SplitWithin(t, header, rows[1..], size, current + [row], bound);
      }
    }
  }

  lemma {:induction false} PiecesWithin(t: Table, header: seq<string>, groups: seq<seq<string>>, bound: nat)
    requires forall g <- groups :: Approx(t, PieceOf(header, g)) <= bound
    ensures forall p <- Pieces(header, groups) :: Approx(t, p) <= bound
  {
    if groups != [] {
      assert groups[|groups| - 1] in groups;
      PiecesWithin(t, header, groups[..|groups| - 1], bound);
    }
  }

  lemma WrapOne(t: Table, fence: string, piece: string, closing: string)
    requires t.Valid()
    ensures Approx(t, fence + "\n" + piece + "\n" + closing) <= Approx(t, fence) + Approx(t, piece) + Approx(t, closing)
  {
    ApproxConcat(t, fence, "\n");
    ApproxConcat(t, fence + "\n", piece);
    ApproxConcat(t, fence + "\n" + piece, "\n");
    ApproxConcat(t, fence + "\n" + piece + "\n", closing);
    ApproxIsScan(t, "\n");
    ApproxSpace(t, "\n");
  }

  lemma {:induction false} WrapWithin(t: Table, fence: string, pieces: seq<string>, closing: string, inner: nat)
    requires t.Valid() && forall p <- pieces :: Approx(t, p) <= inner
    ensures forall p <- Wrap(fence, pieces, closing) :: Approx(t, p) <= Approx(t, fence) + inner + Approx(t, closing)
  {
    if pieces != [] {
      assert pieces[|pieces| - 1] in pieces;
      WrapWithin(t, fence, pieces[..|pieces| - 1], closing, inner);
      WrapOne(t, fence, pieces[|pieces| - 1], closing);
    }
  }

  /** The largest piece that a split of this block can give, by its kind: plain text as `chunk_text` promises, a table
      row with its header, a code piece with its fences, or a fenced block without content, which is left whole. */
  predicate PieceBound(t: Table, clean: Cleaner, block: string, size: int, overlap: int, bound: nat)
    requires block != ""
  {
    if Fenced(block) then
      if FencedPieces(t, clean, block, size, overlap) == [] then Approx(t, block) <= bound
      else Approx(t, FenceOf(block)) + 7 * FencedSize(size) / 2 + Approx(t, ClosingOf(block)) <= bound
    else if block[0] == '|' then
      && (DataRows(block) == [] ==> Approx(t, PieceOf(HeaderOf(block), [])) <= bound)
      && forall row <- DataRows(block) :: Approx(t, PieceOf(HeaderOf(block), [row])) <= bound
    else size > 0 ==> 7 * size / 2 <= bound
  }

  lemma ChunksOfWithin(t: Table, text: string, size: int, overlap: int)
    requires t.Valid() && size > 0
    ensures forall c <- Chunker.ChunksOf(t, text, size, overlap) :: Approx(t, c) <= 7 * size / 2
  {
    if text != "" {
      Chunker.ChunkTextWithin(t, text, size, Chunker.Clamp(overlap, size));
    }
  }

  lemma SplitBlockWithin(t: Table, clean: Cleaner, block: string, size: int, overlap: int, bound: nat)
    requires t.Valid() && block != "" && size <= bound && PieceBound(t, clean, block, size, overlap, bound)
    ensures forall p <- SplitBlock(t, clean, block, size, overlap) :: Approx(t, p) <= bound
  {
    if Fenced(block) {
      ChunksOfWithin(t, clean(BodyOf(block)), FencedSize(size), FencedOverlap(size, overlap));
      WrapWithin(t, FenceOf(block), FencedPieces(t, clean, block, size, overlap), ClosingOf(block), 7 * FencedSize(size) / 2);
    } else if block[0] == '|' {
      SplitWithin(t, HeaderOf(block), DataRows(block), size, [], bound);
      PiecesWithin(t, HeaderOf(block), Split(t, HeaderOf(block), DataRows(block), size, []), bound);
    } else if size > 0 {
      ChunksOfWithin(t, clean(block), size, overlap);
    }
  }

  lemma {:induction false} ExpandedWithin(t: Table, clean: Cleaner, blocks: seq<string>, size: int, overlap: int, bound: nat)
    requires t.Valid() && size <= bound
    requires forall b <- blocks :: Approx(t, b) > size ==> b != "" && PieceBound(t, clean, b, size, overlap, bound)
    ensures forall p <- Expanded(t, clean, blocks, size, overlap) :: Approx(t, p) <= bound
  {
    if blocks != [] {
      var block := blocks[|blocks| - 1];
      assert block in blocks;
      ExpandedWithin(t, clean, blocks[..|blocks| - 1], size, overlap, bound);
      if Approx(t, block) > size {
        SplitBlockWithin(t, clean, block, size, overlap, bound);
      }
    }
  }

  /** No chunk costs more than `bound`, if `bound` covers `size` and the largest piece of every oversized block. */
  lemma MarkdownChunksWithin(t: Table, clean: Cleaner, blocks: seq<string>, size: int, overlap: int, bound: nat)
    requires t.Valid() && size <= bound
    requires forall b <- blocks :: Approx(t, b) > size ==> b != "" && PieceBound(t, clean, b, size, overlap, bound)
    ensures forall c <- Packing.Packed(t, Expanded(t, clean, blocks, size, overlap), size, overlap, "\n\n") ::
      Approx(t, c) <= bound
  {
    ExpandedWithin(t, clean, blocks, size, overlap, bound);
    Packing.PackedWithin(t, Expanded(t, clean, blocks, size, overlap), size, overlap, "\n\n", bound);
  }

  /** So markdown without code and tables keeps the bound of plain text. */
  lemma PlainMarkdownWithin(word: char -> bool, clean: Cleaner, blocks: seq<string>, size: nat, overlap: int)
    requires forall c :: IsSpace(c) ==> !word(c)
    requires size > 0 && forall b <- blocks :: b != "" && !Fenced(b) && b[0] != '|'
    ensures var t := ChunkerTable(word);
      forall c <- Packing.Packed(t, Expanded(t, clean, blocks, size, overlap), size, overlap, "\n\n") ::
        Approx(t, c) <= 7 * size / 2
  {
    TablesAreValid(word);
    MarkdownChunksWithin(ChunkerTable(word), clean, blocks, size, overlap, 7 * size / 2);
  }
}
