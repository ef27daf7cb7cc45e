/** Plain-text chunking: sentences, hard split and packing together. */
module Chunker {
  import opened Text
  import opened Tokens
  import opened Sentences
  import opened HardSplits
  import opened Packing

  datatype ChunkResult = Chunks(chunks: seq<string>) | InvalidSize

  function PiecesOf(t: Table, sentence: string, size: nat, overlap: nat): seq<string> {
    if Approx(t, sentence) > size then HardParts(sentence, size, overlap) else [sentence]
  }

  function Expand(t: Table, sentences: seq<string>, size: nat, overlap: nat): seq<string> {
    if sentences == [] then []
    else Expand(t, sentences[..|sentences| - 1], size, overlap) + PiecesOf(t, sentences[|sentences| - 1], size, overlap)
  }

  function Clamp(overlap: int, size: int): (clamped: int)
    ensures size > 0 ==> 0 <= clamped < size && (0 <= overlap < size ==> clamped == overlap)
    ensures size > 0 && overlap >= size ==> clamped == size - 1
  {
    var positive := if overlap > 0 then overlap else 0;
    if positive <= size - 1 then positive else size - 1
  }

  /** The chunks of a text; none for a size that is refused. */
  function ChunksOf(t: Table, text: string, size: int, overlap: int): seq<string> {
    if text == "" || size <= 0 then []
    else
      var back := Clamp(overlap, size);
      Packed(t, Expand(t, SplitSentences(text), size, back), size, back, "")
  }

  /** `chunk_text` on text that `clean_text` has already normalised. */
  method ChunkText(t: Table, text: string, size: int, overlap: int) returns (r: ChunkResult)
    ensures r == if text != "" && size <= 0 then InvalidSize else Chunks(ChunksOf(t, text, size, overlap))
  {
    if text == "" {
      return Chunks([]);
    }
    if size <= 0 {
      return InvalidSize;
    }
    var back := Clamp(overlap, size);
    var sentences := SplitSentences(text);
    var pieces: seq<string> := [];
    for i := 0 to |sentences|
      invariant pieces == Expand(t, sentences[..i], size, back)
    {
      assert sentences[..i + 1][..i] == sentences[..i];
      if Approx(t, sentences[i]) > size {
        var parts := HardSplit(sentences[i], size, back);
        pieces := pieces + parts;
      } else {
        pieces := pieces + [sentences[i]];
      }
    }
    assert sentences[..|sentences|] == sentences;
    var chunks := Pack(t, pieces, size, back, "");
    r := Chunks(chunks);
  }

  lemma {:induction false} ExpandWithin(t: Table, sentences: seq<string>, size: nat, overlap: nat, bound: nat)
    requires t.Valid() && 1 <= size <= bound
    requires forall s <- sentences :: Approx(t, s) > size ==> Window(s, size) <= bound
    ensures forall p <- Expand(t, sentences, size, overlap) :: Approx(t, p) <= bound
  {
    if sentences != [] {
      var last := sentences[|sentences| - 1];
      ExpandWithin(t, sentences[..|sentences| - 1], size, overlap, bound);
      if Approx(t, last) > size {
        HardPartsShort(last, size, overlap);
        forall p <- HardParts(last, size, overlap) ensures Approx(t, p) <= bound {
          ApproxAtMostLength(t, p);
        }
      }
    }
  }

  /** No chunk has more than 3.5 times `size` tokens, and none more than `size` when every oversized sentence is
      mostly CJK. */
  lemma ChunkTextWithin(t: Table, text: string, size: nat, overlap: nat)
    requires t.Valid() && 1 <= size && overlap < size
    ensures var chunks := Packed(t, Expand(t, SplitSentences(text), size, overlap), size, overlap, "");
      && (forall c <- chunks :: Approx(t, c) <= 7 * size / 2)
      && ((forall s <- SplitSentences(text) :: Approx(t, s) > size ==> MostlyHan(s)) ==>
            forall c <- chunks :: Approx(t, c) <= size)
  {
    var sentences := SplitSentences(text);
    var pieces := Expand(t, sentences, size, overlap);
    ExpandWithin(t, sentences, size, overlap, 7 * size / 2);
    PackedWithin(t, pieces, size, overlap, "", 7 * size / 2);
    if forall s <- sentences :: Approx(t, s) > size ==> MostlyHan(s) {
      ExpandWithin(t, sentences, size, overlap, size);
      PackedWithin(t, pieces, size, overlap, "", size);
    }
  }

  /** The bounds for the estimate that the chunker uses. */
  lemma ChunksWithin(word: char -> bool, text: string, size: int, overlap: int)
    requires forall c :: IsSpace(c) ==> !word(c)
    ensures var t := ChunkerTable(word);
      var chunks := ChunksOf(t, text, size, overlap);
      && (size > 0 ==> forall c <- chunks :: Approx(t, c) <= 7 * size / 2)
      && ((forall s <- SplitSentences(text) :: Approx(t, s) > size ==> MostlyHan(s)) ==>
            forall c <- chunks :: Approx(t, c) <= size)
  {
    TablesAreValid(word);
    if text != "" && size > 0 {
      ChunkTextWithin(ChunkerTable(word), text, size, Clamp(overlap, size));
    }
  }

  lemma {:induction false} ExpandHas(t: Table, sentences: seq<string>, size: nat, overlap: nat, i: nat, p: string)
    requires i < |sentences| && p in PiecesOf(t, sentences[i], size, overlap)
    ensures p in Expand(t, sentences, size, overlap)
  {
    if i < |sentences| - 1 {
      ExpandHas(t, sentences[..|sentences| - 1], size, overlap, i, p);
    }
  }

  /** No visible character is lost: character `k` of sentence `i` stands in a slice of that sentence which some chunk
      contains. With `SplitSentencesKeepsText` this covers every visible character of the text. */
  lemma ChunkTextLosesNothing(t: Table, text: string, size: nat, overlap: nat, i: nat, k: nat)
    returns (c: nat, a: nat, b: nat)
    requires i < |SplitSentences(text)| && k < |SplitSentences(text)[i]| && !IsSpace(SplitSentences(text)[i][k])
    ensures var chunks := Packed(t, Expand(t, SplitSentences(text), size, overlap), size, overlap, "");
      && c < |chunks| && a <= k < b <= |SplitSentences(text)[i]|
      && Contains(chunks[c], SplitSentences(text)[i][a..b])
  {
    var sentences := SplitSentences(text);
    var sentence := sentences[i];
    if Approx(t, sentence) > size {
      var p;
      p, a, b := HardSplitLosesNothing(sentence, size, overlap, k);
    } else {
      a, b := 0, |sentence|;
      assert sentence[a..b] == sentence;
    }
    assert sentence[a..b] in PiecesOf(t, sentence, size, overlap);
    ExpandHas(t, sentences, size, overlap, i, sentence[a..b]);
    var pieces := Expand(t, sentences, size, overlap);
    var q :| 0 <= q < |pieces| && pieces[q] == sentence[a..b];
    c := EveryPieceIsChunked(t, pieces, size, overlap, "", q);
  }

  /** A sentence that fits is not split. */
  lemma FittingSentenceStaysWhole(t: Table, text: string, size: nat, overlap: nat, i: nat) returns (c: nat)
    requires i < |SplitSentences(text)| && Approx(t, SplitSentences(text)[i]) <= size
    ensures var chunks := Packed(t, Expand(t, SplitSentences(text), size, overlap), size, overlap, "");
      c < |chunks| && Contains(chunks[c], SplitSentences(text)[i])
  {
    var sentences := SplitSentences(text);
    ExpandHas(t, sentences, size, overlap, i, sentences[i]);
    var pieces := Expand(t, sentences, size, overlap);
    var q :| 0 <= q < |pieces| && pieces[q] == sentences[i];
    c := EveryPieceIsChunked(t, pieces, size, overlap, "", q);
  }

  /** Multiplicity is not conserved in general: two equal sentences of one token each come out as one chunk. */
  lemma RepeatedTailIsDropped(t: Table)
    requires Approx(t, "a") == 1
    ensures Packed(t, ["a", "a"], 1, 0, "") == ["a"]
  {
    var g := Group(0, ["a"]);
    assert ["a", "a"][1..] == ["a"] && ["a"][1..] == [] && ["a"][..0] == [];
    assert Next(t, EMPTY, "a", 1, 0) == g;
    assert Next(t, g, "a", 1, 0) == g;
    assert Groups(t, ["a"], 1, 0, g) == [g] + [g];
    assert Groups(t, ["a", "a"], 1, 0, EMPTY) == [] + [g, g];
    assert Emitted([g, g], "") == [g, g][..1] == [g];
    TextsAt([g], "", 0);
  }
}
