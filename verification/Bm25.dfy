/** The in-memory BM25 index, with real arithmetic: term tables built document by document, and ranked search. */
module Bm25 {
  import opened Ranking

  datatype Document = Document(id: int, content: string)

  type Tokenizer = string -> seq<string>

  function Count(tokens: seq<string>, t: string): nat {
    if tokens == [] then 0 else (if tokens[|tokens| - 1] == t then 1 else 0) + Count(tokens[..|tokens| - 1], t)
  }

  lemma {:induction false} CountPositive(tokens: seq<string>, t: string)
    ensures Count(tokens, t) > 0 <==> t in tokens
  {
    if tokens != [] {
      CountPositive(tokens[..|tokens| - 1], t);
      assert tokens == tokens[..|tokens| - 1] + [tokens[|tokens| - 1]];
    }
  }

  /** The token lists of the documents. */
  function Corpus(docs: seq<Document>, tokenize: Tokenizer): seq<seq<string>> {
    if docs == [] then [] else Corpus(docs[..|docs| - 1], tokenize) + [tokenize(docs[|docs| - 1].content)]
  }

  /** Number of documents that contain `t`. */
  function DocFreq(corpus: seq<seq<string>>, t: string): nat {
    if corpus == [] then 0
    else (if t in corpus[|corpus| - 1] then 1 else 0) + DocFreq(corpus[..|corpus| - 1], t)
  }

  function TotalLength(corpus: seq<seq<string>>): nat {
    if corpus == [] then 0 else |corpus[|corpus| - 1]| + TotalLength(corpus[..|corpus| - 1])
  }

  /** `sum / max(1, count)` */
  function Mean(total: nat, count: nat): (m: real)
    ensures total > 0 ==> m > 0.0
  {
    total as real / (if count == 0 then 1 else count) as real
  }

  function AverageLength(corpus: seq<seq<string>>): real {
    Mean(TotalLength(corpus), |corpus|)
  }

  lemma {:induction false} DocFreqBounds(corpus: seq<seq<string>>, t: string)
    ensures DocFreq(corpus, t) <= |corpus|
    ensures DocFreq(corpus, t) > 0 ==> TotalLength(corpus) > 0
    ensures DocFreq(corpus, t) > 0 <==> exists i :: 0 <= i < |corpus| && t in corpus[i]
  {
    if corpus != [] {
      DocFreqBounds(corpus[..|corpus| - 1], t);
    }
  }

  /** A term that occurs anywhere makes the average length positive, so no division below can fail. */
  lemma OccurringTermHasAverage(corpus: seq<seq<string>>, t: string)
    requires DocFreq(corpus, t) > 0
    ensures AverageLength(corpus) > 0.0
  {
    DocFreqBounds(corpus, t);
  }

  // ---- Scores --------------------------------------------------------------------------------------------------------

  /** The logarithm enters only through its sign. */
  ghost predicate IsLog(ln: real -> real) {
    forall x :: x > 1.0 ==> ln(x) > 0.0
  }

  lemma RatioNonNegative(x: real, y: real)
    requires x >= 0.0 && y > 0.0
    ensures x / y >= 0.0
  {
  }

  function Denominator(f: nat, dl: nat, average: real): (d: real)
    requires average > 0.0
    ensures d > 0.0
  {
    RatioNonNegative(dl as real, average);
    f as real + 1.5 * (1.0 - 0.75 + 0.75 * (dl as real / average))
  }

  function Idf(ln: real -> real, n: nat, df: nat): real {
    ln(1.0 + (n as real - df as real + 0.5) / (df as real + 0.5))
  }

  /** The formula, for `n` documents, `df` of them with the token, and `f` occurrences among the `dl` tokens of this one. */
  function Weight(ln: real -> real, n: nat, df: nat, f: nat, dl: nat, average: real): real
    requires average > 0.0
  {
    Idf(ln, n, df) * (f as real * (1.5 + 1.0)) / Denominator(f, dl, average)
  }

  /** The contribution of one query token to one document. */
  function TermScore(ln: real -> real, corpus: seq<seq<string>>, i: nat, token: string): real
    requires i < |corpus|
  {
    var df := DocFreq(corpus, token);
    if df == 0 then 0.0
    else
      OccurringTermHasAverage(corpus, token);
      Weight(ln, |corpus|, df, Count(corpus[i], token), |corpus[i]|, AverageLength(corpus))
  }

  function Score(ln: real -> real, corpus: seq<seq<string>>, i: nat, query: seq<string>): real
    requires i < |corpus|
  {
    if query == [] then 0.0
    else Score(ln, corpus, i, query[..|query| - 1]) + TermScore(ln, corpus, i, query[|query| - 1])
  }

  lemma QuotientPositive(x: real, y: real)
    requires x > 0.0 && y > 0.0
    ensures x / y > 0.0
  {
  }

  lemma IdfPositive(ln: real -> real, n: nat, df: nat)
    requires IsLog(ln) && df <= n
    ensures Idf(ln, n, df) > 0.0
  {
    var x, y := n as real - df as real + 0.5, df as real + 0.5;
    QuotientPositive(x, y);
    assert 1.0 + x / y > 1.0;
  }

  lemma ProductSign(a: real, b: real)
    requires a > 0.0 && b >= 0.0
    ensures a * b >= 0.0 && (a * b > 0.0 <==> b > 0.0)
  {
  }

  lemma WeightSign(ln: real -> real, n: nat, df: nat, f: nat, dl: nat, average: real)
    requires IsLog(ln) && df <= n && average > 0.0
    ensures Weight(ln, n, df, f, dl, average) >= 0.0 && (Weight(ln, n, df, f, dl, average) > 0.0 <==> f > 0)
  {
    var idf, num, den := Idf(ln, n, df), f as real * (1.5 + 1.0), Denominator(f, dl, average);
    IdfPositive(ln, n, df);
    ProductSign(idf, num);
    if f > 0 {
      QuotientPositive(idf * num, den);
    } else {
      assert idf * num == 0.0;
    }
  }

  lemma TermScoreSign(ln: real -> real, corpus: seq<seq<string>>, i: nat, token: string)
    requires IsLog(ln) && i < |corpus|
    ensures TermScore(ln, corpus, i, token) >= 0.0
    ensures TermScore(ln, corpus, i, token) > 0.0 <==> token in corpus[i]
  {
    DocFreqBounds(corpus, token);
    CountPositive(corpus[i], token);
    if DocFreq(corpus, token) > 0 {
      OccurringTermHasAverage(corpus, token);
      WeightSign(ln, |corpus|, DocFreq(corpus, token), Count(corpus[i], token), |corpus[i]|, AverageLength(corpus));
    }
  }

  lemma ProductOrder(a: real, b: real, c: real)
    requires a < b && c > 0.0
    ensures a * c < b * c
  {
  }

  lemma ProductLe(a: real, b: real, c: real)
    requires a <= b && c > 0.0
    ensures a * c <= b * c
  {
  }

  lemma QuotientOrder(a: real, b: real, c: real, d: real)
    requires b > 0.0 && d > 0.0 && a * d < c * b
    ensures a / b < c / d
  {
    var x, y := a / b, c / d;
    assert a == x * b && c == y * d;
    if x >= y {
      ProductLe(y, x, b * d);
      assert false;
    }
  }

  /** What the denominator adds to the frequency: it grows with the length of the document. */
  function Penalty(dl: nat, average: real): (k: real)
    requires average > 0.0
    ensures k > 0.0
  {
    RatioNonNegative(dl as real, average);
    1.5 * (1.0 - 0.75 + 0.75 * (dl as real / average))
  }

  lemma SaturationOrder(x: real, f: real, g: real, k: real)
    requires x > 0.0 && k > 0.0 && 0.0 <= f < g
    ensures x * (f * 2.5) / (f + k) < x * (g * 2.5) / (g + k) < x * 2.5
  {
    ProductOrder(f, g, k);
    assert (f * 2.5) * (g + k) < (g * 2.5) * (f + k);
    ProductOrder((f * 2.5) * (g + k), (g * 2.5) * (f + k), x);
    QuotientOrder(x * (f * 2.5), f + k, x * (g * 2.5), g + k);
    ProductOrder(g * 2.5, 2.5 * (g + k), x);
    QuotientOrder(x * (g * 2.5), g + k, x * 2.5, 1.0);
  }

  /** More occurrences weigh more, but never as much as `k1 + 1` times the inverse document frequency. */
  lemma FrequencySaturates(ln: real -> real, n: nat, df: nat, f: nat, g: nat, dl: nat, average: real)
    requires IsLog(ln) && df <= n && f < g && average > 0.0
    ensures Weight(ln, n, df, f, dl, average) < Weight(ln, n, df, g, dl, average) < Idf(ln, n, df) * 2.5
  {
    IdfPositive(ln, n, df);
    SaturationOrder(Idf(ln, n, df), f as real, g as real, Penalty(dl, average));
  }

  lemma LargerDivisor(a: real, b: real, c: real)
    requires a > 0.0 && 0.0 < b < c
    ensures a / c < a / b
  {
    ProductOrder(b, c, a);
    QuotientOrder(a, c, a, b);
  }

  /** A longer document weighs less for the same number of occurrences. */
  lemma LengthIsPenalised(ln: real -> real, n: nat, df: nat, f: nat, dl: nat, longer: nat, average: real)
    requires IsLog(ln) && df <= n && f > 0 && dl < longer && average > 0.0
    ensures Weight(ln, n, df, f, longer, average) < Weight(ln, n, df, f, dl, average)
  {
    IdfPositive(ln, n, df);
    QuotientOrder(dl as real, average, longer as real, average);
    assert Penalty(dl, average) < Penalty(longer, average);
    var top := Idf(ln, n, df) * (f as real * 2.5);
    ProductSign(Idf(ln, n, df), f as real * 2.5);
    LargerDivisor(top, f as real + Penalty(dl, average), f as real + Penalty(longer, average));
  }

  /** The logarithm grows. */
  ghost predicate Grows(ln: real -> real) {
    forall x, y :: 1.0 < x < y ==> ln(x) < ln(y)
  }

  /** The rarer token has the greater inverse document frequency. */
  lemma IdfFalls(ln: real -> real, n: nat, df: nat, dg: nat)
    requires Grows(ln) && df < dg <= n
    ensures Idf(ln, n, dg) < Idf(ln, n, df)
  {
    var a, b := n as real - dg as real + 0.5, dg as real + 0.5;
    var c, d := n as real - df as real + 0.5, df as real + 0.5;
    ProductOrder(a, c, d);
    ProductOrder(d, b, c);
    QuotientOrder(a, b, c, d);
    QuotientPositive(a, b);
  }

  lemma QuotientGrows(a: real, b: real, c: real)
    requires a < b && c > 0.0
    ensures a / c < b / c
  {
    ProductOrder(a, b, c);
    QuotientOrder(a, c, b, c);
  }

  /** With everything else equal, the token that fewer documents contain weighs more. */
  lemma RarerWeighsMore(ln: real -> real, n: nat, df: nat, dg: nat, f: nat, dl: nat, average: real)
    requires Grows(ln) && df < dg <= n && f > 0 && average > 0.0
    ensures Weight(ln, n, dg, f, dl, average) < Weight(ln, n, df, f, dl, average)
  {
    IdfFalls(ln, n, df, dg);
    var top := f as real * (1.5 + 1.0);
    ProductOrder(Idf(ln, n, dg), Idf(ln, n, df), top);
    QuotientGrows(Idf(ln, n, dg) * top, Idf(ln, n, df) * top, Denominator(f, dl, average));
  }

  lemma ScoreOfTwo(ln: real -> real, corpus: seq<seq<string>>, i: nat, a: string, b: string)
    requires i < |corpus|
    ensures Score(ln, corpus, i, [a, b]) == TermScore(ln, corpus, i, a) + TermScore(ln, corpus, i, b)
  {
    assert [a, b][..1] == [a] && [a][..0] == [];
    assert Score(ln, corpus, i, [a]) == Score(ln, corpus, i, []) + TermScore(ln, corpus, i, a);
  }

  lemma AbsentScoresNothing(ln: real -> real, corpus: seq<seq<string>>, i: nat, token: string)
    requires IsLog(ln) && i < |corpus| && token !in corpus[i]
    ensures TermScore(ln, corpus, i, token) == 0.0
  {
    TermScoreSign(ln, corpus, i, token);
  }

  /** So of two documents of equal length that hold one of the two query tokens each, equally often, the one with the
      rarer token is ahead. */
  lemma RareTokenWins(ln: real -> real, corpus: seq<seq<string>>, i: nat, j: nat, rare: string, common: string)
    requires IsLog(ln) && Grows(ln) && i < |corpus| && j < |corpus| && |corpus[i]| == |corpus[j]|
    requires common !in corpus[i] && rare !in corpus[j] && Count(corpus[i], rare) == Count(corpus[j], common) > 0
    requires DocFreq(corpus, rare) < DocFreq(corpus, common)
    ensures Score(ln, corpus, j, [rare, common]) < Score(ln, corpus, i, [rare, common])
  {
    CountPositive(corpus[i], rare);
    DocFreqBounds(corpus, rare);
    DocFreqBounds(corpus, common);
    OccurringTermHasAverage(corpus, rare);
    RarerWeighsMore(ln, |corpus|, DocFreq(corpus, rare), DocFreq(corpus, common), Count(corpus[i], rare), |corpus[i]|,
                    AverageLength(corpus));
    AbsentScoresNothing(ln, corpus, i, common);
    AbsentScoresNothing(ln, corpus, j, rare);
    ScoreOfTwo(ln, corpus, i, rare, common);
    ScoreOfTwo(ln, corpus, j, rare, common);
  }

  /** The counts behind the formula: occurrences in a document, documents with the token, and the mean length. */
  lemma {:induction false} CountIsMultiplicity(tokens: seq<string>, t: string)
    ensures Count(tokens, t) == multiset(tokens)[t]
  {
    if tokens != [] {
      var n := |tokens| - 1;
      CountIsMultiplicity(tokens[..n], t);
      assert tokens == tokens[..n] + [tokens[n]];
    }
  }

  lemma {:induction false} DocFreqCounts(corpus: seq<seq<string>>, t: string)
    ensures DocFreq(corpus, t) == |set i | 0 <= i < |corpus| && t in corpus[i]|
  {
    var with := set i | 0 <= i < |corpus| && t in corpus[i];
    if corpus != [] {
      var n := |corpus| - 1;
      DocFreqCounts(corpus[..n], t);
      var before := set i | 0 <= i < n && t in corpus[..n][i];
      assert with == before + if t in corpus[n] then {n} else {};
    }
  }

  lemma QuotientIs(x: real, y: real, q: real)
    requires y > 0.0 && x == q * y
    ensures x / y == q
  {
  }

  lemma QuotientBack(x: real, y: real)
    requires y > 0.0
    ensures x / y * y == x
  {
  }

  /** The mean is the total divided by the count, and by one for no documents. */
  lemma MeanIs(total: nat, count: nat)
    requires count > 0
    ensures Mean(total, count) * count as real == total as real
  {
    var t, c := total as real, count as real;
    QuotientBack(t, c);
    assert Mean(total, count) == t / c;
  }

  function AllTokens(corpus: seq<seq<string>>): seq<string> {
    if corpus == [] then [] else AllTokens(corpus[..|corpus| - 1]) + corpus[|corpus| - 1]
  }

  lemma {:induction false} TotalLengthIs(corpus: seq<seq<string>>)
    ensures TotalLength(corpus) == |AllTokens(corpus)|
  {
    if corpus != [] {
      TotalLengthIs(corpus[..|corpus| - 1]);
    }
  }

  /** The constants: in a document of average length a token counts `2.5 f / (f + 1.5)` times its inverse document
      frequency, in one of twice that length `2.5 f / (f + 2.625)` times, and a token in half of the documents has `ln 2`. */
  lemma WeightAtAverage(ln: real -> real, n: nat, df: nat, f: nat, dl: nat, average: real)
    requires average > 0.0
    ensures dl as real == average ==> Denominator(f, dl, average) == f as real + 1.5
    ensures dl as real == 2.0 * average ==> Denominator(f, dl, average) == f as real + 2.625
    ensures n == 2 * df ==> Idf(ln, n, df) == ln(2.0)
  {
    if dl as real == average {
      QuotientIs(dl as real, average, 1.0);
    } else if dl as real == 2.0 * average {
      QuotientIs(dl as real, average, 2.0);
    }
    if n == 2 * df {
      QuotientIs(n as real - df as real + 0.5, df as real + 0.5, 1.0);
    }
  }

  predicate Shares(tokens: seq<string>, query: seq<string>) {
    exists t :: t in query && t in tokens
  }

  /** A document scores above zero if and only if it shares a token with the query. */
  lemma {:induction false} ScorePositiveIff(ln: real -> real, corpus: seq<seq<string>>, i: nat, query: seq<string>)
    requires IsLog(ln) && i < |corpus|
    ensures Score(ln, corpus, i, query) >= 0.0
    ensures Score(ln, corpus, i, query) > 0.0 <==> Shares(corpus[i], query)
  {
    if query != [] {
      var front, last := query[..|query| - 1], query[|query| - 1];
      ScorePositiveIff(ln, corpus, i, front);
      TermScoreSign(ln, corpus, i, last);
      assert forall t :: t in query <==> t in front || t == last;
    }
  }

  /** The documents that score, in index order. */
  function Hits(ln: real -> real, docs: seq<Document>, corpus: seq<seq<string>>, query: seq<string>, n: nat): seq<Hit>
    requires n <= |docs| == |corpus|
  {
    if n == 0 then []
    else
      var score := Score(ln, corpus, n - 1, query);
      Hits(ln, docs, corpus, query, n - 1) + if score > 0.0 then [(docs[n - 1].id, score)] else []
  }

  lemma {:induction false} HitsAre(ln: real -> real, docs: seq<Document>, corpus: seq<seq<string>>, query: seq<string>,
                                   n: nat, h: Hit)
    requires IsLog(ln) && n <= |docs| == |corpus|
    ensures h in Hits(ln, docs, corpus, query, n) <==>
      exists i :: 0 <= i < n && Shares(corpus[i], query) && h == (docs[i].id, Score(ln, corpus, i, query))
  {
    if n > 0 {
      HitsAre(ln, docs, corpus, query, n - 1, h);
      ScorePositiveIff(ln, corpus, n - 1, query);
    }
  }

  // ---- The scorer ----------------------------------------------------------------------------------------------------

  function SumSeq(s: seq<nat>): nat {
    if s == [] then 0 else s[|s| - 1] + SumSeq(s[..|s| - 1])
  }

  /** The frequency table of one document. */
  ghost predicate TermTable(tf: map<string, nat>, tokens: seq<string>) {
    forall t :: (t in tf <==> t in tokens) && (t in tf ==> tf[t] == Count(tokens, t))
  }

  ghost predicate FreqTable(df: map<string, nat>, corpus: seq<seq<string>>) {
    forall t :: (t in df <==> DocFreq(corpus, t) > 0) && (t in df ==> df[t] == DocFreq(corpus, t))
  }

  function Ranked(ln: real -> real, docs: seq<Document>, corpus: seq<seq<string>>, query: seq<string>, topK: nat): seq<Hit>
    requires |docs| == |corpus|
  {
    Best(SortHits(Hits(ln, docs, corpus, query, |docs|)), topK)
  }

  lemma {:induction false} NoQueryNoHits(ln: real -> real, docs: seq<Document>, corpus: seq<seq<string>>, n: nat)
    requires n <= |docs| == |corpus|
    ensures Hits(ln, docs, corpus, [], n) == []
  {
    if n > 0 {
      NoQueryNoHits(ln, docs, corpus, n - 1);
    }
  }

  method CountTerms(tokens: seq<string>) returns (tf: map<string, nat>)
    ensures TermTable(tf, tokens)
  {
    tf := map[];
    for i := 0 to |tokens|
      invariant TermTable(tf, tokens[..i])
    {
      var t := tokens[i];
      assert tokens[..i + 1][..i] == tokens[..i];
      assert forall u :: u in tokens[..i + 1] <==> u in tokens[..i] || u == t;
      CountPositive(tokens[..i], t);
      tf := tf[t := (if t in tf then tf[t] else 0) + 1];
    }
    assert tokens[..|tokens|] == tokens;
  }

  /** `for t in set(tokens)`: each distinct term counts the document once. */
  method AddDocument(df: map<string, nat>, tokens: seq<string>, ghost corpus: seq<seq<string>>)
    returns (r: map<string, nat>)
    requires FreqTable(df, corpus)
    ensures FreqTable(r, corpus + [tokens])
  {
    r := df;
    var rest := set t | t in tokens;
    while rest != {}
      invariant rest <= set t | t in tokens
      invariant forall t :: t in r <==> t in df || (t in tokens && t !in rest)
      invariant forall t :: t in r ==>
        r[t] == (if t in df then df[t] else 0) + (if t in tokens && t !in rest then 1 else 0)
      decreases |rest|
    {
      var t :| t in rest;
      r := r[t := (if t in r then r[t] else 0) + 1];
      rest := rest - {t};
    }
    assert (corpus + [tokens])[..|corpus|] == corpus;
  }

  /** The term counts and the lengths of each document. */
  ghost predicate TablesOf(termFreqs: seq<map<string, nat>>, docLen: seq<nat>, corpus: seq<seq<string>>) {
    && |termFreqs| == |docLen| == |corpus|
    && forall i :: 0 <= i < |corpus| ==> TermTable(termFreqs[i], corpus[i]) && docLen[i] == |corpus[i]|
  }

  lemma TablesGrow(termFreqs: seq<map<string, nat>>, docLen: seq<nat>, corpus: seq<seq<string>>, tf: map<string, nat>,
                   tokens: seq<string>)
    requires TablesOf(termFreqs, docLen, corpus) && TermTable(tf, tokens)
    ensures TablesOf(termFreqs + [tf], docLen + [|tokens|], corpus + [tokens])
  {
  }

  /** The loop of `index`, over all three tables. */
  method BuildTables(docs: seq<Document>, tokenize: Tokenizer)
    returns (docFreq: map<string, nat>, docLen: seq<nat>, termFreqs: seq<map<string, nat>>)
    ensures |Corpus(docs, tokenize)| == |docs| && TablesOf(termFreqs, docLen, Corpus(docs, tokenize))
    ensures FreqTable(docFreq, Corpus(docs, tokenize)) && SumSeq(docLen) == TotalLength(Corpus(docs, tokenize))
  {
    docFreq, docLen, termFreqs := map[], [], [];
    ghost var corpus := [];
    for i := 0 to |docs|
      invariant corpus == Corpus(docs[..i], tokenize) && |corpus| == i
      invariant TablesOf(termFreqs, docLen, corpus)
      invariant FreqTable(docFreq, corpus)
      invariant SumSeq(docLen) == TotalLength(corpus)
    {
      var tokens := tokenize(docs[i].content);
      assert docs[..i + 1][..i] == docs[..i];
      var tf := CountTerms(tokens);
      TablesGrow(termFreqs, docLen, corpus, tf, tokens);
      termFreqs := termFreqs + [tf];
      docLen := docLen + [|tokens|];
      docFreq := AddDocument(docFreq, tokens, corpus);
      corpus := corpus + [tokens];
    }
    assert docs[..|docs|] == docs;
  }

  class BM25Scorer {
    const tokenize: Tokenizer
    var docs: seq<Document>
    var docFreq: map<string, nat>
    var docLen: seq<nat>
    var termFreqs: seq<map<string, nat>>
    var avgdl: real
    var indexed: bool

    constructor (tokenize: Tokenizer)
      ensures this.tokenize == tokenize && !indexed && docs == []
    {
      this.tokenize := tokenize;
      docs, docFreq, docLen, termFreqs, avgdl, indexed := [], map[], [], [], 0.0, false;
    }

    /** The incremental tables equal their definitions. */
    ghost predicate Exact()
      reads this
    {
      var corpus := Corpus(docs, tokenize);
      && |docs| == |corpus| && TablesOf(termFreqs, docLen, corpus)
      && FreqTable(docFreq, corpus)
      && avgdl == AverageLength(corpus)
    }

    method Index(newDocs: seq<Document>)
      modifies this
      ensures docs == newDocs && indexed && Exact()
    {
      docs := newDocs;
      docFreq, docLen, termFreqs := BuildTables(newDocs, tokenize);
      avgdl := Mean(SumSeq(docLen), |docLen|);
      indexed := true;
    }

    method ScoreTerm(ln: real -> real, i: nat, token: string) returns (x: real)
      requires Exact() && i < |docs|
      ensures |Corpus(docs, tokenize)| == |docs| && x == TermScore(ln, Corpus(docs, tokenize), i, token)
    {
      ghost var corpus := Corpus(docs, tokenize);
      assert TermTable(termFreqs[i], corpus[i]);
      var df := if token in docFreq then docFreq[token] else 0;
      assert df == DocFreq(corpus, token);
      if df == 0 {
        return 0.0;
      }
      OccurringTermHasAverage(corpus, token);
      CountPositive(corpus[i], token);
      var f := if token in termFreqs[i] then termFreqs[i][token] else 0;
      assert f == Count(corpus[i], token);
      return Weight(ln, |docs|, df, f, docLen[i], avgdl);
    }

    /** The inner loop of `search`: the score of one document. */
    method ScoreOf(ln: real -> real, i: nat, queryTokens: seq<string>) returns (score: real)
      requires Exact() && i < |docs|
      ensures |Corpus(docs, tokenize)| == |docs| && score == Score(ln, Corpus(docs, tokenize), i, queryTokens)
    {
      score := 0.0;
      for q := 0 to |queryTokens|
        invariant score == Score(ln, Corpus(docs, tokenize), i, queryTokens[..q])
      {
        assert queryTokens[..q + 1][..q] == queryTokens[..q];
        var term := ScoreTerm(ln, i, queryTokens[q]);
        score := score + term;
      }
      assert queryTokens[..|queryTokens|] == queryTokens;
    }

    method Search(ln: real -> real, query: string, topK: nat) returns (results: seq<Hit>)
      requires indexed ==> Exact()
      ensures !indexed ==> results == []
      ensures indexed ==> |Corpus(docs, tokenize)| == |docs|
      ensures indexed ==> results == Ranked(ln, docs, Corpus(docs, tokenize), tokenize(query), topK)
    {
      if !indexed {
        return [];
      }
      ghost var corpus := Corpus(docs, tokenize);
      var queryTokens := tokenize(query);
      if queryTokens == [] {
        NoQueryNoHits(ln, docs, corpus, |docs|);
        return [];
      }
      var hits: seq<Hit> := [];
      for i := 0 to |docs|
        invariant hits == Hits(ln, docs, corpus, queryTokens, i)
      {
        var score := ScoreOf(ln, i, queryTokens);
        if score > 0.0 {
          hits := hits + [(docs[i].id, score)];
        }
      }
      results := Best(SortHits(hits), topK);
    }
  }

  function CountSharing(corpus: seq<seq<string>>, query: seq<string>): nat {
    if corpus == [] then 0
    else CountSharing(corpus[..|corpus| - 1], query) + if Shares(corpus[|corpus| - 1], query) then 1 else 0
  }

  lemma {:induction false} HitsCount(ln: real -> real, docs: seq<Document>, corpus: seq<seq<string>>, query: seq<string>, n: nat)
    requires IsLog(ln) && n <= |docs| == |corpus|
    ensures |Hits(ln, docs, corpus, query, n)| == CountSharing(corpus[..n], query)
  {
    if n > 0 {
      HitsCount(ln, docs, corpus, query, n - 1);
      ScorePositiveIff(ln, corpus, n - 1, query);
      assert corpus[..n][..n - 1] == corpus[..n - 1];
    }
  }

  /** A search returns as many documents as share a token with the query, up to `topK`. */
  lemma SearchCount(ln: real -> real, docs: seq<Document>, corpus: seq<seq<string>>, query: seq<string>, topK: nat)
    requires IsLog(ln) && |docs| == |corpus|
    ensures |Ranked(ln, docs, corpus, query, topK)|
            == if CountSharing(corpus, query) <= topK then CountSharing(corpus, query) else topK
  {
    var hits := Hits(ln, docs, corpus, query, |docs|);
    HitsCount(ln, docs, corpus, query, |docs|);
    assert corpus[..|docs|] == corpus;
    SortHitsMembers(hits, (0, 0.0));
  }

  /** Some document that shares a token with the query has this id and score. */
  predicate IsSharing(ln: real -> real, docs: seq<Document>, corpus: seq<seq<string>>, query: seq<string>, h: Hit)
    requires |docs| == |corpus|
  {
    exists i :: 0 <= i < |docs| && Shares(corpus[i], query) && h == (docs[i].id, Score(ln, corpus, i, query))
  }

  /** What a search returns: only documents that share a token with the query, in descending order, and no sharing
      document left out scores more than one returned. */
  lemma SearchIsTopK(ln: real -> real, docs: seq<Document>, corpus: seq<seq<string>>, query: seq<string>, topK: nat)
    requires IsLog(ln) && |docs| == |corpus|
    ensures var results := Ranked(ln, docs, corpus, query, topK);
      && Descending(results)
      && (forall h <- results :: IsSharing(ln, docs, corpus, query, h))
      && (forall h | IsSharing(ln, docs, corpus, query, h) :: h in results || forall r <- results :: r.1 >= h.1)
  {
    var hits := Hits(ln, docs, corpus, query, |docs|);
    var ranked := SortHits(hits);
    SortHitsDescend(hits);
    BestDescends(ranked, topK);
    forall h <- Best(ranked, topK) ensures IsSharing(ln, docs, corpus, query, h) {
      SortHitsMembers(hits, h);
      HitsAre(ln, docs, corpus, query, |docs|, h);
    }
    forall h | IsSharing(ln, docs, corpus, query, h)
      ensures h in Best(ranked, topK) || forall r <- Best(ranked, topK) :: r.1 >= h.1
    {
      HitsAre(ln, docs, corpus, query, |docs|, h);
      SortHitsMembers(hits, h);
      BestAreBest(ranked, topK, h);
    }
  }
}
