// The BM25 index and its scores (scripts/core.py), over reals, with the tokenizer and the logarithm as parameters.

module Bm25 {
  const K1: real := 1.5
  const B: real := 0.75

  type Document = seq<string>
  type Corpus = seq<Document>

  // What the logarithm is relied on for.
  ghost predicate IsLogarithm(ln: real -> real) {
    forall x: real :: x > 1.0 ==> ln(x) > 0.0
  }

  lemma SomeLogarithm()
    ensures IsLogarithm(x => x - 1.0)
  {}

  // ---------------------------------------------------------------- direct counting

  function TermFrequency(doc: Document, word: string): nat {
    multiset(doc)[word]
  }

  function DocumentFrequency(corpus: Corpus, word: string): nat {
    if corpus == [] then 0
    else DocumentFrequency(corpus[..|corpus| - 1], word) + if word in corpus[|corpus| - 1] then 1 else 0
  }

  function TotalLength(corpus: Corpus): nat {
    if corpus == [] then 0 else TotalLength(corpus[..|corpus| - 1]) + |corpus[|corpus| - 1]|
  }

  // The mean document length; 1 when every document is empty.
  function MeanLength(corpus: Corpus): (mean: real)
    requires corpus != []
    ensures mean > 0.0
  {
    if TotalLength(corpus) == 0 then 1.0 else TotalLength(corpus) as real / |corpus| as real
  }

  function IdfArgument(n: nat, frequency: nat): real {
    (n as real - frequency as real + 0.5) / (frequency as real + 0.5) + 1.0
  }

  function Idf(corpus: Corpus, word: string, ln: real -> real): real {
    ln(IdfArgument(|corpus|, DocumentFrequency(corpus, word)))
  }

  function Saturation(corpus: Corpus, doc: Document): (s: real)
    requires corpus != []
    ensures s > 0.0
  {
    SaturationPositive(|doc| as real, MeanLength(corpus));
    K1 * (1.0 - B + B * |doc| as real / MeanLength(corpus))
  }

  // What one query token adds to a document's score.
  function TokenScore(corpus: Corpus, doc: Document, token: string, ln: real -> real): real
    requires corpus != []
  {
    if DocumentFrequency(corpus, token) == 0 then 0.0
    else
      var tf := TermFrequency(doc, token) as real;
      Idf(corpus, token, ln) * (tf * (K1 + 1.0)) / (tf + Saturation(corpus, doc))
  }

  function DirectScore(corpus: Corpus, doc: Document, query: seq<string>, ln: real -> real): real
    requires corpus != []
  {
    if query == [] then 0.0
    else
      DirectScore(corpus, doc, query[..|query| - 1], ln) + TokenScore(corpus, doc, query[|query| - 1], ln)
  }

  function IdfSum(corpus: Corpus, query: seq<string>, ln: real -> real): real {
    if query == [] then 0.0
    else
      var token := query[|query| - 1];
      IdfSum(corpus, query[..|query| - 1], ln)
      + if DocumentFrequency(corpus, token) == 0 then 0.0 else Idf(corpus, token, ln)
  }

  lemma SaturationPositive(length: real, mean: real)
    requires length >= 0.0 && mean > 0.0
    ensures K1 * (1.0 - B + B * length / mean) > 0.0
  {
    assert B * length >= 0.0;
    assert B * length / mean >= 0.0;
  }

  // ---------------------------------------------------------------- ranking

  datatype Ranked = Ranked(position: nat, score: real)

  // Higher scores first, equal ones in document order.
  predicate IsBefore(a: Ranked, b: Ranked) {
    a.score > b.score || (a.score == b.score && a.position < b.position)
  }

  function Place(ranking: seq<Ranked>, r: Ranked): seq<Ranked> {
    if ranking == [] || ranking[0].score < r.score then [r] + ranking else [ranking[0]] + Place(ranking[1..], r)
  }

  // sorted(scores, key=score, reverse=True), which is stable.
  function Sorted(scores: seq<real>): seq<Ranked> {
    if scores == [] then []
    else Place(Sorted(scores[..|scores| - 1]), Ranked(|scores| - 1, scores[|scores| - 1]))
  }

  ghost predicate IsOrdered(ranking: seq<Ranked>) {
    forall i, j :: 0 <= i < j < |ranking| ==> IsBefore(ranking[i], ranking[j])
  }

  lemma {:induction false} PlaceKeeps(ranking: seq<Ranked>, r: Ranked)
    requires IsOrdered(ranking) && forall q <- ranking :: q.position < r.position
    ensures IsOrdered(Place(ranking, r)) && multiset(Place(ranking, r)) == multiset(ranking) + multiset{r}
  {
    if ranking != [] && ranking[0].score >= r.score {
      PlaceKeeps(ranking[1..], r);
      var rest := Place(ranking[1..], r);
      assert ranking == [ranking[0]] + ranking[1..];
      forall j | 0 <= j < |rest| ensures IsBefore(ranking[0], rest[j]) {
        assert rest[j] in multiset(rest);
        assert rest[j] == r || rest[j] in ranking[1..];
      }
    }
  }

  function InOrder(scores: seq<real>): (all: seq<Ranked>)
    ensures |all| == |scores|
    ensures forall i :: 0 <= i < |scores| ==> all[i] == Ranked(i, scores[i])
  {
    seq(|scores|, i requires 0 <= i < |scores| => Ranked(i, scores[i]))
  }

  // Main result: the ranking lists every document once with its score, best first, ties in document order.
  lemma {:induction false} SortedRanks(scores: seq<real>)
    ensures IsOrdered(Sorted(scores)) && multiset(Sorted(scores)) == multiset(InOrder(scores))
    ensures var ranking := Sorted(scores);
      forall i, j :: 0 <= i < j < |ranking| ==>
        || ranking[i].score > ranking[j].score
        || (ranking[i].score == ranking[j].score && ranking[i].position < ranking[j].position)
  {
    hide Place, IsBefore;
    if scores != [] {
      var n := |scores| - 1;
      var before, r := Sorted(scores[..n]), Ranked(n, scores[n]);
      SortedRanks(scores[..n]);
      assert InOrder(scores) == InOrder(scores[..n]) + [r];
      forall q | q in before ensures q.position < n {
        assert q in multiset(before);
        assert q in InOrder(scores[..n]);
      }
      PlaceKeeps(before, r);
    }
    OrderMeans(Sorted(scores));
  }

  lemma OrderMeans(ranking: seq<Ranked>)
    requires IsOrdered(ranking)
    ensures forall i, j :: 0 <= i < j < |ranking| ==>
              || ranking[i].score > ranking[j].score
              || (ranking[i].score == ranking[j].score && ranking[i].position < ranking[j].position)
  {
    forall i, j | 0 <= i < j < |ranking|
      ensures ranking[i].score > ranking[j].score
              || (ranking[i].score == ranking[j].score && ranking[i].position < ranking[j].position)
    {
      assert IsBefore(ranking[i], ranking[j]);
    }
  }

  // ---------------------------------------------------------------- the index

  ghost predicate IsCount(frequencies: map<string, nat>, doc: Document) {
    && (forall word :: word in frequencies <==> word in doc)
    && (forall word <- frequencies :: frequencies[word] == TermFrequency(doc, word))
  }

  ghost predicate AreDocumentFrequencies(frequencies: map<string, nat>, corpus: Corpus) {
    && (forall word :: word in frequencies <==> DocumentFrequency(corpus, word) > 0)
    && (forall word <- frequencies :: frequencies[word] == DocumentFrequency(corpus, word))
  }

  ghost predicate AreIdfs(idf: map<string, real>, corpus: Corpus, ln: real -> real) {
    && (forall word :: word in idf <==> DocumentFrequency(corpus, word) > 0)
    && (forall word <- idf :: idf[word] == Idf(corpus, word, ln))
  }

  method CountTerms(doc: Document) returns (tf: map<string, nat>)
    ensures IsCount(tf, doc)
  {
    tf := map[];
    for i := 0 to |doc|
      invariant IsCount(tf, doc[..i])
    {
      assert doc[..i + 1] == doc[..i] + [doc[i]];
      tf := tf[doc[i] := (if doc[i] in tf then tf[doc[i]] else 0) + 1];
    }
    assert doc[..|doc|] == doc;
  }

  method AddDocument(known: map<string, nat>, tf: map<string, nat>, ghost corpus: Corpus, ghost doc: Document)
    returns (docFreqs: map<string, nat>)
    requires AreDocumentFrequencies(known, corpus) && IsCount(tf, doc)
    ensures AreDocumentFrequencies(docFreqs, corpus + [doc])
  {
    docFreqs := known;
    var words := tf.Keys;
    while words != {}
      invariant words <= tf.Keys
      invariant forall word :: word in docFreqs <==> word in known || word in tf.Keys - words
      invariant forall word <- docFreqs ::
        docFreqs[word] == (if word in known then known[word] else 0) + if word in tf.Keys - words then 1 else 0
      decreases words
    {
      var word :| word in words;
      docFreqs := docFreqs[word := (if word in docFreqs then docFreqs[word] else 0) + 1];
      words := words - {word};
    }
    forall word
      ensures DocumentFrequency(corpus + [doc], word) == DocumentFrequency(corpus, word) + if word in doc then 1 else 0
    {
      assert (corpus + [doc])[..|corpus|] == corpus;
    }
  }

  // The term frequencies of every document, and how many documents each word is in.
  method CountDocuments(corpus: Corpus) returns (termFreqs: seq<map<string, nat>>, docFreqs: map<string, nat>)
    ensures |termFreqs| == |corpus| && AreDocumentFrequencies(docFreqs, corpus)
    ensures forall i :: 0 <= i < |corpus| ==> IsCount(termFreqs[i], corpus[i])
  {
    hide IsCount, AreDocumentFrequencies;
    termFreqs, docFreqs := [], map[];
    NoFrequencies();
    for d := 0 to |corpus|
      invariant |termFreqs| == d && AreDocumentFrequencies(docFreqs, corpus[..d])
      invariant forall i :: 0 <= i < d ==> IsCount(termFreqs[i], corpus[i])
    {
      var tf := CountTerms(corpus[d]);
      termFreqs := termFreqs + [tf];
      docFreqs := AddDocument(docFreqs, tf, corpus[..d], corpus[d]);
      assert corpus[..d + 1] == corpus[..d] + [corpus[d]];
    }
    assert corpus[..|corpus|] == corpus;
  }

  lemma NoFrequencies()
    ensures AreDocumentFrequencies(map[], [])
  {}

  // sum(lengths) / N or 1.0
  method ComputeMean(corpus: Corpus, docLengths: seq<nat>) returns (mean: real)
    requires corpus != [] && |docLengths| == |corpus| && forall i :: 0 <= i < |corpus| ==> docLengths[i] == |corpus[i]|
    ensures mean == MeanLength(corpus)
  {
    var total := 0;
    for i := 0 to |corpus|
      invariant total == TotalLength(corpus[..i])
    {
      assert corpus[..i + 1][..i] == corpus[..i];
      total := total + docLengths[i];
    }
    assert corpus[..|corpus|] == corpus;
    mean := total as real / |corpus| as real;
    QuotientZero(total as real, |corpus| as real);
    if mean == 0.0 { mean := 1.0; }
  }

  lemma QuotientZero(x: real, y: real)
    requires y > 0.0
    ensures x / y == 0.0 <==> x == 0.0
  {
    assert x / y * y == x;
  }

  method ComputeIdfs(corpus: Corpus, docFreqs: map<string, nat>, ln: real -> real) returns (idf: map<string, real>)
    requires AreDocumentFrequencies(docFreqs, corpus)
    ensures AreIdfs(idf, corpus, ln)
  {
    idf := map[];
    var words := docFreqs.Keys;
    while words != {}
      invariant words <= docFreqs.Keys && idf.Keys == docFreqs.Keys - words
      invariant forall word <- idf :: idf[word] == Idf(corpus, word, ln)
      decreases words
    {
      var word :| word in words;
      idf := idf[word := ln(IdfArgument(|corpus|, docFreqs[word]))];
      words := words - {word};
    }
  }

  class Index {
    var corpus: Corpus
    var n: nat
    var docLengths: seq<nat>
    var avgdl: real
    var termFreqs: seq<map<string, nat>>
    var docFreqs: map<string, nat>
    var idf: map<string, real>

    constructor ()
      ensures corpus == [] && n == 0 && docFreqs == map[] && idf == map[]
    {
      corpus, n, docLengths, avgdl, termFreqs, docFreqs, idf := [], 0, [], 0.0, [], map[], map[];
    }

    // The index describes the corpus.
    ghost predicate Describes(ln: real -> real)
      reads this
    {
      && n == |corpus| && AreIdfs(idf, corpus, ln) && AreDocumentFrequencies(docFreqs, corpus)
      && (n > 0 ==>
            && |docLengths| == n && |termFreqs| == n && avgdl == MeanLength(corpus)
            && forall i :: 0 <= i < n ==> docLengths[i] == |corpus[i]| && IsCount(termFreqs[i], corpus[i]))
    }

    // fit, on a new index.
    method Fit(documents: seq<string>, tokenize: string -> seq<string>, ln: real -> real)
      requires docFreqs == map[] && idf == map[]
      modifies this
      ensures Describes(ln) && corpus == Tokenized(documents, tokenize)
    {
      hide IsCount, MeanLength, Idf;
      corpus := Tokenized(documents, tokenize);
      n := |corpus|;
      if n == 0 { return; }
      docLengths := Lengths(corpus);
      avgdl := ComputeMean(corpus, docLengths);
      termFreqs, docFreqs := CountDocuments(corpus);
      idf := ComputeIdfs(corpus, docFreqs, ln);
    }

    // One document's score.
    method ScoreDocument(i: nat, query: seq<string>, ghost ln: real -> real) returns (score: real)
      requires Describes(ln) && i < n
      ensures score == DirectScore(corpus, corpus[i], query, ln)
    {
      hide MeanLength, Idf, DocumentFrequency, Saturation, TermFrequency;
      score := 0.0;
      for t := 0 to |query|
        invariant score == DirectScore(corpus, corpus[i], query[..t], ln)
      {
        assert query[..t + 1][..t] == query[..t];
        var token := query[t];
        if token in idf {
          var tf := if token in termFreqs[i] then termFreqs[i][token] else 0;
          NoTerm(corpus[i], token);
          var numerator := tf as real * (K1 + 1.0);
          SaturationIs(corpus, corpus[i]);
          var denominator := tf as real + K1 * (1.0 - B + B * docLengths[i] as real / avgdl);
          score := score + idf[token] * numerator / denominator;
        }
      }
      assert query[..|query|] == query;
    }

    // score, of the query's tokens.
    method Score(query: seq<string>, ghost ln: real -> real) returns (ranking: seq<Ranked>)
      requires Describes(ln)
      ensures n == 0 ==> ranking == []
      ensures n > 0 ==> ranking == Sorted(Scores(corpus, query, ln))
    {
      hide DirectScore, Sorted, MeanLength, IsCount, AreIdfs, AreDocumentFrequencies;
      var scores := [];
      for i := 0 to n
        invariant |scores| == i
        invariant forall k :: 0 <= k < i ==> scores[k] == DirectScore(corpus, corpus[k], query, ln)
      {
        var score := ScoreDocument(i, query, ln);
        scores := scores + [score];
      }
      assert n > 0 ==> scores == Scores(corpus, query, ln);
      NoneSorted();
      ranking := Sorted(scores);
    }
  }

  lemma NoTerm(doc: Document, word: string)
    ensures word !in doc ==> TermFrequency(doc, word) == 0
  {}

  lemma SaturationIs(corpus: Corpus, doc: Document)
    requires corpus != []
    ensures Saturation(corpus, doc) == K1 * (1.0 - B + B * |doc| as real / MeanLength(corpus))
    ensures Saturation(corpus, doc) > 0.0
  {}

  lemma NoneSorted()
    ensures Sorted([]) == []
  {}

  function Lengths(corpus: Corpus): (lengths: seq<nat>)
    ensures |lengths| == |corpus|
    ensures forall i :: 0 <= i < |corpus| ==> lengths[i] == |corpus[i]|
  {
    seq(|corpus|, i requires 0 <= i < |corpus| => |corpus[i]|)
  }

  function Tokenized(documents: seq<string>, tokenize: string -> seq<string>): (corpus: Corpus)
    ensures |corpus| == |documents|
  {
    seq(|documents|, i requires 0 <= i < |documents| => tokenize(documents[i]))
  }

  function Scores(corpus: Corpus, query: seq<string>, ln: real -> real): (scores: seq<real>)
    requires corpus != []
    ensures |scores| == |corpus|
  {
    seq(|corpus|, i requires 0 <= i < |corpus| => DirectScore(corpus, corpus[i], query, ln))
  }

  // ---------------------------------------------------------------- what the scores mean

  lemma {:induction false} FrequencyAtMostN(corpus: Corpus, word: string)
    ensures DocumentFrequency(corpus, word) <= |corpus|
  {
    if corpus != [] { FrequencyAtMostN(corpus[..|corpus| - 1], word); }
  }

  lemma {:induction false} FrequencyCounts(corpus: Corpus, word: string)
    ensures DocumentFrequency(corpus, word) > 0 <==> exists doc <- corpus :: word in doc
  {
    if corpus != [] {
      var n := |corpus| - 1;
      FrequencyCounts(corpus[..n], word);
      assert corpus == corpus[..n] + [corpus[n]];
    }
  }

  // Main result: a word is in at most all documents, so its idf is positive.
  lemma IdfPositive(corpus: Corpus, word: string, ln: real -> real)
    requires IsLogarithm(ln)
    ensures Idf(corpus, word, ln) > 0.0
  {
    FrequencyAtMostN(corpus, word);
    var f := DocumentFrequency(corpus, word) as real;
    QuotientPositive(|corpus| as real - f + 0.5, f + 0.5);
  }

  lemma QuotientPositive(x: real, y: real)
    requires x > 0.0 && y > 0.0
    ensures x / y > 0.0
  {}

  lemma QuotientBelow(idf: real, tf: real, s: real)
    requires idf > 0.0 && tf >= 0.0 && s > 0.0
    ensures 0.0 <= idf * (tf * (K1 + 1.0)) / (tf + s) < (K1 + 1.0) * idf
    ensures idf * (tf * (K1 + 1.0)) / (tf + s) > 0.0 <==> tf > 0.0
  {
    var top, bottom := idf * (tf * (K1 + 1.0)), tf + s;
    assert top == (K1 + 1.0) * (idf * tf);
    assert idf * tf >= 0.0 && (idf * tf > 0.0 <==> tf > 0.0);
    assert (K1 + 1.0) * idf * bottom - top == (K1 + 1.0) * (idf * s);
    assert idf * s > 0.0;
    assert top / bottom * bottom == top;
    assert (K1 + 1.0) * idf > top / bottom;
  }

  lemma TokenBounds(corpus: Corpus, doc: Document, token: string, ln: real -> real)
    requires IsLogarithm(ln) && doc in corpus
    ensures var s := TokenScore(corpus, doc, token, ln);
      && s >= 0.0 && (s > 0.0 <==> token in doc)
      && (DocumentFrequency(corpus, token) > 0 ==> s < (K1 + 1.0) * Idf(corpus, token, ln))
  {
    hide Idf, Saturation;
    FrequencyCounts(corpus, token);
    if DocumentFrequency(corpus, token) > 0 {
      IdfPositive(corpus, token, ln);
      var tf := TermFrequency(doc, token);
      assert tf > 0 <==> token in doc;
      QuotientBelow(Idf(corpus, token, ln), tf as real, Saturation(corpus, doc));
    }
  }

  // Main result: a score is positive exactly when the document contains a token of the query, and stays below (k1 + 1)
  // times the summed idf of the indexed tokens.
  lemma {:induction false} ScoreBounds(corpus: Corpus, doc: Document, query: seq<string>, ln: real -> real)
    requires IsLogarithm(ln) && doc in corpus
    ensures var s, bound := DirectScore(corpus, doc, query, ln), IdfSum(corpus, query, ln);
      && s >= 0.0 && (s > 0.0 <==> exists token <- query :: token in doc)
      && bound >= 0.0 && (bound > 0.0 <==> exists token <- query :: DocumentFrequency(corpus, token) > 0)
      && (if bound > 0.0 then s < (K1 + 1.0) * bound else s == 0.0)
    decreases |query|
  {
    hide TokenScore, Idf, DocumentFrequency;
    if query != [] {
      var n := |query| - 1;
      ScoreBounds(corpus, doc, query[..n], ln);
      TokenBounds(corpus, doc, query[n], ln);
      IdfPositive(corpus, query[n], ln);
      FrequencyCounts(corpus, query[n]);
      assert query == query[..n] + [query[n]];
    }
  }
}
