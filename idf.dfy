/** Document frequency, the smoothed inverse document frequency and the
    document score: `buildIdf` and `tfIdfScore` (api/generate.js:82-107).

    The natural logarithm is a parameter `ln`; the facts below need only
    that it is non-negative from 1 on and monotone there (LogLike). */
module Idf {
  import opened Terms

  /** What the proofs need of `Math.log`. */
  ghost predicate LogLike(ln: real -> real) {
    && (forall x: real :: 1.0 <= x ==> 0.0 <= ln(x))
    && (forall x: real, y: real :: 1.0 <= x <= y ==> ln(x) <= ln(y))
  }

  /** `new Set(tokens)`. */
  function Elements(tokens: seq<string>): set<string> {
    set t | t in tokens
  }

  /** Every token that occurs in some document. */
  function Vocabulary(docs: seq<seq<string>>): set<string>
    decreases |docs|
  {
    if docs == [] then {} else Vocabulary(docs[..|docs| - 1]) + Elements(docs[|docs| - 1])
  }

  /** The number of documents that contain `t` at least once: between 1 and
      the number of documents for a token of the vocabulary, 0 otherwise. */
  function DocFreq(docs: seq<seq<string>>, t: string): (d: nat)
    ensures d <= |docs|
    ensures d >= 1 <==> t in Vocabulary(docs)
    decreases |docs|
  {
    if docs == [] then 0
    else DocFreq(docs[..|docs| - 1], t) + (if t in docs[|docs| - 1] then 1 else 0)
  }

  /** `docsTokens.length || 1`. */
  function CorpusSize(docs: seq<seq<string>>): nat {
    if |docs| == 0 then 1 else |docs|
  }

  /** `Math.log((n + 1) / (d + 1)) + 1`. */
  function Weight(ln: real -> real, n: nat, d: nat): real {
    ln((n + 1) as real / (d + 1) as real) + 1.0
  }

  /** What `buildIdf(docsTokens)` holds: each token of the vocabulary mapped to
      the weight of its document frequency. */
  function IdfOf(ln: real -> real, docs: seq<seq<string>>): map<string, real> {
    map t | t in Vocabulary(docs) :: Weight(ln, CorpusSize(docs), DocFreq(docs, t))
  }

  lemma VocabularySnoc(docs: seq<seq<string>>, doc: seq<string>)
    ensures Vocabulary(docs + [doc]) == Vocabulary(docs) + Elements(doc)
    ensures forall t :: DocFreq(docs + [doc], t) == DocFreq(docs, t) + (if t in doc then 1 else 0)
  {
    assert (docs + [doc])[..|docs|] == docs;
  }

  /** `buildIdf`: count each token once per document, then weigh it. The
      iteration order over a `Set` or a `Map` does not change the result. */
  method BuildIdf(ln: real -> real, docsTokens: seq<seq<string>>) returns (idf: map<string, real>)
    ensures idf == IdfOf(ln, docsTokens)
  {
    var df: map<string, nat> := map[];
    for i := 0 to |docsTokens|
      invariant df.Keys == Vocabulary(docsTokens[..i])
      invariant forall t :: t in df ==> df[t] == DocFreq(docsTokens[..i], t)
    {
      ghost var prefix := docsTokens[..i];
      df := CountDocument(df, prefix, docsTokens[i]);
      assert docsTokens[..i + 1] == prefix + [docsTokens[i]];
      VocabularySnoc(prefix, docsTokens[i]);
    }
    assert docsTokens[..|docsTokens|] == docsTokens;
    var n := if |docsTokens| == 0 then 1 else |docsTokens|;
    idf := WeighAll(ln, n, df);
    IdfFromCounts(ln, docsTokens, df, idf);
  }

  /** The inner loop: one more document for each distinct token of `doc`. */
  method CountDocument(df: map<string, nat>, ghost prefix: seq<seq<string>>, doc: seq<string>)
    returns (df': map<string, nat>)
    requires df.Keys == Vocabulary(prefix)
    requires forall t :: t in df ==> df[t] == DocFreq(prefix, t)
    ensures df'.Keys == Vocabulary(prefix) + Elements(doc)
    ensures forall t :: t in df' ==> df'[t] == DocFreq(prefix, t) + (if t in doc then 1 else 0)
  {
    df' := df;
    var unique := Elements(doc);
    var remaining := unique;
    while remaining != {}
      invariant remaining <= unique
      invariant df'.Keys == Vocabulary(prefix) + (unique - remaining)
      invariant forall t :: t in df' ==> df'[t] == DocFreq(prefix, t) + (if t in unique - remaining then 1 else 0)
      decreases remaining
    {
      var t :| t in remaining;
      df' := df'[t := (if t in df' then df'[t] else 0) + 1];
      remaining := remaining - {t};
    }
  }

  /** The second loop: each counted token mapped to its weight. */
  method WeighAll(ln: real -> real, n: nat, df: map<string, nat>) returns (idf: map<string, real>)
    ensures idf.Keys == df.Keys
    ensures forall t :: t in idf ==> idf[t] == Weight(ln, n, df[t])
  {
    idf := map[];
    var keys := df.Keys;
    while keys != {}
      invariant keys <= df.Keys
      invariant idf.Keys == df.Keys - keys
      invariant forall t :: t in idf ==> idf[t] == Weight(ln, n, df[t])
      decreases keys
    {
      var t :| t in keys;
      idf := idf[t := Weight(ln, n, df[t])];
      keys := keys - {t};
    }
  }

  lemma IdfFromCounts(ln: real -> real, docs: seq<seq<string>>, df: map<string, nat>, idf: map<string, real>)
    requires df.Keys == Vocabulary(docs) && forall t :: t in df ==> df[t] == DocFreq(docs, t)
    requires idf.Keys == df.Keys && forall t :: t in idf ==> idf[t] == Weight(ln, CorpusSize(docs), df[t])
    ensures idf == IdfOf(ln, docs)
  {
  }

  lemma QuotientAtLeastOne(a: real, b: real)
    requires 0.0 < b <= a
    ensures a / b >= 1.0
  {
  }

  lemma QuotientAntitone(a: real, b1: real, b2: real)
    requires 0.0 < a && 0.0 < b1 <= b2
    ensures a / b1 >= a / b2
  {
  }

  /** A weight is at least 1, whatever the document frequency up to N. */
  lemma WeightAtLeastOne(ln: real -> real, n: nat, d: nat)
    requires LogLike(ln) && d <= n
    ensures Weight(ln, n, d) >= 1.0
  {
    QuotientAtLeastOne((n + 1) as real, (d + 1) as real);
  }

  /** A token found in more documents never weighs more. */
  lemma WeightAntitone(ln: real -> real, n: nat, d1: nat, d2: nat)
    requires LogLike(ln) && d1 <= d2 <= n
    ensures Weight(ln, n, d1) >= Weight(ln, n, d2)
  {
    QuotientAtLeastOne((n + 1) as real, (d2 + 1) as real);
    QuotientAntitone((n + 1) as real, (d1 + 1) as real, (d2 + 1) as real);
  }

  /** Every weight `buildIdf` stores is at least 1, and a token found in
      more documents weighs no more than a rarer one. */
  lemma IdfSpec(ln: real -> real, docs: seq<seq<string>>)
    requires LogLike(ln)
    ensures forall t :: t in IdfOf(ln, docs) ==> IdfOf(ln, docs)[t] >= 1.0
    ensures forall t, u :: (t in IdfOf(ln, docs) && u in IdfOf(ln, docs) && DocFreq(docs, t) <= DocFreq(docs, u)
                            ==> IdfOf(ln, docs)[t] >= IdfOf(ln, docs)[u])
  {
    var n := CorpusSize(docs);
    forall t | t in IdfOf(ln, docs) ensures IdfOf(ln, docs)[t] >= 1.0 {
      WeightAtLeastOne(ln, n, DocFreq(docs, t));
    }
    forall t, u | t in IdfOf(ln, docs) && u in IdfOf(ln, docs) && DocFreq(docs, t) <= DocFreq(docs, u)
      ensures IdfOf(ln, docs)[t] >= IdfOf(ln, docs)[u]
    {
      WeightAntitone(ln, n, DocFreq(docs, t), DocFreq(docs, u));
    }
  }

  // ---------------------------------------------------------------------
  // Document score

  /** `(1 + Math.log(qCount)) * (1 + Math.log(dCount)) * w`. */
  function Contribution(ln: real -> real, q: nat, d: nat, w: real): real {
    (1.0 + ln(q as real)) * (1.0 + ln(d as real)) * w
  }

  /** `idf.get(t) || 1`. */
  function WeightOrOne(idf: map<string, real>, t: string): real {
    if t in idf && idf[t] != 0.0 then idf[t] else 1.0
  }

  /** The score after the loop of `tfIdfScore` has visited `keys`. */
  function Similarity(ln: real -> real, keys: seq<string>, query: TermCounts, doc: TermCounts,
                      idf: map<string, real>): real
    decreases |keys|
  {
    if keys == [] then 0.0
    else
      var t := keys[|keys| - 1];
      var rest := Similarity(ln, keys[..|keys| - 1], query, doc, idf);
      if Get(doc, t) == 0 then rest
      else rest + Contribution(ln, Get(query, t), Get(doc, t), WeightOrOne(idf, t))
  }

  /** `tfIdfScore`: visit the query's terms in insertion order, adding the
      contribution of each term that the document contains. */
  method TfIdfScore(ln: real -> real, queryTf: TermCounts, docTf: TermCounts, idf: map<string, real>)
    returns (score: real)
    ensures score == Similarity(ln, queryTf.order, queryTf, docTf, idf)
  {
    score := 0.0;
    for i := 0 to |queryTf.order|
      invariant score == Similarity(ln, queryTf.order[..i], queryTf, docTf, idf)
    {
      var t := queryTf.order[i];
      assert queryTf.order[..i + 1][..i] == queryTf.order[..i];
      var dCount := Get(docTf, t);
      if dCount == 0 {
        continue;
      }
      var w := WeightOrOne(idf, t);
      score := score + Contribution(ln, Get(queryTf, t), dCount, w);
    }
    assert queryTf.order[..|queryTf.order|] == queryTf.order;
  }

  lemma ProductAtLeastOne(a: real, b: real, c: real)
    requires a >= 1.0 && b >= 1.0 && c >= 1.0
    ensures a * b * c >= 1.0
  {
    assert a * b >= 1.0 by {
      assert a * b - 1.0 == (a - 1.0) * b + (b - 1.0);
    }
    assert a * b * c - 1.0 == (a * b - 1.0) * c + (c - 1.0);
  }

  /** A term the document contains adds a positive amount to the score. */
  lemma ContributionPositive(ln: real -> real, q: nat, d: nat, w: real)
    requires LogLike(ln) && q >= 1 && d >= 1 && w >= 1.0
    ensures Contribution(ln, q, d, w) >= 1.0
  {
    var a := 1.0 + ln(q as real);
    var b := 1.0 + ln(d as real);
    assert a >= 1.0 && b >= 1.0 by {
      assert 1.0 <= q as real && 1.0 <= d as real;
    }
    ProductAtLeastOne(a, b, w);
    assert Contribution(ln, q, d, w) == a * b * w;
  }

  lemma {:induction false} SimilaritySign(ln: real -> real, keys: seq<string>, query: TermCounts,
                                          doc: TermCounts, idf: map<string, real>)
    requires LogLike(ln)
    requires forall t :: t in idf ==> idf[t] >= 1.0
    requires forall i :: 0 <= i < |keys| ==> Get(query, keys[i]) >= 1
    ensures Similarity(ln, keys, query, doc, idf) >= 0.0
    ensures Similarity(ln, keys, query, doc, idf) > 0.0 <==> exists t :: t in keys && Get(doc, t) > 0
    decreases |keys|
  {
    if keys != [] {
      var t := keys[|keys| - 1];
      var init := keys[..|keys| - 1];
      SimilaritySign(ln, init, query, doc, idf);
      assert keys == init + [t];
      if Get(doc, t) > 0 {
        ContributionPositive(ln, Get(query, t), Get(doc, t), WeightOrOne(idf, t));
      }
    }
  }

  /** A document scores 0 when it shares no token with the query and a
      positive amount when it shares at least one. */
  lemma ScoreSign(ln: real -> real, queryTokens: seq<string>, docTokens: seq<string>, idf: map<string, real>)
    requires LogLike(ln)
    requires forall t :: t in idf ==> idf[t] >= 1.0
    ensures var q := Counts(queryTokens);
      var s := Similarity(ln, q.order, q, Counts(docTokens), idf);
      s >= 0.0 && (s > 0.0 <==> exists t :: t in queryTokens && t in docTokens)
  {
    var q := Counts(queryTokens);
    CountsSpec(queryTokens);
    CountsSpec(docTokens);
    assert forall i :: 0 <= i < |q.order| ==> q.order[i] in q.count;
    SimilaritySign(ln, q.order, q, Counts(docTokens), idf);
  }
}
