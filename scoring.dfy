/** Paragraph scoring: `scoreParagraphs` (api/generate.js:109-124). A
    paragraph scores the number of its tokens that are query terms; only
    paragraphs that score are kept, best first. */
module Scoring {
  import opened Text
  import opened Terms
  import opened Idf
  import opened Ranking

  /** `{ text, hits }`. */
  datatype ScoredParagraph = ScoredParagraph(text: string, hits: nat)

  function HitsKey(p: ScoredParagraph): real {
    p.hits as real
  }

  /** The paragraph score: `pTf.get(t) || 0` summed over the listed query
      terms. */
  function Hits(keys: seq<string>, ptf: TermCounts): nat
    decreases |keys|
  {
    if keys == [] then 0 else Hits(keys[..|keys| - 1], ptf) + Get(ptf, keys[|keys| - 1])
  }

  /** What one pass of the loop pushes for paragraph `p`. */
  function Entry(query: TermCounts, p: string): seq<ScoredParagraph> {
    var tokens := Tokenize(p);
    if tokens == [] then []
    else
      var hits := Hits(query.order, Counts(tokens));
      if hits > 0 then [ScoredParagraph(Trim(p), hits)] else []
  }

  /** The list the loop builds, before it is sorted. */
  function HitList(query: TermCounts, ps: seq<string>): seq<ScoredParagraph>
    decreases |ps|
  {
    if ps == [] then [] else HitList(query, ps[..|ps| - 1]) + Entry(query, ps[|ps| - 1])
  }

  /** What `scoreParagraphs` returns. */
  function RankParagraphs(query: TermCounts, ps: seq<string>): seq<ScoredParagraph> {
    SortDesc(HitList(query, ps), HitsKey)
  }

  /** `scoreParagraphs`: tokenize and count each paragraph, sum its query
      term counts, keep it when the sum is positive, then sort by the sum,
      best first and stable. */
  method ScoreParagraphs(queryTf: TermCounts, paragraphs: seq<string>) returns (scored: seq<ScoredParagraph>)
    ensures scored == RankParagraphs(queryTf, paragraphs)
  {
    scored := [];
    for i := 0 to |paragraphs|
      invariant scored == HitList(queryTf, paragraphs[..i])
    {
      HitListSnoc(queryTf, paragraphs, i);
      var entry := ScoreParagraph(queryTf, paragraphs[i]);
      scored := scored + entry;
    }
    assert paragraphs[..|paragraphs|] == paragraphs;
    scored := SortDesc(scored, HitsKey);
  }

  /** One pass of the loop of `scoreParagraphs`: what it pushes for `p`. */
  method ScoreParagraph(queryTf: TermCounts, p: string) returns (entry: seq<ScoredParagraph>)
    ensures entry == Entry(queryTf, p)
  {
    var tokens := Tokenize(p);
    if tokens == [] {
      return [];
    }
    var pTf := TermFreq(tokens);
    var hits := SumHits(queryTf.order, pTf);
    entry := if hits > 0 then [ScoredParagraph(Trim(p), hits)] else [];
  }

  /** The inner loop: the paragraph's counts of the query terms, summed. */
  method SumHits(keys: seq<string>, pTf: TermCounts) returns (hits: nat)
    ensures hits == Hits(keys, pTf)
  {
    hits := 0;
    for j := 0 to |keys|
      invariant hits == Hits(keys[..j], pTf)
    {
      assert keys[..j + 1][..j] == keys[..j];
      hits := hits + Get(pTf, keys[j]);
    }
    assert keys[..|keys|] == keys;
  }

  lemma HitListSnoc(query: TermCounts, ps: seq<string>, i: nat)
    requires i < |ps|
    ensures HitList(query, ps[..i + 1]) == HitList(query, ps[..i]) + Entry(query, ps[i])
  {
    assert ps[..i + 1][..i] == ps[..i];
  }

  // ---------------------------------------------------------------------
  // What the score means

  /** The number of elements of `ts` that belong to `terms`. */
  function CountIn(ts: seq<string>, terms: set<string>): nat
    decreases |ts|
  {
    if ts == [] then 0 else (if ts[0] in terms then 1 else 0) + CountIn(ts[1..], terms)
  }

  lemma {:induction false} CountInAdd(ts: seq<string>, terms: set<string>, t: string)
    requires t !in terms
    ensures CountIn(ts, terms + {t}) == CountIn(ts, terms) + multiset(ts)[t]
    decreases |ts|
  {
    if ts != [] {
      CountInAdd(ts[1..], terms, t);
      assert ts == [ts[0]] + ts[1..];
    }
  }

  lemma {:induction false} CountInPositive(ts: seq<string>, terms: set<string>)
    ensures CountIn(ts, terms) > 0 <==> exists i :: 0 <= i < |ts| && ts[i] in terms
    decreases |ts|
  {
    if ts != [] {
      CountInPositive(ts[1..], terms);
      assert forall i :: 1 <= i < |ts| ==> ts[i] == ts[1..][i - 1];
    }
  }

  /** Summing the counts of distinct terms counts the tokens that are one of
      those terms. */
  lemma {:induction false} HitsCountIn(keys: seq<string>, ts: seq<string>)
    requires NoDuplicates(keys)
    ensures Hits(keys, Counts(ts)) == CountIn(ts, Elements(keys))
    decreases |keys|
  {
    if keys == [] {
      assert Elements(keys) == {};
      CountInPositive(ts, {});
    } else {
      var init, t := keys[..|keys| - 1], keys[|keys| - 1];
      HitsCountIn(init, ts);
      assert keys == init + [t];
      assert Elements(keys) == Elements(init) + {t};
      assert t !in Elements(init);
      CountInAdd(ts, Elements(init), t);
      CountsSpec(ts);
    }
  }

  /** The score of a paragraph is the number of its tokens that occur in the
      query: it counts repeated paragraph tokens, and each query term once. */
  lemma HitsMeaning(queryTokens: seq<string>, ts: seq<string>)
    ensures Hits(Counts(queryTokens).order, Counts(ts)) == CountIn(ts, Elements(queryTokens))
  {
    var order := Counts(queryTokens).order;
    HitsCountIn(order, ts);
    assert Elements(order) == Elements(queryTokens);
  }

  /** Reference definition: the paragraphs that share a term with the query,
      trimmed, each with the number of its tokens that are query terms, in
      paragraph order. */
  function Matching(queryTokens: seq<string>, ps: seq<string>): seq<ScoredParagraph>
    decreases |ps|
  {
    if ps == [] then []
    else
      var p := ps[|ps| - 1];
      var n := CountIn(Tokenize(p), Elements(queryTokens));
      Matching(queryTokens, ps[..|ps| - 1]) + (if n > 0 then [ScoredParagraph(Trim(p), n)] else [])
  }

  /** One of the paragraph's tokens is a query term. */
  predicate SharesToken(queryTokens: seq<string>, p: string) {
    exists i :: 0 <= i < |Tokenize(p)| && Tokenize(p)[i] in queryTokens
  }

  /** No paragraph of `ps` shares a token with the query. */
  predicate NoneShares(queryTokens: seq<string>, ps: seq<string>)
    decreases |ps|
  {
    ps == [] || (NoneShares(queryTokens, ps[..|ps| - 1]) && !SharesToken(queryTokens, ps[|ps| - 1]))
  }

  lemma NoneSharesSpec(queryTokens: seq<string>, ps: seq<string>)
    ensures NoneShares(queryTokens, ps) <==> forall i :: 0 <= i < |ps| ==> !SharesToken(queryTokens, ps[i])
  {
    var shares := p => SharesToken(queryTokens, p);
    NoneSharesIsNoneOf(queryTokens, ps);
    NoneOfSpec(shares, ps);
    assert forall i :: 0 <= i < |ps| ==> shares(ps[i]) == SharesToken(queryTokens, ps[i]);
  }

  lemma {:induction false} NoneSharesIsNoneOf(queryTokens: seq<string>, ps: seq<string>)
    ensures NoneShares(queryTokens, ps) == NoneOf(p => SharesToken(queryTokens, p), ps)
    decreases |ps|
  {
    if ps != [] {
      NoneSharesIsNoneOf(queryTokens, ps[..|ps| - 1]);
    }
  }

  predicate NoneOf<T>(f: T -> bool, xs: seq<T>)
    decreases |xs|
  {
    xs == [] || (NoneOf(f, xs[..|xs| - 1]) && !f(xs[|xs| - 1]))
  }

  lemma {:induction false} NoneOfSpec<T>(f: T -> bool, xs: seq<T>)
    ensures NoneOf(f, xs) <==> forall i :: 0 <= i < |xs| ==> !f(xs[i])
    decreases |xs|
  {
    if xs != [] {
      var init := xs[..|xs| - 1];
      NoneOfSpec(f, init);
      assert forall i :: 0 <= i < |init| ==> init[i] == xs[i];
    }
  }

  /** No paragraph is kept exactly when none shares a token with the
      query. */
  lemma {:induction false} MatchingEmpty(queryTokens: seq<string>, ps: seq<string>)
    ensures Matching(queryTokens, ps) == [] <==> NoneShares(queryTokens, ps)
    decreases |ps|
  {
    if ps != [] {
      var init, p := ps[..|ps| - 1], ps[|ps| - 1];
      MatchingEmpty(queryTokens, init);
      CountInShares(queryTokens, p);
    }
  }

  lemma CountInShares(queryTokens: seq<string>, p: string)
    ensures CountIn(Tokenize(p), Elements(queryTokens)) > 0 <==> SharesToken(queryTokens, p)
  {
    CountInPositive(Tokenize(p), Elements(queryTokens));
  }

  /** The loop keeps exactly the matching paragraphs (the skip of paragraphs
      without tokens changes nothing: they have no hits). */
  lemma {:induction false} HitListMatching(queryTokens: seq<string>, ps: seq<string>)
    ensures HitList(Counts(queryTokens), ps) == Matching(queryTokens, ps)
    decreases |ps|
  {
    if ps != [] {
      HitListMatching(queryTokens, ps[..|ps| - 1]);
      HitsMeaning(queryTokens, Tokenize(ps[|ps| - 1]));
    }
  }

  /** Every kept paragraph shares a term with the query, is trimmed and
      non-blank; a paragraph sharing a term is kept. */
  lemma {:induction false} MatchingSpec(queryTokens: seq<string>, ps: seq<string>)
    ensures |Matching(queryTokens, ps)| <= |ps|
    ensures forall e :: e in Matching(queryTokens, ps) ==>
      e.hits > 0 && e.text != [] && IsTrimmed(e.text)
    decreases |ps|
  {
    if ps != [] {
      var p := ps[|ps| - 1];
      MatchingSpec(queryTokens, ps[..|ps| - 1]);
      var n := CountIn(Tokenize(p), Elements(queryTokens));
      if n > 0 {
        assert Tokenize(p) != [];
        BlankHasNoTokens(p);
      }
    }
  }

  /** A blank paragraph has no tokens. */
  lemma BlankHasNoTokens(p: string)
    ensures AllSpace(p) ==> Tokenize(p) == []
  {
    if AllSpace(p) {
      TokenizeIgnoresNormalization(p);
      assert AllSpace(Clean(p));
      WordsDropLeading(Clean(p), []);
      assert Clean(p) + [] == Clean(p);
    }
  }

  /** A paragraph is kept exactly when one of its tokens is a query term. */
  lemma MatchingKeeps(queryTokens: seq<string>, p: string)
    ensures Matching(queryTokens, [p]) != [] <==>
      exists i :: 0 <= i < |Tokenize(p)| && Tokenize(p)[i] in queryTokens
  {
    assert [p][..0] == [];
    CountInPositive(Tokenize(p), Elements(queryTokens));
  }

  /** What `scoreParagraphs` returns: the matching paragraphs, best first,
      equal scores in paragraph order, each paragraph once. */
  lemma RankParagraphsSpec(queryTokens: seq<string>, ps: seq<string>)
    ensures RankParagraphs(Counts(queryTokens), ps) == SortDesc(Matching(queryTokens, ps), HitsKey)
    ensures StablySorted(RankParagraphs(Counts(queryTokens), ps), Matching(queryTokens, ps), HitsKey)
    ensures multiset(RankParagraphs(Counts(queryTokens), ps)) == multiset(Matching(queryTokens, ps))
  {
    HitListMatching(queryTokens, ps);
    SortDescSpec(Matching(queryTokens, ps), HitsKey);
  }
}
