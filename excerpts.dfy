/** Retrieval of voice examples: `buildExcerpts` (api/generate.js:126-171).
    Documents are scored against the query, the best are kept, and from
    each the best two paragraphs become one "Source: <title>" chunk, as long
    as the chunks fit in a character budget. */
module Excerpts {
  import opened Text
  import opened Paragraphs
  import opened Terms
  import opened Idf
  import opened Ranking
  import opened Scoring
  import opened Corpus

  /** `{ ...doc, score }`. */
  datatype ScoredDoc = ScoredDoc(doc: Document, score: real)

  function ScoreKey(d: ScoredDoc): real {
    d.score
  }

  // ---------------------------------------------------------------------
  // Body of one chunk

  predicate NotBlank(t: string) {
    Trim(t) != []
  }

  /** `filter((p) => p.text.trim().length > 0)` on the texts. */
  function NonBlank(texts: seq<string>): (r: seq<string>)
    ensures forall i :: 0 <= i < |r| ==> Trim(r[i]) != [] && r[i] in texts
  {
    Filter(NotBlank, texts)
  }

  /** The filter keeps the non-blank texts in their order: it works piece
      by piece, and a single text is kept exactly when it is not blank. */
  lemma NonBlankConcat(a: seq<string>, b: seq<string>)
    ensures NonBlank(a + b) == NonBlank(a) + NonBlank(b)
  {
    FilterConcat(NotBlank, a, b);
  }

  lemma NonBlankSingle(x: string)
    ensures NonBlank([x]) == if Trim(x) != [] then [x] else []
  {
    FilterSingle(NotBlank, x);
  }

  function TrimAll(texts: seq<string>): (r: seq<string>)
    ensures |r| == |texts|
  {
    seq(|texts|, i requires 0 <= i < |texts| => Trim(texts[i]))
  }

  function Texts(scored: seq<ScoredParagraph>): (r: seq<string>)
    ensures |r| == |scored|
  {
    seq(|scored|, i requires 0 <= i < |scored| => scored[i].text)
  }

  /** The selected paragraphs (api/generate.js:154-157): the first two
      non-blank texts of the ranked paragraphs, or of all paragraphs when
      none scored, trimmed. */
  function SelectBody(paragraphs: seq<string>, scored: seq<ScoredParagraph>): seq<string> {
    var candidates := if scored != [] then Texts(scored) else paragraphs;
    TrimAll(Take(NonBlank(candidates), 2))
  }

  /** The header, a line break and the paragraphs separated by a blank line,
      trimmed. */
  function Chunk(title: string, body: seq<string>): string {
    Trim(ChunkText(title, body))
  }

  function ChunkText(title: string, body: seq<string>): string {
    "Source: " + title + "\n" + Join(body, "\n\n")
  }

  /** The chunk built for one selected document. */
  function DocChunk(query: TermCounts, doc: Document): string {
    var paragraphs := Split(NormalizeText(doc.content));
    Chunk(doc.title, SelectBody(paragraphs, RankParagraphs(query, paragraphs)))
  }

  /** `doc => DocChunk(query, doc)`. */
  function ChunkOf(query: TermCounts): Document -> string {
    doc => DocChunk(query, doc)
  }

  /** The chunk of every document, in order. */
  function MapChunks(chunkOf: Document -> string, docs: seq<ScoredDoc>): (r: seq<string>)
    ensures |r| == |docs|
  {
    seq(|docs|, i requires 0 <= i < |docs| => chunkOf(docs[i].doc))
  }

  // ---------------------------------------------------------------------
  // Budget

  /** What the chunks use of the budget: their lengths plus 2 each. */
  function Cost(chunks: seq<string>): nat
    decreases |chunks|
  {
    if chunks == [] then 0 else |chunks[0]| + 2 + Cost(chunks[1..])
  }

  /** The chunks kept by the loop of api/generate.js:150-168, starting with
      `used` characters spent: each is kept while it fits, and the first one
      that does not fit ends the loop. */
  function Budget(chunks: seq<string>, used: int, maxChars: int): seq<string>
    decreases |chunks|
  {
    if chunks == [] || used + |chunks[0]| + 2 > maxChars then []
    else [chunks[0]] + Budget(chunks[1..], used + |chunks[0]| + 2, maxChars)
  }

  // ---------------------------------------------------------------------
  // The whole retrieval

  /** `docs.map((d) => tokenize(d.content))`. */
  function DocsTokens(docs: seq<Document>): (r: seq<seq<string>>)
    ensures |r| == |docs|
  {
    seq(|docs|, i requires 0 <= i < |docs| => Tokenize(docs[i].content))
  }

  /** Every document with its score against the query, in corpus order,
      given the documents' tokens and the weights. */
  function ScoreWith(ln: real -> real, query: TermCounts, docs: seq<Document>, docsTokens: seq<seq<string>>,
                     idf: map<string, real>): (r: seq<ScoredDoc>)
    requires |docsTokens| == |docs|
    ensures |r| == |docs|
  {
    seq(|docs|, i requires 0 <= i < |docs| =>
      ScoredDoc(docs[i], Similarity(ln, query.order, query, Counts(docsTokens[i]), idf)))
  }

  /** Every document with its score, in corpus order. */
  function ScoreDocs(ln: real -> real, query: TermCounts, docs: seq<Document>): (r: seq<ScoredDoc>)
    ensures |r| == |docs|
  {
    ScoreWith(ln, query, docs, DocsTokens(docs), IdfOf(ln, DocsTokens(docs)))
  }

  /** The documents the excerpts are taken from. */
  function Selected(ln: real -> real, query: TermCounts, docs: seq<Document>, maxDocs: nat): seq<ScoredDoc> {
    Rank(ScoreDocs(ln, query, docs), ScoreKey, maxDocs)
  }

  /** What `buildExcerpts` returns. */
  function ExcerptsFor(ln: real -> real, queryText: string, docs: seq<Document>, maxDocs: nat, maxChars: int): seq<string> {
    var query := Counts(Tokenize(queryText));
    Budget(MapChunks(ChunkOf(query), Selected(ln, query, docs, maxDocs)), 0, maxChars)
  }

  /** `buildExcerpts`: score every document, rank them, then build and
      collect one chunk per selected document until the budget is spent. */
  method BuildExcerpts(ln: real -> real, queryText: string, docs: seq<Document>, maxDocs: nat, maxChars: int)
    returns (excerpts: seq<string>)
    ensures excerpts == ExcerptsFor(ln, queryText, docs, maxDocs, maxChars)
  {
    var queryTokens := Tokenize(queryText);
    var queryTf := TermFreq(queryTokens);
    var docsTokens := DocsTokens(docs);
    var idf := BuildIdf(ln, docsTokens);
    var scored := ScoreAll(ln, queryTf, docs, docsTokens, idf);
    var ranked := SortDesc(scored, ScoreKey);
    var scoredDocs := SelectTop(ranked, ScoreKey, maxDocs);
    excerpts := Collect(queryTf, scoredDocs, maxChars);
  }

  /** The scoring `map` of `buildExcerpts` (api/generate.js:133-138). */
  method ScoreAll(ln: real -> real, queryTf: TermCounts, docs: seq<Document>, docsTokens: seq<seq<string>>,
                  idf: map<string, real>) returns (scored: seq<ScoredDoc>)
    requires |docsTokens| == |docs|
    ensures scored == ScoreWith(ln, queryTf, docs, docsTokens, idf)
  {
    scored := [];
    for i := 0 to |docs|
      invariant scored == ScoreWith(ln, queryTf, docs, docsTokens, idf)[..i]
    {
      var docTf := TermFreq(docsTokens[i]);
      var score := TfIdfScore(ln, queryTf, docTf, idf);
      scored := scored + [ScoredDoc(docs[i], score)];
    }
  }

  /** One document's chunk computed step by step (api/generate.js:151-161),
      with the paragraph scoring done by `ScoreParagraphs`. */
  method MakeChunk(queryTf: TermCounts, doc: Document) returns (chunk: string)
    ensures chunk == DocChunk(queryTf, doc)
  {
    var paragraphs := Split(NormalizeText(doc.content));
    var scoredParas := ScoreParagraphs(queryTf, paragraphs);
    var selectedParas := SelectBody(paragraphs, scoredParas);
    chunk := Chunk(doc.title, selectedParas);
  }

  /** The collecting loop of `buildExcerpts` (api/generate.js:147-170): each
      selected document's chunk is built by `MakeChunk` and kept while the
      running total of chunk lengths plus 2 stays within `maxChars`; the
      first chunk that does not fit ends the loop. */
  method Collect(queryTf: TermCounts, scoredDocs: seq<ScoredDoc>, maxChars: int) returns (excerpts: seq<string>)
    ensures excerpts == Budget(MapChunks(ChunkOf(queryTf), scoredDocs), 0, maxChars)
  {
    ghost var chunks := MapChunks(ChunkOf(queryTf), scoredDocs);
    ghost var target := Budget(chunks, 0, maxChars);
    excerpts := [];
    var used := 0;
    var i := 0;
    CollectStart(chunks, maxChars);
    while i < |scoredDocs|
      invariant 0 <= i <= |scoredDocs|
      invariant excerpts + Budget(chunks[i..], used, maxChars) == target
    {
      var chunk := NextChunk(queryTf, scoredDocs, i);
      CollectStep(chunks, i, excerpts, used, maxChars, chunk, target);
      if used + |chunk| + 2 > maxChars {
        break;
      }
      excerpts := excerpts + [chunk];
      used := used + |chunk| + 2;
      i := i + 1;
    }
    CollectDone(chunks, i, excerpts, used, maxChars, target);
  }

  /** The chunk of the `i`-th selected document (api/generate.js:150-161),
      built by `MakeChunk`. */
  method NextChunk(queryTf: TermCounts, scoredDocs: seq<ScoredDoc>, i: nat) returns (chunk: string)
    requires i < |scoredDocs|
    ensures chunk == MapChunks(ChunkOf(queryTf), scoredDocs)[i]
  {
    chunk := MakeChunk(queryTf, scoredDocs[i].doc);
  }

  lemma CollectStart(chunks: seq<string>, maxChars: int)
    ensures [] + Budget(chunks[0..], 0, maxChars) == Budget(chunks, 0, maxChars)
  {
    assert chunks[0..] == chunks;
  }

  lemma CollectStep(chunks: seq<string>, i: nat, excerpts: seq<string>, used: int, maxChars: int, chunk: string,
                    target: seq<string>)
    requires i < |chunks| && chunk == chunks[i]
    requires excerpts + Budget(chunks[i..], used, maxChars) == target
    ensures used + |chunk| + 2 > maxChars ==> excerpts == target
    ensures used + |chunk| + 2 <= maxChars ==>
      (excerpts + [chunk]) + Budget(chunks[i + 1..], used + |chunk| + 2, maxChars) == target
  {
    BudgetStep(chunks, i, used, maxChars);
    if used + |chunk| + 2 > maxChars {
      assert excerpts + [] == excerpts;
    } else {
      var rest := Budget(chunks[i + 1..], used + |chunk| + 2, maxChars);
      assert excerpts + ([chunk] + rest) == (excerpts + [chunk]) + rest;
    }
  }

  lemma CollectDone(chunks: seq<string>, i: nat, excerpts: seq<string>, used: int, maxChars: int, target: seq<string>)
    requires i <= |chunks|
    requires excerpts + Budget(chunks[i..], used, maxChars) == target
    requires i == |chunks| || excerpts == target
    ensures excerpts == target
  {
    BudgetStep(chunks, i, used, maxChars);
    assert excerpts + [] == excerpts;
  }

  lemma BudgetStep(chunks: seq<string>, i: nat, used: int, maxChars: int)
    requires i <= |chunks|
    ensures i == |chunks| ==> Budget(chunks[i..], used, maxChars) == []
    ensures i < |chunks| ==> (Budget(chunks[i..], used, maxChars) ==
      if used + |chunks[i]| + 2 > maxChars then []
      else [chunks[i]] + Budget(chunks[i + 1..], used + |chunks[i]| + 2, maxChars))
  {
    if i < |chunks| {
      assert chunks[i..][1..] == chunks[i + 1..];
    }
  }

  // ---------------------------------------------------------------------
  // Properties

  /** The budget keeps a prefix of the chunks that fits, and stops at the
      first chunk that does not fit even if a later, shorter one would. */
  lemma {:induction false} BudgetSpec(chunks: seq<string>, used: int, maxChars: int)
    ensures Budget(chunks, used, maxChars) <= chunks
    ensures Budget(chunks, used, maxChars) != [] ==> used + Cost(Budget(chunks, used, maxChars)) <= maxChars
    ensures var r := Budget(chunks, used, maxChars);
      |r| < |chunks| ==> used + Cost(r) + |chunks[|r|]| + 2 > maxChars
    decreases |chunks|
  {
    if chunks != [] && used + |chunks[0]| + 2 <= maxChars {
      BudgetSpec(chunks[1..], used + |chunks[0]| + 2, maxChars);
    }
  }

  /** Every chunk starts with the header, so it is never empty and the
      loop's skip of empty chunks never applies. */
  lemma ChunkHeader(title: string, body: seq<string>)
    ensures |Chunk(title, body)| >= 7 && Chunk(title, body)[..7] == "Source:"
  {
    var s := ChunkText(title, body);
    assert s[..7] == "Source:";
    assert !IsSpace(s[0]) && !IsSpace(s[6]);
    TrimBounds(s);
  }

  /** When the body is not empty and its paragraphs are trimmed, the chunk
      is exactly the header, a line break and the paragraphs separated by a
      blank line. */
  lemma ChunkLayout(title: string, body: seq<string>)
    requires body != []
    requires forall i :: 0 <= i < |body| ==> body[i] != [] && IsTrimmed(body[i])
    ensures Chunk(title, body) == "Source: " + title + "\n" + Join(body, "\n\n")
  {
    var last := body[|body| - 1];
    assert last != [] && IsTrimmed(last);
    JoinLast(body, "\n\n");
    TrimmedText(title, Join(body, "\n\n"));
  }

  lemma TrimmedText(title: string, j: string)
    requires j != [] && !IsSpace(j[|j| - 1])
    ensures IsTrimmed("Source: " + title + "\n" + j)
  {
    var h := "Source: " + title + "\n";
    assert h[0] == 'S';
    var s := h + j;
    assert s[0] == 'S';
    assert s[|s| - 1] == j[|j| - 1];
  }

  lemma {:induction false} TrimAllIdentity(texts: seq<string>)
    requires forall i :: 0 <= i < |texts| ==> IsTrimmed(texts[i])
    ensures TrimAll(texts) == texts
  {
  }

  lemma NonBlankIdentity(texts: seq<string>)
    requires forall i :: 0 <= i < |texts| ==> texts[i] != [] && IsTrimmed(texts[i])
    ensures NonBlank(texts) == texts
  {
    FilterAll(NotBlank, texts);
  }


  /** The body holds at most two paragraphs, each trimmed and non-blank. */
  lemma SelectBodySpec(paragraphs: seq<string>, scored: seq<ScoredParagraph>)
    ensures |SelectBody(paragraphs, scored)| <= 2
    ensures forall i :: 0 <= i < |SelectBody(paragraphs, scored)| ==>
      SelectBody(paragraphs, scored)[i] != [] && IsTrimmed(SelectBody(paragraphs, scored)[i])
  {
  }

  /** The ranked paragraphs are trimmed and non-blank. */
  lemma RankedTextsTrimmed(queryTokens: seq<string>, paragraphs: seq<string>)
    ensures var texts := Texts(RankParagraphs(Counts(queryTokens), paragraphs));
      forall i :: 0 <= i < |texts| ==> texts[i] != [] && IsTrimmed(texts[i])
  {
    var scored := RankParagraphs(Counts(queryTokens), paragraphs);
    RankParagraphsSpec(queryTokens, paragraphs);
    MatchingSpec(queryTokens, paragraphs);
    var texts := Texts(scored);
    forall i | 0 <= i < |texts| ensures texts[i] != [] && IsTrimmed(texts[i]) {
      assert scored[i] in multiset(scored);
    }
  }

  /** When some paragraph shares a term with the query, the body is the two
      best-scoring paragraphs (fewer if fewer match). */
  lemma BodyOfRanked(queryTokens: seq<string>, paragraphs: seq<string>)
    requires RankParagraphs(Counts(queryTokens), paragraphs) != []
    ensures var scored := RankParagraphs(Counts(queryTokens), paragraphs);
      SelectBody(paragraphs, scored) == Take(Texts(scored), 2)
  {
    var texts := Texts(RankParagraphs(Counts(queryTokens), paragraphs));
    RankedTextsTrimmed(queryTokens, paragraphs);
    NonBlankIdentity(texts);
    TrimAllIdentity(Take(texts, 2));
  }

  /** When no paragraph shares a token with the query, the body is the
      first two non-blank paragraphs, in their order, trimmed. */
  lemma BodyFallback(queryTokens: seq<string>, paragraphs: seq<string>)
    requires forall i :: 0 <= i < |paragraphs| ==> !SharesToken(queryTokens, paragraphs[i])
    ensures RankParagraphs(Counts(queryTokens), paragraphs) == []
    ensures SelectBody(paragraphs, RankParagraphs(Counts(queryTokens), paragraphs)) == TrimAll(Take(NonBlank(paragraphs), 2))
  {
    NoneSharesSpec(queryTokens, paragraphs);
    MatchingEmpty(queryTokens, paragraphs);
    RankParagraphsSpec(queryTokens, paragraphs);
  }

  /** A chunk always starts with the header. */
  lemma DocChunkHeader(query: TermCounts, doc: Document)
    ensures |DocChunk(query, doc)| >= 7 && DocChunk(query, doc)[..7] == "Source:"
  {
    var paragraphs := Split(NormalizeText(doc.content));
    ChunkHeader(doc.title, SelectBody(paragraphs, RankParagraphs(query, paragraphs)));
  }

  /** What `buildExcerpts` returns: the chunks of the selected documents,
      in rank order, as many as fit in the budget, at most `maxDocs` of
      them, each starting with "Source:". The loop stops at the first chunk
      that does not fit. */
  lemma ExcerptsSpec(ln: real -> real, queryText: string, docs: seq<Document>, maxDocs: nat, maxChars: int)
    ensures var query := Counts(Tokenize(queryText));
      var chunks := MapChunks(ChunkOf(query), Selected(ln, query, docs, maxDocs));
      var r := ExcerptsFor(ln, queryText, docs, maxDocs, maxChars);
      && |r| <= maxDocs
      && r <= chunks
      && (forall i :: 0 <= i < |r| ==> |r[i]| >= 7 && r[i][..7] == "Source:")
      && (r != [] ==> Cost(r) <= maxChars)
      && (|r| < |chunks| ==> Cost(r) + |chunks[|r|]| + 2 > maxChars)
  {
    var query := Counts(Tokenize(queryText));
    var selected := Selected(ln, query, docs, maxDocs);
    var chunks := MapChunks(ChunkOf(query), selected);
    var r := ExcerptsFor(ln, queryText, docs, maxDocs, maxChars);
    RankOrdered(ScoreDocs(ln, query, docs), ScoreKey, maxDocs);
    BudgetSpec(chunks, 0, maxChars);
    forall i | 0 <= i < |r| ensures |r[i]| >= 7 && r[i][..7] == "Source:" {
      assert r[i] == chunks[i] == DocChunk(query, selected[i].doc);
      DocChunkHeader(query, selected[i].doc);
    }
  }

  // ---------------------------------------------------------------------
  // Which documents are selected

  /** The document has a token that is also a query token. */
  ghost predicate SharesTerm(queryTokens: seq<string>, doc: Document) {
    exists t :: t in queryTokens && t in Tokenize(doc.content)
  }

  /** A document's score is never negative, and it is positive exactly when
      the document shares a term with the query. */
  lemma ScoreDocsSign(ln: real -> real, queryTokens: seq<string>, docs: seq<Document>)
    requires LogLike(ln)
    ensures var scored := ScoreDocs(ln, Counts(queryTokens), docs);
      forall j :: 0 <= j < |docs| ==>
        && scored[j].doc == docs[j]
        && scored[j].score >= 0.0
        && (scored[j].score > 0.0 <==> SharesTerm(queryTokens, docs[j]))
  {
    var query := Counts(queryTokens);
    var docsTokens := DocsTokens(docs);
    var idf := IdfOf(ln, docsTokens);
    IdfSpec(ln, docsTokens);
    forall j | 0 <= j < |docs|
      ensures var s := ScoreDocs(ln, query, docs)[j];
        s.doc == docs[j] && s.score >= 0.0 && (s.score > 0.0 <==> SharesTerm(queryTokens, docs[j]))
    {
      ScoreSign(ln, queryTokens, docsTokens[j], idf);
    }
  }

  /** The selected documents: when some document shares a term with the
      query, only such documents are selected; when none does, the first
      `maxDocs` documents in corpus order are. */
  lemma SelectedRelevant(ln: real -> real, queryTokens: seq<string>, docs: seq<Document>, maxDocs: nat)
    requires LogLike(ln)
    ensures var selected := Selected(ln, Counts(queryTokens), docs, maxDocs);
      && |selected| <= maxDocs
      && ((exists j :: 0 <= j < |docs| && SharesTerm(queryTokens, docs[j])) ==>
            forall i :: 0 <= i < |selected| ==> selected[i].doc in docs && SharesTerm(queryTokens, selected[i].doc))
      && ((forall j :: 0 <= j < |docs| ==> !SharesTerm(queryTokens, docs[j])) ==>
            |selected| == Min(maxDocs, |docs|) && forall i :: 0 <= i < |selected| ==> selected[i].doc == docs[i])
  {
    var scored := ScoreDocs(ln, Counts(queryTokens), docs);
    var selected := Rank(scored, ScoreKey, maxDocs);
    ScoreDocsSign(ln, queryTokens, docs);
    RankByScore(scored, docs, maxDocs);
    if j :| 0 <= j < |docs| && SharesTerm(queryTokens, docs[j]) {
      assert scored[j].score > 0.0;
      forall i | 0 <= i < |selected| ensures selected[i].doc in docs && SharesTerm(queryTokens, selected[i].doc) {
        var k :| 0 <= k < |scored| && scored[k] == selected[i] && scored[k].score > 0.0;
      }
    }
    if forall j :: 0 <= j < |docs| ==> !SharesTerm(queryTokens, docs[j]) {
      assert forall j :: 0 <= j < |scored| ==> scored[j].score <= 0.0;
    }
  }

  /** The ranking on non-negative scores: with a positive score, every
      selected entry is a positive-scoring entry of the input; with none,
      the selection is the first `maxDocs` entries. */
  lemma RankByScore(scored: seq<ScoredDoc>, docs: seq<Document>, maxDocs: nat)
    requires |scored| == |docs|
    requires forall j :: 0 <= j < |scored| ==> scored[j].doc == docs[j] && scored[j].score >= 0.0
    ensures |Rank(scored, ScoreKey, maxDocs)| <= maxDocs
    ensures (exists j :: 0 <= j < |scored| && scored[j].score > 0.0) ==>
      forall i :: 0 <= i < |Rank(scored, ScoreKey, maxDocs)| ==>
        exists k :: 0 <= k < |scored| && scored[k] == Rank(scored, ScoreKey, maxDocs)[i] && scored[k].score > 0.0
    ensures (forall j :: 0 <= j < |scored| ==> scored[j].score <= 0.0) ==>
      && |Rank(scored, ScoreKey, maxDocs)| == Min(maxDocs, |docs|)
      && forall i :: 0 <= i < |Rank(scored, ScoreKey, maxDocs)| ==> Rank(scored, ScoreKey, maxDocs)[i].doc == docs[i]
  {
    RankOrdered(scored, ScoreKey, maxDocs);
    if exists j :: 0 <= j < |scored| && scored[j].score > 0.0 {
      var j :| 0 <= j < |scored| && scored[j].score > 0.0;
      assert ScoreKey(scored[j]) > 0.0;
      RankPositive(scored, ScoreKey, maxDocs);
      SelectedFromScored(scored, maxDocs);
    }
    if forall j :: 0 <= j < |scored| ==> scored[j].score <= 0.0 {
      RankFallback(scored, ScoreKey, maxDocs);
    }
  }

  lemma SelectedFromScored(scored: seq<ScoredDoc>, maxDocs: nat)
    requires AnyPositive(scored, ScoreKey)
    ensures forall i :: 0 <= i < |Rank(scored, ScoreKey, maxDocs)| ==>
      exists k :: 0 <= k < |scored| && scored[k] == Rank(scored, ScoreKey, maxDocs)[i]
  {
    var p := Positive(scored, ScoreKey);
    var sorted := SortDesc(p, ScoreKey);
    var r := Rank(scored, ScoreKey, maxDocs);
    RankPositive(scored, ScoreKey, maxDocs);
    SortDescSpec(p, ScoreKey);
    PositiveMultiset(scored, ScoreKey);
    forall i | 0 <= i < |r| ensures exists k :: 0 <= k < |scored| && scored[k] == r[i] {
      assert r[i] == sorted[i];
      assert sorted[i] in multiset(sorted);
      assert r[i] in multiset(scored);
      assert r[i] in scored;
    }
  }
}
