# Voice-example retrieval for the email assistant

This project models the retrieval core of the email assistant's serverless
endpoint (`api/generate.js`). The endpoint loads a voice guide and a folder
of example emails. It ranks the examples against the conversation with a
TF-IDF score, cuts each chosen example down to its best two paragraphs, and
keeps as many of the resulting "Source: <title>" chunks as fit in a
character budget. It then builds the system prompt from the guide and those
chunks.

The modules follow the pieces of that file:

- `Text` (text.dfy): the ECMAScript white space and `trim`, `normalizeText`,
  `join`, splitting on `\s+`, the stop words and `tokenize`.
- `Paragraphs` (paragraphs.dfy): the split on `\n\s*\n`.
- `Terms` (terms.dfy): `termFreq`. The `Map` is a value holding its keys in
  insertion order together with the counts.
- `Idf` (idf.dfy): `buildIdf` and `tfIdfScore`. The natural logarithm is a
  parameter.
- `Ranking` (ranking.dfy): the stable descending sort, and the selection of
  positive scores with its fallback.
- `Scoring` (scoring.dfy): `scoreParagraphs`.
- `Excerpts` (excerpts.dfy): `buildExcerpts`.
- `Prompt` (prompt.dfy): `safeString`, `buildQueryTextFromMessages` and
  `buildVoiceSystemPrompt`.
- `SourceCache` (sourcecache.dfy): `loadSources` with its module-level
  cache, as a class.
- `Corpus` and `Wrappers`: the shared data types.

The loops of the source are methods, each proved to return the value of a
function that defines its result: `TermFreq`, `BuildIdf`, `TfIdfScore`,
`ScoreParagraphs`, `ScoreAll`, `Collect` and `BuildExcerpts`. The
properties are lemmas about those functions.

Some behaviours of the code as written, stated by the lemmas:

- The query puts the first user text before the latest one, separated by a
  blank line (api/generate.js:251-254). A conversation with a single user
  text therefore yields a query holding that text twice
  (`Prompt.QueryTextSpec`).
- A chunk always contains its `Source: <title>` header
  (api/generate.js:159-161). A document with no non-blank paragraph
  therefore gives the chunk "Source: <title>", which counts against the
  budget, and the skip of empty chunks (api/generate.js:163) never applies
  (`Excerpts.ChunkHeader`, `Excerpts.DocChunkHeader`).
- A cache whose time stamp lies in the future counts as fresh, because
  `now - cachedAtMs` is then negative (`SourceCache.SourceCache.Fresh`).

## Model

| member | source | states |
|---|---|---|
| Text.IsSpace | api/generate.js:61 | the characters `\s` matches and `trim` removes: the ECMAScript white space and line terminators |
| Text.LeadingSpace | api/generate.js:61 | the length of the white-space run at the start: every character before it is white space, and the next one is not |
| Text.TrailingStart | api/generate.js:61 | where the white-space run at the end starts: every character from it on is white space, and the one before it is not |
| Text.Trim | api/generate.js:61 | the result is trimmed and no longer than the input; a trimmed input is returned unchanged; the result is empty exactly when the input is all white space |
| Text.TrimBounds | api/generate.js:61 | a string that is not all white space trims to the slice `s[i..j]` where `s[i]` is the first and `s[j-1]` the last non-space character, and every character outside it is white space |
| Text.ReplaceCrLf | api/generate.js:59 | replacing CRLF by LF never lengthens the text |
| Text.ReplaceCrLfIdentity | api/generate.js:59 | a text without CR is left unchanged |
| Text.ReplaceCrLfConcat | api/generate.js:59 | the replacement of a concatenation is the concatenation of the replacements, unless the cut separates a CR from the LF after it |
| Text.ReplaceCrLfPair | api/generate.js:59 | every CR LF pair becomes one LF, and the text on each side of it is replaced on its own |
| Text.ReplaceNbsp | api/generate.js:60 | the result has the same length and no U+00A0; each U+00A0 becomes a space and every other character stays in place |
| Text.ReplaceNbspIdentity | api/generate.js:60 | a text without U+00A0 is left unchanged |
| Text.NormalizeText | api/generate.js:57-62 | the normalised text is trimmed, holds no U+00A0 and is no longer than the input; a text without CR and U+00A0 is only trimmed |
| Text.JoinLength | api/generate.js:160 | a join is as long as its parts plus one separator between each consecutive pair |
| Text.Join | api/generate.js:160 | `join(sep)`: the parts with `sep` between each consecutive pair; its length is stated by `Text.JoinLength` |
| Text.Words | api/generate.js:69-71 | every word of the `\s+` split (empty fragments dropped) is non-empty and holds no white space |
| Text.WordsSplit | api/generate.js:69 | a white-space character splits the words of a text into the words before it and the words after it |
| Text.WordsJoinRoundTrip | api/generate.js:69-71 | splitting words joined with single spaces gives back the same words |
| Text.WordsSpaceInsensitive | api/generate.js:69 | two texts that agree except on which white-space characters they hold have the same words |
| Text.ToLowerChar | api/generate.js:66 | `toLowerCase` on one character, restricted to the characters whose lower case lies in `[a-z0-9-]` (see Left out); its effect is stated by `Text.CleanChar` |
| Text.CleanChar | api/generate.js:66-67 | an ASCII capital becomes its lower-case letter and the Kelvin sign becomes `k`; white space and `[a-z0-9-]` are kept; every other character becomes a space; so the result is always in `[a-z0-9-]` or white space |
| Text.Clean | api/generate.js:65-67 | the lower-casing and cleaning of a text, character by character, of the same length; `Text.CleanConcat` and `Text.TokenizeConcat` use that it works piece by piece |
| Text.KeepTerms | api/generate.js:71-73 | every word kept has at least two characters, is not a stop word and comes from the input |
| Text.IsKept | api/generate.js:72-73 | the last two filters of `tokenize`: at least two characters and not one of the 38 stop words listed at api/generate.js:8-47 (the constant `StopWords`) |
| Text.Tokenize | api/generate.js:64-74 | `tokenize`: normalise, clean, split on white space, keep the words of at least two characters that are not stop words; its properties are the lemmas below |
| Text.TokensAreTerms | api/generate.js:64-74 | every token has at least two characters, all from `[a-z0-9-]`, and is not a stop word |
| Text.TokenizeIgnoresNormalization | api/generate.js:64-69 | normalising line endings, no-break spaces and the ends of the text changes no token |
| Text.TokenizeConcat | api/generate.js:64-74 | the tokens of two texts joined by a white-space character are the tokens of the first followed by the tokens of the second |
| Text.TokenizeToken | api/generate.js:64-74 | a token tokenizes to itself |
| Text.TokenizeJoinRoundTrip | api/generate.js:64-74 | tokens joined with spaces tokenize back to the same tokens |
| Paragraphs.LastNewline | api/generate.js:151 | the greedy `\s*` of the separator ends at the last line break reachable through white space only |
| Paragraphs.FindSeparator | api/generate.js:151 | the separator found is the first match of `\n\s*\n` from the given position; when there is none, no position starts one |
| Paragraphs.FindSeparatorEnd | api/generate.js:151 | a match found ends after the last LF reachable from its first LF through white space only, as the greedy `\s*` takes it |
| Paragraphs.Split | api/generate.js:151 | the split always yields at least one paragraph |
| Paragraphs.SplitRoundTrip | api/generate.js:151 | the paragraphs interleaved with the separators give back the text, and every separator matches `\n\s*\n` |
| Paragraphs.SplitNoBlankLine | api/generate.js:151 | no paragraph contains a blank line |
| Terms.Dedup | api/generate.js:78 | the keys in insertion order are exactly the distinct tokens, each once |
| Terms.Counts | api/generate.js:76-80 | the value `termFreq` builds: the distinct tokens in order of first occurrence, with their counts; stated by `Terms.CountsSpec` |
| Terms.Get | api/generate.js:78 | `tf.get(t)` with the fallback 0: the count of a key, 0 for a missing one |
| Terms.CountMapSpec | api/generate.js:78 | the count map has a key exactly for each token, mapping it to the number of its occurrences |
| Terms.CountsSpec | api/generate.js:76-80 | the term counts are well formed, their keys are exactly the tokens, and every count is the token's number of occurrences |
| Terms.CountsSnoc | api/generate.js:78 | one more token either increments its count, or adds it as the last key with count 1 |
| Terms.TermFreq | api/generate.js:76-80 | the loop builds the term counts of the tokens |
| Idf.DocFreq | api/generate.js:84-87 | a document frequency is at most the number of documents, and at least 1 exactly for the terms of the vocabulary |
| Idf.CorpusSize | api/generate.js:88 | `docsTokens.length` with the fallback 1: the number of documents, or 1 for an empty corpus; `Idf.BuildIdf` states that it is at least 1 |
| Idf.Weight | api/generate.js:92 | the smoothed weight `ln((n+1)/(df+1)) + 1`; bounded by `Idf.WeightAtLeastOne` and `Idf.WeightAntitone` |
| Idf.IdfOf | api/generate.js:82-95 | the weights `buildIdf` builds: each term of the corpus mapped to the weight of its document frequency; stated by `Idf.IdfSpec` |
| Idf.CountDocument | api/generate.js:85-86 | counting one document's distinct tokens updates the frequencies accordingly |
| Idf.WeighAll | api/generate.js:88-93 | every term gets the smoothed weight of its document frequency |
| Idf.BuildIdf | api/generate.js:82-95 | the weights map every term of the corpus to `ln((n+1)/(df+1)) + 1`, with n at least 1 |
| Idf.WeightAtLeastOne | api/generate.js:92 | a smoothed weight is at least 1 |
| Idf.WeightAntitone | api/generate.js:92 | a rarer term never weighs less |
| Idf.IdfSpec | api/generate.js:82-95 | every weight is at least 1, and a term in fewer documents weighs at least as much |
| Idf.WeightOrOne | api/generate.js:102 | `idf.get(t)` with the fallback 1: the weight of a term, 1 when it is missing or 0 |
| Idf.Contribution | api/generate.js:104 | one term's share `(1 + ln q) * (1 + ln d) * w`; at least 1 for present terms by `Idf.ContributionPositive` |
| Idf.Similarity | api/generate.js:97-107 | the score of a document: the sum over the query terms it contains of their contributions; its sign is stated by `Idf.SimilaritySign` |
| Idf.TfIdfScore | api/generate.js:97-107 | the loop adds up the contributions of the query terms that the document contains, in insertion order |
| Idf.ContributionPositive | api/generate.js:104 | the contribution of a term present in both is at least 1 |
| Idf.SimilaritySign | api/generate.js:97-107 | the score is never negative, and it is positive exactly when a query term occurs in the document |
| Idf.ScoreSign | api/generate.js:97-107 | a document's score is non-negative, and positive exactly when it shares a token with the query |
| Ranking.SortDescSpec | api/generate.js:139 | the sort orders by descending key, keeps equal keys in their original order, and is a permutation |
| Ranking.SortDesc | api/generate.js:139 | the stable sort by descending key (insertion sort); characterised by `Ranking.SortDescSpec` and `Ranking.StableSortUnique` |
| Ranking.StableSortUnique | api/generate.js:139 | two stable descending orderings with the same key classes are equal, so every stable sort gives the same result |
| Ranking.SortDescIdentity | api/generate.js:139 | sorting an already descending sequence changes nothing |
| Ranking.PositiveSpec | api/generate.js:144 | every item kept is positive; the items of each positive key are kept in their order and no others; a sorted sequence stays sorted |
| Ranking.Positive | api/generate.js:144 | `filter((d) => d.score > 0)`; characterised by `Ranking.PositiveSpec` and `Ranking.PositiveConcat` |
| Ranking.PositiveConcat | api/generate.js:144 | the filter works piece by piece, so the items kept stay in their order |
| Ranking.PositiveOfSorted | api/generate.js:143-144 | filtering after sorting equals sorting after filtering |
| Ranking.SortKeepsAnyPositive | api/generate.js:143 | the test "some score is positive" gives the same answer before and after sorting |
| Ranking.AnyPositive | api/generate.js:143 | `some((d) => d.score > 0)`: some item has a positive key |
| Ranking.RankPositive | api/generate.js:143-144 | when some score is positive, the selection is the first `maxDocs` of the positive items in sorted order, all positive |
| Ranking.RankFallback | api/generate.js:145 | when every score is 0, the selection is the first `maxDocs` items in their original order |
| Ranking.RankOrdered | api/generate.js:143-145 | the selection has at most `maxDocs` items, is sorted, and keeps each score class as a sub-sequence of the input's |
| Ranking.SelectTop | api/generate.js:143-145 | the first `maxDocs` positive items when some item is positive, otherwise the first `maxDocs` items |
| Ranking.Take | api/generate.js:144-145 | `slice(0, n)` for a natural `n`: the first `n` items, or all of them when there are fewer; also the `slice(0, 2)` of api/generate.js:156 |
| Ranking.Rank | api/generate.js:139-145 | sort, then select; stated by `Ranking.RankPositive`, `Ranking.RankFallback` and `Ranking.RankOrdered` |
| Scoring.SumHits | api/generate.js:116-119 | the inner loop adds up the paragraph counts of the query's keys |
| Scoring.Hits | api/generate.js:116-119 | the sum of `pTf.get(t)`, with the fallback 0, over the listed query keys; by `Scoring.HitsMeaning` the number of the paragraph's tokens that are query terms |
| Scoring.ScoreParagraph | api/generate.js:112-120 | one paragraph gives a trimmed entry with its hits when it has tokens and hits, and nothing otherwise |
| Scoring.Entry | api/generate.js:112-120 | what one pass of the loop pushes for a paragraph: its trimmed text with its hits when it has tokens and positive hits, nothing otherwise |
| Scoring.HitList | api/generate.js:110-121 | the list the loop pushes before sorting, one `Scoring.Entry` per paragraph in order; equal to `Scoring.Matching` by `Scoring.HitListMatching` |
| Scoring.ScoreParagraphs | api/generate.js:109-124 | the method returns the stable descending sort of the entries |
| Scoring.HitsMeaning | api/generate.js:116-119 | a paragraph's hits are the number of its tokens that are query terms |
| Scoring.CountInPositive | api/generate.js:120 | that number is positive exactly when some token of the paragraph is a query term |
| Scoring.HitListMatching | api/generate.js:109-121 | the entries are the trimmed paragraphs that share a term with the query, with their hits, in order |
| Scoring.Matching | api/generate.js:109-121 | reference definition of the kept paragraphs: those sharing a term with the query, trimmed, with the number of their tokens that are query terms, in order |
| Scoring.MatchingEmpty | api/generate.js:113-121 | no paragraph is kept exactly when none shares a token with the query |
| Scoring.BlankHasNoTokens | api/generate.js:113 | a blank paragraph has no token |
| Scoring.MatchingSpec | api/generate.js:109-121 | there are no more entries than paragraphs, and every entry has positive hits and trimmed non-empty text |
| Scoring.MatchingKeeps | api/generate.js:113-120 | a paragraph gives an entry exactly when one of its tokens is a query term |
| Scoring.RankParagraphsSpec | api/generate.js:109-124 | the result is the stable descending sort of the matching paragraphs by hits, and a permutation of them |
| Scoring.RankParagraphs | api/generate.js:109-124 | what `scoreParagraphs` returns: the entries sorted by descending hits; stated by `Scoring.RankParagraphsSpec` |
| Excerpts.NonBlank | api/generate.js:155 | every text kept is one of the inputs and is not blank |
| Excerpts.NonBlankConcat | api/generate.js:155 | the filter works piece by piece, so the texts kept stay in their order |
| Excerpts.NonBlankSingle | api/generate.js:155 | a single text is kept exactly when it is not blank |
| Excerpts.SelectBody | api/generate.js:154-157 | the first two non-blank texts of the ranked paragraphs, or of all paragraphs when none scored, trimmed |
| Excerpts.SelectBodySpec | api/generate.js:154-157 | the body has at most two paragraphs, each trimmed and non-empty |
| Excerpts.RankedTextsTrimmed | api/generate.js:120 | the texts of the ranked paragraphs are trimmed and non-empty |
| Excerpts.BodyOfRanked | api/generate.js:154-157 | when some paragraph scored, the body is the first two ranked texts |
| Excerpts.BodyFallback | api/generate.js:154-157 | when no paragraph shares a token with the query, none is ranked, and the body is the first two non-blank paragraphs in order, trimmed |
| Excerpts.ChunkHeader | api/generate.js:159-163 | every chunk starts with "Source:", so it is never empty |
| Excerpts.Chunk | api/generate.js:159-161 | the header, a line break and the body joined by blank lines, trimmed; stated by `Excerpts.ChunkHeader` and `Excerpts.ChunkLayout` |
| Excerpts.DocChunk | api/generate.js:151-161 | the chunk of one document: split its normalised content into paragraphs, rank them, select the body and build the chunk; starts with "Source:" by `Excerpts.DocChunkHeader` |
| Excerpts.ChunkLayout | api/generate.js:159-161 | with a non-empty trimmed body, the chunk is exactly the header, a line break and the paragraphs separated by blank lines |
| Excerpts.DocChunkHeader | api/generate.js:151-163 | the chunk of every document starts with "Source:" |
| Excerpts.MakeChunk | api/generate.js:151-161 | computing a chunk step by step, with `ScoreParagraphs`, gives the document's chunk |
| Excerpts.NextChunk | api/generate.js:150-161 | the loop body's chunk for the i-th selected document, built by `Excerpts.MakeChunk`, is that document's chunk |
| Excerpts.BudgetSpec | api/generate.js:163-167 | the chunks kept are a prefix that fits the budget, and the first chunk dropped does not fit |
| Excerpts.Budget | api/generate.js:147-168 | the chunks the loop keeps: each while `used + length + 2` stays within `maxChars`; stated by `Excerpts.BudgetSpec` |
| Excerpts.Cost | api/generate.js:164-167 | what kept chunks use of the budget, their lengths plus 2 each; bounded by `maxChars` in `Excerpts.BudgetSpec` |
| Excerpts.Collect | api/generate.js:147-170 | the loop keeps chunks while they fit, and stops at the first one that does not |
| Excerpts.ScoreAll | api/generate.js:133-138 | every document is paired with its score, in corpus order |
| Excerpts.DocsTokens | api/generate.js:130 | `docs.map((d) => tokenize(d.content))`: the tokens of each document, in order |
| Excerpts.ScoreWith | api/generate.js:133-138 | each document paired with the TF-IDF score of its tokens against the query, in corpus order |
| Excerpts.ScoreDocs | api/generate.js:130-138 | the scores with the corpus's own tokens and weights; their sign is stated by `Excerpts.ScoreDocsSign` |
| Excerpts.Selected | api/generate.js:139-145 | the scored documents sorted and selected; stated by `Excerpts.RankByScore` and `Excerpts.SelectedRelevant` |
| Excerpts.BuildExcerpts | api/generate.js:126-171 | the method returns the budgeted chunks of the selected documents |
| Excerpts.ExcerptsFor | api/generate.js:126-171 | what `buildExcerpts` returns: the budgeted chunks of the ranked documents; stated by `Excerpts.ExcerptsSpec` |
| Excerpts.ExcerptsSpec | api/generate.js:126-171 | at most `maxDocs` excerpts, forming a prefix of the selected chunks; each starts with "Source:"; they fit `maxChars`; the next chunk would not |
| Excerpts.ScoreDocsSign | api/generate.js:133-138 | every score is non-negative, and positive exactly when the document shares a term with the query |
| Excerpts.RankByScore | api/generate.js:139-145 | at most `maxDocs` are selected; only positive ones when any is positive; otherwise the first `maxDocs` in corpus order |
| Excerpts.SelectedFromScored | api/generate.js:143-144 | every selected document is one of the scored documents |
| Excerpts.SelectedRelevant | api/generate.js:139-145 | when some document shares a term with the query, only such documents are selected; otherwise the first `maxDocs` documents in corpus order are |
| Prompt.UserTexts | api/generate.js:245-248 | the non-empty string contents of the user messages, in order; characterised by `Prompt.UserTextsSpec`, `Prompt.UserTextsNonEmpty` and `Prompt.UserTextsConcat` |
| Prompt.UserTextsConcat | api/generate.js:245-248 | the user texts of two message lists, one after the other, are the texts of each, in order |
| Prompt.UserTextsNonEmpty | api/generate.js:248 | no user text is empty |
| Prompt.UserTextsSpec | api/generate.js:245-248 | every user text is the non-empty string content of a message whose role is "user" |
| Prompt.SafeString | api/generate.js:53-55 | a string value is itself, any other value is "" |
| Prompt.BuildQueryText | api/generate.js:244-256 | `buildQueryTextFromMessages`; stated by `Prompt.QueryTextSpec`, `Prompt.QueryIgnoresNonUser` and `Prompt.QueryIgnoresMiddle` |
| Prompt.Truncate | api/generate.js:255 | `slice(0, 4000)`: the text itself when it has at most 4000 characters, else its first 4000 |
| Prompt.QueryTextSpec | api/generate.js:244-256 | the query is at most 4000 characters; it is empty without user texts, and otherwise the first text, a blank line and the latest text, cut to 4000 |
| Prompt.QueryIgnoresNonUser | api/generate.js:245-248 | a message that is not from the user never changes the query |
| Prompt.QueryIgnoresMiddle | api/generate.js:250-255 | messages between the first and the latest user text never change the query |
| Prompt.PartsLayout | api/generate.js:223-241 | the parts joined by blank lines are the introduction, then the guide section when the guide is non-empty, then the examples section when there are excerpts |
| Prompt.PromptParts | api/generate.js:223-239 | the introduction (the constant `Intro`, the three sentences of api/generate.js:227-229 joined by a space), then `VOICE GUIDE:` with the guide when it is non-empty, then the examples header with the excerpts joined by `\n\n---\n\n` when there are any; stated by `Prompt.PartsLayout` |
| Prompt.GuideSection | api/generate.js:233-235 | the guide part with the blank line before it, or "" for an empty guide; used by `Prompt.SystemPromptLayout` |
| Prompt.ExamplesSection | api/generate.js:237-239 | the examples part with the blank line before it, or "" without excerpts; used by `Prompt.SystemPromptLayout` |
| Prompt.BuildVoiceSystemPrompt | api/generate.js:222-242 | `buildVoiceSystemPrompt`: the parts joined by blank lines; stated by `Prompt.SystemPromptLayout` and `Prompt.SystemPromptLength` |
| Prompt.SystemPromptLayout | api/generate.js:222-242 | the prompt is the introduction, then the guide section, then the examples section, each present only when it has content |
| Prompt.SystemPromptLength | api/generate.js:222-242 | the prompt's length is the sum of the present sections, with 7 characters between consecutive excerpts |
| SourceCache.HasTextExtension | api/generate.js:199 | the extension test: the name ends with `.txt` or `.md`, ignoring the case of the letters |
| SourceCache.Title | api/generate.js:208 | the title is a prefix of the name: without its last 4 characters when the name ends with `.txt`, without its last 3 when it ends with `.md`, in any case, and the name itself otherwise |
| SourceCache.TitleRoundTrip | api/generate.js:199-208 | a base name followed by `.txt` or `.md`, in any mix of cases, passes the filter and has that base name as its title |
| SourceCache.TextEntriesSpec | api/generate.js:196-199 | an entry is kept exactly when it is a regular file with a text extension, and never more entries than listed |
| SourceCache.TextEntries | api/generate.js:196-199 | the regular files with a text extension, in listing order; stated by `SourceCache.TextEntriesSpec` and `SourceCache.TextEntriesConcat` |
| SourceCache.TextEntriesConcat | api/generate.js:196-199 | the filter works piece by piece, so the entries kept stay in listing order |
| SourceCache.TextFilesSpec | api/generate.js:196-200 | at most 200 files are read, all of them text files of the listing, and all of them when there are at most 200 |
| SourceCache.TextFiles | api/generate.js:196-200 | the first `MaxFiles` (200) text entries; stated by `SourceCache.TextFilesSpec` |
| SourceCache.ReadAll | api/generate.js:202-212 | reading every file: each name with its text in order, or the first file in listing order that fails; stated by `SourceCache.ReadAllFails` and `SourceCache.ReadAllContents` |
| SourceCache.ReadAllFails | api/generate.js:202-212 | reading succeeds exactly when every file can be read |
| SourceCache.ReadAllContents | api/generate.js:202-212 | a successful read pairs each file, in order, with its content |
| SourceCache.DocumentOfFile | api/generate.js:206-210 | the i-th document is built from the i-th file's name and normalised content |
| SourceCache.ToDocument | api/generate.js:206-210 | the document of a file: its name as `id`, its `Title`, and its normalised content |
| SourceCache.NonEmptyDocsSpec | api/generate.js:214 | a document is kept exactly when its content is non-empty, and never more documents than given |
| SourceCache.NonEmptyDocs | api/generate.js:214 | `filter((d) => d.content.length > 0)`; stated by `SourceCache.NonEmptyDocsSpec` and `SourceCache.NonEmptyDocsConcat` |
| SourceCache.NonEmptyDocsConcat | api/generate.js:214 | the filter works piece by piece, so the documents kept stay in order |
| SourceCache.DocsFromFiles | api/generate.js:202-214 | every document kept has trimmed non-empty content and comes from one of the files read |
| SourceCache.ReadDocs | api/generate.js:193-215 | the documents of the emails directory: none when it is missing, a failure when it cannot be listed or a file cannot be read, otherwise the non-empty documents of the first 200 text files |
| SourceCache.ReadSources | api/generate.js:186-217 | what a load that misses the cache reads; its success is stated by `SourceCache.ReadSourcesSpec`, its failure by `SourceCache.ReadSourcesFailure` |
| SourceCache.ReadSourcesSpec | api/generate.js:186-217 | a successful load holds the normalised guide and at most 200 documents; each has trimmed non-empty content and a text-extension name, and comes from a text file of the listing; there are none without the directory |
| SourceCache.ReadSourcesComplete | api/generate.js:195-214 | when the listing holds at most 200 text files, every readable one with non-blank text becomes a document |
| SourceCache.ReadSourcesFailure | api/generate.js:186-213 | a load fails exactly when the guide cannot be read, the directory cannot be listed, or a file to be read cannot be read |
| SourceCache.SourceCache.constructor | api/generate.js:49-50 | the cache starts empty, with time stamp 0 |
| SourceCache.SourceCache.Fresh | api/generate.js:184 | the cache holds a value and `now - cachedAtMs` is below `CacheTtlMs`, the 60000 ms of api/generate.js:51 |
| SourceCache.SourceCache.LoadSources | api/generate.js:182-220 | a fresh cache is returned unchanged; otherwise the files are read, and a success replaces the cache and its time stamp while a failure leaves both unchanged |

## Left out

- The request handler (api/generate.js:258 onwards), the call to the text generation service, and the browser script `script.js` are not part of this model.
- Floating point: scores and weights are exact reals. `Math.log` is a parameter `ln`, and the lemmas assume only that it is non-negative and monotone from 1 on. Rounding and `NaN` are not modelled.
- Lengths count characters (code points). JavaScript counts UTF-16 code units, so a text with characters outside the Basic Multilingual Plane has a different length there. `slice(0, 4000)` may also split such a character.
- Text.ToLowerChar: only the ASCII letters and the Kelvin sign are lowered, because these are the only characters whose lower case lies in `[a-z0-9-]`, except U+0130. JavaScript lowers U+0130 to "i" followed by U+0307, which yields an extra "i" in a token. The model turns U+0130 into a space.
- The file system is a value passed in: the guide file, and the directory listing with each file's content or its read failure. The race between the existence check and the read is folded into those states. Errors other than a failed read are not modelled.
- SourceCache.SourceCache.LoadSources: the clock is the parameter `now`. Two loads running at the same time (the source is asynchronous) are not modelled. The cached value is returned as a value, not as a shared object.
- Excerpts.BuildExcerpts: `maxDocs` is a natural number. The source accepts any number, and a negative one would make `slice` count from the end. The only call (api/generate.js:276-281) passes 6 and 6000, which are also the defaults of api/generate.js:126; the model takes both as parameters.
- Excerpts.Collect: the loop's skip of empty chunks is not modelled. `Excerpts.ChunkHeader` proves that no chunk built for a document is empty.
- SourceCache.ReadAll: when several files fail to read, the model reports the first failing file in listing order. `Promise.all` rejects with the error of whichever read fails first in time, which depends on the file system. Whether the load fails is the same in both.
- Prompt.BuildVoiceSystemPrompt: the excerpts are a sequence. A missing (`undefined`) excerpt list, which `excerpts?.length` tolerates, is not modelled. The guide is a string, so `if (voiceGuide)` is the non-empty test.
- Prompt.Item: every value without a `role` equal to "user" (`null`, numbers, strings, objects with another role) is one case, because the filter treats them all alike.
- `normalizeText` of a non-string gives "" through `safeString`. The model's `NormalizeText` takes a string, since every caller in the core passes one.
