# In-browser lexical search and suggestions, in Dafny

This project models the lexical search engine of a small document-search
web application. Documents have an id, a title, a content text, tags and a
creation time. The application keeps them, with a history of past search
queries, in a document context. Over that state it offers:

- **search**: score every document against the terms and quoted phrases of
  a query, attach up to three highlighted sentences, and return the
  documents that score above zero, best first;
- **suggestions**: complete a typed prefix from the search history, from
  the keywords and two- or three-word phrases most frequent in the corpus,
  and from the tags;
- **highlighting**: produce up to three excerpts of a text in which the
  words and phrases of a query are wrapped in `<span>` markup;
- **upload helpers**: summarise an uploaded text, suggest tags for it,
  add a tag, take the default title from the file name, and fill in the
  tags from the suggested ones.

The modules follow the three source files of the core.

- `lib/text-processing.ts`:
  - `Escaping`: `escapeRegExp`.
  - `Query`: how a query is split into quoted phrases and words.
  - `Markup`: the case-insensitive regex replace passes that insert the
    highlight markup. Each pattern shape gets an explicit matcher.
  - `Highlight`: `highlightMatches` and its three tiers.
  - `Frequency`: the counting object and the `Object.entries` ranking
    chain.
  - `Extraction`: `extractKeywords` and `extractPhrases`.
- `lib/document-context.tsx`:
  - `Corpus`: the document and history records, the derived keywords,
    phrases and tags, and `addSearchQuery` as a function on the history.
  - `Search`: `searchDocuments`.
  - `Suggest`: `getSuggestions`.
  - `Context`: the class `SearchContext`. Its fields `documents` and
    `history` are replaced by `AddDocument`, `DeleteDocument` and
    `AddSearchQuery`. `SearchDocuments` and `GetSuggestions` read them.
- `components/document-upload.tsx`:
  - `Upload`: `generateSummary`, `extractPotentialTags`, `addTag`, the
    file-name extension strip and the tag autofill.
  - `ObjectCounts`: the word counting exactly as written on a plain
    object (see Findings).
- Shared modules: `Text` holds characters, lowercasing, trim, substring
  search and splitting on separator runs. `Collections` holds filter,
  take, distinct and a stable sort by a real key.

Where the source loops and updates variables, the model is a method with a
loop, proved equal to a specification function. Those loops are the
counting loops, the excerpt loops, the per-document scoring map, the
de-duplication of suggestions, the tag collection and the summary's
sentence loop. Everything else is functions and lemmas about them.

Where the code and the written description of the system differ, the
model follows the code:

- **Keyword ties.** Equal counts are ordered the way `Object.entries`
  lists keys: keys that are canonical array indices (such as "2024") come
  first, in numeric order, then the rest in first-seen order. First-seen
  order alone is not what the code does.
- **The empty term.** A query always yields at least one term, because
  splitting on whitespace never returns an empty list, so the denominator
  of the score is never zero. When every word of a query sits inside
  quotes, that one term is the empty string. It is contained in every
  title, so every document scores above zero (`Search.EmptyTermMatchesAll`).

## Model

| member | source | states |
|---|---|---|
| Text.LowerChar | lib/text-processing.ts:22 | lowercasing a character leaves no upper-case letter, keeps word and space characters what they were, and changes nothing else |
| Text.ToLowerIsLower | lib/text-processing.ts:22 | `toLowerCase` yields a lower-case string and is idempotent |
| Text.ToLowerAppend | lib/text-processing.ts:188 | lowercasing distributes over concatenation |
| Text.TrimStart | lib/text-processing.ts:12 | the result is a suffix that does not start with whitespace; everything removed is whitespace |
| Text.TrimEnd | lib/text-processing.ts:12 | the result is a prefix that does not end with whitespace; everything removed is whitespace |
| Text.Trim | lib/text-processing.ts:12 | `trim()` neither starts nor ends with whitespace, and is empty exactly when the input is blank |
| Text.ContainsAt | lib/document-context.tsx:189-191 | `includes` holds exactly when the needle occurs at some index |
| Text.FirstSep | lib/text-processing.ts:8 | the first separator at or after a position, or the end when there is none |
| Text.SplitRuns | lib/text-processing.ts:23 | `split(/\s+/)` (any separator class) gives at least one piece and no piece contains a separator |
| Text.SplitRunsConcat | lib/text-processing.ts:23 | the pieces concatenated are the input with its separators removed |
| Text.WithoutAppend | lib/text-processing.ts:188 | deleting a character class distributes over concatenation |
| Text.WithoutKeeps | lib/text-processing.ts:188 | deleting characters keeps any property every input character had |
| Text.SplitRunsKeeps | lib/text-processing.ts:191 | splitting keeps any property every input character had |
| Collections.Filter | lib/document-context.tsx:264 | the kept elements are exactly the input elements that pass the test |
| Collections.FilterAppend | lib/document-context.tsx:264 | filtering distributes over concatenation |
| Collections.FilterPartition | lib/document-context.tsx:264 | the kept and the dropped elements together are a permutation of the input |
| Collections.Take | lib/document-context.tsx:296 | `slice(0, n)` and `substring(0, n)` give a prefix of length min(n, length) |
| Collections.Distinct | components/document-upload.tsx:258-261 | `[...new Set(xs)]` has no duplicates and the same members as `xs` |
| Collections.DistinctSnoc | components/document-upload.tsx:258-261 | adding an element to a Set appends it exactly when it was not present |
| Collections.SortDescCorrect | lib/document-context.tsx:265 | `sort((a, b) => b.score - a.score)` returns a permutation in non-increasing key order |
| Collections.SortDescStable | lib/document-context.tsx:265 | elements with equal keys keep their input order |
| Collections.TakeSortedKeepsLargest | lib/text-processing.ts:225-227 | after sorting and slicing, every element left out has a key no larger than any element kept |
| Collections.SortFilterCorrect | lib/document-context.tsx:264-265 | filter then sort: sorted, a permutation of the kept elements, membership exactly the passing elements, and stable |
| Escaping.Escape | lib/text-processing.ts:181-183 | `escapeRegExp` adds one backslash per metacharacter and leaves text without metacharacters unchanged |
| Escaping.UnescapeEscape | lib/text-processing.ts:181-183 | removing the escapes gives the original string back, so the escaped text matches itself literally |
| Escaping.EscapedMetaIsQuoted | lib/text-processing.ts:181-183 | every metacharacter other than a backslash in the output is preceded by a backslash |
| Frequency.PropertyOrder | lib/text-processing.ts:225 | `Object.entries` lists a permutation of the object's keys |
| Frequency.PropertyOrderInsertion | lib/text-processing.ts:225 | when no key is an array index, the keys are listed in insertion order |
| Frequency.Record | lib/text-processing.ts:221 | one counting step (`counts[k]` or zero, plus one) counts one more occurrence of `k` |
| Frequency.CountsSnoc | lib/text-processing.ts:221 | after one step the counts hold, for every word seen, its number of occurrences |
| Frequency.Tally | lib/text-processing.ts:219-222 | the counting loop yields the distinct words in first-seen order, each with its number of occurrences |
| Frequency.TalliedTable | lib/text-processing.ts:219-225 | the entries listed after counting are the frequency table of the words |
| Frequency.TableEntries | lib/text-processing.ts:225 | every entry is a seen word with its exact count, every seen word has an entry, and no entry repeats |
| Frequency.RankedFacts | lib/text-processing.ts:225-226 | the filtered and sorted entries are exact counts that pass the filter, without repeats, in non-increasing count order |
| Frequency.TopKeysMembers | lib/text-processing.ts:225-228 | at most n keys, each a seen word whose entry passes the filter |
| Frequency.TopKeysOrdered | lib/text-processing.ts:225-228 | the keys are distinct and in non-increasing order of occurrences |
| Frequency.TopKeysComplete | lib/text-processing.ts:225-228 | a passing word left out means n keys were returned, each occurring at least as often as that word |
| Frequency.TopKeysTies | lib/text-processing.ts:225-226 | words with equal counts keep their `Object.entries` order |
| Extraction.Tokens | lib/text-processing.ts:188-191 | the tokens are lower case and contain neither whitespace nor stripped punctuation |
| Extraction.ExtractKeywords | lib/text-processing.ts:186-229 | the loop computes the keyword specification |
| Extraction.KeywordsCorrect | lib/text-processing.ts:186-229 | at most `maxKeywords` distinct keyword-shaped tokens of the text, most frequent first, and any token left out occurs no more often than each one returned |
| Extraction.RankedKeywords | lib/text-processing.ts:214-228 | ranking words that share a property returns words with that property, distinct, ordered and complete as above |
| Extraction.Bigrams | lib/text-processing.ts:254-257 | there is one two-word phrase per adjacent pair of words |
| Extraction.Trigrams | lib/text-processing.ts:260-263 | there is one three-word phrase per run of three words |
| Extraction.CountBigrams | lib/text-processing.ts:253-257 | the first counting loop tallies every two-word phrase |
| Extraction.CountTrigrams | lib/text-processing.ts:259-263 | the second loop extends the tally with every three-word phrase |
| Extraction.TrigramStep | lib/text-processing.ts:260-263 | each iteration appends the next three-word phrase |
| Extraction.WindowShape | lib/text-processing.ts:250-263 | every counted phrase is two or three consecutive filtered words |
| Extraction.ExtractPhrases | lib/text-processing.ts:232-271 | the loops compute the phrase specification |
| Extraction.PhrasesCorrect | lib/text-processing.ts:232-271 | at most `maxPhrases` distinct phrases, each occurring more than once, most frequent first, and any repeated phrase left out occurs no more often than each one returned |
| Extraction.SingleWindowNeverPhrase | lib/text-processing.ts:267 | a phrase that occurs once is never returned |
| Markup.MatchAt | lib/text-processing.ts:52-66 | a match of `/(p)/gi`, `/\b(p)\b/gi` or `/(\b\w*p\w*\b)/gi` at a position spans the text case-insensitively and sits on word boundaries as the pattern demands |
| Markup.PartialFrom | lib/text-processing.ts:158 | the backtracking `\w*p\w*\b` match ends on a word boundary past its start |
| Markup.Scan | lib/text-processing.ts:53-56 | the global replace walks the text in pieces that tile it; a hit is a match at its position and a kept character starts no match |
| Markup.EraseTiles | lib/text-processing.ts:53-56 | removing the inserted markup from tiled pieces gives the text they cover |
| Markup.MarkAllKeepsText | lib/text-processing.ts:53-56 | a replace pass only inserts markup: without it the text is unchanged |
| Markup.ScanNoMatch | lib/text-processing.ts:62-66 | a pattern that matches nowhere leaves the text unchanged |
| Markup.RenderLength | lib/text-processing.ts:53-56 | the output grows by the markup length once per match |
| Markup.TermPassSeesMarkup | lib/text-processing.ts:51-67 | after the phrase pass, the word pass for the word `span` matches inside the inserted opening tag |
| Markup.MarkTermsLong | lib/document-context.tsx:242-250 | terms shorter than three characters are never wrapped: the term pass is the word pass over the terms of three or more characters |
| Markup.SpanMatch | lib/text-processing.ts:62 | the word `span` matches, as a whole word, right after the `<` of a span tag |
| Query.Segments | lib/text-processing.ts:8-17 | `/"([^"]+)"/g` finds quoted parts with a non-empty, quote-free inside |
| Query.RenderSegments | lib/text-processing.ts:8-20 | the plain characters and quoted matches put back together give the query |
| Query.SegmentsNoQuote | lib/text-processing.ts:8-20 | a query without quotes has no phrases and remains whole |
| Query.QuotedPhrases | lib/text-processing.ts:10-16 | every phrase is non-empty and trimmed |
| Query.Terms | lib/document-context.tsx:183-184 | there is at least one term; terms are lower case and contain no whitespace |
| Query.TermsNonEmpty | lib/document-context.tsx:183-184 | the terms are either just the empty string or all non-empty |
| Query.Words | lib/text-processing.ts:20-26 | the highlight words are lower case and longer than two characters |
| Query.SegmentsOfQuoted | lib/text-processing.ts:8 | a quoted phrase alone is one match |
| Query.QuotedOnlyTerms | lib/document-context.tsx:183-184 | a query that is one quoted phrase has the single term "" and no highlight words |
| Highlight.Fallback | lib/text-processing.ts:173-175 | the fallback is at most 203 characters |
| Highlight.FirstMarked | lib/text-processing.ts:37-75 | at most n excerpts, and never more than the pieces |
| Highlight.FirstMarkedSound | lib/text-processing.ts:37-75 | every excerpt is the markup of a qualifying piece |
| Highlight.FirstMarkedEmpty | lib/text-processing.ts:37-75 | there are no excerpts exactly when no piece qualifies |
| Highlight.FirstMarkedHead | lib/text-processing.ts:37-75 | the first excerpt is the markup of the first qualifying piece |
| Highlight.CollectMatches | lib/text-processing.ts:37-75 | the loop with its break after three computes the first three excerpts |
| Highlight.FirstMarkedStep | lib/text-processing.ts:69-73 | one iteration appends the piece's markup exactly when it qualifies |
| Highlight.Units | lib/text-processing.ts:81-83 | every sentence piece is trimmed before the query is looked for in it |
| Highlight.FirstMatchesSound | lib/text-processing.ts:78-121 | each excerpt of a tier is the markup of a piece that qualifies for that tier |
| Highlight.FirstMatchesEmpty | lib/text-processing.ts:78-121 | a tier yields nothing exactly when none of its pieces qualifies |
| Highlight.FirstMatchesHead | lib/text-processing.ts:78-121 | a tier's first excerpt comes from its first qualifying piece |
| Highlight.HighlightSpec | lib/text-processing.ts:2-178 | `highlightMatches` returns between one and three excerpts |
| Highlight.HighlightMatches | lib/text-processing.ts:2-178 | the method with its tier loops computes the specification |
| Highlight.EmptyQueryFallback | lib/text-processing.ts:28-30 | with no words and no phrases the result is the first 200 characters and "..." |
| Highlight.ParagraphsFirst | lib/text-processing.ts:33-75 | when a paragraph qualifies, the first excerpt is the first qualifying paragraph, marked up |
| Highlight.HighlightSound | lib/text-processing.ts:2-178 | the result is the fallback, or every excerpt is the markup of a qualifying unit made from one of the text's own paragraphs or sentences, all from one tier |
| Highlight.TierMatches | lib/text-processing.ts:78-121 | a tier yields excerpts exactly when one of its candidates qualifies |
| Highlight.HighlightTierOrder | lib/text-processing.ts:28-177 | the tiers are tried strictly in order: paragraphs when any paragraph qualifies, else sentences when any sentence qualifies, else partial matches when the query has words and any sentence matches partially, and the fallback exactly when none of these holds |
| Highlight.Excerpts | lib/document-context.tsx:216-256 | a search result carries at most three highlights |
| Search.CountIn | lib/document-context.tsx:189-195 | a match count never exceeds the number of terms |
| Search.CountInTags | lib/document-context.tsx:197-199 | the tag-match count never exceeds the number of terms |
| Search.CountPhrases | lib/document-context.tsx:202-205 | the phrase-match count never exceeds the number of phrases |
| Search.ScoreBounds | lib/document-context.tsx:208-213 | the score lies in [0, 1] and is positive exactly when some term or phrase matches |
| Search.Scored | lib/document-context.tsx:258-262 | a scored document carries its score, and its highlights are absent rather than empty |
| Search.ScoreAll | lib/document-context.tsx:186-263 | one scored entry per document, in corpus order |
| Search.QueryWellFormed | lib/document-context.tsx:170-184 | every query yields at least one term, and its phrases are non-empty |
| Search.SearchSpec | lib/document-context.tsx:164-268 | the response echoes the query, and a blank query has no results |
| Search.ScoreDocument | lib/document-context.tsx:187-262 | the per-document step, with its highlight loop, computes the scored document |
| Search.ScoreEach | lib/document-context.tsx:186-263 | the loop over the documents computes `ScoreAll` |
| Search.ScoreAllSnoc | lib/document-context.tsx:186-263 | scoring one more document appends its entry |
| Search.SearchCorrect | lib/document-context.tsx:264-265 | the results are sorted best first, are exactly the positive-score documents, form a permutation of them, and keep corpus order on equal scores |
| Search.RankedResults | lib/document-context.tsx:264-265 | the same, for any list of scored documents |
| Search.SearchResults | lib/document-context.tsx:183-265 | a non-blank query's results are the filtered and sorted scored documents |
| Search.EmptyTermMatchesAll | lib/document-context.tsx:183-191 | a query whose only term is "" returns every document |
| Corpus.Contents | lib/document-context.tsx:91 | the contents, one per document, in order |
| Corpus.ContentKeywords | lib/document-context.tsx:87-93 | at most 50 distinct lower-case keywords, each a keyword token of the joined content |
| Corpus.ContentPhrases | lib/document-context.tsx:95-101 | at most 20 distinct phrases |
| Corpus.LowerTagsMembers | lib/document-context.tsx:108-110 | the collected tags are exactly the lowercased tags of the documents |
| Corpus.AllTagsCorrect | lib/document-context.tsx:103-113 | the tag set has no duplicates and holds exactly the lowercased tags of some document |
| Corpus.LowerTagsSnoc | lib/document-context.tsx:108 | visiting one more document appends its lowercased tags |
| Corpus.LowerAllSnoc | lib/document-context.tsx:109 | visiting one more tag appends it, lowercased |
| Corpus.CollectTags | lib/document-context.tsx:103-113 | the nested `forEach` loops compute the tag set |
| Corpus.FindQuery | lib/document-context.tsx:276 | `findIndex` gives the first entry whose lowercased query is q, or none when there is none |
| Corpus.FindQueryAt | lib/document-context.tsx:276 | the first matching index is what `findIndex` returns |
| Corpus.FindQueryNone | lib/document-context.tsx:276 | without a matching entry `findIndex` finds nothing |
| Corpus.NormalQuery | lib/document-context.tsx:271-272 | the recorded query is trimmed and lower case, and empty exactly when the query is blank |
| Corpus.RecordQuery | lib/document-context.tsx:270-299 | a blank query leaves the history unchanged |
| Corpus.RecordQueryCounts | lib/document-context.tsx:270-299 | recording a query adds one to its count and stamps its entry with the time |
| Corpus.RecordedCounts | lib/document-context.tsx:274-297 | both branches, update in place and prepend, add one to the count and stamp the entry |
| Corpus.RecordQueryOthers | lib/document-context.tsx:270-299 | the counts of the other queries are unchanged when the query is blank, already recorded, or the history has room |
| Corpus.RecordedOthers | lib/document-context.tsx:274-297 | the update branch never changes the count of another query, and the prepend branch does not while the history has room |
| Corpus.RecordQueryFull | lib/document-context.tsx:289-296 | a new query arriving at a full history goes in front with count 1 and pushes out the oldest entry: that entry's query drops to count 0 and every other query keeps its count |
| Corpus.RecordedFull | lib/document-context.tsx:289-296 | the same for the prepend branch with a normalized query |
| Corpus.DropLastGone | lib/document-context.tsx:289-296 | cutting the last entry forgets a query only that entry held |
| Corpus.DropLastKeeps | lib/document-context.tsx:289-296 | cutting the last entry keeps the count of every query it did not hold |
| Corpus.UpdateOthers | lib/document-context.tsx:280-286 | updating one entry in place leaves the other counts alone |
| Corpus.PrependOthers | lib/document-context.tsx:289-296 | prepending the new entry leaves the other counts alone while the history has room |
| Corpus.Queries | lib/document-context.tsx:276 | the lowercased queries of the history, in order |
| Corpus.RecordQueryValid | lib/document-context.tsx:270-299 | the history stays at most 50 entries, has no repeated query and keeps every count at least one |
| Corpus.RecordedValid | lib/document-context.tsx:274-297 | both branches keep the history valid |
| Corpus.UpdateValid | lib/document-context.tsx:280-286 | updating an entry keeps the history valid |
| Corpus.PrependValid | lib/document-context.tsx:289-296 | prepending a new query and cutting to 50 keeps the history valid |
| Suggest.FromHistory | lib/document-context.tsx:313-318 | each history entry becomes a history suggestion carrying its count and time |
| Suggest.FromTexts | lib/document-context.tsx:325-348 | each keyword, phrase or tag becomes a suggestion of its kind, with neither count nor time |
| Suggest.HistorySuggestions | lib/document-context.tsx:308-318 | at most three history suggestions, each with a count |
| Suggest.TextSuggestions | lib/document-context.tsx:321-348 | at most n suggestions of the given kind |
| Suggest.Texts | lib/document-context.tsx:355 | the texts of the suggestions, in order |
| Suggest.Unique | lib/document-context.tsx:351-360 | at most `room` suggestions are kept |
| Suggest.UniqueFacts | lib/document-context.tsx:351-362 | every kept suggestion is a candidate whose text was not seen, and no text is kept twice |
| Suggest.UniqueFirst | lib/document-context.tsx:351-362 | a kept suggestion is the first candidate with its text, so a text offered by several sources keeps the type of the source that comes first |
| Suggest.UniqueComplete | lib/document-context.tsx:351-362 | a candidate is dropped only if its text was already kept or seen, or the list is full |
| Suggest.UniqueRanked | lib/document-context.tsx:351-362 | de-duplication keeps the order of the sources |
| Suggest.SuggestionsSpec | lib/document-context.tsx:301-363 | a prefix shorter than two characters gets nothing, and there are never more than eight suggestions |
| Suggest.Deduplicate | lib/document-context.tsx:351-362 | the loop with its `Set` and its break at eight computes the de-duplication |
| Suggest.HistoryPart | lib/document-context.tsx:307-318 | history suggestions come from entries whose lowercased query contains the lowercased prefix, most searched first |
| Suggest.HistoryOrdered | lib/document-context.tsx:310 | history suggestions are in non-increasing count order |
| Suggest.TextPart | lib/document-context.tsx:320-348 | a keyword, phrase or tag suggestion is one of the source's texts containing the lowercased prefix |
| Suggest.CandidatesSources | lib/document-context.tsx:305-348 | every candidate comes from the source its kind names and contains the prefix |
| Suggest.PartsRanked | lib/document-context.tsx:313-348 | concatenating the sources puts history, then keywords, then phrases, then tags |
| Suggest.CandidatesOrder | lib/document-context.tsx:305-348 | at most ten candidates, in source order |
| Suggest.CandidatesHistoryOrdered | lib/document-context.tsx:307-348 | history candidates come first and in non-increasing count order |
| Suggest.HistoryFirst | lib/document-context.tsx:313-348 | the same, for any four source lists |
| Context.FilterKeepsAll | lib/document-context.tsx:161 | a filter every element passes returns the list unchanged |
| Context.DeleteUndoesAdd | lib/document-context.tsx:156-162 | deleting a just-added document whose id is unique restores the collection |
| Context.SearchContext.constructor | lib/document-context.tsx:82-83 | a new context has no documents and no history |
| Context.SearchContext.AddDocument | lib/document-context.tsx:156-158 | the new document goes first; the history is untouched |
| Context.SearchContext.DeleteDocument | lib/document-context.tsx:160-162 | exactly the documents with another id remain, in order; the history is untouched |
| Context.SearchContext.AddSearchQuery | lib/document-context.tsx:270-299 | the history records the query, a blank query changes nothing, the documents are untouched and the history stays valid |
| Context.SearchContext.SearchDocuments | lib/document-context.tsx:164-268 | the response is the search specification over the current documents |
| Context.SearchContext.GetSuggestions | lib/document-context.tsx:301-363 | the suggestions are the specification over the current history and the derived keywords, phrases and tags |
| Upload.LongWords | components/document-upload.tsx:166 | `/\b[a-z]{4,}\b/g` yields words of four or more lower-case letters |
| Upload.FirstBlankLine | components/document-upload.tsx:149 | the first `\n\s*\n` at or after a position, or the end |
| Upload.FirstParagraph | components/document-upload.tsx:149 | the first paragraph is a prefix of the text that runs to the first blank line |
| Upload.FirstSentenceBreak | components/document-upload.tsx:150 | the first `[.!?]+\s+` at or after a position, or the end |
| Upload.SplitSentences | components/document-upload.tsx:150 | splitting into sentences gives at least one piece |
| Upload.SplitSentencesNoBreak | components/document-upload.tsx:150 | no sentence contains a sentence break |
| Upload.LeadShape | components/document-upload.tsx:158-162 | the sentence loop takes a prefix of the sentences; it adds sentences while the length so far is below 500 and stops at the first that reaches it |
| Upload.Summary | components/document-upload.tsx:146 | a text shorter than 200 characters is its own summary |
| Upload.AssembleShape | components/document-upload.tsx:153-183 | the summary is the first paragraph when it is longer than 100 characters, else the lead sentences each followed by ". ", with "Key terms: " and the top words appended when there are any |
| Upload.KeyTermsCorrect | components/document-upload.tsx:166-178 | at most five distinct long words, each occurring more than once, most frequent first; any repeated word left out occurs no more often than each one listed |
| Upload.RepeatedWordsCorrect | components/document-upload.tsx:169-178 | the same, for any list of long words |
| Upload.LeadSentences | components/document-upload.tsx:158-162 | the loop computes the lead sentences |
| Upload.RepeatedWords | components/document-upload.tsx:169-178 | the counting loop and the ranking chain compute the key terms |
| Upload.GenerateSummary | components/document-upload.tsx:144-186 | the method computes the summary |
| Upload.CapWord | components/document-upload.tsx:240 | `[A-Z][a-z]+` matches an upper-case letter and a maximal run of lower-case letters |
| Upload.ChainEnds | components/document-upload.tsx:240 | the possible ends of a chain of space-separated capitalised words increase and cover only spaces and letters |
| Upload.CapsMatchAt | components/document-upload.tsx:240 | a capitalised-phrase match at a position ends past it |
| Upload.CapsMatchShape | components/document-upload.tsx:240 | every match is a capitalised phrase: an upper-case start, at least one space, only letters and spaces |
| Upload.CapsPhrasesShape | components/document-upload.tsx:240 | every phrase found is a capitalised phrase |
| Upload.Shorten | components/document-upload.tsx:263-265 | a tag longer than 15 characters becomes its first 15 and "..."; shorter tags are unchanged |
| Upload.ShortenAll | components/document-upload.tsx:263-265 | each tag is shortened, in order |
| Upload.TopWordsCorrect | components/document-upload.tsx:243-255 | at most five distinct long words outside the common-word list, most frequent first; a word left out makes the list full and occurs no more often than each word kept |
| Upload.UncommonWordsCorrect | components/document-upload.tsx:251-255 | the same ranking facts for any list of words |
| Upload.TagsOf | components/document-upload.tsx:258-265 | at most eight tags, none longer than 18 characters and none a common word |
| Upload.ShortenNotCommon | components/document-upload.tsx:252 | shortening never turns a tag into a common word |
| Upload.CommonWordsShape | components/document-upload.tsx:252 | the common words are four letters long and contain no space |
| Upload.PotentialTagsCorrect | components/document-upload.tsx:238-266 | the tags are bounded and shortened, the candidates hold no duplicates, and a candidate is exactly one of the first three capitalised phrases or a top word |
| Upload.AddTag | components/document-upload.tsx:268-272 | the tag becomes present, the others stay in order, nothing else is added, and duplicate-free tags stay duplicate-free |
| Upload.AddTagIdempotent | components/document-upload.tsx:268-272 | adding the same tag twice is the same as adding it once |
| Upload.LastDot | components/document-upload.tsx:194 | the last dot before a position, or none |
| Upload.StripExtension | components/document-upload.tsx:194 | the stripped name is a prefix of the file name |
| Upload.StripExtensionCorrect | components/document-upload.tsx:194 | a name is changed only by losing a final dot and an extension free of dots and slashes, and such a name always loses it |
| Upload.DefaultTitle | components/document-upload.tsx:195 | an empty title becomes the file name without its extension; otherwise the title is kept |
| Upload.Autofill | components/document-upload.tsx:217-223 | with no tags and some suggested tags, the first three suggested become the tags; otherwise nothing changes |
| ObjectCounts.CountObject | components/document-upload.tsx:169-171 | the counting loop on a plain object computes the counts as written |
| ObjectCounts.OtherWordsCounted | components/document-upload.tsx:169-171 | every word except `constructor` ends with its number of occurrences |
| ObjectCounts.ConstructorNeverCounted | components/document-upload.tsx:169-175 | `constructor` ends as text, never as a number, and never passes `count > 1` |
| ObjectCounts.ConstructorCountLost | components/document-upload.tsx:169-175 | `constructor` written twice is counted as the text "function Object() { [native code] }11" and is dropped |
| ObjectCounts.ConstructorCounted | components/document-upload.tsx:169-178 | with numeric counts, `constructor` written twice is the key term |

## Left out

- Persistence is not modelled: the loading from and saving to `localStorage`, the initial documents and the initialisation flag.
- React state, `useMemo` caching and the component plumbing are not modelled. The context is a class whose fields the operations replace.
- The clock is a parameter: `new Date().toISOString()` is the `now` argument of `AddSearchQuery`.
- File parsing, the network calls made on upload and submit, and the form UI are not modelled. `extractTextFromFile` is not part of this model, so its text and suggested tags enter as inputs.
- Lowercasing and the regex `i` flag cover ASCII letters only. JavaScript folds all of Unicode; the regex classes `\w` and `\b` are ASCII in JavaScript as well.
- Scores are exact rationals (`real`), not IEEE doubles, so rounding in the division is not modelled.
- ObjectCounts.ConstructorNeverCounted: it models the count values as written, but not how `sort` orders a key whose comparison gives NaN. That order depends on the engine.
- Corpus.RecordQueryOthers: it leaves out a new query arriving at a full history, where the oldest entry's count is lost. That case is stated separately by `Corpus.RecordQueryFull`, for histories without repeated queries.
- Upload.AssembleShape: it states the shape of the summary for `Assemble`, the function `Summary` applies to long texts, rather than for `Summary` directly.
- Extraction.KeywordsCorrect: it states the ranking of a plain dictionary of counts. In JavaScript, `wordCounts["constructor"]` first reads the inherited `Object.prototype.constructor`, so the count of that word becomes a string and the comparator `b[1] - a[1]` gives NaN for it. The position of `constructor` in the sorted list then depends on the engine: for "constructor data data" with `maxKeywords` 1 the result can be ["constructor"], where the model gives ["data"]. `Corpus.ContentKeywords` and the keyword suggestions inherit this difference.
- Upload.TopWordsCorrect: the same difference holds for `wordFrequency` in the tag autofill (`components/document-upload.tsx`, lines 246-255): the model counts `constructor` like any other word, while JavaScript ranks it in an engine-defined place.
- Strings are sequences of Unicode characters, while `.length`, `slice` and `substring` in JavaScript count UTF-16 code units. For text outside the Basic Multilingual Plane the lengths differ, and this affects the 200, 100 and 500 character thresholds of `Upload.Summary` and `Upload.LeadShape`, the 200-character cut of `Highlight.Fallback`, the 15-character cut of `Upload.Shorten` (which in JavaScript can split a surrogate pair), and the token filters `length > 3` and `length > 2`.
- The duplicate `escapeRegExp` in `lib/document-context.tsx` (lines 384-386) is the same function as `Escaping.Escape`, so it is not modelled twice.

## Findings

| source | as written | input that shows it | evidently intended | confidence | as-written member | corrected member |
|---|---|---|---|---|---|---|
| components/document-upload.tsx:169-175 | the counting step reads `wordFrequency[word]`, which is the inherited `Object.prototype.constructor` when the word `constructor` is first seen, so its count becomes the text of the function `Object` with "1" appended, and `count > 1` is false however often the word occurs | a text of at least 200 characters containing "constructor constructor" (a shorter text is returned as its own summary, at line 146, before any counting) | `constructor` is counted like any other word and listed as a key term when it repeats | not executed | ObjectCounts.ConstructorCountLost | ObjectCounts.ConstructorCounted |
