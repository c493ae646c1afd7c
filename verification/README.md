# HyDrive-RAG question-answering backend, modelled in Dafny

This project models the core of the HyDrive-RAG `qa-backend-faiss` service. The service answers questions about Hyundai owner's manuals. A manual arrives as JSON, one upload per vehicle. The service splits it into sections, ranks the sections against a question, and builds a Korean answer from the best one.

The model covers these parts:

- **The lexical section ranker** (`simple_search.py`):
  - the tokenizer;
  - the title, keyword, content and bonus scorers;
  - the 0.4 / 0.3 / 0.2 / 0.1 weighted total;
  - the threshold-sort-take search;
  - the document store, which a new upload replaces outright.
- **The semantic variant** (`json_search_service.py`):
  - the simpler title, keyword and bonus scorers;
  - the 0.6 / 0.15 / 0.15 / 0.1 total;
  - the embedding-cache flag and what a second upload does to it.

  The content signal is a cosine similarity. The model takes it as one input value per section.
- **The rule-based answer generator** (`answer_generator.py`):
  - intent classification;
  - keyword extraction;
  - relevant-sentence selection;
  - sentence deduplication in `_clean_content`;
  - the fallback answer layout;
  - the source-citation footer.
- **The text formatter** (`utils/text_formatter.py`):
  - line deduplication;
  - topic headers;
  - summarising;
  - step classification and numbering;
  - the manual-response page note.
- **The pure parts of `main.py`**:
  - the frontend/backend vehicle-name maps;
  - manual file names and recognising a vehicle from them;
  - the outcomes of the `/upload_json/{vehicle}` and `/ask` endpoints, in the order the checks run.

In `/ask`, the search store and the answer generator are inputs. In `/upload_json/{vehicle}`, the success of the file write is an input.

## Building the model

Scores are Dafny `real`s, which are exact rationals. The source computes them in binary floating point, which rounds. "Left out" lists what that rounding can change.

The source sorts with Python's stable `list.sort(reverse=True)`. The model uses an insertion sort (`Ranking.SortDesc`). It is proved to be sorted, a permutation and stable. `Ranking.SortDescUnique` then shows that any sorted, stable rearrangement is equal to it. So the model's result is the only list the source's sort can produce.

Python set enumeration order is unspecified. `_extract_question_keywords` returns `list(set(...))`, so its order is unspecified too. The model therefore turns that set into a list in an order given as a parameter. `AnswerSentences.RelevantSentencesOrderFree` and `AnswerGenerator.GenerateOrderFree` then show that the answer is the same for every order.

The modules are:

| module | what it holds |
|---|---|
| `Text` | Python `str` operations on `seq<char>` |
| `Seqs` | filter, map, distinctness, subsequence |
| `Optional` | the option type |
| `Lookup` | the first-match table search that the intent, topic and vehicle tables share |
| `Tokenizer` | the tokenizers |
| `Ratios` | capped ratios and `min(x, 1.0)` |
| `Ranking` | stable sort and top-k |
| `Manual` | the section record and the document-to-sections normalisation |
| `Retrieval` | the shared threshold-sort-take |
| `LexicalScoring` and `SimpleSearch` | the lexical ranker and its store |
| `SemanticSearch` | the semantic variant and its store |
| `AnswerIntent`, `AnswerSentences`, `SourceInfo`, `AnswerGenerator` | the answer generator |
| `TextFormatter` | the text formatter |
| `Vehicles` | the vehicle-name helpers in `main.py` |
| `Api` | the two endpoints |

## Model

Every source path is relative to the repository root.

| member | source | states |
|---|---|---|
| Tokenizer.Tokenize | HyDrive-RAG/qa-backend-faiss/services/simple_search.py:192-203 | Empty text has no tokens. Every token is non-empty and is drawn from Hangul syllables, lower-case ASCII letters and digits. A token has at least two characters unless it is all digits. |
| Tokenizer.TokenizeSeparated | HyDrive-RAG/qa-backend-faiss/services/simple_search.py:198 | A character outside the word class splits the text: the tokens of the whole are the tokens of each side, concatenated. |
| Tokenizer.TokenizeWord | HyDrive-RAG/qa-backend-faiss/services/simple_search.py:198-201 | A single run of word characters gives its lower-cased form as one token, unless it is a one-character non-digit, which is dropped. |
| Tokenizer.TokenizeIdempotent | HyDrive-RAG/qa-backend-faiss/services/simple_search.py:192-203 | Joining the tokens with spaces and tokenizing again gives the same tokens. |
| Tokenizer.Runs | HyDrive-RAG/qa-backend-faiss/services/simple_search.py:198 | `re.findall` of a one-class `+` pattern: every run is non-empty and lies wholly inside the class. |
| Tokenizer.RunsOfJoin | HyDrive-RAG/qa-backend-faiss/services/simple_search.py:198 | The runs of in-class words joined by an out-of-class separator are exactly those words, so the run finder inverts the join. |
| Tokenizer.RunsSeparator | HyDrive-RAG/qa-backend-faiss/services/simple_search.py:198 | An out-of-class character splits the run sequence into the runs on its left followed by the runs on its right. |
| Tokenizer.SplitWhitespace | HyDrive-RAG/qa-backend-faiss/services/json_search_service.py:137-138 | `str.split()`: every word is non-empty and contains no whitespace. |
| Tokenizer.SplitWhitespaceOfJoin | HyDrive-RAG/qa-backend-faiss/services/json_search_service.py:137-138 | Splitting space-joined non-empty, space-free words gives back those words. |
| Tokenizer.HangulWords | HyDrive-RAG/qa-backend-faiss/services/answer_generator.py:76 | `re.findall(r'[가-힣]{2,}')`: every word is a run of at least two Hangul syllables. |
| Tokenizer.HangulWordsOccur | HyDrive-RAG/qa-backend-faiss/services/answer_generator.py:76 | Every Hangul word occurs in the question as a substring. This is why the token-based intent test implies the substring-based one. |
| LexicalScoring.TitleScore | HyDrive-RAG/qa-backend-faiss/services/simple_search.py:103-123 | The score is in [0,1], and 0 for an empty title or a query without tokens. It is 1 when the query's token set lies inside the title's. For a non-empty title, it is positive exactly when some query token and title token contain one another. |
| LexicalScoring.KeywordCredit | HyDrive-RAG/qa-backend-faiss/services/simple_search.py:133-138 | One keyword earns 1 when it occurs in the lower-cased query. It earns 0 exactly when it does not occur and contains no query token. Otherwise it earns 0.5. |
| LexicalScoring.CreditSum | HyDrive-RAG/qa-backend-faiss/services/simple_search.py:131-138 | The sum lies between 0 and the number of keywords. It reaches the maximum exactly when every keyword earns full credit, and is 0 exactly when none earns any. |
| LexicalScoring.KeywordScore | HyDrive-RAG/qa-backend-faiss/services/simple_search.py:125-140 | The score is in [0,1], and 0 for no keywords. It is 1 exactly when every lower-cased keyword occurs in the lower-cased query. It is 0 exactly when no keyword earns credit. |
| LexicalScoring.Occurrences | HyDrive-RAG/qa-backend-faiss/services/simple_search.py:154 | `str.count`: an empty needle counts once per position plus one. A non-empty needle counts a positive number exactly when it occurs. The non-overlapping occurrences fit in the text. |
| LexicalScoring.MatchTotal | HyDrive-RAG/qa-backend-faiss/services/simple_search.py:151-160 | The match total is non-negative. With non-empty words, it is positive exactly when some query word occurs in the content. |
| LexicalScoring.MatchTotalAppend | HyDrive-RAG/qa-backend-faiss/services/simple_search.py:152 | The total of a concatenated word list is the sum of the two totals: each list element is counted on its own. |
| LexicalScoring.RepeatedQueryCountsTwice | HyDrive-RAG/qa-backend-faiss/services/simple_search.py:148-152 | Because the query tokens form a list, not a set, a token list repeated twice scores twice. |
| LexicalScoring.ContentScore | HyDrive-RAG/qa-backend-faiss/services/simple_search.py:142-167 | The score is in [0,1], and 0 for empty content or a query without tokens. For non-empty content, it is positive exactly when some query token occurs in the lower-cased content. |
| LexicalScoring.BonusScore | HyDrive-RAG/qa-backend-faiss/services/simple_search.py:169-190 | The bonus is exactly the sum of 0.3 for procedure, 0.2 for trouble and 0.1 for safety. Each part is earned exactly when its condition holds, and the cap at 1.0 never applies. So the bonus lies in {0,…,0.6} and is 0 exactly when no condition holds. In exact arithmetic it is above 0.3 only with the procedure part. |
| LexicalScoring.Signals | HyDrive-RAG/qa-backend-faiss/services/simple_search.py:89-96 | All four signals of a section are in [0,1]. |
| LexicalScoring.Total | HyDrive-RAG/qa-backend-faiss/services/simple_search.py:98-101 | The weights are non-negative and sum to one, so the total of in-range signals is in [0,1]. |
| Ratios.ToSet | HyDrive-RAG/qa-backend-faiss/services/simple_search.py:108-109 | `set(list)`: the set holds exactly the list's elements. |
| Ratios.CappedRatio | HyDrive-RAG/qa-backend-faiss/services/simple_search.py:123 | `min(num/den, 1.0)`: for a non-negative numerator the result is in [0,1]. It is 1 exactly when the numerator reaches the denominator, and positive exactly when the numerator is. |
| Ranking.SortDesc | HyDrive-RAG/qa-backend-faiss/services/simple_search.py:81 | `sort(key=score, reverse=True)`: the result is a permutation of the input and sorted by non-increasing score. Elements with equal scores keep their input order. |
| Ranking.InsertDescSorted | HyDrive-RAG/qa-backend-faiss/services/simple_search.py:81 | Inserting into a sorted list keeps it sorted. |
| Ranking.SortDescUnique | HyDrive-RAG/qa-backend-faiss/services/simple_search.py:81 | Two lists that are both sorted and have the same equal-score groups in the same order are equal. So the stable sort's output is determined. |
| Ranking.Take | HyDrive-RAG/qa-backend-faiss/services/simple_search.py:87 | `s[:k]` with Python slice semantics: the result is a prefix. For `k ≥ 0` its length is `min(k, len)`. For negative `k` it drops `-k` elements from the end. |
| Ranking.TopK | HyDrive-RAG/qa-backend-faiss/services/simple_search.py:81-87 | Sort, then take `k`. The result is sorted, holds `min(k, n)` elements drawn from the candidates, and keeps ties in candidate order. Every candidate left out scores no higher than every one kept. |
| Retrieval.Rank | HyDrive-RAG/qa-backend-faiss/services/simple_search.py:58-87 | Both services' shared selection: threshold, sort, take. It returns at most `k` results, each scoring above 0.05 and taken from the input, sorted and tie-stable. Nothing left out beats anything kept. With `k` at least the input size, every result above 0.05 is returned. |
| Manual.NormalizeSection | HyDrive-RAG/qa-backend-faiss/services/simple_search.py:32-40 | A section record takes the document's file name as its source. Each field that is present (section number, title, page range, content, keywords, subsections) is carried over unchanged. A missing one becomes "" or []. |
| Manual.PrepareSections | HyDrive-RAG/qa-backend-faiss/services/simple_search.py:27-43 | There is one normalised record per input section, in input order. |
| Manual.DocumentVehicle | HyDrive-RAG/qa-backend-faiss/services/simple_search.py:205-224 | The result is "unknown" exactly when no vehicle name or alias occurs in the lower-cased file name. Otherwise it is the first vehicle in table order with such an alias: that vehicle has one and no earlier vehicle does. |
| SimpleSearch.AddDocument | HyDrive-RAG/qa-backend-faiss/services/simple_search.py:12-43 | A document without "sections" leaves the store unchanged. Otherwise the store holds exactly that document and one normalised section per input section, in order. |
| SimpleSearch.Score | HyDrive-RAG/qa-backend-faiss/services/simple_search.py:59-78 | A result carries its section and its four signals, and its total is in [0,1]. |
| SimpleSearch.ScoreAll | HyDrive-RAG/qa-backend-faiss/services/simple_search.py:58-60 | There is one scored result per section, in section order. |
| SimpleSearch.Search | HyDrive-RAG/qa-backend-faiss/services/simple_search.py:45-87 | The result is empty when no document or no section is loaded. Otherwise it has exactly `min(k, n)` results for `k >= 0`, where `n` is the number of sections scoring above 0.05. Each result scores above 0.05, is its section's own score, and comes from the store. The results are sorted, keep ties in section order, and nothing missing beats anything returned. With a large enough `k`, every section above the threshold is returned. |
| SimpleSearch.SecondLoadReplaces | HyDrive-RAG/qa-backend-faiss/services/simple_search.py:18-29 | A second valid upload leaves the store as if only it had been loaded. |
| SimpleSearch.ResultsComeFromLatest | HyDrive-RAG/qa-backend-faiss/services/simple_search.py:12-87 | After an upload, every search result names the uploaded document as its source. |
| SemanticSearch.CacheFileName | HyDrive-RAG/qa-backend-faiss/services/json_search_service.py:39 | The cache file name is the vehicle name followed by "_embeddings.pkl". |
| SemanticSearch.LoadCache | HyDrive-RAG/qa-backend-faiss/services/json_search_service.py:42-58 | A complete cache replaces the embeddings and sections and sets the flag. A cache that is missing or fails to load leaves the sections and flag as they were. The flag never goes back to false. |
| SemanticSearch.AddDocument | HyDrive-RAG/qa-backend-faiss/services/json_search_service.py:22-35 | A document without "sections" changes nothing. Otherwise the document list becomes that document. The sections come from the vehicle's cache when it is complete, and are otherwise left as before. The flag is never cleared. |
| SemanticSearch.Words | HyDrive-RAG/qa-backend-faiss/services/json_search_service.py:137-138 | The word set is exactly the words of the lower-cased text split on whitespace. |
| SemanticSearch.TitleScore | HyDrive-RAG/qa-backend-faiss/services/json_search_service.py:132-142 | The score is in [0,1], and 0 for an empty title. It is positive exactly when query and title share a word. For a query with words, it is 1 exactly when every query word is a title word. |
| SemanticSearch.KeywordMatches | HyDrive-RAG/qa-backend-faiss/services/json_search_service.py:150 | The count is 0 exactly when no keyword occurs in the query, and equals the list length exactly when every keyword does. |
| SemanticSearch.KeywordMatchesCountsFilter | HyDrive-RAG/qa-backend-faiss/services/json_search_service.py:150 | The count equals the number of keywords that the occurrence filter keeps. |
| SemanticSearch.KeywordScore | HyDrive-RAG/qa-backend-faiss/services/json_search_service.py:144-151 | `min(matches/2, 1)`: the score is 0, 0.5 or 1, according to whether zero, one, or two or more keywords occur. |
| SemanticSearch.BonusScore | HyDrive-RAG/qa-backend-faiss/services/json_search_service.py:153-163 | The bonus is always 0.1 or 0.2. It is 0.2 exactly when a procedure query meets procedure content. |
| SemanticSearch.Total | HyDrive-RAG/qa-backend-faiss/services/json_search_service.py:127-130 | The weights are non-negative and sum to one, so the total of in-range signals is in [0,1]. |
| SemanticSearch.Score | HyDrive-RAG/qa-backend-faiss/services/json_search_service.py:86-107 | The content signal is the section's similarity. An in-range similarity gives an in-range total. A fully matching title alone passes the threshold. |
| SemanticSearch.ScoreAll | HyDrive-RAG/qa-backend-faiss/services/json_search_service.py:86-89 | Section `i` is scored with similarity `i`. |
| SemanticSearch.Search | HyDrive-RAG/qa-backend-faiss/services/json_search_service.py:60-116 | The result is empty when no document is loaded or the flag is unset. It is an error exactly when similarities are missing for some section. Otherwise it has exactly `min(k, n)` results for `k >= 0`, where `n` is the number of cached sections scoring above 0.05. The results are sorted, tie-stable, above 0.05 and taken from the scored sections, and nothing missing beats anything returned. |
| SemanticSearch.FreshLoad | HyDrive-RAG/qa-backend-faiss/services/json_search_service.py:37-72 | On a fresh service, the flag is set exactly when the vehicle's cache is complete. Without one, every search returns nothing. |
| SemanticSearch.StaleSectionsSurvive | HyDrive-RAG/qa-backend-faiss/services/json_search_service.py:28-58 | Loading a second manual whose cache is missing makes it the only document. The flag stays set and the first manual's cached sections stay in place, so searches answer from the old manual. |
| Lookup.FirstEntry | HyDrive-RAG/qa-backend-faiss/services/answer_generator.py:77-84 | A first-match table search: none exactly when no entry has a matching word. Otherwise it is the earliest entry that has one. |
| Lookup.FirstEntryAt | HyDrive-RAG/qa-backend-faiss/services/answer_generator.py:77-84 | If entry `i` matches and no earlier entry does, the search returns entry `i`. |
| AnswerIntent.AnalyzeIntent | HyDrive-RAG/qa-backend-faiss/services/answer_generator.py:67-86 | The result is one of the five table labels or "궁금하신 내용". It is the default exactly when no intent word occurs in the question. When some intent word is one of the question's Hangul words, the result is the first such intent in table order. Otherwise a non-default result is the first intent in table order with a word inside the lower-cased question. |
| AnswerIntent.LabelsAreNotDefault | HyDrive-RAG/qa-backend-faiss/services/answer_generator.py:68-86 | No table label equals the default label, so the default result means "no match". |
| AnswerIntent.HeadingFor | HyDrive-RAG/qa-backend-faiss/services/answer_generator.py:129-137 | An intent label gets the first matching row's icon and heading. An unknown label gets ("📝", "관련 정보"). |
| AnswerIntent.HeadingMatchesIntent | HyDrive-RAG/qa-backend-faiss/services/answer_generator.py:129-137 | The answer heading is the default heading exactly when the question's intent is the default intent. |
| AnswerIntent.HeadingsNotDefault | HyDrive-RAG/qa-backend-faiss/services/answer_generator.py:129-137 | No table heading equals the default heading. |
| AnswerIntent.QuestionKeywords | HyDrive-RAG/qa-backend-faiss/services/answer_generator.py:88-108 | A word is selected exactly when it is a category key with a synonym among the question's Hangul words, or a domain term among them. |
| AnswerIntent.KeywordCandidatesComplete | HyDrive-RAG/qa-backend-faiss/services/answer_generator.py:101-108 | Every selected keyword is one of the five category keys or nine domain terms. |
| AnswerIntent.KeywordCandidatesDistinct | HyDrive-RAG/qa-backend-faiss/services/answer_generator.py:89-105 | The fourteen possible keywords are pairwise distinct. |
| AnswerIntent.QuestionKeywordList | HyDrive-RAG/qa-backend-faiss/services/answer_generator.py:108 | `list(set(...))`: a duplicate-free list with exactly the selected keywords. |
| AnswerSentences.SentencePieces | HyDrive-RAG/qa-backend-faiss/services/answer_generator.py:111 | The pieces are the stripped pieces of the text split at '.', in order, with exactly the empty ones dropped: a subsequence of the stripped pieces that loses only empty strings. Each is non-empty and stripped. |
| AnswerSentences.Hits | HyDrive-RAG/qa-backend-faiss/services/answer_generator.py:115 | The hit count is at most the number of keywords. It is positive exactly when some keyword occurs in the sentence. |
| AnswerSentences.HitsOfDistinct | HyDrive-RAG/qa-backend-faiss/services/answer_generator.py:115 | For distinct keywords, the hit count is the number of keywords the filter finds. |
| AnswerSentences.Candidates | HyDrive-RAG/qa-backend-faiss/services/answer_generator.py:114-117 | A candidate is a piece that is 10–100 long with a positive hit count, carrying that count. Every piece that qualifies is a candidate. |
| AnswerSentences.Pick | HyDrive-RAG/qa-backend-faiss/services/answer_generator.py:119-120 | At most five candidates, in non-increasing hit count. |
| AnswerSentences.PickFair | HyDrive-RAG/qa-backend-faiss/services/answer_generator.py:119-120 | Equal counts keep content order, and no candidate left out has more hits than one picked. |
| AnswerSentences.RelevantSentences | HyDrive-RAG/qa-backend-faiss/services/answer_generator.py:110-120 | No keywords give no sentences. Otherwise there are as many as the qualifying pieces, up to five. Each is a piece of the content, 10–100 long, with at least one keyword. They come in non-increasing keyword count, and equal counts keep content order. No qualifying piece left out has more keywords than one picked. |
| AnswerSentences.QualifyingScored | HyDrive-RAG/qa-backend-faiss/services/answer_generator.py:114-117 | The candidates' texts are exactly the pieces that are 10–100 long with a keyword, in content order. |
| AnswerSentences.RelevantSentencesOrderFree | HyDrive-RAG/qa-backend-faiss/services/answer_generator.py:108-120 | The selection does not depend on the order in which the keyword set is listed. |
| AnswerSentences.Dedupe | HyDrive-RAG/qa-backend-faiss/services/answer_generator.py:313-318 | Every kept sentence has a key longer than 10 that was not seen before. It is the first input sentence with that key. |
| AnswerSentences.DedupeDistinct | HyDrive-RAG/qa-backend-faiss/services/answer_generator.py:316-317 | Kept sentences have pairwise different keys. |
| AnswerSentences.DedupeComplete | HyDrive-RAG/qa-backend-faiss/services/answer_generator.py:316-318 | Every input sentence with a key longer than 10 is either seen already or represented by a kept sentence with the same key. |
| AnswerSentences.DedupeKeepsOrder | HyDrive-RAG/qa-backend-faiss/services/answer_generator.py:313-318 | The kept sentences are a subsequence of the input. |
| AnswerSentences.KeptSentences | HyDrive-RAG/qa-backend-faiss/services/answer_generator.py:309-318 | The kept sentences are stripped pieces whose whitespace-collapsed lower-cased form is longer than 10. They keep the order of the content, and each is the first piece with its form. Their forms are pairwise distinct, and every qualifying piece's form is represented. |
| AnswerSentences.PiecesOfJoin | HyDrive-RAG/qa-backend-faiss/services/answer_generator.py:309-320 | Splitting ". "-joined clean sentences at '.' and stripping gives back the sentences. |
| AnswerSentences.CleanedPieces | HyDrive-RAG/qa-backend-faiss/services/answer_generator.py:320 | The round trip also survives the final `.strip()` of the joined text. |
| AnswerSentences.CleanContent | HyDrive-RAG/qa-backend-faiss/services/answer_generator.py:309-320 | Cutting the cleaned content at '.' again, as the sentence picker does, gives exactly the deduplicated sentences, in order. |
| SourceInfo.RemoveMarked | HyDrive-RAG/qa-backend-faiss/services/answer_generator.py:233-234 | `re.sub(marker + '[^\n]*', '', s)`: the result is never longer than the input. |
| SourceInfo.RemoveMarkedAt | HyDrive-RAG/qa-backend-faiss/services/answer_generator.py:233-234 | For a marker that starts at a line break: text before the first marker is kept as is. The marker and the rest of its line are removed, and the removal goes on from the next line break. With `RemoveMarkedUnmarked` this fixes the result for every input. |
| SourceInfo.RemoveMarkedUnmarked | HyDrive-RAG/qa-backend-faiss/services/answer_generator.py:233-234 | Text without the marker is unchanged. |
| SourceInfo.RemoveMarkedClears | HyDrive-RAG/qa-backend-faiss/services/answer_generator.py:233-234 | For a marker that starts at a line break, no occurrence is left afterwards. |
| SourceInfo.StripFooter | HyDrive-RAG/qa-backend-faiss/services/answer_generator.py:232-234 | After both substitutions, no line starting "💡 더 자세한 내용은" remains. An answer without one is unchanged. |
| SourceInfo.NoLongWithoutShort | HyDrive-RAG/qa-backend-faiss/services/answer_generator.py:233-234 | The two-newline marker contains the one-newline marker. |
| SourceInfo.UnmarkedAnswer | HyDrive-RAG/qa-backend-faiss/services/answer_generator.py:233-234 | The two substitutions leave an unmarked answer intact. |
| SourceInfo.StripFooterKeepsFirstLine | HyDrive-RAG/qa-backend-faiss/services/answer_generator.py:233-234 | The answer's first line survives the substitutions. |
| SourceInfo.PageString | HyDrive-RAG/qa-backend-faiss/services/answer_generator.py:240-252 | The page text is empty exactly when the page range is empty. |
| SourceInfo.PageStringRoundTrip | HyDrive-RAG/qa-backend-faiss/services/answer_generator.py:243-252 | `[a]` and `[a,a]` read back as the single number a, and `[a,b]` with a≠b as the two numbers a and b. |
| SourceInfo.PageStringShape | HyDrive-RAG/qa-backend-faiss/services/answer_generator.py:276-283 | A page text from a page range is already stripped and is all digits or contains '-'. So it always takes the "페이지" suffix. |
| SourceInfo.PageLabel | HyDrive-RAG/qa-backend-faiss/services/answer_generator.py:275-289 | The page label is empty exactly when the stripped page is empty or "None". Otherwise it starts with a space and the stripped page. A numeric or dashed page gets "페이지". |
| SourceInfo.Citation | HyDrive-RAG/qa-backend-faiss/services/answer_generator.py:274-298 | A page wins. The chapter is shown only when there is no page. Nothing is shown when there is neither a page nor a chapter, and the section title is missing or equals the manual title. |
| SourceInfo.SectionCitation | HyDrive-RAG/qa-backend-faiss/services/answer_generator.py:237-298 | For a search result: a page range gives its page text with "페이지". Otherwise a section number gives "(섹션 …)". Otherwise the citation is empty, because the section title always equals the manual title. |
| SourceInfo.CitationIsOneLine | HyDrive-RAG/qa-backend-faiss/services/answer_generator.py:272-298 | The citation never starts a new line. |
| SourceInfo.AddSourceInfo | HyDrive-RAG/qa-backend-faiss/services/answer_generator.py:231-302 | The output starts with the answer with its old footers removed, and ends with the "💡 더 자세한 내용은 공식 매뉴얼에서 확인하세요." footer. |
| SourceInfo.SingleFooter | HyDrive-RAG/qa-backend-faiss/services/answer_generator.py:231-302 | The footer line occurs exactly once: nothing before the final footer contains its marker. |
| AnswerGenerator.Shorten | HyDrive-RAG/qa-backend-faiss/services/answer_generator.py:144-150 | A sentence of at most 200 characters is kept. A longer one is cut after the last '.' within its first 200 characters. Without such a '.', it is cut to 200 characters followed by "...". |
| AnswerGenerator.NumberedLists | HyDrive-RAG/qa-backend-faiss/services/answer_generator.py:143-151 | Every sentence appears in the numbered list on its own line with its number. |
| AnswerGenerator.Block | HyDrive-RAG/qa-backend-faiss/services/answer_generator.py:153-163 | A warning or tip block is empty exactly when no sentence qualifies. Otherwise it starts with its header. |
| AnswerGenerator.BlockLists | HyDrive-RAG/qa-backend-faiss/services/answer_generator.py:153-163 | The first `limit` qualifying sentences each appear as a bullet. |
| AnswerGenerator.FallbackAnswer | HyDrive-RAG/qa-backend-faiss/services/answer_generator.py:122-167 | Both branches end with the source footer. |
| AnswerGenerator.FallbackOpening | HyDrive-RAG/qa-backend-faiss/services/answer_generator.py:123-127 | The "관련된 내용을 찾지 못했습니다" text is chosen exactly when there are no sentences. |
| AnswerGenerator.OpeningsDiffer | HyDrive-RAG/qa-backend-faiss/services/answer_generator.py:122-127 | The two openings differ within their first line. |
| AnswerGenerator.FirstLineKept | HyDrive-RAG/qa-backend-faiss/services/answer_generator.py:231-302 | Adding the source information keeps the answer's opening. |
| AnswerGenerator.MainBlockLists | HyDrive-RAG/qa-backend-faiss/services/answer_generator.py:142-151 | With several sentences, the first eight each appear numbered, shortened. |
| AnswerGenerator.LineHolds | HyDrive-RAG/qa-backend-faiss/services/answer_generator.py:144-151 | A numbered line contains the shortened stripped sentence. |
| AnswerGenerator.BodyOpening | HyDrive-RAG/qa-backend-faiss/services/answer_generator.py:127-138 | The answer starts with the banner and contains the intent's heading. |
| AnswerGenerator.BodyLists | HyDrive-RAG/qa-backend-faiss/services/answer_generator.py:140-151 | A single sentence appears whole. With several, each of the first eight appears shortened. |
| AnswerGenerator.BodyWarnings | HyDrive-RAG/qa-backend-faiss/services/answer_generator.py:153-157 | The warning header appears when some sentence holds a warning term. The first three warning sentences appear as bullets. |
| AnswerGenerator.BodyTips | HyDrive-RAG/qa-backend-faiss/services/answer_generator.py:159-163 | The tip header appears when some sentence holds a tip term. The first two tip sentences appear as bullets. |
| AnswerGenerator.NotesListed | HyDrive-RAG/qa-backend-faiss/services/answer_generator.py:153-163 | Any block of the body shows its header and its first `limit` qualifying bullets. |
| AnswerGenerator.GenerateAnswer | HyDrive-RAG/qa-backend-faiss/services/answer_generator.py:9-20 | The answer ends with the footer. It opens with the not-found text exactly when no sentence was picked. |
| AnswerGenerator.GenerateOrderFree | HyDrive-RAG/qa-backend-faiss/services/answer_generator.py:9-20 | The answer does not depend on the enumeration order of the keyword set. |
| AnswerGenerator.GenerateWithoutKeywords | HyDrive-RAG/qa-backend-faiss/services/answer_generator.py:122-125 | A question with no keywords gets the not-found answer with the source footer. |
| AnswerGenerator.GenerateShowsSentences | HyDrive-RAG/qa-backend-faiss/services/answer_generator.py:9-20 | When sentences are picked, the answer is their layout plus the footer, and every picked sentence appears verbatim in it. |
| AnswerGenerator.ShownVerbatim | HyDrive-RAG/qa-backend-faiss/services/answer_generator.py:110-120 | A selected sentence is stripped and at most 100 long, so the 200-character cut never touches it. |
| AnswerGenerator.AsIs | HyDrive-RAG/qa-backend-faiss/services/answer_generator.py:144-146 | A short stripped sentence passes through the shortening unchanged. |
| TextFormatter.KeepLines | HyDrive-RAG/qa-backend-faiss/utils/text_formatter.py:100-105 | At most as many lines as the input, each taken from it. Every kept non-heading line has a key not seen before, and is the first input line with that key. |
| TextFormatter.KeepLinesSubsequence | HyDrive-RAG/qa-backend-faiss/utils/text_formatter.py:101-104 | The kept lines are a subsequence of the input lines. |
| TextFormatter.KeepLinesHeadings | HyDrive-RAG/qa-backend-faiss/utils/text_formatter.py:103 | Every line starting with '#' is kept, in order. |
| TextFormatter.KeepLinesFresh | HyDrive-RAG/qa-backend-faiss/utils/text_formatter.py:102-105 | No kept non-heading line shares its stripped lower-cased form with an earlier kept line. |
| TextFormatter.KeepLinesComplete | HyDrive-RAG/qa-backend-faiss/utils/text_formatter.py:101-105 | Every dropped line is represented by a kept line with the same form. |
| TextFormatter.KeepLinesIdempotent | HyDrive-RAG/qa-backend-faiss/utils/text_formatter.py:99-106 | Deduplicating twice equals deduplicating once. |
| TextFormatter.RemoveDuplicateLines | HyDrive-RAG/qa-backend-faiss/utils/text_formatter.py:99-106 | The output lines are a subsequence of the input lines that keeps every heading. No two non-heading lines share a form, and each non-heading line kept is the first input line of its form. Every input line is kept or represented. |
| TextFormatter.RemoveDuplicateLinesIdempotent | HyDrive-RAG/qa-backend-faiss/utils/text_formatter.py:99-106 | Applying the function twice equals applying it once. |
| TextFormatter.Summarize | HyDrive-RAG/qa-backend-faiss/utils/text_formatter.py:118-120 | The summary's lines are a subsequence of the input lines. Every non-empty one starts with '#' or contains ⚠️, 주의, 경고, 중요 or 방법, and every input line that does is in the summary. |
| TextFormatter.SummarizeIdempotent | HyDrive-RAG/qa-backend-faiss/utils/text_formatter.py:118-120 | Summarising twice equals summarising once. |
| TextFormatter.TopicHeader | HyDrive-RAG/qa-backend-faiss/utils/text_formatter.py:92-96 | The header starts with "# " and ends with " 방법". |
| TextFormatter.AddTopicTitle | HyDrive-RAG/qa-backend-faiss/utils/text_formatter.py:74-96 | The result always starts with '#'. A heading is returned unchanged. Other text gets the topic header, a blank line, then the text. |
| TextFormatter.AddTopicTitleIdempotent | HyDrive-RAG/qa-backend-faiss/utils/text_formatter.py:74-96 | Adding a topic title twice equals adding it once. |
| TextFormatter.TopicChoice | HyDrive-RAG/qa-backend-faiss/utils/text_formatter.py:78-96 | The first topic in table order that occurs in the text gives the header's icon and topic. |
| TextFormatter.NoTopic | HyDrive-RAG/qa-backend-faiss/utils/text_formatter.py:92-96 | Without a topic, the header is "# 📖 " followed by the action. |
| TextFormatter.TaskChoice | HyDrive-RAG/qa-backend-faiss/utils/text_formatter.py:85-94 | The task is the one named by the first action word in table order that occurs in the text (교환 names 교체). When none occurs it is "사용", so the header ends "사용 방법". |
| TextFormatter.Finish | HyDrive-RAG/qa-backend-faiss/utils/text_formatter.py:44 | Corrected: a finished sentence is the stripped piece, ending in exactly one added or existing '.'. |
| TextFormatter.FinishKeepsOnePeriod | HyDrive-RAG/qa-backend-faiss/utils/text_formatter.py:44 | A piece whose stripped form already ends in '.' is only stripped. |
| TextFormatter.FinishIdempotent | HyDrive-RAG/qa-backend-faiss/utils/text_formatter.py:44 | Finishing a finished sentence changes nothing. |
| TextFormatter.FinishAsWrittenDoubles | HyDrive-RAG/qa-backend-faiss/utils/text_formatter.py:44 | As written, a finished sentence followed by a space, such as "가나. ", gets a second '.' ("가나.."), because the period test runs on the unstripped piece. |
| TextFormatter.FinishAsWritten | HyDrive-RAG/qa-backend-faiss/utils/text_formatter.py:44 | As written: the result is the stripped piece with at most one '.' added, and it ends in '.'. A '.' is added whenever the unstripped piece does not end in one. |
| TextFormatter.SentencesFinished | HyDrive-RAG/qa-backend-faiss/utils/text_formatter.py:43-44 | Corrected finishing: every sentence is stripped, ends in '.' and is already finished. Every non-blank piece contributes its finished form. |
| TextFormatter.Sentences | HyDrive-RAG/qa-backend-faiss/utils/text_formatter.py:43-44 | Corrected finishing: there are no more sentences than pieces, and each ends in '.'. |
| TextFormatter.Classified | HyDrive-RAG/qa-backend-faiss/utils/text_formatter.py:46-54 | Steps and others together are a rearrangement of the sentences. Each keeps the input order. Every step passes the corrected step test and is not among the others. |
| TextFormatter.InstructionEndingNeverMatches | HyDrive-RAG/qa-backend-faiss/utils/text_formatter.py:47-50 | As written, no sentence ending in '.' ends in "십시오" or "하세요". So only the sequencing words make a finished sentence a step. |
| TextFormatter.InstructionIsStep | HyDrive-RAG/qa-backend-faiss/utils/text_formatter.py:47-50 | Corrected: a stripped piece ending in "십시오" or "하세요" is a step once finished. |
| TextFormatter.StepsNumbered | HyDrive-RAG/qa-backend-faiss/utils/text_formatter.py:56 | Step `i` is labelled with the number `i+1`, which reads back, followed by the step itself. |
| TextFormatter.ListBlock | HyDrive-RAG/qa-backend-faiss/utils/text_formatter.py:66-69 | A block is empty exactly when it has no items. Otherwise it starts with its header. |
| TextFormatter.NotesSplitOthers | HyDrive-RAG/qa-backend-faiss/utils/text_formatter.py:59-64 | Important notes are the non-steps with a warning term, and additional information is the rest. The `s not in steps` test removes nothing. |
| TextFormatter.BlocksPresent | HyDrive-RAG/qa-backend-faiss/utils/text_formatter.py:66-69 | The "주의사항" block appears exactly when some non-step sentence has a warning term. The "추가 정보" block appears exactly when some non-step sentence has none. |
| TextFormatter.FormatStepsHolds | HyDrive-RAG/qa-backend-faiss/utils/text_formatter.py:56-69 | With the corrected sentences and step test, the output shows every numbered step and every emphasised note. |
| TextFormatter.FormatSteps | HyDrive-RAG/qa-backend-faiss/utils/text_formatter.py:56-71 | With the corrected sentences and step test, the layout is empty exactly when there are no sentences. |
| TextFormatter.ManualResponse | HyDrive-RAG/qa-backend-faiss/utils/text_formatter.py:109-115 | With a page range, the output ends with the page note. A title is prefixed as a "# 📖" heading only when the text is not already a heading. Without either, the text is returned unchanged. |
| TextFormatter.PageNoteReads | HyDrive-RAG/qa-backend-faiss/utils/text_formatter.py:114 | The page note contains "a-b페이지", and both numbers read back. |
| Vehicles.Get | HyDrive-RAG/qa-backend-faiss/main.py:100-106 | `dict.get(key, key)`: a key missing from the table maps to itself. |
| Vehicles.GetRow | HyDrive-RAG/qa-backend-faiss/main.py:100-106 | With distinct keys, each table key maps to its row's value. |
| Vehicles.MappingDistinct | HyDrive-RAG/qa-backend-faiss/main.py:55-66 | Frontend names are distinct, and so are backend names, so the reverse map is well defined. |
| Vehicles.MappingRoundTrip | HyDrive-RAG/qa-backend-faiss/main.py:55-74 | The frontend list maps element by element onto the supported list and back. Both round trips are the identity. |
| Vehicles.UnknownPassesThrough | HyDrive-RAG/qa-backend-faiss/main.py:100-106 | A name in neither table passes through both maps unchanged. |
| Vehicles.ExtractVehicleName | HyDrive-RAG/qa-backend-faiss/main.py:163-186 | The result is none exactly when no vehicle name or English alias occurs in the lower-cased file name. Otherwise it is the first supported vehicle in table order with such a name: that vehicle has one and no earlier vehicle does. |
| Vehicles.GenerateFileName | HyDrive-RAG/qa-backend-faiss/main.py:188-190 | The name is the vehicle, with each space replaced by '_' character by character, followed by "_manual.json". |
| Vehicles.Stem | HyDrive-RAG/qa-backend-faiss/main.py:147 | `Path.stem`: a prefix of the file name. The name comes back unchanged exactly when it has no '.' strictly inside it or it ends in '.'. Otherwise the name is cut just before a '.' that is neither its first nor its last character and has no '.' after it. |
| Vehicles.StemOfGenerated | HyDrive-RAG/qa-backend-faiss/main.py:188-190 | The stem of a generated name is the vehicle followed by "_manual". |
| Vehicles.FileNameRoundTrip | HyDrive-RAG/qa-backend-faiss/main.py:163-190 | For every supported vehicle, extracting the vehicle from the stem of its generated file name gives the vehicle back. |
| Api.UploadAsWritten | HyDrive-RAG/qa-backend-faiss/main.py:264-314 | As written, every refusal is a 400 or a 500. |
| Api.StructureErrorBecomes500 | HyDrive-RAG/qa-backend-faiss/main.py:276-314 | As written, a JSON body that is not an object, or has no "sections", is refused with 500 instead of 400. |
| Api.Upload | HyDrive-RAG/qa-backend-faiss/main.py:264-314 | Corrected: every refusal is a 400 or a 500, and success needs an object with "sections". |
| Api.UploadRefusals | HyDrive-RAG/qa-backend-faiss/main.py:268-311 | The refusals come in order: an unsupported vehicle, then a name not ending in ".json", then a bad structure or malformed JSON. Each gets its 400. |
| Api.UploadReplaces | HyDrive-RAG/qa-backend-faiss/main.py:286-307 | On success, the vehicle's entry becomes a fresh store holding the manual. Other vehicles are untouched. The section count is reported, and the saved file name leads back to the vehicle. |
| Api.UploadSaves | HyDrive-RAG/qa-backend-faiss/main.py:286-307 | A success is exactly the registry update, the generated file name, the requested vehicle and the section count. |
| Api.SavedNameRecognised | HyDrive-RAG/qa-backend-faiss/main.py:147-149 | A saved manual's file is recognised as its vehicle when manuals are reloaded. |
| Api.SecondUploadWins | HyDrive-RAG/qa-backend-faiss/main.py:294-296 | Uploading twice leaves the registry as if only the second upload had happened. |
| Api.Ask | HyDrive-RAG/qa-backend-faiss/main.py:318-382 | A missing or empty vehicle gives 400. An answer needs a loaded manual and a generator, names the requested vehicle, and has at most three sources. |
| Api.AskRefusals | HyDrive-RAG/qa-backend-faiss/main.py:321-339 | A vehicle without a manual gives 404, and then a missing generator gives 503. |
| Api.AskAnswers | HyDrive-RAG/qa-backend-faiss/main.py:341-378 | No results give the canned reply with no sources. Otherwise the answer comes from the top result. The sources correspond to the results one to one, in order. |
| Api.AskSourcesOrdered | HyDrive-RAG/qa-backend-faiss/main.py:344-372 | The sources come in non-increasing score. |
| Text.Lower | HyDrive-RAG/qa-backend-faiss/services/simple_search.py:198 | ASCII `str.lower()`: same length, and character by character lower-cased. |
| Text.LowerIdempotent | HyDrive-RAG/qa-backend-faiss/services/simple_search.py:130-134 | Lower-casing twice equals lower-casing once. |
| Text.StripSpec | HyDrive-RAG/qa-backend-faiss/services/answer_generator.py:111 | `str.strip()` removes whitespace from both ends and nothing else. The text is the stripped text with only whitespace before and after it, and the stripped text has no whitespace at either end. Stripped text is left alone. |
| Text.Split | HyDrive-RAG/qa-backend-faiss/services/answer_generator.py:309 | `str.split(c)`: there is at least one piece, and no piece contains the separator. |
| Text.JoinSplit | HyDrive-RAG/qa-backend-faiss/utils/text_formatter.py:99-106 | Joining the split pieces with the separator gives back the text. |
| Text.SplitJoin | HyDrive-RAG/qa-backend-faiss/utils/text_formatter.py:99-106 | Splitting separator-free pieces joined by the separator gives back the pieces. |
| Text.LastIndex | HyDrive-RAG/qa-backend-faiss/services/answer_generator.py:148 | The last position of a character for `rsplit`, or -1 exactly when the character is absent. |
| Text.NatToString | HyDrive-RAG/qa-backend-faiss/services/answer_generator.py:248-252 | `str(n)` for a natural number: non-empty and all digits. |
| Text.NatToStringValue | HyDrive-RAG/qa-backend-faiss/services/answer_generator.py:248-252 | The decimal text reads back as the number. |
| Text.IntToString | HyDrive-RAG/qa-backend-faiss/services/answer_generator.py:248-252 | `str(i)`: all digits exactly for non-negative values, and a leading '-' exactly for negative ones. |
| Text.CollapseSpaces | HyDrive-RAG/qa-backend-faiss/services/answer_generator.py:315 | `re.sub(r'\s+', ' ', s)` keeps the non-whitespace characters in order. Its only whitespace is ' ', no two spaces are adjacent, and a leading run stays a leading space. Text without whitespace is unchanged, and the result is never longer. |

## Left out

- The OpenAI branch of `generate_answer` is left out because it is a call to a foreign service. This covers `_generate_openai_answer` and the regex rewriting in `_make_answer_friendly`. The model follows the branch taken when no API key is set.
- The regex pre-passes of `_clean_content` are left out. They use backreferences, and they remove the `WL_`, `정기 점검 N` and `2C_` codes. `AnswerGenerator.GenerateAnswer` takes them as one uninterpreted function, `prePass`. The model starts at the sentence split that follows.
- The look-ahead sentence split of `extract_and_format_steps_complete` is left out. The steps formatter takes the split pieces as its input.
- `format_response` is left out; it is a regex-heavy pass. `TextFormatter.ManualResponse` takes the formatted text as its input.
- Computing the query embedding and the cosine similarities is left out, as are numpy, FAISS and the sentence-transformer model. The semantic search takes one similarity per section as an input.
- Reading and writing files is left out, as are `pickle`, `Path.exists`, `mkdir` and the startup scan `load_existing_manuals`. Each cache file is an input value, and so is the success of saving an upload. `Vehicles.FileNameRoundTrip` and `Api.SavedNameRecognised` state the one fact the startup scan relies on: a saved file's name is recognised as its vehicle.
- HTTP wiring, CORS, logging and `print` are left out. So are the `/`, `/vehicles` and `/health` endpoints and both `get_stats`, which only report state.
- `round(..., 3)` in `match_details` is left out; it is display-only float rounding. The breakdown carries the exact signals.
- The JSON parser is abstracted: a body is not UTF-8, not JSON, not an object, or a document. Error details omit the interpolated vehicle list and exception text.
- Api.UploadAsWritten: a "sections" value that is not a list of objects, such as JSON `null`, is not modelled. A document's sections are either missing or a list. In the source such an upload passes the structure check at `main.py` line 282 and is saved to disk. `add_document` then fails, and the reply is a 500 while the saved file remains.
- SourceInfo.RemoveMarked: its own contract states only the length bound. What the removal does is stated by `RemoveMarkedAt`, `RemoveMarkedUnmarked` and `RemoveMarkedClears`.
- `lower()` is modelled for ASCII letters only. Other characters, including all Hangul, are unchanged.
- A `page_range` that is not a list is not modelled. Nor are the fallback page fields (`page`, `page_number`, …) and chapter fields of `_add_source_info`, because a search result never carries them. The model uses `page_range`, `section_number` and `title`.
- Python's unspecified set enumeration order is an input, not a guess. See "Building the model".
- Binary floating-point rounding is left out; every score is an exact rational. Rounding can change two things. A sum can land just above a threshold it equals exactly: `0.2 + 0.1` is `0.30000000000000004`. Two totals that are equal as rationals can differ in the last bit, which turns a tie into a strict order.
- LexicalScoring.BonusScore: "above 0.3 only with the procedure part" holds in exact arithmetic only. In floats, trouble plus safety (`0.2 + 0.1`) is just above 0.3.
- SimpleSearch.Search: ties are decided on exact totals. Float totals that are equal as rationals (`0.19999999999999998` against `0.2`, say) are not equal in the source, so the stable sort may order those sections differently.
- Retrieval.Rank: stability is stated for equal exact scores, for both rankers that share it. Float scores that are equal as rationals may compare unequal in the source and so reorder ties.
- Manual.NormalizeSection: a field that is present but JSON `null` is treated as missing ("" or []). The source keeps the `None`, and a later `.lower()` or `len()` on it raises.
- LexicalScoring.TitleScore: states the bounds, the zero cases, the full-match case and when the score is positive, not its exact value for partial matches.
- LexicalScoring.ContentScore: states the bounds, the zero cases and when the score is positive, not the exact occurrence-count formula.
- SemanticSearch.Score: a cosine similarity outside [0,1] (a negative one, say) can push the total outside [0,1]. Only the in-range case is bounded.
- AnswerGenerator.FallbackAnswer: its own contract states only the footer suffix. The layout is stated by `FallbackOpening`, `BodyOpening`, `BodyLists`, `BodyWarnings` and `BodyTips`.
- Api.Ask: the answer generator is an abstract function of the question and the best section. `AnswerGenerator.GenerateAnswer` models the real one separately. The 500 reply of `main.py` lines 380-382 is not modelled. In the source, an exception while searching or generating becomes a 500, for example from a section whose content is JSON `null`. In the model, search and generation are total functions, so that outcome has no input that reaches it.

## Findings

| source | as written | input that shows it | evidently intended | confidence | as-written member | corrected member |
|---|---|---|---|---|---|---|
| HyDrive-RAG/qa-backend-faiss/main.py:276-314 | The structure check raises `HTTPException(400)` inside the `try`. The following `except Exception` catches it and re-raises it as a 500. | An upload of `a.json` for KONA whose body is `[]`, or `{}` without "sections" | A 400 "올바른 JSON 구조가 아닙니다" refusal | not executed | Api.UploadAsWritten, Api.StructureErrorBecomes500 | Api.Upload, Api.UploadRefusals |
| HyDrive-RAG/qa-backend-faiss/utils/text_formatter.py:44 | The trailing-period test runs on the unstripped piece, so a piece ending in ". " gets a second period. | The piece "가나. " becomes "가나.." | Strip first, then add a '.' only if none ends the stripped piece | not executed | TextFormatter.FinishAsWritten, TextFormatter.FinishAsWrittenDoubles | TextFormatter.Finish, TextFormatter.FinishKeepsOnePeriod, TextFormatter.FinishIdempotent, TextFormatter.Sentences, TextFormatter.SentencesFinished, TextFormatter.FormatSteps |
| HyDrive-RAG/qa-backend-faiss/utils/text_formatter.py:47-50 | The imperative endings "십시오" and "하세요" are tested on the finished sentence, which always ends in '.'. So that test never holds. | The piece "엔진을 끄십시오" is finished as "엔진을 끄십시오." and is not classed as a step | Test the ending before the closing period, so an instruction is a step | not executed | TextFormatter.IsStepAsWritten, TextFormatter.InstructionEndingNeverMatches | TextFormatter.IsStep, TextFormatter.InstructionIsStep, TextFormatter.Classified |
