/** The embedding-backed search service. Section embeddings are read from
    a per-vehicle cache; the query's cosine similarity to each cached row is
    an input here (`sims`, aligned with the cached sections). Its lexical
    scorers are simpler than the keyword service's and its weights are
    0.6 / 0.15 / 0.15 / 0.1. */
module SemanticSearch {
  import opened Text
  import opened Optional
  import opened Seqs
  import opened Tokenizer
  import opened Manual
  import opened Ranking
  import opened Retrieval
  import opened Ratios

  /** Rows of section embeddings; their numbers are never inspected here. */
  type Embeddings = seq<seq<real>>

  /** What the cache file for one vehicle yields: nothing, a load error, or
      a pickled mapping whose two entries may each be missing. */
  datatype CacheFile =
    | Absent
    | Unreadable
    | Pickled(embeddings: Option<Embeddings>, sectionsData: Option<seq<Section>>)

  /** A pickle that provides both entries. */
  predicate Complete(file: CacheFile) {
    file.Pickled? && file.embeddings.Some? && file.sectionsData.Some?
  }

  /** `cached` is the readiness flag: it starts false and is only ever set. */
  datatype Store = Store(documents: seq<Document>, embeddings: Option<Embeddings>, sections: seq<Section>, cached: bool)

  const Initial: Store := Store([], None, [], false)

  function CacheFileName(vehicle: string): (r: string)
    ensures IsPrefix(vehicle, r)
    ensures IsSuffix("_embeddings.pkl", r)
  {
    vehicle + "_embeddings.pkl"
  }

  /** The cache directory, file name to contents; a name not in the map
      does not exist. */
  type CacheDir = map<string, CacheFile>

  function CacheOf(files: CacheDir, vehicle: string): CacheFile {
    if CacheFileName(vehicle) in files then files[CacheFileName(vehicle)] else Absent
  }

  /** `_precompute_embeddings`: the embeddings entry is stored before the
      sections entry is read, so a pickle without `sections_data` still
      replaces the embeddings; every other failure leaves the store alone. */
  function LoadCache(store: Store, file: CacheFile): (r: Store)
    ensures r.documents == store.documents
    ensures r.cached <==> store.cached || Complete(file)
    ensures Complete(file) ==> r.embeddings == file.embeddings && r.sections == file.sectionsData.value
    ensures !Complete(file) ==> r.sections == store.sections
    ensures !(file.Pickled? && file.embeddings.Some?) ==> r == store
  {
    match file
    case Pickled(Some(e), Some(s)) => store.(embeddings := Some(e), sections := s, cached := true)
    case Pickled(Some(e), None) => store.(embeddings := Some(e))
    case _ => store
  }

  /** `add_document`: ignored without a sections field; otherwise the manual
      becomes the only document and the cache named after its vehicle is
      loaded. The manual's own sections are never used. */
  function AddDocument(store: Store, doc: Document, files: CacheDir): (r: Store)
    ensures doc.sections.None? ==> r == store
    ensures doc.sections.Some? ==> r.documents == [doc]
    ensures store.cached ==> r.cached
    ensures doc.sections.Some? && Complete(CacheOf(files, DocumentVehicle(doc))) ==>
              r.cached && r.sections == CacheOf(files, DocumentVehicle(doc)).sectionsData.value
    ensures doc.sections.Some? && !Complete(CacheOf(files, DocumentVehicle(doc))) ==>
              r.sections == store.sections && r.cached == store.cached
  {
    if doc.sections.None? then store
    else LoadCache(store.(documents := [doc]), CacheOf(files, DocumentVehicle(doc)))
  }

  // ---------------------------------------------------------------------------
  // Scorers

  /** The distinct lower-cased whitespace-separated words. */
  function Words(s: string): (r: set<string>)
    ensures forall w :: w in r <==> w in SplitWhitespace(Lower(s))
  {
    ToSet(SplitWhitespace(Lower(s)))
  }

  /** `_calculate_title_score`: the share of distinct query words that are
      also title words. */
  function TitleScore(query: string, title: string): (r: real)
    ensures InUnit(r)
    ensures title == "" ==> r == 0.0
    ensures title != "" ==> (r > 0.0 <==> Words(query) * Words(title) != {})
    ensures title != "" && Words(query) != {} ==> (r == 1.0 <==> Words(query) <= Words(title))
  {
    if title == "" then 0.0
    else
      var qs := Words(query);
      var ts := Words(title);
      TitleRatioFacts(qs, ts);
      CappedRatio(|qs * ts| as real, AtLeastOne(|qs|) as real)
  }

  lemma TitleRatioFacts(qs: set<string>, ts: set<string>)
    ensures |qs * ts| > 0 <==> qs * ts != {}
    ensures qs != {} ==> (|qs * ts| >= AtLeastOne(|qs|) <==> qs <= ts)
  {
    if qs != {} {
      if |qs * ts| >= |qs| {
        SubsetOfSameSize(qs * ts, qs);
      }
      if qs <= ts {
        assert qs * ts == qs;
      }
    }
  }

  predicate KeywordFound(query: string, keyword: string) {
    Contains(Lower(query), Lower(keyword))
  }

  /** How many of the section's keywords occur in the lower-cased query. */
  function KeywordMatches(query: string, keywords: seq<string>): (n: nat)
    ensures n <= |keywords|
    ensures n == 0 <==> forall i :: 0 <= i < |keywords| ==> !KeywordFound(query, keywords[i])
    ensures n == |keywords| <==> forall i :: 0 <= i < |keywords| ==> KeywordFound(query, keywords[i])
    decreases |keywords|
  {
    if |keywords| == 0 then 0
    else
      var rest := KeywordMatches(query, keywords[1..]);
      assert forall i :: 1 <= i < |keywords| ==> keywords[i] == keywords[1..][i - 1];
      (if KeywordFound(query, keywords[0]) then 1 else 0) + rest
  }

  /** The count is the number of keywords a filter on the same test keeps. */
  lemma {:induction false} KeywordMatchesCountsFilter(query: string, keywords: seq<string>)
    ensures KeywordMatches(query, keywords) == |Filter(keywords, (k: string) => KeywordFound(query, k))|
    decreases |keywords|
  {
    if |keywords| > 0 {
      KeywordMatchesCountsFilter(query, keywords[1..]);
    }
  }

  /** `_calculate_keyword_score`: half a point per keyword found, capped at one. */
  function KeywordScore(query: string, keywords: seq<string>): (r: real)
    ensures r == 0.0 || r == 0.5 || r == 1.0
    ensures r == 0.0 <==> KeywordMatches(query, keywords) == 0
    ensures r == 0.5 <==> KeywordMatches(query, keywords) == 1
    ensures r == 1.0 <==> KeywordMatches(query, keywords) >= 2
  {
    if keywords == [] then 0.0
    else AtMostOne(KeywordMatches(query, keywords) as real / 2.0)
  }

  const ProcedureQueryTerms: seq<string> := ["방법", "절차", "어떻게"]
  const ProcedureContentTerms: seq<string> := ["방법", "절차", "단계", "하십시오"]

  /** `_calculate_bonus_score`: a baseline 0.1, or 0.2 for a how-to question
      meeting procedural content. */
  function BonusScore(query: string, section: Section): (r: real)
    ensures r == 0.1 || r == 0.2
    ensures r == 0.2 <==> ContainsAny(Lower(query), ProcedureQueryTerms) && ContainsAny(Lower(section.content), ProcedureContentTerms)
  {
    if ContainsAny(Lower(query), ProcedureQueryTerms) && ContainsAny(Lower(section.content), ProcedureContentTerms) then 0.2
    else 0.1
  }

  /** `_calculate_total_score`. */
  function Total(s: ScoreBreakdown): (r: real)
    ensures InUnit(s.title) && InUnit(s.keyword) && InUnit(s.content) && InUnit(s.bonus) ==> InUnit(r)
  {
    0.6 * s.title + 0.15 * s.keyword + 0.15 * s.content + 0.1 * s.bonus
  }

  /** One section scored, with `sim` as its content signal. A section whose
      title holds every query word clears the threshold whatever its
      similarity, since a cosine is never below -1. */
  function Score(query: string, section: Section, sim: real): (r: SearchResult)
    ensures r.section == section
    ensures r.details.content == sim
    ensures InUnit(sim) ==> InUnit(r.score)
    ensures r.details.title == 1.0 && sim >= -1.0 ==> r.score > Threshold
  {
    var details := ScoreBreakdown(TitleScore(query, section.title), KeywordScore(query, section.keywords), sim, BonusScore(query, section));
    SearchResult(section, Total(details), details)
  }

  /** Section `i` scored with similarity `i`. */
  function ScoreAll(query: string, sections: seq<Section>, sims: seq<real>): (r: seq<SearchResult>)
    requires |sims| >= |sections|
    ensures |r| == |sections|
    ensures forall i :: 0 <= i < |r| ==> r[i] == Score(query, sections[i], sims[i])
  {
    seq(|sections|, i requires 0 <= i < |sections| => Score(query, sections[i], sims[i]))
  }

  /** A search either ranks, or fails indexing a similarity list shorter
      than the cached sections. */
  datatype Outcome = Found(results: seq<SearchResult>) | SimilarityMissing

  predicate Ready(store: Store) {
    store.documents != [] && store.cached
  }

  /** `search_sections`. */
  function Search(store: Store, query: string, k: int, sims: seq<real>): (r: Outcome)
    ensures !Ready(store) ==> r == Found([])
    ensures r == SimilarityMissing <==> Ready(store) && |sims| < |store.sections|
    ensures r.Found? && k >= 0 ==> |r.results| <= k
    ensures r.Found? && Ready(store) && k >= 0 ==>
              |r.results| == Min(k, |Filter(ScoreAll(query, store.sections, sims), AboveThreshold)|)
    ensures r.Found? ==> SortedDesc(r.results, ResultScore)
    ensures r.Found? ==> forall i :: 0 <= i < |r.results| ==> r.results[i].score > Threshold
    ensures r.Found? && Ready(store) ==>
              forall i :: 0 <= i < |r.results| ==> r.results[i] in ScoreAll(query, store.sections, sims)
    ensures r.Found? && Ready(store) ==>
              forall v :: WithKey(r.results, ResultScore, v) <= WithKey(ScoreAll(query, store.sections, sims), ResultScore, v)
    ensures r.Found? && Ready(store) ==>
              forall y, i :: y in ScoreAll(query, store.sections, sims) && y !in r.results && 0 <= i < |r.results| ==>
                r.results[i].score >= y.score
  {
    if !Ready(store) then Found([])
    else if |sims| < |store.sections| then SimilarityMissing
    else Found(Rank(ScoreAll(query, store.sections, sims), k))
  }

  // ---------------------------------------------------------------------------
  // Consequences of the cache handling

  /** From a fresh service, the flag is set exactly when the manual's cache
      is complete; otherwise every search answers with nothing. */
  lemma FreshLoad(doc: Document, files: CacheDir, query: string, k: int, sims: seq<real>)
    requires doc.sections.Some?
    ensures AddDocument(Initial, doc, files).cached <==> Complete(CacheOf(files, DocumentVehicle(doc)))
    ensures !Complete(CacheOf(files, DocumentVehicle(doc))) ==> Search(AddDocument(Initial, doc, files), query, k, sims) == Found([])
  {
  }

  /** A later manual without a usable cache is answered from the sections
      cached for the earlier one: the flag and the old sections survive. */
  lemma StaleSectionsSurvive(first: Document, second: Document, files: CacheDir, query: string, k: int, sims: seq<real>)
    requires first.sections.Some? && second.sections.Some?
    requires Complete(CacheOf(files, DocumentVehicle(first)))
    requires !Complete(CacheOf(files, DocumentVehicle(second)))
    ensures AddDocument(AddDocument(Initial, first, files), second, files).documents == [second]
    ensures AddDocument(AddDocument(Initial, first, files), second, files).cached
    ensures AddDocument(AddDocument(Initial, first, files), second, files).sections == CacheOf(files, DocumentVehicle(first)).sectionsData.value
  {
  }
}
