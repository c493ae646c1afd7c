/** The keyword search service: one loaded manual at a time, every section
    scored against the query, sections at or below the threshold dropped,
    the rest stably ordered by descending score and cut to `k`. */
module SimpleSearch {
  import opened Seqs
  import opened Ranking
  import opened Manual
  import opened LexicalScoring
  import opened Ratios
  import opened Retrieval

  /** `documents` holds at most the last manual loaded; `sections` its
      normalised sections. */
  datatype Store = Store(documents: seq<Document>, sections: seq<Section>)

  const Empty: Store := Store([], [])

  /** `add_document`: a manual without a sections field is ignored; any
      other one replaces whatever was loaded before. */
  function AddDocument(store: Store, doc: Document): (r: Store)
    ensures doc.sections.None? ==> r == store
    ensures doc.sections.Some? ==> r.documents == [doc]
    ensures doc.sections.Some? ==> |r.sections| == |doc.sections.value|
    ensures doc.sections.Some? ==>
              forall i :: 0 <= i < |r.sections| ==> r.sections[i] == NormalizeSection(SourceName(doc), doc.sections.value[i])
  {
    if doc.sections.None? then store
    else Store([doc], PrepareSections(doc))
  }

  /** One section scored against the query. */
  function Score(query: string, section: Section): (r: SearchResult)
    ensures r.section == section
    ensures r.details == Signals(query, section)
    ensures InUnit(r.score)
  {
    var details := Signals(query, section);
    SearchResult(section, Total(details), details)
  }

  /** Every section scored, in section order. */
  function ScoreAll(query: string, sections: seq<Section>): (r: seq<SearchResult>)
    ensures |r| == |sections|
    ensures forall i :: 0 <= i < |r| ==> r[i] == Score(query, sections[i])
  {
    seq(|sections|, i requires 0 <= i < |sections| => Score(query, sections[i]))
  }

  /** `search_sections`. */
  function Search(store: Store, query: string, k: int): (r: seq<SearchResult>)
    ensures store.documents == [] || store.sections == [] ==> r == []
    ensures k >= 0 ==> |r| <= k
    ensures store.documents != [] && k >= 0 ==>
              |r| == Min(k, |Filter(ScoreAll(query, store.sections), AboveThreshold)|)
    ensures forall i :: 0 <= i < |r| ==>
              r[i].score > Threshold && r[i] == Score(query, r[i].section) && r[i].section in store.sections
    ensures SortedDesc(r, ResultScore)
    ensures forall v :: WithKey(r, ResultScore, v) <= WithKey(ScoreAll(query, store.sections), ResultScore, v)
    ensures forall s, i :: s in store.sections && Score(query, s) !in r && 0 <= i < |r| ==> r[i].score >= Score(query, s).score
    ensures store.documents != [] && k >= |store.sections| ==>
              forall s :: s in store.sections && Score(query, s).score > Threshold ==> Score(query, s) in r
  {
    if store.documents == [] || store.sections == [] then []
    else
      var all := ScoreAll(query, store.sections);
      var r := Rank(all, k);
      SearchFacts(query, store.sections, all, r);
      r
  }

  lemma SearchFacts(query: string, sections: seq<Section>, all: seq<SearchResult>, r: seq<SearchResult>)
    requires all == ScoreAll(query, sections)
    requires forall i :: 0 <= i < |r| ==> r[i] in all
    ensures forall i :: 0 <= i < |r| ==> r[i] == Score(query, r[i].section) && r[i].section in sections
    ensures forall s :: s in sections ==> Score(query, s) in all
  {
    forall i | 0 <= i < |r| ensures r[i] == Score(query, r[i].section) && r[i].section in sections {
      var j :| 0 <= j < |all| && all[j] == r[i];
    }
    forall s | s in sections ensures Score(query, s) in all {
      var j :| 0 <= j < |sections| && sections[j] == s;
      assert all[j] == Score(query, s);
    }
  }

  /** Loading a second manual leaves no trace of the first. */
  lemma SecondLoadReplaces(store: Store, first: Document, second: Document)
    requires second.sections.Some?
    ensures AddDocument(AddDocument(store, first), second) == AddDocument(Empty, second)
  {
  }

  /** After a manual is loaded, every result names that manual as its source. */
  lemma ResultsComeFromLatest(store: Store, doc: Document, query: string, k: int)
    requires doc.sections.Some?
    ensures forall i :: 0 <= i < |Search(AddDocument(store, doc), query, k)| ==>
              Search(AddDocument(store, doc), query, k)[i].section.source == SourceName(doc)
  {
    var loaded := AddDocument(store, doc);
    var r := Search(loaded, query, k);
    assert forall i :: 0 <= i < |r| ==> r[i].section in loaded.sections;
    SectionsFromSource(r, loaded.sections, SourceName(doc));
  }

  lemma SectionsFromSource(r: seq<SearchResult>, sections: seq<Section>, source: string)
    requires forall i :: 0 <= i < |r| ==> r[i].section in sections
    requires forall j :: 0 <= j < |sections| ==> sections[j].source == source
    ensures forall i :: 0 <= i < |r| ==> r[i].section.source == source
  {
  }
}
