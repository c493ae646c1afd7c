/** The records a search service works on: a manual document as uploaded
    (a JSON object whose fields may be missing), the normalized section
    record each service stores, and the result record a search returns. */
module Manual {
  import opened Text
  import opened Optional
  import opened Lookup

  /** One element of a document's "sections" array. Every field may be
      absent; subsections are carried along but never scored. */
  datatype RawSection = RawSection(
    sectionNumber: Option<string>,
    title: Option<string>,
    pageRange: Option<seq<int>>,
    content: Option<string>,
    keywords: Option<seq<string>>,
    subsections: Option<seq<string>>)

  /** A manual as a JSON object: `file_name` and `sections` may be absent. */
  datatype Document = Document(fileName: Option<string>, sections: Option<seq<RawSection>>)

  /** A section as a search service stores it, every field filled in. */
  datatype Section = Section(
    source: string,
    sectionNumber: string,
    title: string,
    pageRange: seq<int>,
    content: string,
    keywords: seq<string>,
    subsections: seq<string>)

  /** The per-signal scores reported with each result. */
  datatype ScoreBreakdown = ScoreBreakdown(title: real, keyword: real, content: real, bonus: real)

  /** A section that cleared the threshold, with its total and its breakdown. */
  datatype SearchResult = SearchResult(section: Section, score: real, details: ScoreBreakdown)

  function ResultScore(r: SearchResult): real { r.score }

  /** `json_data.get("file_name", "unknown")`. */
  function SourceName(doc: Document): string {
    doc.fileName.GetOr("unknown")
  }

  /** `len(json_data.get("sections", []))`. */
  function SectionCount(doc: Document): nat {
    if doc.sections.Some? then |doc.sections.value| else 0
  }

  /** One normalized record per input section, with "" / [] for missing
      fields (a missing page range, "" in the source, is the empty list here;
      every consumer treats both as "no pages"). */
  function NormalizeSection(source: string, raw: RawSection): (s: Section)
    ensures s.source == source
    ensures raw.title.Some? ==> s.title == raw.title.value
    ensures raw.title.None? ==> s.title == ""
    ensures raw.content.Some? ==> s.content == raw.content.value
    ensures raw.content.None? ==> s.content == ""
    ensures raw.keywords.Some? ==> s.keywords == raw.keywords.value
    ensures raw.keywords.None? ==> s.keywords == []
    ensures raw.sectionNumber.Some? ==> s.sectionNumber == raw.sectionNumber.value
    ensures raw.sectionNumber.None? ==> s.sectionNumber == ""
    ensures raw.pageRange.Some? ==> s.pageRange == raw.pageRange.value
    ensures raw.pageRange.None? ==> s.pageRange == []
    ensures raw.subsections.Some? ==> s.subsections == raw.subsections.value
    ensures raw.subsections.None? ==> s.subsections == []
  {
    Section(
      source,
      raw.sectionNumber.GetOr(""),
      raw.title.GetOr(""),
      raw.pageRange.GetOr([]),
      raw.content.GetOr(""),
      raw.keywords.GetOr([]),
      raw.subsections.GetOr([]))
  }

  /** `_prepare_sections_data`: the document's sections, in order, normalized. */
  function PrepareSections(doc: Document): (r: seq<Section>)
    ensures |r| == SectionCount(doc)
    ensures forall i :: 0 <= i < |r| ==> r[i] == NormalizeSection(SourceName(doc), doc.sections.value[i])
  {
    if doc.sections.None? then []
    else seq(|doc.sections.value|, i requires 0 <= i < |doc.sections.value| => NormalizeSection(SourceName(doc), doc.sections.value[i]))
  }

  // ---------------------------------------------------------------------------
  // Vehicle name of a loaded document (both services; used for the
  // embedding cache's file name)

  const UnknownVehicle: string := "unknown"

  /** Vehicle names in test order, each with the file-name fragments that select it. */
  const DocumentVehicleAliases: seq<(string, seq<string>)> := [
    ("그랜저", ["그랜저", "granjer", "grandeur"]),
    ("싼타페", ["싼타페", "santafe"]),
    ("쏘나타", ["쏘나타", "sonata"]),
    ("아반떼", ["아반떼", "avante"]),
    ("코나", ["코나", "kona"]),
    ("투싼", ["투싼", "tucson"]),
    ("펠리세이드", ["펠리세이드", "팰리세이드", "palisade"])
  ]

  /** `_extract_vehicle_name_from_data`: the vehicle whose name or alias
      occurs in the lower-cased `file_name`, testing in table order. */
  function DocumentVehicle(doc: Document): (r: string)
    ensures r == UnknownVehicle <==>
              forall i :: 0 <= i < |DocumentVehicleAliases| ==> !AnyHit(DocumentVehicleAliases[i].1, FileNameHit(doc))
    ensures r != UnknownVehicle ==>
              exists i :: 0 <= i < |DocumentVehicleAliases| && r == DocumentVehicleAliases[i].0
                          && AnyHit(DocumentVehicleAliases[i].1, FileNameHit(doc))
                          && forall j :: 0 <= j < i ==> !AnyHit(DocumentVehicleAliases[j].1, FileNameHit(doc))
  {
    var found := FirstEntry(DocumentVehicleAliases, FileNameHit(doc));
    NamedVehiclesKnown();
    found.GetOr(UnknownVehicle)
  }

  lemma NamedVehiclesKnown()
    ensures forall i :: 0 <= i < |DocumentVehicleAliases| ==> DocumentVehicleAliases[i].0 != UnknownVehicle
  {
    var names := ["그랜저", "싼타페", "쏘나타", "아반떼", "코나", "투싼", "펠리세이드"];
    assert forall i :: 0 <= i < |DocumentVehicleAliases| ==> DocumentVehicleAliases[i].0 == names[i];
    assert UnknownVehicle !in names;
  }

  /** The test applied to each fragment: does it occur in the lower-cased
      file name (`""` when the field is missing)? */
  function FileNameHit(doc: Document): string -> bool {
    (w: string) => Contains(Lower(doc.fileName.GetOr("")), w)
  }
}
