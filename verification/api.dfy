/** The decisions of the two web endpoints, with the HTTP framework, the
    file system and logging taken away: which request is refused with which
    status, in which order the checks run, and what a successful call
    leaves behind or returns. Loaded manuals live in a registry from backend
    vehicle name to keyword-search store. */
module Api {
  import opened Text
  import opened Optional
  import opened Manual
  import opened SimpleSearch
  import opened Vehicles
  import Seqs

  type Registry = map<string, Store>

  /** What an uploaded body turned out to be. */
  datatype Payload =
    | NotUtf8              // the bytes do not decode as UTF-8
    | Malformed            // the text is not JSON
    | NotObject            // JSON, but not an object
    | Object(doc: Document)

  datatype UploadReply =
    | UploadRefused(status: nat, detail: string)
    | Uploaded(registry: Registry, fileName: string, vehicle: string, sectionsCount: nat)

  const UnsupportedDetail: string := "지원하지 않는 차량입니다."
  const NotJsonFileDetail: string := "JSON 파일만 업로드 가능합니다."
  const BadStructureDetail: string := "올바른 JSON 구조가 아닙니다. 'sections' 필드가 필요합니다."
  const BadJsonDetail: string := "잘못된 JSON 형식입니다."
  const ProcessingDetail: string := "JSON 파일 처리 중 오류"

  /** The checks before the body is read: the vehicle, then the file name. */
  function UploadPrecheck(vehicle: string, fileName: string): Option<UploadReply> {
    if ToBackend(vehicle) !in SupportedVehicles then Some(UploadRefused(400, UnsupportedDetail))
    else if !IsSuffix(".json", fileName) then Some(UploadRefused(400, NotJsonFileDetail))
    else None
  }

  /** A manual that passed every check is saved and replaces the vehicle's
      store; `saved` says whether writing the file succeeded. */
  function SaveManual(vehicle: string, doc: Document, registry: Registry, saved: bool): UploadReply
    requires doc.sections.Some?
  {
    var backend := ToBackend(vehicle);
    if !saved then UploadRefused(500, ProcessingDetail)
    else Uploaded(registry[backend := AddDocument(Empty, doc)], GenerateFileName(backend), vehicle, SectionCount(doc))
  }

  /** `upload_json` as written: the structure check raises its 400 inside
      the `try`, where the catch-all handler turns it into a 500. */
  function UploadAsWritten(vehicle: string, fileName: string, payload: Payload, registry: Registry, saved: bool): (r: UploadReply)
    ensures r.UploadRefused? ==> r.status in {400, 500}
  {
    match UploadPrecheck(vehicle, fileName)
    case Some(refused) => refused
    case None =>
      match payload
      case NotUtf8 => UploadRefused(500, ProcessingDetail)
      case Malformed => UploadRefused(400, BadJsonDetail)
      case NotObject => UploadRefused(500, ProcessingDetail)
      case Object(doc) =>
        if doc.sections.None? then UploadRefused(500, ProcessingDetail)
        else SaveManual(vehicle, doc, registry, saved)
  }

  /** A body that is JSON but has no "sections" field gets a 500, not the
      400 the structure check raises. */
  lemma StructureErrorBecomes500(registry: Registry, saved: bool)
    ensures UploadAsWritten("KONA", "a.json", NotObject, registry, saved) == UploadRefused(500, ProcessingDetail)
    ensures UploadAsWritten("KONA", "a.json", Object(Document(None, None)), registry, saved) == UploadRefused(500, ProcessingDetail)
  {
    MappingRoundTrip(4);
  }

  /** `upload_json` with the structure check answered as intended. */
  function Upload(vehicle: string, fileName: string, payload: Payload, registry: Registry, saved: bool): (r: UploadReply)
    ensures r.UploadRefused? ==> r.status in {400, 500}
    ensures r.Uploaded? ==> payload.Object? && payload.doc.sections.Some?
  {
    match UploadPrecheck(vehicle, fileName)
    case Some(refused) => refused
    case None =>
      match payload
      case NotUtf8 => UploadRefused(500, ProcessingDetail)
      case Malformed => UploadRefused(400, BadJsonDetail)
      case NotObject => UploadRefused(400, BadStructureDetail)
      case Object(doc) =>
        if doc.sections.None? then UploadRefused(400, BadStructureDetail)
        else SaveManual(vehicle, doc, registry, saved)
  }

  /** The refusals come in order: an unsupported vehicle, whatever the file;
      then a file name not ending in ".json", whatever the body; then a body
      that is not JSON or not an object with "sections". Each is a 400. */
  lemma UploadRefusals(vehicle: string, fileName: string, payload: Payload, registry: Registry, saved: bool)
    ensures ToBackend(vehicle) !in SupportedVehicles ==>
              Upload(vehicle, fileName, payload, registry, saved) == UploadRefused(400, UnsupportedDetail)
    ensures ToBackend(vehicle) in SupportedVehicles && !IsSuffix(".json", fileName) ==>
              Upload(vehicle, fileName, payload, registry, saved) == UploadRefused(400, NotJsonFileDetail)
    ensures ToBackend(vehicle) in SupportedVehicles && IsSuffix(".json", fileName) && (payload.NotObject? || (payload.Object? && payload.doc.sections.None?)) ==>
              Upload(vehicle, fileName, payload, registry, saved) == UploadRefused(400, BadStructureDetail)
    ensures ToBackend(vehicle) in SupportedVehicles && IsSuffix(".json", fileName) && payload.Malformed? ==>
              Upload(vehicle, fileName, payload, registry, saved) == UploadRefused(400, BadJsonDetail)
  {
  }

  /** A successful upload replaces the vehicle's store with one holding just
      this manual, touches no other vehicle, reports the section count, and
      saves under a file name that a restart recognises as the same vehicle. */
  lemma UploadReplaces(vehicle: string, fileName: string, payload: Payload, registry: Registry, saved: bool)
    requires Upload(vehicle, fileName, payload, registry, saved).Uploaded?
    ensures ToBackend(vehicle) in SupportedVehicles && IsSuffix(".json", fileName) && saved
    ensures Upload(vehicle, fileName, payload, registry, saved).registry[ToBackend(vehicle)] == AddDocument(Empty, payload.doc)
    ensures forall v :: v != ToBackend(vehicle) && v in registry ==>
              v in Upload(vehicle, fileName, payload, registry, saved).registry
              && Upload(vehicle, fileName, payload, registry, saved).registry[v] == registry[v]
    ensures Upload(vehicle, fileName, payload, registry, saved).sectionsCount == |payload.doc.sections.value|
    ensures ExtractVehicleName(Stem(Upload(vehicle, fileName, payload, registry, saved).fileName)) == Some(ToBackend(vehicle))
  {
    var backend := ToBackend(vehicle);
    UploadSaves(vehicle, fileName, payload, registry, saved);
    SavedNameRecognised(backend);
  }

  lemma UploadSaves(vehicle: string, fileName: string, payload: Payload, registry: Registry, saved: bool)
    requires Upload(vehicle, fileName, payload, registry, saved).Uploaded?
    ensures ToBackend(vehicle) in SupportedVehicles && IsSuffix(".json", fileName) && saved && payload.Object?
    ensures Upload(vehicle, fileName, payload, registry, saved) ==
              Uploaded(registry[ToBackend(vehicle) := AddDocument(Empty, payload.doc)],
                       GenerateFileName(ToBackend(vehicle)), vehicle, SectionCount(payload.doc))
  {
  }

  lemma SavedNameRecognised(backend: string)
    requires backend in SupportedVehicles
    ensures ExtractVehicleName(Stem(GenerateFileName(backend))) == Some(backend)
  {
    var i :| 0 <= i < |SupportedVehicles| && SupportedVehicles[i] == backend;
    FileNameRoundTrip(i);
  }

  /** Uploading the same vehicle twice keeps only the second manual. */
  lemma SecondUploadWins(vehicle: string, fileName: string, first: Payload, second: Payload, registry: Registry)
    requires Upload(vehicle, fileName, first, registry, true).Uploaded?
    requires Upload(vehicle, fileName, second, Upload(vehicle, fileName, first, registry, true).registry, true).Uploaded?
    ensures Upload(vehicle, fileName, second, Upload(vehicle, fileName, first, registry, true).registry, true).registry
            == Upload(vehicle, fileName, second, registry, true).registry
  {
  }

  // ---------------------------------------------------------------------------
  // ask_question

  /** One entry of the `sources` list of an answer. */
  datatype SourceRef = SourceRef(source: string, sectionTitle: string, pageRange: seq<int>, score: real, details: ScoreBreakdown)

  datatype Reply =
    | AskRefused(status: nat, detail: string)
    | Answered(answer: string, vehicle: string, sources: seq<SourceRef>)

  const MaxResults: nat := 3
  const NoVehicleDetail: string := "차량을 선택해주세요."
  const NotLoadedDetail: string := "매뉴얼을 찾을 수 없습니다."
  const NoGeneratorDetail: string := "답변 생성기가 초기화되지 않았습니다."

  function SourceOf(r: SearchResult): SourceRef {
    SourceRef(r.section.source, r.section.title, r.section.pageRange, r.score, r.details)
  }

  /** The reply when the search finds nothing. */
  function NothingFound(vehicle: string): string {
    "'" + vehicle + "' 매뉴얼에서 관련 정보를 찾을 수 없습니다."
  }

  /** `ask_question`: `answer` stands for the answer generator (absent when
      it was never initialised) applied to the question and the best
      section. */
  function Ask(question: string, vehicle: Option<string>, registry: Registry,
               answer: Option<(string, Section) -> string>): (r: Reply)
    ensures vehicle.None? || vehicle == Some("") ==> r == AskRefused(400, NoVehicleDetail)
    ensures r.Answered? ==> vehicle.Some? && r.vehicle == vehicle.value && ToBackend(vehicle.value) in registry && answer.Some?
    ensures r.Answered? ==> |r.sources| <= MaxResults
  {
    if vehicle.None? || vehicle.value == "" then AskRefused(400, NoVehicleDetail)
    else
      var backend := ToBackend(vehicle.value);
      if backend !in registry then AskRefused(404, NotLoadedDetail)
      else if answer.None? then AskRefused(503, NoGeneratorDetail)
      else
        var results := Search(registry[backend], question, MaxResults);
        if results == [] then Answered(NothingFound(vehicle.value), vehicle.value, [])
        else Answered(answer.value(question, results[0].section), vehicle.value, Seqs.Map(results, SourceOf))
  }

  /** The refusals in order: no vehicle is a 400 (stated by `Ask`); a
      vehicle without a loaded manual a 404; no answer generator a 503. */
  lemma AskRefusals(question: string, vehicle: string, registry: Registry, answer: Option<(string, Section) -> string>)
    requires vehicle != ""
    ensures ToBackend(vehicle) !in registry ==> Ask(question, Some(vehicle), registry, answer) == AskRefused(404, NotLoadedDetail)
    ensures ToBackend(vehicle) in registry && answer.None? ==> Ask(question, Some(vehicle), registry, answer) == AskRefused(503, NoGeneratorDetail)
  {
  }

  /** Otherwise: no result gives the fixed reply with no sources; any result
      gives the answer for the best section, with one source per result,
      in result order. */
  lemma AskAnswers(question: string, vehicle: string, registry: Registry, answer: (string, Section) -> string)
    requires vehicle != "" && ToBackend(vehicle) in registry
    ensures Search(registry[ToBackend(vehicle)], question, MaxResults) == [] ==>
              Ask(question, Some(vehicle), registry, Some(answer)) == Answered(NothingFound(vehicle), vehicle, [])
    ensures Search(registry[ToBackend(vehicle)], question, MaxResults) != [] ==>
              Ask(question, Some(vehicle), registry, Some(answer)).Answered?
              && Ask(question, Some(vehicle), registry, Some(answer)).answer
                 == answer(question, Search(registry[ToBackend(vehicle)], question, MaxResults)[0].section)
    ensures |Ask(question, Some(vehicle), registry, Some(answer)).sources| == |Search(registry[ToBackend(vehicle)], question, MaxResults)|
    ensures forall i :: 0 <= i < |Search(registry[ToBackend(vehicle)], question, MaxResults)| ==>
              Ask(question, Some(vehicle), registry, Some(answer)).sources[i]
              == SourceOf(Search(registry[ToBackend(vehicle)], question, MaxResults)[i])
  {
  }

  /** The sources are listed best first, like the results. */
  lemma AskSourcesOrdered(question: string, vehicle: string, registry: Registry, answer: (string, Section) -> string)
    requires vehicle != "" && ToBackend(vehicle) in registry
    ensures forall i, j :: 0 <= i < j < |Ask(question, Some(vehicle), registry, Some(answer)).sources| ==>
              Ask(question, Some(vehicle), registry, Some(answer)).sources[i].score >= Ask(question, Some(vehicle), registry, Some(answer)).sources[j].score
  {
    var results := Search(registry[ToBackend(vehicle)], question, MaxResults);
    assert forall i, j :: 0 <= i < j < |results| ==> results[i].score >= results[j].score;
  }
}
