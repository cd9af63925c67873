/**
 * The decisions of the fiscal controller (FiscalController) that do not
 * just forward: the `idNota` extraction used by the remote downloads, the
 * query-parameter checks of `list`, and the artifact-availability checks of
 * the local downloads.
 */
module FiscalController {
  import opened Wrappers
  import opened NfseStatus
  import opened Json
  import opened Emissions
  import Text
  import Artifacts
  import Provider

  /** An HTTP error the controller throws: its status code, error code and message. */
  datatype ApiError = ApiError(httpStatus: int, code: string, message: string)

  const EmissionNotFound := ApiError(404, "EMISSION_NOT_FOUND", "Emission not found")

  // ---------------------------------------------------------------- extractIdNota

  /** The five places an idNota is looked for, in priority order. */
  function IdNotaCandidates(providerResponse: Value): (c: seq<Value>)
    ensures |c| == 5
  {
    var n := FirstIfArray(providerResponse);
    var doc := Artifacts.FirstDocument(n);
    [Get(doc, "id"), Get(n, "id"), Get(n, "idNota"), Get(Get(n, "nota"), "id"), Get(Get(n, "nota"), "idNota")]
  }

  /** `extractIdNota`: null for a falsy response, else the `??` chain ending in null. */
  function ExtractIdNota(providerResponse: Value): Value {
    if !Truthy(providerResponse) then JNull
    else
      var n := FirstIfArray(providerResponse);
      var doc := Artifacts.FirstDocument(n);
      Coalesce(Get(doc, "id"),
      Coalesce(Get(n, "id"),
      Coalesce(Get(n, "idNota"),
      Coalesce(Get(Get(n, "nota"), "id"),
      Coalesce(Get(Get(n, "nota"), "idNota"),
      JNull)))))
  }

  /**
   * A null or undefined response gives null; otherwise the result is the first present
   * candidate, and null exactly when every candidate is absent.
   */
  lemma IdNotaPriority(providerResponse: Value)
    ensures Nullish(providerResponse) ==> ExtractIdNota(providerResponse) == JNull
    ensures Truthy(providerResponse) ==>
      var c := IdNotaCandidates(providerResponse);
      var r := ExtractIdNota(providerResponse);
      && (forall k :: 0 <= k < 5 && !Nullish(c[k]) && (forall j :: 0 <= j < k ==> Nullish(c[j])) ==> r == c[k])
      && ((forall k :: 0 <= k < 5 ==> Nullish(c[k])) <==> r == JNull)
  {
    if Truthy(providerResponse) {
      var c := IdNotaCandidates(providerResponse);
      var r := ExtractIdNota(providerResponse);
      if !(forall k :: 0 <= k < 5 ==> Nullish(c[k])) {
        var k :| 0 <= k < 5 && !Nullish(c[k]);
        assert r == c[0] || r == c[1] || r == c[2] || r == c[3] || r == c[4];
      } else {
        assert Nullish(c[0]) && Nullish(c[1]) && Nullish(c[2]) && Nullish(c[3]) && Nullish(c[4]);
      }
    }
  }

  /**
   * The controller and the polling/sync services read different ids from the same response:
   * with both `id` and `idNota` present, extractIdNota takes `id` and extractArtifactId `idNota`.
   */
  lemma IdNotaDiffersFromArtifactId()
    ensures var resp := JObj([("id", JStr("a")), ("idNota", JStr("b"))]);
      ExtractIdNota(resp) == JStr("a") && Artifacts.ExtractArtifactId(resp, "ext") == JStr("b")
  {
  }

  // ---------------------------------------------------------------- remote downloads

  datatype ArtifactKind = Xml | Pdf

  /**
   * The remote downloads (`:id/remote/xml`, `:id/remote/pdf`): the provider call they make for
   * the stored record, or the error they throw before making any.
   */
  function RemoteDownload(doc: Option<Emission>, kind: ArtifactKind): Result<Provider.Call, ApiError> {
    if doc.None? then Err(EmissionNotFound)
    else
      var idNota := ExtractIdNota(doc.value.providerResponse);
      if !Truthy(idNota) then Err(ApiError(400, "ID_NOTA_NOT_FOUND", "idNota not found in providerResponse"))
      else if kind == Xml then Ok(Provider.DownloadXml(idNota))
      else Ok(Provider.DownloadPdf(idNota))
  }

  /**
   * An unknown id or a response without a usable idNota is refused before any provider call;
   * otherwise exactly the download of the requested kind is asked for the extracted id.
   */
  lemma RemoteDownloadNeedsIdNota(doc: Option<Emission>, kind: ArtifactKind)
    ensures var r := RemoteDownload(doc, kind);
      && (doc.None? <==> r == Err(EmissionNotFound))
      && (doc.Some? ==>
            (r.Err? <==> !Truthy(ExtractIdNota(doc.value.providerResponse)))
            && (r.Err? ==> r.error.code == "ID_NOTA_NOT_FOUND")
            && (r.Ok? ==> Provider.IsDownload(r.value) && r.value == (if kind == Xml
                 then Provider.DownloadXml(ExtractIdNota(doc.value.providerResponse))
                 else Provider.DownloadPdf(ExtractIdNota(doc.value.providerResponse)))))
  {
  }

  /** A record whose stored response is missing altogether cannot be downloaded remotely. */
  lemma MissingResponseRefused(e: Emission, kind: ArtifactKind)
    requires Nullish(e.providerResponse)
    ensures RemoteDownload(Some(e), kind) == Err(ApiError(400, "ID_NOTA_NOT_FOUND", "idNota not found in providerResponse"))
  {
    IdNotaPriority(e.providerResponse);
  }

  // ---------------------------------------------------------------- list parameters

  /** A numeric query parameter after `Number()`: empty or absent, a finite number, or NaN/Infinity. */
  datatype NumberParam = Absent | Finite(n: int) | NotFinite

  /** The arguments `list` passes to findPaginated. */
  datatype ListQuery = ListQuery(page: int, limit: int, provider: Option<string>, status: Option<Status>)

  const DefaultPage := 1
  const DefaultLimit := 20

  function ParamValue(p: NumberParam, default: int): NumberParam {
    if p.Absent? then Finite(default) else p
  }

  predicate AtLeastOne(p: NumberParam) {
    p.Finite? && p.n >= 1
  }

  /** `provider?.trim() || undefined` */
  function ProviderFilter(provider: Option<string>): Option<string> {
    if provider.Some? && Text.Trim(provider.value) != "" then Some(Text.Trim(provider.value)) else None
  }

  /** The validated query of `list`, or the BadRequest it throws; the checks run in this order. */
  function List(page: NumberParam, limit: NumberParam, provider: Option<string>, status: Option<string>)
    : Result<ListQuery, ApiError>
  {
    var p := ParamValue(page, DefaultPage);
    var l := ParamValue(limit, DefaultLimit);
    if !AtLeastOne(p) then Err(ApiError(400, "INVALID_PAGE", "page must be >= 1"))
    else if !AtLeastOne(l) then Err(ApiError(400, "INVALID_LIMIT", "limit must be >= 1"))
    else if status.Some? && status.value != "" && FromName(status.value).None? then
      Err(ApiError(400, "INVALID_STATUS", "invalid status: " + status.value))
    else
      var filter := if status.Some? && status.value != "" then FromName(status.value) else None;
      Ok(ListQuery(p.n, l.n, ProviderFilter(provider), filter))
  }

  /**
   * Missing page and limit default to 1 and 20; a page or limit that is not a finite number
   * of at least 1 is refused, the page first.
   */
  lemma ListPaging(page: NumberParam, limit: NumberParam, provider: Option<string>, status: Option<string>)
    ensures var r := List(page, limit, provider, status);
      && (page.Absent? && limit.Absent? && r.Ok? ==> r.value.page == 1 && r.value.limit == 20)
      && ((page.NotFinite? || (page.Finite? && page.n < 1)) <==> r.Err? && r.error.code == "INVALID_PAGE")
      && (r.Err? && r.error.code == "INVALID_LIMIT" <==>
            AtLeastOne(ParamValue(page, 1)) && (limit.NotFinite? || (limit.Finite? && limit.n < 1)))
      && (r.Ok? ==> r.value.page >= 1 && r.value.limit >= 1)
      && (r.Ok? && page.Finite? ==> r.value.page == page.n)
      && (r.Ok? && limit.Finite? ==> r.value.limit == limit.n)
  {
  }

  /**
   * A non-empty status must name a member (it then filters by that member), and an empty or
   * absent status filters nothing; a blank or whitespace-only provider filters nothing and
   * any other is trimmed.
   */
  lemma ListFilters(page: NumberParam, limit: NumberParam, provider: Option<string>, status: Option<string>)
    requires AtLeastOne(ParamValue(page, 1)) && AtLeastOne(ParamValue(limit, 20))
    ensures var r := List(page, limit, provider, status);
      && (status.Some? && status.value != "" && FromName(status.value).None? <==> r.Err?)
      && (r.Err? ==> r.error == ApiError(400, "INVALID_STATUS", "invalid status: " + status.value))
      && (r.Ok? && status.Some? && status.value != "" ==> r.value.status == FromName(status.value) && r.value.status.Some?)
      && (r.Ok? && (status.None? || status.value == "") ==> r.value.status.None?)
      && (r.Ok? ==> (r.value.provider.None? <==>
            provider.None? || forall i :: 0 <= i < |provider.value| ==> Text.IsJsWhitespace(provider.value[i])))
  {
    if provider.Some? {
      Text.TrimEmptyIff(provider.value);
    }
  }

  // ---------------------------------------------------------------- stored artifacts

  /** The availability flags of `:id/artifacts`. */
  datatype ArtifactsInfo = ArtifactsInfo(hasXml: bool, hasPdf: bool)

  function GetArtifacts(doc: Option<Emission>): Result<ArtifactsInfo, ApiError> {
    if doc.None? then Err(EmissionNotFound) else Ok(ArtifactsInfo(HasXml(doc.value), HasPdf(doc.value)))
  }

  /** The local downloads (`:id/xml`, `:id/pdf`): the stored base64 text, or the error thrown. */
  function LocalDownload(doc: Option<Emission>, kind: ArtifactKind): Result<string, ApiError> {
    if doc.None? then Err(EmissionNotFound)
    else if kind == Xml then
      if !Present(doc.value.xmlBase64) then Err(ApiError(404, "XML_NOT_AVAILABLE", "XML not available for this emission"))
      else Ok(doc.value.xmlBase64.value)
    else
      if !Present(doc.value.pdfBase64) then Err(ApiError(404, "PDF_NOT_AVAILABLE", "PDF not available for this emission"))
      else Ok(doc.value.pdfBase64.value)
  }

  /**
   * The flags of `:id/artifacts` announce exactly the local downloads that succeed: a flag is
   * set iff the stored text is non-empty iff the download returns that text, and the other
   * case is the kind's own NOT_AVAILABLE error.
   */
  lemma ArtifactsInfoMatchesDownloads(doc: Option<Emission>)
    requires doc.Some?
    ensures var info := GetArtifacts(doc).value;
      && (info.hasXml <==> doc.value.xmlBase64.Some? && doc.value.xmlBase64.value != "")
      && (info.hasPdf <==> doc.value.pdfBase64.Some? && doc.value.pdfBase64.value != "")
      && (info.hasXml <==> LocalDownload(doc, Xml).Ok?)
      && (info.hasPdf <==> LocalDownload(doc, Pdf).Ok?)
      && (info.hasXml ==> LocalDownload(doc, Xml).value == doc.value.xmlBase64.value)
      && (info.hasPdf ==> LocalDownload(doc, Pdf).value == doc.value.pdfBase64.value)
      && (!info.hasXml ==> LocalDownload(doc, Xml).error.code == "XML_NOT_AVAILABLE")
      && (!info.hasPdf ==> LocalDownload(doc, Pdf).error.code == "PDF_NOT_AVAILABLE")
  {
  }
}
