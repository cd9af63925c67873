/**
 * The fiscal provider seen from the core: an oracle of outcomes per argument,
 * and a log of the calls made on it.
 */
module Provider {
  import opened Wrappers
  import opened NfseStatus
  import Json
  import Emissions

  /** A thrown provider error: its numeric `status` if it has one, its message and its body. */
  datatype Failure = Failure(status: Option<int>, message: string, body: Json.Value)

  /** What `emitirNfse` resolves to. */
  datatype SubmitResult = SubmitResult(
    provider: string,
    status: Status,
    externalId: Option<string>,
    providerResponse: Json.Value)

  datatype SubmitOutcome = Submitted(result: SubmitResult) | SubmitFailed(failure: Failure)

  /** What `consultarNfse` resolves to: the mapped status and the raw response. */
  datatype QueryOutcome = Queried(status: Status, response: Json.Value) | QueryFailed(failure: Failure)

  datatype DownloadOutcome = Downloaded(data: Emissions.Bytes) | DownloadFailed(failure: Failure)

  /** The provider's answers, each a function of the call's argument. */
  datatype Oracles = Oracles(
    name: string,
    submit: Json.Value -> SubmitOutcome,
    query: string -> QueryOutcome,
    xml: Json.Value -> DownloadOutcome,
    pdf: Json.Value -> DownloadOutcome)

  datatype Call =
    | Submit(input: Json.Value)
    | Query(externalId: string)
    | DownloadXml(xmlId: Json.Value)
    | DownloadPdf(pdfId: Json.Value)

  predicate IsDownload(c: Call) {
    c.DownloadXml? || c.DownloadPdf?
  }

  class FiscalProvider {
    const oracles: Oracles
    var calls: seq<Call>

    constructor (oracles: Oracles)
      ensures this.oracles == oracles && calls == []
    {
      this.oracles := oracles;
      calls := [];
    }

    method EmitirNfse(input: Json.Value) returns (o: SubmitOutcome)
      modifies this
      ensures o == oracles.submit(input) && calls == old(calls) + [Submit(input)]
    {
      o := oracles.submit(input);
      calls := calls + [Submit(input)];
    }

    method ConsultarNfse(externalId: string) returns (o: QueryOutcome)
      modifies this
      ensures o == oracles.query(externalId) && calls == old(calls) + [Query(externalId)]
    {
      o := oracles.query(externalId);
      calls := calls + [Query(externalId)];
    }

    method BaixarXmlNfse(id: Json.Value) returns (o: DownloadOutcome)
      modifies this
      ensures o == oracles.xml(id) && calls == old(calls) + [DownloadXml(id)]
    {
      o := oracles.xml(id);
      calls := calls + [DownloadXml(id)];
    }

    method BaixarPdfNfse(id: Json.Value) returns (o: DownloadOutcome)
      modifies this
      ensures o == oracles.pdf(id) && calls == old(calls) + [DownloadPdf(id)]
    {
      o := oracles.pdf(id);
      calls := calls + [DownloadPdf(id)];
    }
  }

  /**
   * `Buffer.from(data).toString('base64')`, kept opaque: one character per byte.
   * The model relies only on its injectivity.
   */
  function Base64(data: Emissions.Bytes): (r: string)
    ensures |r| == |data|
  {
    seq(|data|, i requires 0 <= i < |data| => (data[i] as int) as char)
  }

  lemma Base64Injective(a: Emissions.Bytes, b: Emissions.Bytes)
    requires Base64(a) == Base64(b)
    ensures a == b
  {
    assert |a| == |b|;
    forall i | 0 <= i < |a|
      ensures a[i] == b[i]
    {
      assert Base64(a)[i] == Base64(b)[i];
    }
  }
}
