/**
 * `extractArtifactId`, defined identically by the polling and the sync services:
 * which id the XML/PDF downloads are asked for, read from a provider response.
 */
module Artifacts {
  import opened Json

  /** `Array.isArray(n?.documents) ? n.documents[0] : n?.documents` */
  function FirstDocument(normalized: Value): Value {
    var documents := Get(normalized, "documents");
    FirstIfArray(documents)
  }

  /**
   * The first present one of idNota, id, nota.idNota, nota.id, documents[0].idNota and
   * documents[0].id of the (first element of the) response, else the fallback externalId.
   */
  function ExtractArtifactId(providerResponse: Value, fallbackExternalId: string): (r: Value)
    ensures !Nullish(r)
  {
    var normalized := FirstIfArray(providerResponse);
    var firstDocument := FirstDocument(normalized);
    Coalesce(Get(normalized, "idNota"),
    Coalesce(Get(normalized, "id"),
    Coalesce(Get(Get(normalized, "nota"), "idNota"),
    Coalesce(Get(Get(normalized, "nota"), "id"),
    Coalesce(Get(firstDocument, "idNota"),
    Coalesce(Get(firstDocument, "id"),
    JStr(fallbackExternalId)))))))
  }

  /** The six places an artifact id is looked for, in priority order. */
  function Candidates(providerResponse: Value): (c: seq<Value>)
    ensures |c| == 6
  {
    var n := FirstIfArray(providerResponse);
    var d := FirstDocument(n);
    [Get(n, "idNota"), Get(n, "id"), Get(Get(n, "nota"), "idNota"), Get(Get(n, "nota"), "id"),
     Get(d, "idNota"), Get(d, "id")]
  }

  /**
   * The extracted id is the first present candidate, in the fixed priority order; the
   * fallback externalId is used exactly when every candidate is absent (null or undefined).
   */
  lemma ArtifactIdPriority(providerResponse: Value, fallbackExternalId: string)
    ensures var c := Candidates(providerResponse);
            var r := ExtractArtifactId(providerResponse, fallbackExternalId);
      && (forall k :: 0 <= k < 6 && !Nullish(c[k]) && (forall j :: 0 <= j < k ==> Nullish(c[j])) ==> r == c[k])
      && ((forall k :: 0 <= k < 6 ==> Nullish(c[k])) ==> r == JStr(fallbackExternalId))
      && (r == JStr(fallbackExternalId) || exists k :: 0 <= k < 6 && r == c[k])
  {
    var c := Candidates(providerResponse);
    var r := ExtractArtifactId(providerResponse, fallbackExternalId);
    if !(forall k :: 0 <= k < 6 ==> Nullish(c[k])) {
      var k :| 0 <= k < 6 && !Nullish(c[k]);
      assert r == c[0] || r == c[1] || r == c[2] || r == c[3] || r == c[4] || r == c[5];
    } else {
      assert Nullish(c[0]) && Nullish(c[1]) && Nullish(c[2]) && Nullish(c[3]) && Nullish(c[4]) && Nullish(c[5]);
    }
  }

  /** An array response is read through its first element. */
  lemma ArrayUsesFirstElement(x: Value, rest: seq<Value>, fallbackExternalId: string)
    requires !x.JArr?
    ensures ExtractArtifactId(JArr([x] + rest), fallbackExternalId) == ExtractArtifactId(x, fallbackExternalId)
  {
  }

  /** The response of the polling test: an authorized note reporting `idNota`. */
  lemma IdNotaExample()
    ensures ExtractArtifactId(JObj([("idNota", JStr("id-nota-999")), ("status", JStr("AUTORIZADA"))]),
                              "protocol-123") == JStr("id-nota-999")
  {
  }

  /** An id found only in `documents[0].idNota` is used; a response without any id falls back. */
  lemma DocumentsExample()
    ensures ExtractArtifactId(JObj([("documents", JArr([JObj([("idNota", JStr("id-9"))])]))]), "ext")
            == JStr("id-9")
    ensures ExtractArtifactId(JObj([("status", JStr("CONCLUIDO"))]), "ext") == JStr("ext")
    ensures ExtractArtifactId(JUndefined, "ext") == JStr("ext")
  {
  }
}
