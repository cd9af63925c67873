/**
 * The fiscal webhook (`WebhooksController.receive`): it validates the posted
 * body, maps its status onto NfseEmissionStatus and hands one guarded
 * `updateByExternalId` to the repository.
 */
module Webhooks {
  import opened Wrappers
  import opened NfseStatus
  import opened Json
  import opened Emissions

  /** The JSON reply: `{received: true}` or `{received: false, reason}`. */
  datatype Reply = Received | NotReceived(reason: string)

  /** The reply and the one repository write the call makes, if any. */
  datatype Outcome = Outcome(reply: Reply, write: Option<RepoOp>)

  const MissingFieldsReason := "missing externalId/status"

  /**
   * The names the `in` test accepts, restricted to a string status. The enum object also
   * inherits the Object.prototype members, so `in` accepts their names as well.
   */
  function PrototypeKeys(): set<string> {
    {"constructor", "toString", "toLocaleString", "valueOf", "hasOwnProperty", "isPrototypeOf",
     "propertyIsEnumerable", "__proto__", "__defineGetter__", "__defineSetter__",
     "__lookupGetter__", "__lookupSetter__"}
  }

  /** `status in NfseEmissionStatus ? status : 'PROCESSING'` as written, as the status name it writes. */
  function MappedNameAsWritten(status: Value): string {
    if status.JStr? && (FromName(status.s).Some? || status.s in PrototypeKeys()) then status.s
    else Name(PROCESSING)
  }

  /** The status the webhook writes: the member a string status names, PROCESSING otherwise. */
  function MapStatus(status: Value): Status {
    if status.JStr? && FromName(status.s).Some? then FromName(status.s).value else PROCESSING
  }

  /**
   * `Object.prototype` names pass the `in` test without naming any status: a body with
   * status 'toString' has 'toString' written as its status.
   */
  lemma PrototypeKeyPasses()
    ensures MappedNameAsWritten(JStr("toString")) == "toString"
    ensures FromName("toString").None?
    ensures MapStatus(JStr("toString")) == PROCESSING
  {
    assert "toString" in PrototypeKeys();
  }

  /**
   * The mapping writes only member names, and it agrees with the `in` test as written on
   * every status that is not an inherited prototype name.
   */
  lemma MapStatusAgreesOffPrototype(status: Value)
    requires !(status.JStr? && status.s in PrototypeKeys())
    ensures MappedNameAsWritten(status) == Name(MapStatus(status))
    ensures FromName(Name(MapStatus(status))) == Some(MapStatus(status))
  {
    if status.JStr? && FromName(status.s).Some? {
      NameRoundTrip(status.s, FromName(status.s).value);
    }
    NameRoundTrip(Name(MapStatus(status)), MapStatus(status));
  }

  function Receive(body: Value, now: int): Outcome {
    var externalId := Get(body, "externalId");
    var status := Get(body, "status");
    if !Truthy(externalId) || !Truthy(status) then
      Outcome(NotReceived(MissingFieldsReason), None)
    else
      Outcome(Received, Some(UpdateByExternalId(
        ByExternalIdInput(externalId, MapStatus(status), body, None, None, None, None), now)))
  }

  /**
   * A falsy externalId or status is answered received=false with the fixed reason and writes
   * nothing; otherwise the call is received and makes exactly one write.
   */
  lemma RejectsMissingFields(body: Value, now: int)
    ensures var r := Receive(body, now);
      var valid := Truthy(Get(body, "externalId")) && Truthy(Get(body, "status"));
      && (!valid ==> r == Outcome(NotReceived("missing externalId/status"), None))
      && (valid <==> r.reply == Received)
      && (valid <==> r.write.Some?)
  {
  }

  /**
   * The one write is an updateByExternalId for the posted externalId with the whole body as
   * providerResponse, no provider filter, no error and no artifacts.
   */
  lemma ReceivedWrite(body: Value, now: int)
    requires Truthy(Get(body, "externalId")) && Truthy(Get(body, "status"))
    ensures var w := Receive(body, now).write;
      && w.Some? && w.value.UpdateByExternalId? && w.value.at == now
      && w.value.byExternalId.externalId == Get(body, "externalId")
      && w.value.byExternalId.providerResponse == body
      && w.value.byExternalId.provider.None? && w.value.byExternalId.error.None?
      && w.value.byExternalId.xmlBase64.None? && w.value.byExternalId.pdfBase64.None?
  {
  }

  /** A status naming a member is passed through; any other status becomes PROCESSING. */
  lemma StatusMapping(body: Value, now: int, s: Status)
    requires Truthy(Get(body, "externalId")) && Truthy(Get(body, "status"))
    ensures Get(body, "status") == JStr(Name(s)) ==>
      Receive(body, now).write.value.byExternalId.status == s
    ensures (forall m :: Get(body, "status") != JStr(Name(m))) ==>
      Receive(body, now).write.value.byExternalId.status == PROCESSING
  {
    NameRoundTrip(Name(s), s);
    var status := Get(body, "status");
    if status.JStr? && FromName(status.s).Some? {
      NameRoundTrip(status.s, FromName(status.s).value);
    }
  }

  /** Going through the repository guard, a webhook never changes a record that has left PENDING. */
  lemma WebhookKeepsSettledStatus(rs: seq<Emission>, body: Value, now: int, i: nat)
    requires i < |rs| && rs[i].status != PENDING
    ensures var w := Receive(body, now).write;
      w.Some? ==> i < |Apply(rs, w.value)| && Apply(rs, w.value)[i].status == rs[i].status
  {
    var w := Receive(body, now).write;
    if w.Some? {
      TerminalStatusStable(rs, w.value, i);
    }
  }

  /**
   * An unrecognised status moves the PENDING record it names to PROCESSING, and for good:
   * after any further guarded repository operations it is still PROCESSING and no
   * findPending query returns it, so polling never resolves it.
   */
  lemma UnknownStatusParksRecord(rs: seq<Emission>, body: Value, now: int, i: nat,
                                 later: seq<RepoOp>, q: PendingQuery)
    requires i < |rs| && rs[i].status == PENDING
    requires Truthy(Get(body, "externalId")) && Truthy(Get(body, "status"))
    requires MapStatus(Get(body, "status")) == PROCESSING
    requires ExternalIdIs(rs[i], Get(body, "externalId"))
    requires forall j :: 0 <= j < i ==> !ExternalIdIs(rs[j], Get(body, "externalId"))
    requires forall k :: 0 <= k < |later| ==> Guarded(later[k])
    ensures var w := Receive(body, now).write.value;
      var after := ApplyAll(Apply(rs, w), later);
      && i < |after| && after[i].status == PROCESSING
      && after[i] !in FindPending(after, q)
  {
    var w := Receive(body, now).write.value;
    assert Matches(rs[i], w);
    forall j | 0 <= j < i
      ensures !Matches(rs[j], w)
    {
      assert !ExternalIdIs(rs[j], Get(body, "externalId"));
    }
    FirstMatchIs(rs, w, i);
    var mid := Apply(rs, w);
    assert mid[i].status == PROCESSING;
    TerminalStatusStableAll(mid, later, i);
    NeverPolledAgain(mid, later, i, q);
  }
}
