/**
 * SyncNfseArtifactsService.execute: a manual request to fetch the XML and PDF of one
 * emission, checked in a fixed order (artifacts present, rate limit, externalId, provider)
 * with one audit entry on every path that found the emission.
 */
module SyncNfseArtifacts {
  import opened Wrappers
  import opened NfseStatus
  import opened Emissions
  import opened Provider
  import Json
  import Artifacts
  import Repository

  const DefaultMinIntervalMs := 60000

  /** `Number(NFSE_SYNC_ARTIFACTS_MIN_INTERVAL_MS ?? 60000)`, the variable already parsed. */
  function MinInterval(env: Option<int>): int {
    env.GetOr(DefaultMinIntervalMs)
  }

  datatype Reason = AlreadyPresent | NotAuthorized | SyncOk

  /** The value `execute` returns. */
  datatype SyncResponse =
    | NotFound
    | Found(id: nat, status: Status, synced: bool, reason: Reason, hasXml: bool, hasPdf: bool,
            artifactId: Option<Json.Value>)

  /**
   * What `execute` throws: HTTP 429 'Artifact sync rate limited' with retryAfterMs, a
   * BadRequest 'Emission has no externalId', or the provider's failure rethrown.
   */
  datatype SyncError =
    | RateLimited(retryAfterMs: int)
    | MissingExternalId
    | Thrown(failure: Failure)

  /** `doc.lastArtifactSyncAt ? getTime() : 0` */
  function LastSyncMs(e: Emission): int {
    if e.lastArtifactSyncAt.Some? then e.lastArtifactSyncAt.value else 0
  }

  /** The wait still owed, when the last sync (0 meaning none) is too recent. */
  function RetryAfter(lastSyncMs: int, nowMs: int, minIntervalMs: int): Option<int> {
    if lastSyncMs != 0 && nowMs - lastSyncMs < minIntervalMs then Some(minIntervalMs - (nowMs - lastSyncMs))
    else None
  }

  /**
   * A sync is blocked exactly when a previous one is recorded and less than minIntervalMs has
   * elapsed; the wait owed is what remains of the interval: positive, and at most the interval
   * when the clock has not gone backwards. From minIntervalMs on it is not blocked.
   */
  lemma RateLimitWindow(lastSyncMs: int, nowMs: int, minIntervalMs: int)
    ensures RetryAfter(lastSyncMs, nowMs, minIntervalMs).Some? <==>
            lastSyncMs != 0 && nowMs < lastSyncMs + minIntervalMs
    ensures RetryAfter(lastSyncMs, nowMs, minIntervalMs).Some? ==>
            var w := RetryAfter(lastSyncMs, nowMs, minIntervalMs).value;
            && w > 0 && nowMs + w == lastSyncMs + minIntervalMs
            && (nowMs >= lastSyncMs ==> w <= minIntervalMs)
    ensures lastSyncMs != 0 && minIntervalMs > 1 ==>
            RetryAfter(lastSyncMs, lastSyncMs + minIntervalMs - 1, minIntervalMs) == Some(1)
    ensures RetryAfter(lastSyncMs, lastSyncMs + minIntervalMs, minIntervalMs).None?
    ensures RetryAfter(0, nowMs, minIntervalMs).None?
  {
  }

  /** What one call of `execute` answers, calls and writes. */
  datatype SyncRun = SyncRun(response: Result<SyncResponse, SyncError>, calls: seq<Call>, ops: seq<RepoOp>)

  function Audit(id: nat, now: int, outcome: AuditOutcome, message: AuditMessage,
                 requestedBy: Option<string>, ip: Option<string>): RepoOp {
    RepoOp.AppendArtifactSyncAudit(id, AuditEntry(now, outcome, message, requestedBy, ip))
  }

  /** The provider phase, inside the try block, for an emission `doc` with externalId `ext`. */
  function ProviderPhase(doc: Emission, ext: string, o: Oracles, requestedBy: Option<string>,
                         ip: Option<string>, now: int): SyncRun {
    match o.query(ext)
    case QueryFailed(f) =>
      SyncRun(Err(Thrown(f)), [Query(ext)], [Audit(doc.id, now, SyncFailed, ErrorMessage(f.message), requestedBy, ip)])
    case Queried(status, response) =>
      if status != AUTHORIZED then
        SyncRun(Ok(Found(doc.id, status, false, NotAuthorized, HasXml(doc), HasPdf(doc), None)), [Query(ext)],
                [Audit(doc.id, now, SkippedNotAuthorized, ProviderStatus(status), requestedBy, ip)])
      else
        var rest := AuthorizedPhase(doc, ext, response, o, requestedBy, ip, now);
        SyncRun(rest.response, [Query(ext)] + rest.calls, rest.ops)
  }

  /** After an AUTHORIZED answer: download both artifacts with the extracted id, save, audit. */
  function AuthorizedPhase(doc: Emission, ext: string, response: Json.Value, o: Oracles,
                           requestedBy: Option<string>, ip: Option<string>, now: int): SyncRun {
    var id := Artifacts.ExtractArtifactId(response, ext);
    var calls := [DownloadXml(id), DownloadPdf(id)];
    match (o.xml(id), o.pdf(id))
    case (DownloadFailed(f), _) =>
      SyncRun(Err(Thrown(f)), calls, [Audit(doc.id, now, SyncFailed, ErrorMessage(f.message), requestedBy, ip)])
    case (Downloaded(_), DownloadFailed(f)) =>
      SyncRun(Err(Thrown(f)), calls, [Audit(doc.id, now, SyncFailed, ErrorMessage(f.message), requestedBy, ip)])
    case (Downloaded(x), Downloaded(p)) =>
      SyncRun(Ok(Found(doc.id, AUTHORIZED, true, SyncOk, true, true, Some(id))), calls,
              [RepoOp.SaveArtifactsById(SaveArtifactsInput(doc.id, AUTHORIZED, response, Base64(x), Base64(p), None)),
               Audit(doc.id, now, SyncSucceeded, ArtifactIdMessage(id), requestedBy, ip)])
  }

  /** `execute` over the stored records `rs`, at clock reading `now`. */
  function Sync(rs: seq<Emission>, emissionId: nat, o: Oracles, requestedBy: Option<string>, ip: Option<string>,
                now: int, minIntervalMs: int): SyncRun {
    match FindById(rs, emissionId)
    case None => SyncRun(Ok(NotFound), [], [])
    case Some(doc) =>
      if HasXml(doc) && HasPdf(doc) then
        SyncRun(Ok(Found(doc.id, doc.status, false, AlreadyPresent, true, true, None)), [],
                [Audit(doc.id, now, NoopAlreadyPresent, NoMessage, requestedBy, ip)])
      else match RetryAfter(LastSyncMs(doc), now, minIntervalMs)
        case Some(wait) =>
          SyncRun(Err(RateLimited(wait)), [], [Audit(doc.id, now, BlockedRateLimited, AuditMessage.RetryAfter(wait), requestedBy, ip)])
        case None =>
          if !Present(doc.externalId) then
            SyncRun(Err(MissingExternalId), [], [Audit(doc.id, now, FailedMissingExternalId, NoMessage, requestedBy, ip)])
          else ProviderPhase(doc, doc.externalId.value, o, requestedBy, ip, now)
  }

  function AuditCount(ops: seq<RepoOp>): nat {
    if |ops| == 0 then 0
    else (if ops[0].AppendArtifactSyncAudit? then 1 else 0) + AuditCount(ops[1..])
  }

  /** The audit outcome that goes with each answer. */
  function OutcomeOf(r: Result<SyncResponse, SyncError>): AuditOutcome
    requires r != Ok(NotFound)
  {
    match r
    case Ok(found) =>
      (match found.reason
       case AlreadyPresent => NoopAlreadyPresent
       case NotAuthorized => SkippedNotAuthorized
       case SyncOk => SyncSucceeded)
    case Err(e) =>
      match e
      case RateLimited(_) => BlockedRateLimited
      case MissingExternalId => FailedMissingExternalId
      case Thrown(_) => SyncFailed
  }

  /**
   * An unknown id answers found=false with no write and no provider call. Every path that
   * found the emission appends exactly one audit entry, the last write, for that emission,
   * whose outcome matches the answer.
   */
  lemma OneAuditPerPath(rs: seq<Emission>, emissionId: nat, o: Oracles, requestedBy: Option<string>,
                        ip: Option<string>, now: int, minIntervalMs: int)
    ensures var run := Sync(rs, emissionId, o, requestedBy, ip, now, minIntervalMs);
      && (run.response == Ok(NotFound) <==> FindById(rs, emissionId).None?)
      && (FindById(rs, emissionId).None? ==> run.calls == [] && run.ops == [])
      && (FindById(rs, emissionId).Some? ==>
            && AuditCount(run.ops) == 1
            && |run.ops| >= 1
            && var last := run.ops[|run.ops| - 1];
               last.AppendArtifactSyncAudit? && last.auditId == emissionId
               && last.entry.outcome == OutcomeOf(run.response)
               && last.entry.at == now && last.entry.requestedBy == requestedBy && last.entry.ip == ip)
  {
    var run := Sync(rs, emissionId, o, requestedBy, ip, now, minIntervalMs);
    match FindById(rs, emissionId)
    case None =>
    case Some(doc) =>
      if !(HasXml(doc) && HasPdf(doc)) && RetryAfter(LastSyncMs(doc), now, minIntervalMs).None?
         && Present(doc.externalId) {
        ProviderPhaseAudits(doc, doc.externalId.value, o, requestedBy, ip, now);
      }
  }

  lemma ProviderPhaseAudits(doc: Emission, ext: string, o: Oracles, requestedBy: Option<string>,
                            ip: Option<string>, now: int)
    ensures var run := ProviderPhase(doc, ext, o, requestedBy, ip, now);
      && run.response != Ok(NotFound)
      && AuditCount(run.ops) == 1 && |run.ops| >= 1
      && var last := run.ops[|run.ops| - 1];
         last.AppendArtifactSyncAudit? && last.auditId == doc.id
         && last.entry.outcome == OutcomeOf(run.response)
         && last.entry.at == now && last.entry.requestedBy == requestedBy && last.entry.ip == ip
  {
    var run := ProviderPhase(doc, ext, o, requestedBy, ip, now);
    if |run.ops| == 2 {
      assert AuditCount(run.ops) == AuditCount(run.ops[1..]);
    }
  }

  /**
   * The checks run in a fixed order: artifacts already present, then the rate limit, then the
   * externalId; the provider is called only once all three have passed.
   */
  lemma ChecksInOrder(rs: seq<Emission>, emissionId: nat, o: Oracles, requestedBy: Option<string>,
                      ip: Option<string>, now: int, minIntervalMs: int)
    requires FindById(rs, emissionId).Some?
    ensures var doc := FindById(rs, emissionId).value;
            var run := Sync(rs, emissionId, o, requestedBy, ip, now, minIntervalMs);
      && (HasXml(doc) && HasPdf(doc) ==>
            run.response == Ok(Found(emissionId, doc.status, false, AlreadyPresent, true, true, None)) && run.calls == [])
      && (!(HasXml(doc) && HasPdf(doc)) && RetryAfter(LastSyncMs(doc), now, minIntervalMs).Some? ==>
            run.response == Err(RateLimited(minIntervalMs - (now - LastSyncMs(doc)))) && run.calls == [])
      && (!(HasXml(doc) && HasPdf(doc)) && RetryAfter(LastSyncMs(doc), now, minIntervalMs).None?
          && !Present(doc.externalId) ==>
            run.response == Err(MissingExternalId) && run.calls == [])
      && (run.calls != [] <==>
            !(HasXml(doc) && HasPdf(doc)) && RetryAfter(LastSyncMs(doc), now, minIntervalMs).None?
            && Present(doc.externalId))
      && (run.calls != [] ==> run.calls[0] == Query(doc.externalId.value))
  {
  }

  /**
   * Once the provider is reached: a status other than AUTHORIZED answers not_authorized with
   * the stored artifacts' presence and saves nothing; AUTHORIZED downloads both artifacts with
   * the extracted id and, when both arrive, saves them (status AUTHORIZED, error null) before
   * the 'success' entry; any provider failure is rethrown unchanged after a 'failed' entry
   * carrying its message.
   */
  lemma ProviderPhaseOutcomes(doc: Emission, ext: string, o: Oracles, requestedBy: Option<string>,
                              ip: Option<string>, now: int)
    ensures var run := ProviderPhase(doc, ext, o, requestedBy, ip, now);
            var q := o.query(ext);
      && (q.Queried? && q.status != AUTHORIZED ==>
            run.response == Ok(Found(doc.id, q.status, false, NotAuthorized, HasXml(doc), HasPdf(doc), None))
            && run.calls == [Query(ext)] && |run.ops| == 1)
      && (q.Queried? && q.status == AUTHORIZED ==>
            var id := Artifacts.ExtractArtifactId(q.response, ext);
            && run.calls == [Query(ext), DownloadXml(id), DownloadPdf(id)]
            && (o.xml(id).Downloaded? && o.pdf(id).Downloaded? ==>
                  && run.response == Ok(Found(doc.id, AUTHORIZED, true, SyncOk, true, true, Some(id)))
                  && run.ops[0] == RepoOp.SaveArtifactsById(SaveArtifactsInput(doc.id, AUTHORIZED, q.response,
                                      Base64(o.xml(id).data), Base64(o.pdf(id).data), None))))
      && ((exists k :: 0 <= k < |run.ops| && run.ops[k].SaveArtifactsById?) <==>
            q.Queried? && q.status == AUTHORIZED
            && o.xml(Artifacts.ExtractArtifactId(q.response, ext)).Downloaded?
            && o.pdf(Artifacts.ExtractArtifactId(q.response, ext)).Downloaded?)
      && (run.response.Err? ==>
            run.response.error.Thrown?
            && run.ops == [Audit(doc.id, now, SyncFailed, ErrorMessage(run.response.error.failure.message), requestedBy, ip)]
            && (q.QueryFailed? ==> run.response.error.failure == q.failure))
  {
  }

  /**
   * The authorized sync of the service's test: an emission stored as ERROR, with externalId
   * 'protocol-3', no artifacts and no previous sync; the provider says AUTHORIZED with idNota
   * 'id-nota-3'. Both artifacts are downloaded with that id and the record ends AUTHORIZED with
   * them: saveArtifactsById carries no status guard, so a sync can move a settled emission.
   */
  lemma SyncAuthorizesSettledEmission(rs: seq<Emission>, i: nat, o: Oracles, now: int, xml: Bytes, pdf: Bytes)
    requires i < |rs| && forall j :: 0 <= j < |rs| && j != i ==> rs[j].id != rs[i].id
    requires rs[i].status == ERROR && rs[i].externalId == Some("protocol-3")
    requires rs[i].xmlBase64.None? && rs[i].pdfBase64.None? && rs[i].lastArtifactSyncAt.None?
    requires o.query("protocol-3") == Queried(AUTHORIZED, Json.JObj([("idNota", Json.JStr("id-nota-3"))]))
    requires o.xml(Json.JStr("id-nota-3")) == Downloaded(xml) && o.pdf(Json.JStr("id-nota-3")) == Downloaded(pdf)
    ensures var run := Sync(rs, rs[i].id, o, Some("user@test.com"), None, now, DefaultMinIntervalMs);
            var after := ApplyAll(rs, run.ops);
      && run.calls == [Query("protocol-3"), DownloadXml(Json.JStr("id-nota-3")), DownloadPdf(Json.JStr("id-nota-3"))]
      && run.response.Ok? && run.response.value.synced && run.response.value.reason == SyncOk
      && |after| == |rs|
      && after[i].status == AUTHORIZED
      && after[i].xmlBase64 == Some(Base64(xml)) && after[i].pdfBase64 == Some(Base64(pdf))
      && after[i].error.None?
  {
    var id := rs[i].id;
    FindByUniqueId(rs, i);
    var doc := rs[i];
    var resp := Json.JObj([("idNota", Json.JStr("id-nota-3"))]);
    Artifacts.ArtifactIdPriority(resp, "protocol-3");
    assert Artifacts.ExtractArtifactId(resp, "protocol-3") == Json.JStr("id-nota-3");
    var save := RepoOp.SaveArtifactsById(SaveArtifactsInput(id, AUTHORIZED, resp, Base64(xml), Base64(pdf), None));
    var audit := Audit(id, now, SyncSucceeded, ArtifactIdMessage(Json.JStr("id-nota-3")), Some("user@test.com"), None);
    var run := Sync(rs, id, o, Some("user@test.com"), None, now, DefaultMinIntervalMs);
    assert run.ops == [save, audit];
    FirstMatchIs(rs, save, i);
    var rs1 := Apply(rs, save);
    FirstMatchIs(rs1, audit, i);
    ApplyAllAppend(rs, [save], audit);
    assert ApplyAll(rs, [save]) == rs1 by {
      assert ApplyAll(rs, [save]) == ApplyAll(rs1, []);
    }
  }

  /** With distinct ids, findById of a record's id finds that record. */
  lemma {:induction false} FindByUniqueId(rs: seq<Emission>, i: nat)
    requires i < |rs| && forall j :: 0 <= j < |rs| && j != i ==> rs[j].id != rs[i].id
    ensures FindById(rs, rs[i].id) == Some(rs[i])
  {
    if i > 0 {
      FindByUniqueId(rs[1..], i - 1);
    }
  }

  /** The artifacts-present test: an emission holding both artifacts answers already_present, calls nothing, audits once. */
  lemma AlreadyPresentExample(rs: seq<Emission>, emissionId: nat, o: Oracles, now: int)
    requires FindById(rs, emissionId).Some?
    requires FindById(rs, emissionId).value.xmlBase64 == Some("abc")
    requires FindById(rs, emissionId).value.pdfBase64 == Some("def")
    ensures var run := Sync(rs, emissionId, o, None, None, now, DefaultMinIntervalMs);
      run.response.Ok? && !run.response.value.synced && run.response.value.reason == AlreadyPresent
      && run.calls == [] && run.ops == [Audit(emissionId, now, NoopAlreadyPresent, NoMessage, None, None)]
  {
  }

  /** The rate-limit test: a sync one second after the last one is refused with 59 seconds to wait. */
  lemma RateLimitedExample(rs: seq<Emission>, emissionId: nat, o: Oracles, now: int)
    requires FindById(rs, emissionId).Some?
    requires FindById(rs, emissionId).value.xmlBase64.None?
    requires FindById(rs, emissionId).value.lastArtifactSyncAt == Some(now - 1000) && now != 1000
    ensures var run := Sync(rs, emissionId, o, None, None, now, DefaultMinIntervalMs);
      run.response == Err(RateLimited(59000)) && run.calls == []
      && run.ops == [Audit(emissionId, now, BlockedRateLimited, AuditMessage.RetryAfter(59000), None, None)]
  {
  }

  /** `execute`: its answer, provider calls and writes are those of Sync on the records it found. */
  method Execute(repo: Repository.NfseEmissionRepository, provider: FiscalProvider, emissionId: nat,
                 requestedBy: Option<string>, ip: Option<string>, now: int, minIntervalEnv: Option<int>)
    returns (r: Result<SyncResponse, SyncError>)
    requires repo.Valid()
    modifies repo, provider
    ensures repo.Valid()
    ensures var run := Sync(old(repo.records), emissionId, provider.oracles, requestedBy, ip, now,
                            MinInterval(minIntervalEnv));
      && r == run.response
      && repo.history == old(repo.history) + run.ops
      && provider.calls == old(provider.calls) + run.calls
      && repo.records == ApplyAll(old(repo.records), run.ops)
  {
    var found := repo.FindById(emissionId);
    if found.None? {
      return Ok(NotFound);
    }
    var doc := found.value;

    if HasXml(doc) && HasPdf(doc) {
      repo.AppendArtifactSyncAudit(doc.id, AuditEntry(now, NoopAlreadyPresent, NoMessage, requestedBy, ip));
      return Ok(Found(doc.id, doc.status, false, AlreadyPresent, true, true, None));
    }

    var minIntervalMs := MinInterval(minIntervalEnv);
    var lastSyncAt := LastSyncMs(doc);
    if lastSyncAt != 0 && now - lastSyncAt < minIntervalMs {
      var retryAfterMs := minIntervalMs - (now - lastSyncAt);
      repo.AppendArtifactSyncAudit(doc.id, AuditEntry(now, BlockedRateLimited, AuditMessage.RetryAfter(retryAfterMs), requestedBy, ip));
      return Err(RateLimited(retryAfterMs));
    }

    if !Present(doc.externalId) {
      repo.AppendArtifactSyncAudit(doc.id, AuditEntry(now, FailedMissingExternalId, NoMessage, requestedBy, ip));
      return Err(MissingExternalId);
    }

    r := RunProviderPhase(repo, provider, doc, doc.externalId.value, requestedBy, ip, now);
  }

  /** The try block of `execute` and its catch. */
  method RunProviderPhase(repo: Repository.NfseEmissionRepository, provider: FiscalProvider, doc: Emission,
                          ext: string, requestedBy: Option<string>, ip: Option<string>, now: int)
    returns (r: Result<SyncResponse, SyncError>)
    requires repo.Valid()
    modifies repo, provider
    ensures repo.Valid()
    ensures var run := ProviderPhase(doc, ext, provider.oracles, requestedBy, ip, now);
      && r == run.response
      && repo.history == old(repo.history) + run.ops
      && provider.calls == old(provider.calls) + run.calls
      && repo.records == ApplyAll(old(repo.records), run.ops)
  {
    ghost var rs0 := repo.records;
    var q := provider.ConsultarNfse(ext);
    if q.QueryFailed? {
      var op := Audit(doc.id, now, SyncFailed, ErrorMessage(q.failure.message), requestedBy, ip);
      repo.AppendArtifactSyncAudit(op.auditId, op.entry);
      ApplyAllOne(rs0, op);
      return Err(Thrown(q.failure));
    }
    if q.status != AUTHORIZED {
      var op := Audit(doc.id, now, SkippedNotAuthorized, ProviderStatus(q.status), requestedBy, ip);
      repo.AppendArtifactSyncAudit(op.auditId, op.entry);
      ApplyAllOne(rs0, op);
      return Ok(Found(doc.id, q.status, false, NotAuthorized, HasXml(doc), HasPdf(doc), None));
    }
    r := DownloadAndSave(repo, provider, doc, ext, q.response, requestedBy, ip, now);
    AppendAssoc(old(provider.calls), [Query(ext)],
                AuthorizedPhase(doc, ext, q.response, provider.oracles, requestedBy, ip, now).calls);
  }

  /** The AUTHORIZED branch of the try block, with the catch for a failed download. */
  method DownloadAndSave(repo: Repository.NfseEmissionRepository, provider: FiscalProvider, doc: Emission,
                         ext: string, response: Json.Value, requestedBy: Option<string>, ip: Option<string>, now: int)
    returns (r: Result<SyncResponse, SyncError>)
    requires repo.Valid()
    modifies repo, provider
    ensures repo.Valid()
    ensures var run := AuthorizedPhase(doc, ext, response, provider.oracles, requestedBy, ip, now);
      && r == run.response
      && repo.history == old(repo.history) + run.ops
      && provider.calls == old(provider.calls) + run.calls
      && repo.records == ApplyAll(old(repo.records), run.ops)
  {
    ghost var rs0 := repo.records;
    var artifactId := Artifacts.ExtractArtifactId(response, ext);
    var xml := provider.BaixarXmlNfse(artifactId);
    var pdf := provider.BaixarPdfNfse(artifactId);
    if xml.DownloadFailed? || pdf.DownloadFailed? {
      var f := if xml.DownloadFailed? then xml.failure else pdf.failure;
      var op := Audit(doc.id, now, SyncFailed, ErrorMessage(f.message), requestedBy, ip);
      repo.AppendArtifactSyncAudit(op.auditId, op.entry);
      ApplyAllOne(rs0, op);
      return Err(Thrown(f));
    }
    var save := SaveArtifactsInput(doc.id, AUTHORIZED, response, Base64(xml.data), Base64(pdf.data), None);
    repo.SaveArtifactsById(save);
    var op := Audit(doc.id, now, SyncSucceeded, ArtifactIdMessage(artifactId), requestedBy, ip);
    repo.AppendArtifactSyncAudit(op.auditId, op.entry);
    ApplyAllOne(rs0, RepoOp.SaveArtifactsById(save));
    ApplyAllAppend(rs0, [RepoOp.SaveArtifactsById(save)], op);
    return Ok(Found(doc.id, AUTHORIZED, true, SyncOk, true, true, Some(artifactId)));
  }
}
