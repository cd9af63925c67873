# NFSe emission and reconciliation, modelled in Dafny

This project models the core of a NestJS backend that issues Brazilian service
invoices (NFSe) through a fiscal provider (NuvemFiscal or PlugNotas) and keeps
a MongoDB collection of emissions in step with the provider. It covers:

- **The emission store.** The model is `NfseEmissionRepository`, a class over an in-memory sequence of `Emission` records. Its central rule is the guarded status update: a write that carries a status applies only when the stored status is PENDING or already the target status. Pure functions `Apply`/`ApplyAll` give the effect of each repository operation. The class methods are proved to have exactly that effect.
- **The services that drive the store:**
  - `EmitirNfseService.execute`: create a PENDING record, submit it, record the outcome.
  - `PollNfseStatusService.runOnce`: query every due PENDING record, with backoff on transient failures.
  - `SyncNfseArtifactsService.execute`: a manual XML/PDF fetch with ordered checks, a rate limit and one audit entry per path.

  The provider is an object whose answers are fixed functions of the call's argument. It keeps a log of the calls made on it.
- **The two status vocabularies.** The PlugNotas and NuvemFiscal mappers are proved equal to a first-matching-rule classification over an explicit rule table. `extractPlugNotasStatus` is modelled too.
- **Smaller decision functions:**
  - The NuvemFiscal OAuth token cache.
  - The fiscal webhook.
  - The fiscal controller's `extractIdNota`, `list` parameter checks and artifact availability checks.
  - The global exception filter.
  - The company service: CNPJ normalisation, provider-data sanitisation, `pick`, `normalizeString`, `trimProviderData`, `mapProviderData` and `createFromCnpj`.

The proofs establish the following guarantees:
- **Records that left PENDING stay settled.** Once a record has left PENDING, no guarded repository operation changes its status again. No later `findPending` returns it.
- **Status updates are idempotent.** Applying the same status update, stamped with the same instant, twice has the effect of applying it once.
- **`findPending`'s query.** Its result is sorted by creation time and holds min(limit, due count) of the due PENDING records: all of them when they fit. Every due record it leaves out is no older than the ones it returns.
- **Polling writes.** Every polled emission gets exactly one write.
- **Sync audit.** When repository calls succeed, every sync path that found its emission writes exactly one audit entry.
- **Sanitisation.** Sanitising provider data is idempotent.
- **Company creation.** Creating a company keeps the CNPJs unique, and a repeated create is served from the store.

Modules, one file each:
- **Shared types:** `Wrappers`, `Json`, `Text`, `NfseStatus`.
- **Store:** `Emissions`, the records and the pure semantics of every repository operation, and `Repository`, the class.
- **Provider and services:**
  - `Provider`, the fiscal provider.
  - `EmitirNfse`, `PollNfseStatus` and `SyncNfseArtifacts`.
  - `Artifacts`, the shared `extractArtifactId`.
- **Status mappers:** `KeywordRules` (the reference classification), `PlugNotasMapper`, `NuvemFiscalMapper`.
- **Controllers, filter and auth:** `NuvemFiscalAuth`, `Webhooks`, `FiscalController`, `ApiExceptionFilter`.
- **Company service:** `EmpresaData`, `EmpresasService`.

## Model

| member | source | states |
|---|---|---|
| Emissions.CreateDefaults | src/fiscal/infra/mongo/repositories/nfse-emission.repository.ts:21-31 | A new record is PENDING unless a status is given, starts with zero poll attempts, has lastPolledAt = nextPollAt = the creation instant, and keeps the given provider and payload |
| Repository.NfseEmissionRepository.constructor | src/fiscal/infra/mongo/repositories/nfse-emission.repository.ts:9-12 | The store starts empty, with no operations logged |
| Repository.NfseEmissionRepository.Create | src/fiscal/infra/mongo/repositories/nfse-emission.repository.ts:14-32 | Appends exactly the new record under a fresh id, keeps the ids distinct, and logs one create |
| Emissions.PatchWritesOnlyItsEntries | src/fiscal/infra/mongo/repositories/nfse-emission.repository.ts:51-63 | A patch writes each entry it defines, including explicit nulls. It leaves every undefined entry, the id, the payload, the creation time and the audit trail as they were |
| Emissions.FirstMatch | src/fiscal/infra/mongo/repositories/nfse-emission.repository.ts:67-78 | `updateOne` targets the first record the filter matches: no earlier record matches, and there is no target exactly when no record matches |
| Repository.NfseEmissionRepository.UpdateOne | src/fiscal/infra/mongo/repositories/nfse-emission.repository.ts:67-78 | The new records are those of `Apply` for the operation; ids stay distinct; one operation is logged |
| Emissions.UpdateOneChangesFirstMatchOnly | src/fiscal/infra/mongo/repositories/nfse-emission.repository.ts:67-78 | An update keeps the collection's size and changes at most one record: the first one the filter matches, which becomes the update document's result |
| Emissions.UpdateEmissionGuarded | src/fiscal/infra/mongo/repositories/nfse-emission.repository.ts:65-78 | With a status in the patch, the record with that id is patched only if its status is PENDING or already the new status, and is otherwise left entirely unchanged. Without a status the patch applies unconditionally. No other record changes |
| Repository.NfseEmissionRepository.UpdateEmission | src/fiscal/infra/mongo/repositories/nfse-emission.repository.ts:34-79 | The store after the call is the guarded patch's `Apply` result; the call is logged |
| Emissions.ByExternalIdWrite | src/fiscal/infra/mongo/repositories/nfse-emission.repository.ts:99-112 | The update writes the target status and lastPolledAt. Leaving PENDING clears nextPollAt and lastPollError. xmlBase64, pdfBase64 and the error are overwritten only when supplied. The id, externalId, provider, payload and attempts are untouched |
| Repository.NfseEmissionRepository.UpdateByExternalId | src/fiscal/infra/mongo/repositories/nfse-emission.repository.ts:81-115 | The store after the call is `Apply` of the guarded, provider-filtered update; the call is logged |
| Emissions.TransientFailureWrite | src/fiscal/infra/mongo/repositories/nfse-emission.repository.ts:123-142 | Only a PENDING record with that externalId (and provider) can change. It gains exactly one poll attempt and records the message, lastPolledAt and nextPollAt. No record's status changes |
| Repository.NfseEmissionRepository.MarkPollingTransientFailure | src/fiscal/infra/mongo/repositories/nfse-emission.repository.ts:117-143 | The store after the call is `Apply` of the PENDING-only transient-failure update; the call is logged |
| Emissions.TerminalStatusStable | src/fiscal/infra/mongo/repositories/nfse-emission.repository.ts:65-142 | One guarded operation (either status update, or the transient-failure mark) never changes the status of a record that has left PENDING |
| Emissions.TerminalStatusStableAll | src/fiscal/infra/mongo/repositories/nfse-emission.repository.ts:65-142 | However many guarded operations follow, a record that has left PENDING keeps its status, and never returns to PENDING |
| Emissions.StatusUpdateIdempotent | src/fiscal/infra/mongo/repositories/nfse-emission.repository.ts:90-112 | Applying the same status update (updateByExternalId, or updateEmission with a status), stamped with the same instant, twice has the effect of applying it once. Two real deliveries stamp different instants and then differ in lastPolledAt |
| Emissions.IdsPreserved | src/fiscal/infra/mongo/repositories/nfse-emission.repository.ts:67-78 | No update changes any record's id, so ids stay distinct and below the next id |
| Emissions.FindById | src/fiscal/infra/mongo/repositories/nfse-emission.repository.ts:172-174 | The record found has that id; nothing is found exactly when no record has it |
| Repository.NfseEmissionRepository.FindById | src/fiscal/infra/mongo/repositories/nfse-emission.repository.ts:172-174 | Returns the record with that id, if any, from the current store |
| Emissions.FindByExternalId | src/fiscal/infra/mongo/repositories/nfse-emission.repository.ts:176-178 | The record found has that externalId; nothing is found exactly when no record has it |
| Repository.NfseEmissionRepository.FindByExternalId | src/fiscal/infra/mongo/repositories/nfse-emission.repository.ts:176-178 | Returns the first record with that externalId, if any, from the current store |
| Emissions.EffectiveLimit | src/fiscal/infra/mongo/repositories/nfse-emission.repository.ts:163 | The limit is positive: the given limit when it is positive, 50 when it is absent or not positive |
| Emissions.FilterDue | src/fiscal/infra/mongo/repositories/nfse-emission.repository.ts:153-161 | Keeps exactly the stored records that are PENDING and due under the query's provider, nextPollAt and olderThanMs conditions |
| Emissions.SortKeeps | src/fiscal/infra/mongo/repositories/nfse-emission.repository.ts:167 | Sorting by createdAt yields an ascending sequence that is a permutation of its input |
| Emissions.FindPendingSpec | src/fiscal/infra/mongo/repositories/nfse-emission.repository.ts:145-170 | Returns min(limit, number of due records) records, sorted oldest first. They are a sub-multiset of the stored due PENDING records, and all of them when they fit the limit. No due record left out is older than one returned |
| Repository.NfseEmissionRepository.FindPending | src/fiscal/infra/mongo/repositories/nfse-emission.repository.ts:145-170 | Returns the findPending query's result over the current store |
| Emissions.NeverPolledAgain | src/fiscal/infra/mongo/repositories/nfse-emission.repository.ts:153-154 | After any sequence of guarded operations, a record that has left PENDING is absent from every findPending result |
| Repository.NfseEmissionRepository.SaveArtifactsById | src/fiscal/application/sync-nfse-artifacts.service.ts:117-124 | Writes status, response, both artifacts and the error to the record with that id, without a status guard; the call is logged |
| Repository.NfseEmissionRepository.AppendArtifactSyncAudit | src/fiscal/application/sync-nfse-artifacts.service.ts:40-45 | Appends exactly one entry to the audit trail of the record with that id; the call is logged |
| Provider.FiscalProvider.constructor | src/fiscal/application/poll-nfse-status.service.ts:47-51 | A provider with the given answers and an empty call log |
| Provider.FiscalProvider.EmitirNfse | src/fiscal/domain/fiscal-provider.interface.ts:5 | Returns the provider's answer for the input and logs one submit call |
| Provider.FiscalProvider.ConsultarNfse | src/fiscal/application/poll-nfse-status.service.ts:72 | Returns the provider's answer for the externalId and logs one query call |
| Provider.FiscalProvider.BaixarXmlNfse | src/fiscal/application/poll-nfse-status.service.ts:87 | Returns the XML answer for the id and logs one XML download call |
| Provider.FiscalProvider.BaixarPdfNfse | src/fiscal/application/poll-nfse-status.service.ts:88 | Returns the PDF answer for the id and logs one PDF download call |
| Provider.Base64 | src/fiscal/application/poll-nfse-status.service.ts:6-8 | The stand-in encoding has one character per byte |
| Provider.Base64Injective | src/fiscal/application/poll-nfse-status.service.ts:6-8 | Distinct byte sequences encode to distinct texts, so a stored artifact determines the downloaded bytes |
| NfseStatus.NameRoundTrip | src/modules/fiscal/fiscal.controller.ts:97-100 | A text names a member exactly when it is that member's name, so name and lookup are inverse |
| EmitirNfse.StoredOutcome | src/fiscal/application/emitir-nfse.service.ts:20-45 | The created record keeps the request as payload. On success it carries the result's provider, status, externalId and non-null response. On failure it is ERROR with the failure's message, still under provider NUVEMFISCAL |
| EmitirNfse.ResponseClassification | src/fiscal/application/emitir-nfse.service.ts:36-57 | Success returns the created record's id and the result. A failure becomes a BadRequest exactly when its status is a number in [400, 500), carrying the body or null. Any other failure is rethrown unchanged |
| EmitirNfse.Execute | src/fiscal/application/emitir-nfse.service.ts:16-59 | Exactly one create (PENDING, NUVEMFISCAL, payload = input), one submit call and one updateEmission of the created record, whichever way the call went. The store gains exactly the outcome record |
| PollNfseStatus.StoreArtifactsSwitch | src/fiscal/application/poll-nfse-status.service.ts:63-64 | Artifact storage is on when the variable is unset or, for example, 'TRUE' or 'True', and off for 'false', '' or '1' |
| PollNfseStatus.StoreArtifactsCasings | src/fiscal/application/poll-nfse-status.service.ts:63-64 | A set variable switches artifact storage on exactly when it is 'true' in some casing: four letters t, r, u, e, each in either case |
| PollNfseStatus.BackoffBoundedMonotone | src/fiscal/application/poll-nfse-status.service.ts:10-13 | The delay before jitter never exceeds maxMs and never decreases as attempts grow |
| PollNfseStatus.BackoffDoubles | src/fiscal/application/poll-nfse-status.service.ts:13 | The first retry waits min(maxMs, baseMs); each further attempt doubles the uncapped delay |
| PollNfseStatus.DefaultSchedule | src/fiscal/application/poll-nfse-status.service.ts:11-13 | With the defaults, retries wait 1, 2, 4 and 8 minutes, then 15 minutes from the fifth attempt on |
| PollNfseStatus.JitterRange | src/fiscal/application/poll-nfse-status.service.ts:14 | For a draw in [0, 1) the jitter is an integer in [0, jitterMs) |
| PollNfseStatus.NextPollAtRange | src/fiscal/application/poll-nfse-status.service.ts:10-16 | The next poll lies in [now + delay, now + delay + jitterMs), hence before now + maxMs + jitterMs |
| PollNfseStatus.FatalStatuses | src/fiscal/application/poll-nfse-status.service.ts:18-24 | A numeric status is transient exactly when it is 429 or in 500..599. Every other 4xx, and every status below 500 or above 599, is fatal |
| PollNfseStatus.OneWritePerPolledEmission | src/fiscal/application/poll-nfse-status.service.ts:68-108 | An emission without externalId is skipped with no call and no write. Any other emission is queried first and gets exactly one guarded write |
| PollNfseStatus.DownloadsOnlyWhenAuthorized | src/fiscal/application/poll-nfse-status.service.ts:74-108 | Downloads happen exactly when the answer is AUTHORIZED and storage is on: both use the extracted id, and both artifacts are written with the status in one updateByExternalId. Any other answer writes the status and response only |
| PollNfseStatus.TransientFailureHandling | src/fiscal/application/poll-nfse-status.service.ts:112-137 | A transient failure counts attempts = stored + 1. At maxAttempts or beyond, the record is marked ERROR with the message. Before that, the next poll is scheduled at now + backoff + jitter and no status changes |
| PollNfseStatus.FatalFailureHandling | src/fiscal/application/poll-nfse-status.service.ts:140-147 | A fatal failure marks ERROR with the message and clears nextPollAt: no retry is scheduled |
| PollNfseStatus.RunWrites | src/fiscal/application/poll-nfse-status.service.ts:61-149 | A run writes exactly once per pending emission that has an externalId (nothing for an empty list), and every write is guarded. This assumes the repository calls succeed |
| PollNfseStatus.RunKeepsSettledStatus | src/fiscal/application/poll-nfse-status.service.ts:68-148 | A polling run never changes the status of a record that has left PENDING |
| PollNfseStatus.RecordFailure | src/fiscal/application/poll-nfse-status.service.ts:109-148 | The catch block performs exactly the failure write the classification prescribes |
| PollNfseStatus.PollEmission | src/fiscal/application/poll-nfse-status.service.ts:68-148 | One loop iteration makes exactly the calls and writes of that emission's step |
| PollNfseStatus.RunOnce | src/fiscal/application/poll-nfse-status.service.ts:53-150 | The run's calls and writes are, in order, those of every emission findPending returned (limit 50 and olderThanMs 30000 by default). When repository calls succeed, a failure on one emission does not stop the loop |
| PollNfseStatus.AuthorizedExample | src/fiscal/application/poll-nfse-status.service.spec.ts:5-37 | With provider answer AUTHORIZED / idNota 'id-nota-999', both downloads ask for 'id-nota-999'. The emission ends AUTHORIZED with both artifacts and no next poll |
| Artifacts.ExtractArtifactId | src/fiscal/application/poll-nfse-status.service.ts:26-41 | The extracted id is never null or undefined |
| Artifacts.ArtifactIdPriority | src/fiscal/application/sync-nfse-artifacts.service.ts:10-24 | The id is the first present of idNota, id, nota.idNota, nota.id, documents[0].idNota, documents[0].id. The fallback externalId is used exactly when all six are absent |
| Artifacts.ArrayUsesFirstElement | src/fiscal/application/poll-nfse-status.service.ts:27 | An array response is read through its first element |
| Artifacts.IdNotaExample | src/fiscal/application/poll-nfse-status.service.spec.ts:19-25 | The test's response {idNota: 'id-nota-999', status: 'AUTORIZADA'} yields 'id-nota-999' |
| Artifacts.DocumentsExample | src/fiscal/application/poll-nfse-status.service.ts:28-39 | An id found only in documents[0].idNota is used; a response without ids (or undefined) falls back to the externalId |
| SyncNfseArtifacts.RateLimitWindow | src/fiscal/application/sync-nfse-artifacts.service.ts:57-76 | A sync is blocked exactly when a previous sync is recorded and less than minInterval has elapsed. The wait owed is positive and ends exactly when the interval does. From minInterval on, the sync is not blocked |
| SyncNfseArtifacts.OneAuditPerPath | src/fiscal/application/sync-nfse-artifacts.service.ts:34-153 | When repository calls succeed: an unknown id gives found=false with no call and no write. Every path that found the emission appends exactly one audit entry, last, for that emission, whose outcome matches the answer |
| SyncNfseArtifacts.ProviderPhaseAudits | src/fiscal/application/sync-nfse-artifacts.service.ts:90-153 | The provider phase appends exactly one audit entry, last, whose outcome matches its answer |
| SyncNfseArtifacts.ChecksInOrder | src/fiscal/application/sync-nfse-artifacts.service.ts:39-91 | Artifacts present, then the rate limit, then the externalId are checked in that order, each answering without any provider call. The provider is called exactly when all three pass, and first with a query |
| SyncNfseArtifacts.ProviderPhaseOutcomes | src/fiscal/application/sync-nfse-artifacts.service.ts:90-153 | A non-AUTHORIZED status answers not_authorized with the stored flags and saves nothing. AUTHORIZED downloads both artifacts with the extracted id, and saves them (AUTHORIZED, error null) exactly when both arrive. A failure is rethrown after one 'failed' entry with its message |
| SyncNfseArtifacts.SyncAuthorizesSettledEmission | src/fiscal/application/sync-nfse-artifacts.service.spec.ts:54-84 | A stored ERROR emission whose provider says AUTHORIZED with idNota 'id-nota-3' is synced: both downloads ask for 'id-nota-3' and the record ends AUTHORIZED with both artifacts and no error |
| SyncNfseArtifacts.AlreadyPresentExample | src/fiscal/application/sync-nfse-artifacts.service.spec.ts:9-27 | Both artifacts present: synced=false, already_present, no provider call, one 'noop_already_present' entry |
| SyncNfseArtifacts.RateLimitedExample | src/fiscal/application/sync-nfse-artifacts.service.spec.ts:29-52 | A sync one second after the last is refused with 429 and 59000 ms to wait, after one 'blocked_rate_limited' entry |
| SyncNfseArtifacts.Execute | src/fiscal/application/sync-nfse-artifacts.service.ts:34-154 | The answer, calls and writes of `execute` are those of Sync over the store it read |
| SyncNfseArtifacts.RunProviderPhase | src/fiscal/application/sync-nfse-artifacts.service.ts:90-153 | The try/catch block's answer, calls and writes are those of the provider phase |
| SyncNfseArtifacts.DownloadAndSave | src/fiscal/application/sync-nfse-artifacts.service.ts:111-142 | The AUTHORIZED branch's answer, calls and writes are those of the authorized phase |
| PlugNotasMapper.NormalizeStatus | src/fiscal/infra/plugnotas/nfse.mapper.ts:3-5 | Lower-casing keeps the length, and an absent status reads as '' |
| PlugNotasMapper.Rules | src/fiscal/infra/plugnotas/nfse.mapper.ts:10-14 | The rule table has the mapper's five tests |
| PlugNotasMapper.MapStatusFollowsRules | src/fiscal/infra/plugnotas/nfse.mapper.ts:7-17 | The mapper equals the reference first-matching-rule classification over its table (PENDING when no rule fires) |
| PlugNotasMapper.CaseInsensitive | src/fiscal/infra/plugnotas/nfse.mapper.ts:3-8 | Upper and lower case give the same status |
| PlugNotasMapper.UndefinedIsEmpty | src/fiscal/infra/plugnotas/nfse.mapper.ts:4 | An undefined status maps like '', to PENDING |
| PlugNotasMapper.AuthorizedPrecedence | src/fiscal/infra/plugnotas/nfse.mapper.ts:10-11 | AUTHORIZED exactly when 'conclu' or 'autoriz' occurs, whatever else occurs |
| PlugNotasMapper.LowerPriorities | src/fiscal/infra/plugnotas/nfse.mapper.ts:12-14 | REJECTED, CANCELED and ERROR each exactly when their keywords occur and no higher rule fires |
| PlugNotasMapper.NeverProcessing | src/fiscal/infra/plugnotas/nfse.mapper.ts:7-17 | The mapper never yields PROCESSING |
| PlugNotasMapper.ConcluidoExample | src/fiscal/infra/plugnotas/nfse.mapper.ts:10 | 'CONCLUIDO' is AUTHORIZED |
| PlugNotasMapper.AuthorizedWithErrorExample | src/fiscal/infra/plugnotas/nfse.mapper.ts:11-14 | 'Autorizada com erro' is AUTHORIZED, not ERROR |
| PlugNotasMapper.NegadaExample | src/fiscal/infra/plugnotas/nfse.mapper.ts:12 | 'NEGADA' is REJECTED |
| PlugNotasMapper.ExtractStatusPriority | src/fiscal/infra/plugnotas/nfse.mapper.ts:19-30 | The extracted status is the first non-null of the eight fields, in order, and null or undefined (the last field's value) exactly when all are absent |
| PlugNotasMapper.NestedSituacaoFirst | src/fiscal/infra/plugnotas/nfse.mapper.ts:21-23 | retorno.situacao wins over a top-level status |
| NuvemFiscalMapper.Rules | src/fiscal/infra/nuvemfiscal/nfse.mapper.ts:6-9 | The table is the PlugNotas table without its 'conclu' rule |
| NuvemFiscalMapper.MapStatusFollowsRules | src/fiscal/infra/nuvemfiscal/nfse.mapper.ts:3-12 | The mapper equals the reference classification over its table |
| NuvemFiscalMapper.CaseInsensitive | src/fiscal/infra/nuvemfiscal/nfse.mapper.ts:4 | Case does not matter, and undefined reads as '' (PENDING) |
| NuvemFiscalMapper.Priorities | src/fiscal/infra/nuvemfiscal/nfse.mapper.ts:6-11 | AUTHORIZED exactly with 'autoriz'. REJECTED, CANCELED and ERROR follow in that priority, PENDING otherwise, and never PROCESSING |
| NuvemFiscalMapper.AgreesWithPlugNotas | src/fiscal/infra/nuvemfiscal/nfse.mapper.ts:6-11 | The two mappers agree on every text that does not contain 'conclu' |
| NuvemFiscalMapper.DivergesOnConclu | src/fiscal/infra/nuvemfiscal/nfse.mapper.ts:6-11 | A text with 'conclu' and no other keyword is AUTHORIZED for PlugNotas but PENDING here |
| NuvemFiscalMapper.ConcluidoDiverges | src/fiscal/infra/nuvemfiscal/nfse.mapper.ts:6-11 | 'CONCLUIDO' is AUTHORIZED for PlugNotas and PENDING for NuvemFiscal |
| NuvemFiscalAuth.TtlBounds | src/fiscal/infra/nuvemfiscal/nuvemfiscal.auth.service.ts:51-52 | The TTL is never negative and is the lifetime minus 30 s whenever that is positive |
| NuvemFiscalAuth.CacheHit | src/fiscal/infra/nuvemfiscal/nuvemfiscal.auth.service.ts:17-20 | A cached non-empty token before its expiry is returned with no request and no change |
| NuvemFiscalAuth.FailuresKeepCache | src/fiscal/infra/nuvemfiscal/nuvemfiscal.auth.service.ts:22-47 | Every failure leaves the cache as it was. Unset credentials fail (exactly when the cache does not serve) before any request. A rejected request fails with its status and text |
| NuvemFiscalAuth.RefreshStoresReturned | src/fiscal/infra/nuvemfiscal/nuvemfiscal.auth.service.ts:22-57 | A request is sent exactly when the cache does not serve and the credentials are set. Success stores the token with expiry refreshedAt + TTL and returns that stored token |
| NuvemFiscalAuth.ServedUntilSafetyWindow | src/fiscal/infra/nuvemfiscal/nuvemfiscal.auth.service.ts:16-58 | After a refresh, later calls are served from the cache exactly while the clock is below refreshedAt + TTL. A lifetime of 30 s or less is never reused |
| NuvemFiscalAuth.NuvemFiscalAuthService.constructor | src/fiscal/infra/nuvemfiscal/nuvemfiscal.auth.service.ts:13-14 | The cache starts with no token and expiry 0 |
| NuvemFiscalAuth.NuvemFiscalAuthService.GetAccessToken | src/fiscal/infra/nuvemfiscal/nuvemfiscal.auth.service.ts:16-58 | The new fields, the result and the request count are those of the cache semantics for the old fields |
| Webhooks.PrototypeKeyPasses | src/modules/webhooks/webhooks.controller.ts:20-22 | As written, status 'toString' passes the `in` test and is itself written as the status, although it names no member |
| Webhooks.MapStatusAgreesOffPrototype | src/modules/webhooks/webhooks.controller.ts:20-22 | The corrected mapping writes only member names, and agrees with the code as written on every status that is not an inherited prototype name |
| Webhooks.RejectsMissingFields | src/modules/webhooks/webhooks.controller.ts:13-18 | A falsy externalId or status answers received=false with 'missing externalId/status' and writes nothing. Otherwise the body is received with exactly one write |
| Webhooks.ReceivedWrite | src/modules/webhooks/webhooks.controller.ts:24-30 | The write is one updateByExternalId for the posted externalId, with the body as response, no provider filter, no error and no artifacts |
| Webhooks.StatusMapping | src/modules/webhooks/webhooks.controller.ts:20-22 | A status naming a member is passed through; any other status becomes PROCESSING |
| Webhooks.WebhookKeepsSettledStatus | src/modules/webhooks/webhooks.controller.ts:24-28 | Through the repository guard, a webhook never changes a record that has left PENDING |
| Webhooks.UnknownStatusParksRecord | src/modules/webhooks/webhooks.controller.ts:20-28 | An unrecognised status moves the named PENDING record to PROCESSING for good. After any further guarded operations it is still PROCESSING and findPending never returns it |
| FiscalController.IdNotaPriority | src/modules/fiscal/fiscal.controller.ts:30-42 | A null or undefined response gives null. Otherwise the result is the first present of documents[0].id, id, idNota, nota.id, nota.idNota, and null exactly when all are absent |
| FiscalController.IdNotaDiffersFromArtifactId | src/modules/fiscal/fiscal.controller.ts:34-37 | With both id and idNota present, extractIdNota takes id while extractArtifactId takes idNota |
| FiscalController.RemoteDownloadNeedsIdNota | src/modules/fiscal/fiscal.controller.ts:295-336 | An unknown id gives EMISSION_NOT_FOUND and a falsy idNota gives ID_NOTA_NOT_FOUND, both before any provider call. Otherwise exactly the requested download is made with the extracted id |
| FiscalController.MissingResponseRefused | src/modules/fiscal/fiscal.controller.ts:301-307 | A record with no stored response cannot be downloaded remotely |
| FiscalController.ListPaging | src/modules/fiscal/fiscal.controller.ts:88-95 | page and limit default to 1 and 20. A page that is not a finite number of at least 1 gives INVALID_PAGE, then the same for limit and INVALID_LIMIT. An accepted query carries the given values |
| FiscalController.ListFilters | src/modules/fiscal/fiscal.controller.ts:97-112 | A non-empty status must name a member (INVALID_STATUS otherwise) and then filters by it. An empty status filters nothing. A blank provider filters nothing; any other provider is trimmed |
| FiscalController.ArtifactsInfoMatchesDownloads | src/modules/fiscal/fiscal.controller.ts:232-290 | hasXml/hasPdf hold exactly when the stored text is non-empty, exactly when the local download returns it. Otherwise the download gives XML_NOT_AVAILABLE / PDF_NOT_AVAILABLE |
| ApiExceptionFilter.ErrorCodes | src/common/http/api-exception.filter.ts:12-29 | 400/401/403/404/409/429 get their own codes. Any other status of 500 or more is INTERNAL_ERROR, anything else REQUEST_ERROR, and INTERNAL_ERROR occurs exactly from 500 up |
| ApiExceptionFilter.Catch | src/common/http/api-exception.filter.ts:33-82 | The filter's step-by-step reply equals the reference reply for the thrown value and the request |
| ApiExceptionFilter.NonHttpIsInternal | src/common/http/api-exception.filter.ts:39-44 | A non-HttpException gives 500, INTERNAL_ERROR, 'Internal server error' and no details key |
| ApiExceptionFilter.CorrelationIdSources | src/common/http/api-exception.filter.ts:38 | correlationId is the request's, else the header, else 'unknown' |
| ApiExceptionFilter.HttpExceptionScalars | src/common/http/api-exception.filter.ts:46-68 | An HttpException keeps its status. A string response is the message, with the status's code and no details. A response that is neither string nor object gives the exception's message |
| ApiExceptionFilter.HttpExceptionObject | src/common/http/api-exception.filter.ts:50-66 | For an object response: a string message is used as is, an array message is joined with ', ', anything else gives the exception message. A non-empty string code overrides. Details come from details, else {provider}, else {missingFields}, each value stated, and are present exactly when one is defined |
| ApiExceptionFilter.JoinStrings | src/common/http/api-exception.filter.ts:55 | Joining puts ', ' between consecutive messages |
| ApiExceptionFilter.ExplicitCodeExample | src/common/http/api-exception.filter.spec.ts:29-47 | The test's BadRequest with code, message and details is passed through as given |
| ApiExceptionFilter.StringMessageExample | src/common/http/api-exception.filter.spec.ts:63-76 | The test's 401 with a plain message gives UNAUTHORIZED and that message |
| EmpresaData.OnlyDigits | src/modules/empresas/empresas.service.ts:203-205 | The result is never longer than the input |
| EmpresaData.OnlyDigitsSpec | src/modules/empresas/empresas.service.ts:203-205 | Only digits come out. Normalising a concatenation concatenates the normalisations, so every digit is kept, in order. An all-digit text is unchanged |
| EmpresaData.OnlyDigitsIdempotent | src/modules/empresas/empresas.service.ts:203-205 | Normalising twice changes nothing more |
| EmpresaData.SanitizedItemsPointwise | src/modules/empresas/empresas.service.ts:187-189 | An array keeps its length and order, each element sanitised |
| EmpresaData.SanitizedFieldsKeepSafe | src/modules/empresas/empresas.service.ts:191-197 | An object keeps exactly its entries whose key neither starts with '$' nor contains '.', each value sanitised |
| EmpresaData.SanitizedIsClean | src/modules/empresas/empresas.service.ts:186-201 | No object at any depth of the result has an unsafe key |
| EmpresaData.CleanIsFixed | src/modules/empresas/empresas.service.ts:186-201 | A value without unsafe keys at any depth is left unchanged, scalars included |
| EmpresaData.SanitizeIdempotent | src/modules/empresas/empresas.service.ts:194-195 | Sanitising an already sanitised value changes nothing |
| EmpresaData.SanitizeProviderData | src/modules/empresas/empresas.service.ts:186-201 | The recursive loops over elements and entries compute exactly the sanitised value |
| EmpresaData.PickFirstSpec | src/modules/empresas/empresas.service.ts:89-95 | `pick` gives the value of the first key that is not undefined, null or '', and undefined exactly when no key qualifies |
| EmpresaData.Pick | src/modules/empresas/empresas.service.ts:89-95 | The loop with early return computes that first usable value |
| EmpresaData.NormalizeStringSpec | src/modules/empresas/empresas.service.ts:97-110 | A string is returned unchanged. An object gives its first present of descricao, nome, nome_municipio, nomeMunicipio, nome_pais, nomePais. Anything else gives undefined |
| EmpresaData.TrimAddress | src/modules/empresas/empresas.service.ts:162-178 | The trimmed address is present exactly when the source address is truthy |
| EmpresaData.TrimProviderDataKeys | src/modules/empresas/empresas.service.ts:150-183 | The kept record has exactly the sixteen listed keys, in order |
| EmpresaData.TrimProviderDataValues | src/modules/empresas/empresas.service.ts:147-162 | cnpj is copied, and razao_social falls back to nome_razao_social. The address comes from endereco, else estabelecimento.endereco, and is kept exactly when that is truthy |
| EmpresaData.MapProviderDataSpec | src/modules/empresas/empresas.service.ts:85-143 | The company carries the normalised CNPJ it was given, and mapping reads only sanitised data (sanitising first changes nothing). The stored providerData has no unsafe key at any depth, whatever the input |
| EmpresaData.AddressSourcePriority | src/modules/empresas/empresas.service.ts:112-118 | The address is read from the first present of endereco, endereco_empresa, estabelecimento.endereco, estabelecimento and localizacao, and from the whole record when all five are absent |
| EmpresasService.FindByCnpj | src/modules/empresas/empresas.service.ts:20 | The company found is stored under that CNPJ; none is found exactly when none is stored |
| EmpresasService.CreateChecksBeforeLookup | src/modules/empresas/empresas.service.ts:14-23 | A CNPJ without digits is refused ('CNPJ inválido') before any lookup, and only such a CNPJ is. A stored company with those digits is returned with no lookup and no insert. Otherwise the digits are what is looked up |
| EmpresasService.CreateAfterLookup | src/modules/empresas/empresas.service.ts:25-35 | A failed lookup gives the BadRequest with the provider status and body (null when absent). A failed insert gives the BadRequest with the error message or null. Both leave the store unchanged. Otherwise exactly the mapped company is appended and returned |
| EmpresasService.PreviewMatchesCreate | src/modules/empresas/empresas.service.ts:38-46 | When the insert succeeds, a create not served from the store returns what previewFromCnpj returns |
| EmpresasService.CreateKeepsCnpjsUnique | src/modules/empresas/schemas/empresa.schema.ts:41-42 | Every create keeps at most one company per CNPJ in the store, as the unique index demands |
| EmpresasService.StoredAreFound | src/modules/empresas/empresas.service.ts:20 | With unique CNPJs, findOne by a stored company's CNPJ returns that company |
| EmpresasService.RepeatedCreateServedFromStore | src/modules/empresas/empresas.service.ts:14-36 | After a successful create, any create whose CNPJ has the same digits returns the same company, looks nothing up and stores nothing |
| EmpresasService.Empresas.constructor | src/modules/empresas/empresas.service.ts:9-12 | The collection starts empty, with no lookups logged |
| EmpresasService.Empresas.CreateFromCnpj | src/modules/empresas/empresas.service.ts:14-36 | The new collection, the result and the lookups made are those of the create semantics for the old collection |

## Left out

- **Provider transport.** HTTP transport, the provider API wrappers and the CNPJ lookup client are left out. The provider's answers are parameters: fixed functions of each call's argument.
- **Clocks and randomness.** They are parameters:
  - One instant `now` stands for every `new Date()`/`Date.now()` reading of a polling run and of a sync.
  - `findPending` has its own `clock` reading for olderThanMs.
  - The token cache takes the readings before and after the token request.
  - The k-th pending emission of a run draws `random(k)`.
- **Parsed settings.** Environment variables and query parameters are given already parsed to integers. `Number()` yielding NaN for a malformed variable is not modelled, nor are fractional page/limit values. The controller's `Number()` result is either absent, a finite integer or not finite.
- **Concurrent downloads.** `Promise.all` over the two downloads is modelled as the XML call, then the PDF call. When both fail, the XML failure is the one reported.
- **Mongoose and MongoDB.** Only the filters and updates written in the repository are modelled, over an in-memory sequence with natural-number ids. Not modelled:
  - schema validation and the `updatedAt` timestamp;
  - `findPaginated`;
  - the storage of `undefined`, beyond "an undefined update entry is not written".
  - `saveArtifactsById` and `appendArtifactSyncAudit`: the repository file does not define them. They are modelled as an unguarded write by id and as an append of one entry. No code writes `lastArtifactSyncAt`, so it only changes by being given in the initial store.
- **Repository failures.** Every repository (MongoDB) call is modelled as succeeding. The model therefore does not cover these error paths:
  - `emitir-nfse.service.ts:28-45`: a failing `updateEmission` after the provider answered is caught, ERROR is written, and the error is rethrown.
  - `poll-nfse-status.service.ts:71-108`: a failing write inside the try reaches the catch. With no numeric `status` it is classified as transient, so it counts toward backoff and maxAttempts.
  - `poll-nfse-status.service.ts:109-148`: a failing write inside the catch escapes `runOnce` and ends the loop.
  - `sync-nfse-artifacts.service.ts:93-131`: a failing save or audit append adds a second, 'failed' audit entry before the error is rethrown.
- **Webhooks.Receive: non-string externalId.** The filter matches only a string externalId equal to the stored one, so any other JSON value changes nothing. Mongoose would instead cast a number to its text, turn an array into `$in` and evaluate an object such as `{"$ne": null}` as a query operator, which can update some other record whose externalId is set. Query casting and operators are not modelled.
- **Base64.** Replaced by an injective stand-in encoding, one character per byte. The model relies only on injectivity.
- **Numbers.** JSON numbers are integers. Fractional or NaN `expires_in` values in the token response are not modelled.
- **Thrown values.** Every thrown provider error carries a message. `String(e)` for non-Error throws is not modelled. A non-numeric `status` on a thrown error is treated as absent.
- **Webhooks.MapStatus: non-string statuses.** It maps every non-string status to PROCESSING. `in` would first convert such a value to a string: an array `["PENDING"]` converts to a member name. Separately, Webhooks.MapStatus writes PROCESSING for the inherited Object.prototype names, where the code as written writes the name itself (see Findings).
- **EmpresaData.SanitizeProviderData: `__proto__`.** A `__proto__` key is kept as an ordinary entry. In JavaScript, assigning it to `out` replaces the prototype instead of adding a property.
- **EmpresasService.Empresas.CreateFromCnpj: the insert.** A rejected insert is an input. This covers a duplicate-key race between concurrent creates. Mongoose validation itself is not modelled.
- **Rest of the company service and controller.** `list`, `getById`, `update` and `remove` of the company service and controller are not modelled: they are plain persistence calls. `getByCnpj` is modelled as `EmpresasService.GetByCnpj`, without a lemma of its own.
- **Controller plumbing.** Excluded:
  - the fiscal controller's response streaming and headers;
  - the pass-through `emitir` endpoint;
  - the formatting of `getById`/`list` items.
- **Emission-service tests the code does not follow.** Those tests expect an idempotent replay (`findByReference`, the duplicate-key race, `idempotentReplay`). The service code does none of this, so the model follows the code. Likewise, the PlugNotas provider's "HTTP 400 with a protocol is PENDING" rule is tested but not implemented by the PlugNotas provider, and it is not modelled.
- **Scheduling and concurrency.** The polling runner's interval timer, start-up jitter and re-entrancy flag are not modelled, nor any concurrency between requests.
- **Wiring and other modules.** Authentication, users, configuration loaders, Nest modules, DTOs, the health controller and the correlation-id middleware are outside this model.

## Findings

| source | as written | input that shows it | evidently intended | confidence | as-written member | corrected member |
|---|---|---|---|---|---|---|
| src/modules/webhooks/webhooks.controller.ts:20-22 | `status in NfseEmissionStatus` also accepts the property names every object inherits from Object.prototype, and the status is then written as given | body `{externalId: "x", status: "toString"}` writes status 'toString' to the matching PENDING record | only the names of NfseEmissionStatus members pass; any other status becomes PROCESSING | not executed | Webhooks.PrototypeKeyPasses | Webhooks.MapStatusAgreesOffPrototype |
