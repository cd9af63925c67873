/**
 * The emission record (NfseEmission) and the effect of every repository
 * operation on the stored sequence of records, as pure functions. A stored
 * sequence stands for the collection in insertion order; `updateOne` changes
 * the first record that matches its filter and nothing else.
 */
module Emissions {
  import opened Wrappers
  import opened NfseStatus
  import Json

  type Bytes = seq<bv8>

  datatype AuditOutcome =
    | NoopAlreadyPresent
    | BlockedRateLimited
    | FailedMissingExternalId
    | SkippedNotAuthorized
    | SyncSucceeded
    | SyncFailed

  /** The text an audit entry carries, kept in structured form. */
  datatype AuditMessage =
    | NoMessage
    | RetryAfter(ms: int)
    | ProviderStatus(status: Status)
    | ArtifactIdMessage(artifactId: Json.Value)
    | ErrorMessage(text: string)

  datatype AuditEntry = AuditEntry(
    at: int,
    outcome: AuditOutcome,
    message: AuditMessage,
    requestedBy: Option<string>,
    ip: Option<string>)

  /**
   * A stored emission. An optional field is None when it is null or absent;
   * the JSON-valued fields use Json.JUndefined for absent. Timestamps are
   * milliseconds since the epoch.
   */
  datatype Emission = Emission(
    id: nat,
    provider: string,
    status: Status,
    payload: Json.Value,
    externalId: Option<string>,
    error: Option<string>,
    providerResponse: Json.Value,
    providerRequest: Json.Value,
    xmlBase64: Option<string>,
    pdfBase64: Option<string>,
    pollAttempts: int,
    lastPollError: Option<string>,
    lastPolledAt: Option<int>,
    nextPollAt: Option<int>,
    createdAt: int,
    lastArtifactSyncAt: Option<int>,
    artifactSyncAudit: seq<AuditEntry>)

  /** `Boolean(s)` for an optional stored string: present and non-empty. */
  predicate Present(s: Option<string>) {
    s.Some? && s.value != ""
  }

  predicate HasXml(e: Emission) {
    Present(e.xmlBase64)
  }

  predicate HasPdf(e: Emission) {
    Present(e.pdfBase64)
  }

  // ---------------------------------------------------------------- create

  datatype CreateInput = CreateInput(
    provider: string,
    payload: Json.Value,
    status: Option<Status>,
    externalId: Option<string>,
    providerResponse: Json.Value)

  /** The record `create` stores for `input`, given the id it is assigned and the creation instant. */
  function NewEmission(input: CreateInput, id: nat, now: int): Emission {
    Emission(
      id := id,
      provider := input.provider,
      status := input.status.GetOr(PENDING),
      payload := input.payload,
      externalId := input.externalId,
      error := None,
      providerResponse := input.providerResponse,
      providerRequest := Json.JUndefined,
      xmlBase64 := None,
      pdfBase64 := None,
      pollAttempts := 0,
      lastPollError := None,
      lastPolledAt := Some(now),
      nextPollAt := Some(now),
      createdAt := now,
      lastArtifactSyncAt := None,
      artifactSyncAudit := [])
  }

  /** A new record is PENDING unless a status is given, has no poll attempts, and is due at once. */
  lemma CreateDefaults(input: CreateInput, id: nat, now: int)
    ensures var e := NewEmission(input, id, now);
      && (input.status.None? ==> e.status == PENDING)
      && (input.status.Some? ==> e.status == input.status.value)
      && e.pollAttempts == 0
      && e.lastPolledAt == e.nextPollAt == Some(now)
      && e.createdAt == now && e.id == id
      && e.payload == input.payload && e.provider == input.provider
  {
  }

  // ---------------------------------------------------------------- patches

  /** A patch entry: Keep is a property left `undefined`, Set(v) writes v (v may be null). */
  datatype Field<T> = Keep | Set(value: T)

  function Write<T>(f: Field<T>, current: T): T {
    if f.Set? then f.value else current
  }

  /** `v !== undefined ? v : current` for a JSON-valued entry. */
  function WriteJson(v: Json.Value, current: Json.Value): Json.Value {
    if v == Json.JUndefined then current else v
  }

  /** The `patch` argument of updateEmission; JSON-valued entries use JUndefined for "not in the patch". */
  datatype EmissionPatch = EmissionPatch(
    provider: Field<string>,
    status: Field<Status>,
    externalId: Field<string>,
    providerResponse: Json.Value,
    providerRequest: Json.Value,
    error: Field<Option<string>>,
    xmlBase64: Field<Option<string>>,
    pdfBase64: Field<Option<string>>,
    pollAttempts: Field<int>,
    lastPollError: Field<Option<string>>,
    lastPolledAt: Field<Option<int>>,
    nextPollAt: Field<Option<int>>)

  const EmptyPatch := EmissionPatch(Keep, Keep, Keep, Json.JUndefined, Json.JUndefined,
                                    Keep, Keep, Keep, Keep, Keep, Keep, Keep)

  /** The record after `$set` of exactly the entries the patch defines. */
  function ApplyPatch(e: Emission, p: EmissionPatch): Emission {
    e.(provider := Write(p.provider, e.provider),
       status := Write(p.status, e.status),
       externalId := if p.externalId.Set? then Some(p.externalId.value) else e.externalId,
       providerResponse := WriteJson(p.providerResponse, e.providerResponse),
       providerRequest := WriteJson(p.providerRequest, e.providerRequest),
       error := Write(p.error, e.error),
       xmlBase64 := Write(p.xmlBase64, e.xmlBase64),
       pdfBase64 := Write(p.pdfBase64, e.pdfBase64),
       pollAttempts := Write(p.pollAttempts, e.pollAttempts),
       lastPollError := Write(p.lastPollError, e.lastPollError),
       lastPolledAt := Write(p.lastPolledAt, e.lastPolledAt),
       nextPollAt := Write(p.nextPollAt, e.nextPollAt))
  }

  /** A patch writes the entries it defines and leaves every other field as it was. */
  lemma PatchWritesOnlyItsEntries(e: Emission, p: EmissionPatch)
    ensures var r := ApplyPatch(e, p);
      && r.id == e.id && r.payload == e.payload && r.createdAt == e.createdAt
      && r.lastArtifactSyncAt == e.lastArtifactSyncAt && r.artifactSyncAudit == e.artifactSyncAudit
      && (p.status.Keep? ==> r.status == e.status) && (p.status.Set? ==> r.status == p.status.value)
      && (p.provider.Keep? ==> r.provider == e.provider)
      && (p.externalId.Keep? ==> r.externalId == e.externalId)
      && (p.providerResponse == Json.JUndefined ==> r.providerResponse == e.providerResponse)
      && (p.providerResponse != Json.JUndefined ==> r.providerResponse == p.providerResponse)
      && (p.error.Keep? ==> r.error == e.error)
      && (p.xmlBase64.Keep? ==> r.xmlBase64 == e.xmlBase64)
      && (p.pdfBase64.Keep? ==> r.pdfBase64 == e.pdfBase64)
      && (p.pollAttempts.Keep? ==> r.pollAttempts == e.pollAttempts)
      && (p.lastPollError.Keep? ==> r.lastPollError == e.lastPollError)
      && (p.lastPolledAt.Keep? ==> r.lastPolledAt == e.lastPolledAt)
      && (p.nextPollAt.Keep? ==> r.nextPollAt == e.nextPollAt)
      && (p == EmptyPatch ==> r == e)
  {
  }

  // ---------------------------------------------------------------- filters and writes

  /** The status guard: the stored status is still PENDING or already the target. */
  predicate StatusGuard(e: Emission, target: Status) {
    e.status == PENDING || e.status == target
  }

  /** `if (input.provider) filter.provider = input.provider`: an empty or absent provider filters nothing. */
  predicate ProviderFilter(e: Emission, provider: Option<string>) {
    provider.None? || provider.value == "" || e.provider == provider.value
  }

  /** The input of updateByExternalId; None and JUndefined mark entries left `undefined`. */
  datatype ByExternalIdInput = ByExternalIdInput(
    externalId: Json.Value,
    status: Status,
    providerResponse: Json.Value,
    error: Option<string>,
    provider: Option<string>,
    xmlBase64: Option<string>,
    pdfBase64: Option<string>)

  /** The input of markPollingTransientFailure. */
  datatype TransientInput = TransientInput(
    externalId: string,
    provider: Option<string>,
    message: string,
    nextPollAt: int)

  /** The input of saveArtifactsById. */
  datatype SaveArtifactsInput = SaveArtifactsInput(
    id: nat,
    status: Status,
    providerResponse: Json.Value,
    xmlBase64: string,
    pdfBase64: string,
    error: Option<string>)

  /** One call on the repository that may write; `at` is the instant the call reads from the clock. */
  datatype RepoOp =
    | Create(create: CreateInput, id: nat, at: int)
    | UpdateEmission(id: nat, patch: EmissionPatch)
    | UpdateByExternalId(byExternalId: ByExternalIdInput, at: int)
    | MarkPollingTransientFailure(transient: TransientInput, at: int)
    | SaveArtifactsById(save: SaveArtifactsInput)
    | AppendArtifactSyncAudit(auditId: nat, entry: AuditEntry)

  predicate ExternalIdIs(e: Emission, externalId: Json.Value) {
    e.externalId.Some? && externalId == Json.JStr(e.externalId.value)
  }

  /** The filter of an updating operation. */
  predicate Matches(e: Emission, op: RepoOp)
    requires !op.Create?
  {
    match op
    case UpdateEmission(id, patch) =>
      e.id == id && (patch.status.Set? ==> StatusGuard(e, patch.status.value))
    case UpdateByExternalId(input, _) =>
      ExternalIdIs(e, input.externalId) && StatusGuard(e, input.status)
      && ProviderFilter(e, input.provider)
    case MarkPollingTransientFailure(input, _) =>
      e.externalId == Some(input.externalId) && e.status == PENDING
      && ProviderFilter(e, input.provider)
    case SaveArtifactsById(input) => e.id == input.id
    case AppendArtifactSyncAudit(id, _) => e.id == id
  }

  /** The update document of an updating operation, applied to one record. */
  function Written(e: Emission, op: RepoOp): Emission
    requires !op.Create?
  {
    match op
    case UpdateEmission(_, patch) => ApplyPatch(e, patch)
    case UpdateByExternalId(input, at) =>
      e.(status := input.status,
         providerResponse := WriteJson(input.providerResponse, e.providerResponse),
         error := if input.error.Some? then input.error else e.error,
         lastPolledAt := Some(at),
         xmlBase64 := if input.xmlBase64.Some? then input.xmlBase64 else e.xmlBase64,
         pdfBase64 := if input.pdfBase64.Some? then input.pdfBase64 else e.pdfBase64,
         nextPollAt := if input.status != PENDING then None else e.nextPollAt,
         lastPollError := if input.status != PENDING then None else e.lastPollError)
    case MarkPollingTransientFailure(input, at) =>
      e.(pollAttempts := e.pollAttempts + 1,
         lastPollError := Some(input.message),
         lastPolledAt := Some(at),
         nextPollAt := Some(input.nextPollAt))
    case SaveArtifactsById(input) =>
      e.(status := input.status,
         providerResponse := WriteJson(input.providerResponse, e.providerResponse),
         xmlBase64 := Some(input.xmlBase64),
         pdfBase64 := Some(input.pdfBase64),
         error := input.error)
    case AppendArtifactSyncAudit(_, entry) =>
      e.(artifactSyncAudit := e.artifactSyncAudit + [entry])
  }

  /** The index of the first record the operation's filter matches. */
  function FirstMatch(rs: seq<Emission>, op: RepoOp): (r: Option<nat>)
    requires !op.Create?
    ensures r.Some? ==> r.value < |rs| && Matches(rs[r.value], op)
                        && forall j :: 0 <= j < r.value ==> !Matches(rs[j], op)
    ensures r.None? <==> forall j :: 0 <= j < |rs| ==> !Matches(rs[j], op)
  {
    if |rs| == 0 then None
    else if Matches(rs[0], op) then Some(0)
    else match FirstMatch(rs[1..], op)
      case None => None
      case Some(i) => Some(i + 1)
  }

  lemma FirstMatchIs(rs: seq<Emission>, op: RepoOp, i: nat)
    requires !op.Create?
    requires i < |rs| && Matches(rs[i], op)
    requires forall j :: 0 <= j < i ==> !Matches(rs[j], op)
    ensures FirstMatch(rs, op) == Some(i)
  {
  }

  /** The stored records after one operation. */
  function Apply(rs: seq<Emission>, op: RepoOp): seq<Emission> {
    if op.Create? then rs + [NewEmission(op.create, op.id, op.at)]
    else match FirstMatch(rs, op)
      case None => rs
      case Some(i) => rs[i := Written(rs[i], op)]
  }

  /** The stored records after a sequence of operations, in order. */
  function ApplyAll(rs: seq<Emission>, ops: seq<RepoOp>): seq<Emission>
    decreases |ops|
  {
    if ops == [] then rs else ApplyAll(Apply(rs, ops[0]), ops[1..])
  }

  lemma {:induction false} ApplyAllAppend(rs: seq<Emission>, ops: seq<RepoOp>, op: RepoOp)
    ensures ApplyAll(rs, ops + [op]) == Apply(ApplyAll(rs, ops), op)
    decreases |ops|
  {
    if ops == [] {
      assert ops + [op] == [op];
    } else {
      assert (ops + [op])[1..] == ops[1..] + [op];
      ApplyAllAppend(Apply(rs, ops[0]), ops[1..], op);
    }
  }

  lemma AppendAssoc<T>(a: seq<T>, b: seq<T>, c: seq<T>)
    ensures a + b + c == a + (b + c)
  {
  }

  lemma ApplyAllOne(rs: seq<Emission>, op: RepoOp)
    ensures ApplyAll(rs, [op]) == Apply(rs, op)
  {
    assert ApplyAll(rs, [op]) == ApplyAll(Apply(rs, op), []);
  }

  lemma {:induction false} ApplyAllConcat(rs: seq<Emission>, ops1: seq<RepoOp>, ops2: seq<RepoOp>)
    ensures ApplyAll(rs, ops1 + ops2) == ApplyAll(ApplyAll(rs, ops1), ops2)
    decreases |ops1|
  {
    if ops1 == [] {
      assert ops1 + ops2 == ops2;
    } else {
      assert (ops1 + ops2)[1..] == ops1[1..] + ops2;
      ApplyAllConcat(Apply(rs, ops1[0]), ops1[1..], ops2);
    }
  }

  // ---------------------------------------------------------------- properties of the writes

  /**
   * updateOne: an updating operation changes at most one record, the first one its
   * filter matches, to the update document's result; the collection keeps its size.
   */
  lemma UpdateOneChangesFirstMatchOnly(rs: seq<Emission>, op: RepoOp, j: nat)
    requires !op.Create? && j < |rs|
    ensures |Apply(rs, op)| == |rs|
    ensures Apply(rs, op)[j] != rs[j] ==> Matches(rs[j], op) && Apply(rs, op)[j] == Written(rs[j], op)
                                          && forall k :: 0 <= k < j ==> !Matches(rs[k], op)
  {
  }

  /**
   * updateEmission on the record with this id: with a status in the patch, the patch is
   * applied only when the stored status is PENDING or already the new status, and the
   * record is entirely unchanged otherwise; without a status it is applied unconditionally.
   */
  lemma UpdateEmissionGuarded(rs: seq<Emission>, id: nat, patch: EmissionPatch, i: nat)
    requires i < |rs| && rs[i].id == id
    requires forall j :: 0 <= j < |rs| && j != i ==> rs[j].id != id
    ensures |Apply(rs, UpdateEmission(id, patch))| == |rs|
    ensures Apply(rs, UpdateEmission(id, patch))[i] ==
      if patch.status.Keep? || StatusGuard(rs[i], patch.status.value) then ApplyPatch(rs[i], patch)
      else rs[i]
    ensures forall j :: 0 <= j < |rs| && j != i ==> Apply(rs, UpdateEmission(id, patch))[j] == rs[j]
  {
    var op := UpdateEmission(id, patch);
    if Matches(rs[i], op) {
      FirstMatchIs(rs, op, i);
    }
  }

  /**
   * updateByExternalId writes the target status; leaving PENDING clears nextPollAt
   * and lastPollError; the artifacts, the response and the error are overwritten only
   * when supplied.
   */
  lemma ByExternalIdWrite(e: Emission, input: ByExternalIdInput, at: int)
    ensures var r := Written(e, UpdateByExternalId(input, at));
      && r.status == input.status && r.lastPolledAt == Some(at)
      && (input.status != PENDING ==> r.nextPollAt.None? && r.lastPollError.None?)
      && (input.status == PENDING ==> r.nextPollAt == e.nextPollAt && r.lastPollError == e.lastPollError)
      && (input.xmlBase64.None? ==> r.xmlBase64 == e.xmlBase64)
      && (input.xmlBase64.Some? ==> r.xmlBase64 == input.xmlBase64)
      && (input.pdfBase64.None? ==> r.pdfBase64 == e.pdfBase64)
      && (input.pdfBase64.Some? ==> r.pdfBase64 == input.pdfBase64)
      && (input.error.None? ==> r.error == e.error)
      && r.externalId == e.externalId && r.provider == e.provider && r.id == e.id
      && r.pollAttempts == e.pollAttempts && r.payload == e.payload
  {
  }

  /**
   * markPollingTransientFailure touches only a PENDING record with that externalId (and
   * provider), adds exactly one poll attempt, records the error and the next poll time,
   * and never changes the status.
   */
  lemma TransientFailureWrite(rs: seq<Emission>, input: TransientInput, at: int, i: nat)
    requires i < |rs|
    ensures var rs' := Apply(rs, MarkPollingTransientFailure(input, at));
      && |rs'| == |rs|
      && rs'[i].status == rs[i].status
      && (rs'[i] != rs[i] ==>
            && rs[i].status == PENDING && rs[i].externalId == Some(input.externalId)
            && ProviderFilter(rs[i], input.provider)
            && rs'[i].pollAttempts == rs[i].pollAttempts + 1
            && rs'[i].lastPollError == Some(input.message)
            && rs'[i].lastPolledAt == Some(at)
            && rs'[i].nextPollAt == Some(input.nextPollAt))
  {
  }

  // ---------------------------------------------------------------- the guard, over any history

  /** The repository's operations; saveArtifactsById is the one write without a status guard. */
  predicate Guarded(op: RepoOp) {
    !op.SaveArtifactsById?
  }

  /** One guarded operation never changes the status of a record that has left PENDING. */
  lemma {:induction false} TerminalStatusStable(rs: seq<Emission>, op: RepoOp, i: nat)
    requires Guarded(op) && i < |rs| && rs[i].status != PENDING
    ensures i < |Apply(rs, op)| && Apply(rs, op)[i].status == rs[i].status
  {
    if !op.Create? {
      match FirstMatch(rs, op)
      case None =>
      case Some(k) =>
        if k == i {
          assert Matches(rs[i], op);
        }
    }
  }

  /**
   * However many guarded operations follow, a record that has left PENDING keeps its
   * status: it never moves to a different status, in particular never back to PENDING.
   */
  lemma {:induction false} TerminalStatusStableAll(rs: seq<Emission>, ops: seq<RepoOp>, i: nat)
    requires forall k :: 0 <= k < |ops| ==> Guarded(ops[k])
    requires i < |rs| && rs[i].status != PENDING
    ensures i < |ApplyAll(rs, ops)| && ApplyAll(rs, ops)[i].status == rs[i].status
    decreases |ops|
  {
    if ops != [] {
      TerminalStatusStable(rs, ops[0], i);
      TerminalStatusStableAll(Apply(rs, ops[0]), ops[1..], i);
    }
  }

  /** Operations whose second application changes nothing. */
  predicate Idempotent(op: RepoOp) {
    op.UpdateEmission? || op.UpdateByExternalId? || op.SaveArtifactsById?
  }

  /**
   * Applying the same status update twice (a duplicated webhook, a repeated poll result)
   * has the effect of applying it once.
   */
  lemma {:induction false} StatusUpdateIdempotent(rs: seq<Emission>, op: RepoOp)
    requires Idempotent(op)
    ensures Apply(Apply(rs, op), op) == Apply(rs, op)
  {
    match FirstMatch(rs, op)
    case None =>
    case Some(i) =>
      var rs' := Apply(rs, op);
      assert Matches(rs'[i], op);
      assert forall j :: 0 <= j < i ==> rs'[j] == rs[j];
      FirstMatchIs(rs', op, i);
      assert Written(rs'[i], op) == rs'[i];
  }

  // ---------------------------------------------------------------- queries

  /** `findById`: the record with this id, if any. */
  function FindById(rs: seq<Emission>, id: nat): (r: Option<Emission>)
    ensures r.Some? ==> r.value in rs && r.value.id == id
    ensures r.None? <==> forall e :: e in rs ==> e.id != id
  {
    if |rs| == 0 then None
    else if rs[0].id == id then Some(rs[0])
    else FindById(rs[1..], id)
  }

  /** `findOne({ externalId })`: the first record with this externalId, if any. */
  function FindByExternalId(rs: seq<Emission>, externalId: string): (r: Option<Emission>)
    ensures r.Some? ==> r.value in rs && r.value.externalId == Some(externalId)
    ensures r.None? <==> forall e :: e in rs ==> e.externalId != Some(externalId)
  {
    if |rs| == 0 then None
    else if rs[0].externalId == Some(externalId) then Some(rs[0])
    else FindByExternalId(rs[1..], externalId)
  }

  /** The options of findPending; `now` is the given instant, `clock` the reading of Date.now(). */
  datatype PendingQuery = PendingQuery(
    provider: Option<string>,
    limit: Option<int>,
    olderThanMs: Option<int>,
    now: int,
    clock: int)

  const DefaultPendingLimit := 50

  /** `input?.limit && input.limit > 0 ? input.limit : 50` */
  function EffectiveLimit(limit: Option<int>): (r: int)
    ensures r > 0
    ensures limit.Some? && limit.value > 0 ==> r == limit.value
    ensures (limit.None? || limit.value <= 0) ==> r == DefaultPendingLimit
  {
    if limit.Some? && limit.value > 0 then limit.value else DefaultPendingLimit
  }

  /** The filter of findPending. */
  predicate Due(e: Emission, q: PendingQuery) {
    && e.status == PENDING
    && (e.nextPollAt.None? || e.nextPollAt.value <= q.now)
    && ProviderFilter(e, q.provider)
    && (q.olderThanMs.Some? && q.olderThanMs.value > 0 ==> e.createdAt <= q.clock - q.olderThanMs.value)
  }

  function FilterDue(rs: seq<Emission>, q: PendingQuery): (r: seq<Emission>)
    ensures forall e :: e in r ==> e in rs && Due(e, q)
    ensures forall e :: e in rs && Due(e, q) ==> e in r
  {
    if |rs| == 0 then []
    else if Due(rs[0], q) then [rs[0]] + FilterDue(rs[1..], q)
    else FilterDue(rs[1..], q)
  }

  predicate SortedByCreatedAt(s: seq<Emission>) {
    forall i, j :: 0 <= i < j < |s| ==> s[i].createdAt <= s[j].createdAt
  }

  /** Insert before the first element created at the same time or later. */
  function Insert(x: Emission, s: seq<Emission>): seq<Emission> {
    if |s| == 0 || x.createdAt <= s[0].createdAt then [x] + s
    else [s[0]] + Insert(x, s[1..])
  }

  /** `sort({ createdAt: 1 })` */
  function SortByCreatedAt(s: seq<Emission>): seq<Emission> {
    if |s| == 0 then [] else Insert(s[0], SortByCreatedAt(s[1..]))
  }

  lemma {:induction false} InsertMultiset(x: Emission, s: seq<Emission>)
    ensures multiset(Insert(x, s)) == multiset(s) + multiset{x}
  {
    if |s| > 0 && x.createdAt > s[0].createdAt {
      InsertMultiset(x, s[1..]);
      assert s == [s[0]] + s[1..];
    }
  }

  lemma {:induction false} InsertSorted(x: Emission, s: seq<Emission>)
    requires SortedByCreatedAt(s)
    ensures SortedByCreatedAt(Insert(x, s))
  {
    if |s| > 0 && x.createdAt > s[0].createdAt {
      var t := Insert(x, s[1..]);
      InsertSorted(x, s[1..]);
      InsertMultiset(x, s[1..]);
      forall k | 0 <= k < |t|
        ensures s[0].createdAt <= t[k].createdAt
      {
        assert t[k] in multiset(t);
        if t[k] != x {
          assert t[k] in multiset(s[1..]);
          var m :| 0 <= m < |s[1..]| && s[1..][m] == t[k];
          assert s[1 + m] == t[k];
        }
      }
      assert Insert(x, s) == [s[0]] + t;
    }
  }

  lemma {:induction false} SortKeeps(s: seq<Emission>)
    ensures SortedByCreatedAt(SortByCreatedAt(s))
    ensures multiset(SortByCreatedAt(s)) == multiset(s)
  {
    if |s| > 0 {
      SortKeeps(s[1..]);
      InsertSorted(s[0], SortByCreatedAt(s[1..]));
      InsertMultiset(s[0], SortByCreatedAt(s[1..]));
      assert s == [s[0]] + s[1..];
    }
  }

  /** `find(filter).sort({ createdAt: 1 }).limit(limit)` */
  function FindPending(rs: seq<Emission>, q: PendingQuery): seq<Emission> {
    var sorted := SortByCreatedAt(FilterDue(rs, q));
    var n := EffectiveLimit(q.limit);
    if |sorted| <= n then sorted else sorted[..n]
  }

  /** The result is the sorted due records cut at the limit, so no more of them than are due. */
  lemma FindPendingTakesPrefix(rs: seq<Emission>, q: PendingQuery)
    ensures var r := FindPending(rs, q);
      && |r| == (if |FilterDue(rs, q)| <= EffectiveLimit(q.limit) then |FilterDue(rs, q)| else EffectiveLimit(q.limit))
      && multiset(r) <= multiset(FilterDue(rs, q))
      && (|FilterDue(rs, q)| <= EffectiveLimit(q.limit) ==> multiset(r) == multiset(FilterDue(rs, q)))
  {
    var f := FilterDue(rs, q);
    var sorted := SortByCreatedAt(f);
    var r := FindPending(rs, q);
    SortKeeps(f);
    assert |sorted| == |multiset(sorted)| == |multiset(f)| == |f|;
    assert sorted == r + sorted[|r|..];
    assert multiset(sorted) == multiset(r) + multiset(sorted[|r|..]);
  }

  /** The result is sorted and holds only due records of the store. */
  lemma FindPendingOnlyDue(rs: seq<Emission>, q: PendingQuery)
    ensures var r := FindPending(rs, q);
      && SortedByCreatedAt(r)
      && (forall e :: e in r ==> e in rs && Due(e, q) && e.status == PENDING)
  {
    var f := FilterDue(rs, q);
    var sorted := SortByCreatedAt(f);
    SortKeeps(f);
    var r := FindPending(rs, q);
    forall e | e in r
      ensures e in rs && Due(e, q)
    {
      assert e in sorted;
      assert e in multiset(f);
    }
  }

  /** No due record left out of the result is older than one in it. */
  lemma FindPendingOldestFirst(rs: seq<Emission>, q: PendingQuery)
    ensures var r := FindPending(rs, q);
      forall e, k :: e in rs && Due(e, q) && e !in r && 0 <= k < |r| ==> r[k].createdAt <= e.createdAt
  {
    var f := FilterDue(rs, q);
    var sorted := SortByCreatedAt(f);
    SortKeeps(f);
    var r := FindPending(rs, q);
    assert r == sorted[..|r|];
    forall e, k | e in rs && Due(e, q) && e !in r && 0 <= k < |r|
      ensures r[k].createdAt <= e.createdAt
    {
      assert e in multiset(sorted);
      var m :| 0 <= m < |sorted| && sorted[m] == e;
      assert m >= |r|;
    }
  }

  /**
   * findPending returns due PENDING records of the store, oldest created first: every one of
   * them when there are at most `limit` (default 50), otherwise exactly `limit` of them, each
   * as often as it is stored; no due record it leaves out is older than one it returns.
   */
  lemma FindPendingSpec(rs: seq<Emission>, q: PendingQuery)
    ensures var r := FindPending(rs, q);
      && |r| <= EffectiveLimit(q.limit)
      && |r| == (if |FilterDue(rs, q)| <= EffectiveLimit(q.limit) then |FilterDue(rs, q)| else EffectiveLimit(q.limit))
      && multiset(r) <= multiset(FilterDue(rs, q))
      && (|FilterDue(rs, q)| <= EffectiveLimit(q.limit) ==> multiset(r) == multiset(FilterDue(rs, q)))
      && SortedByCreatedAt(r)
      && (forall e :: e in r ==> e in rs && Due(e, q) && e.status == PENDING)
      && (forall e, k :: e in rs && Due(e, q) && e !in r && 0 <= k < |r| ==> r[k].createdAt <= e.createdAt)
  {
    FindPendingTakesPrefix(rs, q);
    FindPendingOnlyDue(rs, q);
    FindPendingOldestFirst(rs, q);
  }

  /**
   * Once a record has left PENDING, any sequence of guarded repository operations keeps it
   * out of every later findPending result: it is never polled again.
   */
  lemma NeverPolledAgain(rs: seq<Emission>, ops: seq<RepoOp>, i: nat, q: PendingQuery)
    requires forall k :: 0 <= k < |ops| ==> Guarded(ops[k])
    requires i < |rs| && rs[i].status != PENDING
    ensures i < |ApplyAll(rs, ops)|
    ensures ApplyAll(rs, ops)[i] !in FindPending(ApplyAll(rs, ops), q)
  {
    TerminalStatusStableAll(rs, ops, i);
    FindPendingSpec(ApplyAll(rs, ops), q);
  }

  /** The record ids are distinct and below the next id to assign. */
  predicate IdsBelow(rs: seq<Emission>, nextId: nat) {
    && (forall i :: 0 <= i < |rs| ==> rs[i].id < nextId)
    && (forall i, j :: 0 <= i < j < |rs| ==> rs[i].id != rs[j].id)
  }

  lemma IdsPreserved(rs: seq<Emission>, op: RepoOp, nextId: nat)
    requires IdsBelow(rs, nextId) && !op.Create?
    ensures IdsBelow(Apply(rs, op), nextId)
  {
    match FirstMatch(rs, op)
    case None =>
    case Some(i) =>
      assert Written(rs[i], op).id == rs[i].id;
  }
}
