/**
 * EmitirNfseService.execute: store the request as a PENDING emission, submit it to
 * the provider, then record the outcome on the stored emission.
 */
module EmitirNfse {
  import opened Wrappers
  import opened NfseStatus
  import opened Emissions
  import opened Provider
  import Json
  import Repository

  /** The provider every emission created here is stored under. */
  const SubmittedProvider := "NUVEMFISCAL"

  datatype Emitted = Emitted(emissionId: nat, result: SubmitResult)

  /** What `execute` throws: a BadRequest built from a 4xx failure, or the failure itself. */
  datatype EmitError =
    | ProviderRejected(message: string, nuvemFiscal: Json.Value)
    | Rethrown(failure: Failure)

  /** The record stored before the provider is called. */
  function PendingCreate(input: Json.Value): CreateInput {
    CreateInput(SubmittedProvider, input, Some(PENDING), None, Json.JUndefined)
  }

  /** The patch `execute` writes for a provider outcome. */
  function OutcomePatch(o: SubmitOutcome): EmissionPatch {
    match o
    case Submitted(r) =>
      EmptyPatch.(
        provider := Set(r.provider),
        status := Set(r.status),
        externalId := if r.externalId.Some? then Set(r.externalId.value) else Keep,
        providerResponse := if Json.Nullish(r.providerResponse) then Json.JUndefined else r.providerResponse)
    case SubmitFailed(f) =>
      EmptyPatch.(status := Set(ERROR), error := Set(Some(f.message)))
  }

  /** A failure with a numeric status in [400, 500) is the provider rejecting the request. */
  predicate IsClientError(f: Failure) {
    f.status.Some? && 400 <= f.status.value < 500
  }

  function Classify(f: Failure): EmitError {
    if IsClientError(f) then
      ProviderRejected("NuvemFiscal rejected the request", Json.Coalesce(f.body, Json.JNull))
    else Rethrown(f)
  }

  /** The answer of `execute` for a provider outcome, the created record having this id. */
  function Response(id: nat, o: SubmitOutcome): Result<Emitted, EmitError> {
    match o
    case Submitted(r) => Ok(Emitted(id, r))
    case SubmitFailed(f) => Err(Classify(f))
  }

  /** The repository writes of one `execute`, the created record having id `id`. */
  function Writes(input: Json.Value, id: nat, now: int, o: SubmitOutcome): seq<RepoOp> {
    [RepoOp.Create(PendingCreate(input), id, now), RepoOp.UpdateEmission(id, OutcomePatch(o))]
  }

  /**
   * The stored emission after `execute`: on success it carries the result's provider, status,
   * externalId and response; on failure it is ERROR with the failure's message. Either way the
   * payload is the request.
   */
  lemma StoredOutcome(input: Json.Value, id: nat, now: int, o: SubmitOutcome)
    ensures var e := ApplyPatch(NewEmission(PendingCreate(input), id, now), OutcomePatch(o));
      && e.id == id && e.payload == input && e.createdAt == now && e.pollAttempts == 0
      && (o.Submitted? ==>
            && e.provider == o.result.provider && e.status == o.result.status
            && e.externalId == o.result.externalId
            && (!Json.Nullish(o.result.providerResponse) ==> e.providerResponse == o.result.providerResponse)
            && e.error.None?)
      && (o.SubmitFailed? ==>
            && e.provider == SubmittedProvider && e.status == ERROR
            && e.error == Some(o.failure.message) && e.externalId.None?)
  {
  }

  /**
   * A failure is turned into a BadRequest exactly when its status is a number in [400, 500);
   * the BadRequest carries the provider body, or null without one. Any other failure is
   * rethrown unchanged; success returns the created record's id and the result.
   */
  lemma ResponseClassification(id: nat, o: SubmitOutcome)
    ensures o.Submitted? ==> Response(id, o) == Ok(Emitted(id, o.result))
    ensures o.SubmitFailed? ==>
      (Response(id, o).Err? && Response(id, o).error.ProviderRejected? <==> IsClientError(o.failure))
    ensures o.SubmitFailed? && IsClientError(o.failure) ==>
      Response(id, o).error.nuvemFiscal == (if Json.Nullish(o.failure.body) then Json.JNull else o.failure.body)
    ensures o.SubmitFailed? && !IsClientError(o.failure) ==> Response(id, o) == Err(Rethrown(o.failure))
  {
  }

  /**
   * `execute`: one create (PENDING, provider NUVEMFISCAL, payload = input), then one provider
   * call, then one updateEmission of the created record, whichever way the call went.
   */
  method Execute(repo: Repository.NfseEmissionRepository, provider: FiscalProvider, input: Json.Value, now: int)
    returns (r: Result<Emitted, EmitError>)
    requires repo.Valid()
    modifies repo, provider
    ensures repo.Valid()
    ensures var o := provider.oracles.submit(input);
      && r == Response(old(repo.nextId), o)
      && provider.calls == old(provider.calls) + [Submit(input)]
      && repo.history == old(repo.history) + Writes(input, old(repo.nextId), now, o)
      && repo.records == ApplyAll(old(repo.records), Writes(input, old(repo.nextId), now, o))
      && repo.records == old(repo.records) +
           [ApplyPatch(NewEmission(PendingCreate(input), old(repo.nextId), now), OutcomePatch(o))]
  {
    ghost var rs0 := repo.records;
    var emission := repo.Create(PendingCreate(input), now);
    ghost var rs1 := repo.records;
    var outcome := provider.EmitirNfse(input);
    repo.UpdateEmission(emission.id, OutcomePatch(outcome));
    match outcome {
      case Submitted(result) =>
        r := Ok(Emitted(emission.id, result));
      case SubmitFailed(f) =>
        r := Err(Classify(f));
    }
    var ops := Writes(input, emission.id, now, outcome);
    assert ApplyAll(rs0, ops) == ApplyAll(rs1, ops[1..]);
    assert ApplyAll(rs1, ops[1..]) == Apply(ApplyAll(rs1, []), ops[1]);
    UpdateEmissionGuarded(rs1, emission.id, OutcomePatch(outcome), |rs0|);
    assert repo.records == rs0 + [ApplyPatch(emission, OutcomePatch(outcome))];
  }
}
