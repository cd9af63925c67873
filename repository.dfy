/**
 * NfseEmissionRepository: the emission collection held in memory. Every method
 * that writes applies one Emissions.RepoOp to `records` and logs it in the ghost
 * `history`, so callers can state exactly which writes they made.
 */
module Repository {
  import opened Wrappers
  import opened NfseStatus
  import opened Emissions

  class NfseEmissionRepository {
    var records: seq<Emission>
    var nextId: nat
    ghost var history: seq<RepoOp>

    ghost predicate Valid()
      reads this
    {
      IdsBelow(records, nextId)
    }

    constructor ()
      ensures Valid() && records == [] && history == []
    {
      records := [];
      nextId := 0;
      history := [];
    }

    /** `create`: stores a new record with a fresh id, created at `now`. */
    method Create(input: CreateInput, now: int) returns (e: Emission)
      requires Valid()
      modifies this
      ensures Valid()
      ensures e == NewEmission(input, old(nextId), now)
      ensures records == old(records) + [e] && nextId == old(nextId) + 1
      ensures records == Apply(old(records), RepoOp.Create(input, old(nextId), now))
      ensures history == old(history) + [RepoOp.Create(input, old(nextId), now)]
    {
      e := NewEmission(input, nextId, now);
      records := records + [e];
      history := history + [RepoOp.Create(input, nextId, now)];
      nextId := nextId + 1;
    }

    /** Applies one updating operation as `updateOne` does: to the first matching record only. */
    method UpdateOne(op: RepoOp)
      requires Valid() && !op.Create?
      modifies this
      ensures Valid() && nextId == old(nextId)
      ensures records == Apply(old(records), op)
      ensures history == old(history) + [op]
    {
      IdsPreserved(records, op, nextId);
      var i := FirstMatch(records, op);
      if i.Some? {
        records := records[i.value := Written(records[i.value], op)];
      }
      history := history + [op];
    }

    /** `updateEmission`: the patch, guarded by status when it carries one. */
    method UpdateEmission(id: nat, patch: EmissionPatch)
      requires Valid()
      modifies this
      ensures Valid() && nextId == old(nextId)
      ensures records == Apply(old(records), RepoOp.UpdateEmission(id, patch))
      ensures history == old(history) + [RepoOp.UpdateEmission(id, patch)]
    {
      UpdateOne(RepoOp.UpdateEmission(id, patch));
    }

    /** `updateByExternalId`, `now` being the instant written to lastPolledAt. */
    method UpdateByExternalId(input: ByExternalIdInput, now: int)
      requires Valid()
      modifies this
      ensures Valid() && nextId == old(nextId)
      ensures records == Apply(old(records), RepoOp.UpdateByExternalId(input, now))
      ensures history == old(history) + [RepoOp.UpdateByExternalId(input, now)]
    {
      UpdateOne(RepoOp.UpdateByExternalId(input, now));
    }

    /** `markPollingTransientFailure` */
    method MarkPollingTransientFailure(input: TransientInput, now: int)
      requires Valid()
      modifies this
      ensures Valid() && nextId == old(nextId)
      ensures records == Apply(old(records), RepoOp.MarkPollingTransientFailure(input, now))
      ensures history == old(history) + [RepoOp.MarkPollingTransientFailure(input, now)]
    {
      UpdateOne(RepoOp.MarkPollingTransientFailure(input, now));
    }

    /** `saveArtifactsById`: writes by id, without a status guard. */
    method SaveArtifactsById(input: SaveArtifactsInput)
      requires Valid()
      modifies this
      ensures Valid() && nextId == old(nextId)
      ensures records == Apply(old(records), RepoOp.SaveArtifactsById(input))
      ensures history == old(history) + [RepoOp.SaveArtifactsById(input)]
    {
      UpdateOne(RepoOp.SaveArtifactsById(input));
    }

    /** `appendArtifactSyncAudit`: adds one entry to the record's audit trail. */
    method AppendArtifactSyncAudit(id: nat, entry: AuditEntry)
      requires Valid()
      modifies this
      ensures Valid() && nextId == old(nextId)
      ensures records == Apply(old(records), RepoOp.AppendArtifactSyncAudit(id, entry))
      ensures history == old(history) + [RepoOp.AppendArtifactSyncAudit(id, entry)]
    {
      UpdateOne(RepoOp.AppendArtifactSyncAudit(id, entry));
    }

    /** `findPending` */
    method FindPending(q: PendingQuery) returns (r: seq<Emission>)
      ensures r == Emissions.FindPending(records, q)
    {
      r := Emissions.FindPending(records, q);
    }

    /** `findById` */
    method FindById(id: nat) returns (r: Option<Emission>)
      ensures r == Emissions.FindById(records, id)
    {
      r := Emissions.FindById(records, id);
    }

    /** `findByExternalId` */
    method FindByExternalId(externalId: string) returns (r: Option<Emission>)
      ensures r == Emissions.FindByExternalId(records, externalId)
    {
      r := Emissions.FindByExternalId(records, externalId);
    }
  }
}
