/**
 * The company service (`EmpresasService`): registering a company from its CNPJ.
 * The CNPJ is reduced to its digits, an already stored company is returned as
 * is, and otherwise the provider's CNPJ lookup is mapped and stored. The
 * lookup's answer and the database's answer to the insert are parameters.
 */
module EmpresasService {
  import opened Wrappers
  import opened Json
  import opened EmpresaData
  import Provider

  /** Whether the database accepts the insert, or the message of the error it throws (if any). */
  datatype CreateOutcome = Inserted | InsertFailed(message: Option<string>)

  /** The BadRequest payloads the service throws. */
  datatype BadRequest =
    | InvalidCnpj
    | LookupFailed(providerStatus: Value, providerError: Value)
    | CreateFailed(error: Value)

  const InvalidCnpjMessage := "CNPJ inválido"
  const LookupFailedMessage := "Falha ao consultar CNPJ na PlugNotas"
  const CreateFailedMessage := "Não foi possível cadastrar a empresa"

  /** The `message` of each payload. */
  function Message(e: BadRequest): string {
    match e
    case InvalidCnpj => InvalidCnpjMessage
    case LookupFailed(_, _) => LookupFailedMessage
    case CreateFailed(_) => CreateFailedMessage
  }

  /** What one `createFromCnpj` leaves stored, returns, and which CNPJ it looked up, if any. */
  datatype CreateResult = CreateResult(stored: seq<Company>, result: Result<Company, BadRequest>, lookedUp: Option<string>)

  /** `findOne({cnpj})`: the first stored company with that CNPJ. */
  function FindByCnpj(stored: seq<Company>, cnpj: string): (r: Option<Company>)
    ensures r.Some? ==> r.value in stored && r.value.cnpj == cnpj
    ensures r.None? <==> forall k :: 0 <= k < |stored| ==> stored[k].cnpj != cnpj
  {
    if |stored| == 0 then None
    else if stored[0].cnpj == cnpj then Some(stored[0])
    else FindByCnpj(stored[1..], cnpj)
  }

  /** The payload of a failed lookup: `status ?? null` and `body ?? null`. */
  function LookupError(f: Provider.Failure): BadRequest {
    LookupFailed(if f.status.Some? then JNum(f.status.value) else JNull,
                 if Nullish(f.body) then JNull else f.body)
  }

  /** `fetchProviderData` followed by `mapProviderData`, as `previewFromCnpj` does after the CNPJ check. */
  function Fetched(normalized: string, lookup: Result<Value, Provider.Failure>): Result<Company, BadRequest> {
    if lookup.Err? then Err(LookupError(lookup.error))
    else Ok(MapProviderData(normalized, lookup.value))
  }

  /** `previewFromCnpj`: the company a create would store, without looking at the store. */
  function Preview(cnpj: string, lookup: Result<Value, Provider.Failure>): Result<Company, BadRequest> {
    var normalized := OnlyDigits(cnpj);
    if normalized == "" then Err(InvalidCnpj) else Fetched(normalized, lookup)
  }

  /** `createFromCnpj` */
  function Create(stored: seq<Company>, cnpj: string, lookup: Result<Value, Provider.Failure>,
                  insert: CreateOutcome): CreateResult
  {
    var normalized := OnlyDigits(cnpj);
    if normalized == "" then CreateResult(stored, Err(InvalidCnpj), None)
    else if FindByCnpj(stored, normalized).Some? then
      CreateResult(stored, Ok(FindByCnpj(stored, normalized).value), None)
    else
      var fetched := Fetched(normalized, lookup);
      if fetched.Err? then CreateResult(stored, Err(fetched.error), Some(normalized))
      else if insert.InsertFailed? then
        CreateResult(stored, Err(CreateFailed(if insert.message.Some? then JStr(insert.message.value) else JNull)),
                     Some(normalized))
      else CreateResult(stored + [fetched.value], Ok(fetched.value), Some(normalized))
  }

  /** `getByCnpj` */
  function GetByCnpj(stored: seq<Company>, cnpj: string): Option<Company> {
    FindByCnpj(stored, OnlyDigits(cnpj))
  }

  /** At most one stored company per CNPJ, as the unique index on `cnpj` demands. */
  predicate UniqueCnpjs(stored: seq<Company>) {
    forall j, k :: 0 <= j < k < |stored| ==> stored[j].cnpj != stored[k].cnpj
  }

  /**
   * A CNPJ without any digit is refused before any lookup and leaves the store as it was; a
   * CNPJ whose digits name a stored company returns that company, again without a lookup.
   */
  lemma CreateChecksBeforeLookup(stored: seq<Company>, cnpj: string, lookup: Result<Value, Provider.Failure>,
                                 insert: CreateOutcome)
    ensures var c := Create(stored, cnpj, lookup, insert);
      && (OnlyDigits(cnpj) == "" ==> c == CreateResult(stored, Err(InvalidCnpj), None))
      && (c.result == Err(InvalidCnpj) <==> OnlyDigits(cnpj) == "")
      && (OnlyDigits(cnpj) != "" && GetByCnpj(stored, cnpj).Some? ==>
            c == CreateResult(stored, Ok(GetByCnpj(stored, cnpj).value), None))
      && (c.lookedUp.None? <==> OnlyDigits(cnpj) == "" || GetByCnpj(stored, cnpj).Some?)
      && (c.lookedUp.Some? ==> c.lookedUp.value == OnlyDigits(cnpj))
  {
  }

  /**
   * After a lookup, a failure is a BadRequest carrying the provider's status and body (null
   * when absent); a failed insert carries the database's message (or null); in both cases
   * nothing is stored. A successful insert appends exactly the mapped company and returns it.
   */
  lemma CreateAfterLookup(stored: seq<Company>, cnpj: string, lookup: Result<Value, Provider.Failure>,
                          insert: CreateOutcome)
    requires OnlyDigits(cnpj) != "" && GetByCnpj(stored, cnpj).None?
    ensures var c := Create(stored, cnpj, lookup, insert);
      && (c.result.Err? <==> lookup.Err? || insert.InsertFailed?)
      && (c.result.Err? ==> c.stored == stored)
      && (lookup.Err? ==> c.result == Err(LookupFailed(
            if lookup.error.status.Some? then JNum(lookup.error.status.value) else JNull,
            if Nullish(lookup.error.body) then JNull else lookup.error.body)))
      && (lookup.Ok? && insert.InsertFailed? ==>
            c.result.error == CreateFailed(if insert.message.Some? then JStr(insert.message.value) else JNull))
      && (c.result.Ok? ==>
            c.stored == stored + [c.result.value] && c.result.value == MapProviderData(OnlyDigits(cnpj), lookup.value))
  {
  }

  /** When the insert is accepted, a create that is not served from the store returns what `previewFromCnpj` returns. */
  lemma PreviewMatchesCreate(stored: seq<Company>, cnpj: string, lookup: Result<Value, Provider.Failure>)
    requires GetByCnpj(stored, cnpj).None?
    ensures Create(stored, cnpj, lookup, Inserted).result == Preview(cnpj, lookup)
  {
  }

  /** Every create, whatever it answers, keeps at most one company per CNPJ in the store. */
  lemma CreateKeepsCnpjsUnique(stored: seq<Company>, cnpj: string, lookup: Result<Value, Provider.Failure>,
                               insert: CreateOutcome)
    requires UniqueCnpjs(stored)
    ensures UniqueCnpjs(Create(stored, cnpj, lookup, insert).stored)
  {
    var c := Create(stored, cnpj, lookup, insert);
    if c.stored != stored {
      MapProviderDataSpec(OnlyDigits(cnpj), lookup.value);
      assert c.stored == stored + [c.result.value];
      assert c.result.value.cnpj == OnlyDigits(cnpj);
    }
  }

  /** In a store with unique CNPJs, every stored company is what `findOne` returns for its own CNPJ. */
  lemma {:induction false} StoredAreFound(stored: seq<Company>, k: nat)
    requires UniqueCnpjs(stored) && k < |stored|
    ensures FindByCnpj(stored, stored[k].cnpj) == Some(stored[k])
  {
    if k > 0 {
      assert stored[0].cnpj != stored[k].cnpj;
      assert UniqueCnpjs(stored[1..]) by {
        forall j, m | 0 <= j < m < |stored[1..]|
          ensures stored[1..][j].cnpj != stored[1..][m].cnpj
        {
          assert stored[1..][j] == stored[j + 1] && stored[1..][m] == stored[m + 1];
        }
      }
      StoredAreFound(stored[1..], k - 1);
    }
  }

  /**
   * Once a create has stored a company, any later create with a CNPJ of the same digits is
   * served from the store: it returns that company, looks nothing up and stores nothing.
   */
  lemma RepeatedCreateServedFromStore(stored: seq<Company>, cnpj: string, lookup: Result<Value, Provider.Failure>,
                                      cnpj2: string, lookup2: Result<Value, Provider.Failure>,
                                      insert2: CreateOutcome)
    requires UniqueCnpjs(stored)
    requires OnlyDigits(cnpj2) == OnlyDigits(cnpj)
    ensures var c := Create(stored, cnpj, lookup, Inserted);
      c.result.Ok? ==>
        var c2 := Create(c.stored, cnpj2, lookup2, insert2);
        c2 == CreateResult(c.stored, c.result, None)
  {
    var c := Create(stored, cnpj, lookup, Inserted);
    if c.result.Ok? {
      CreateKeepsCnpjsUnique(stored, cnpj, lookup, Inserted);
      if c.stored == stored {
        assert FindByCnpj(stored, OnlyDigits(cnpj)) == Some(c.result.value);
      } else {
        MapProviderDataSpec(OnlyDigits(cnpj), lookup.value);
        assert c.stored[|stored|] == c.result.value;
        StoredAreFound(c.stored, |stored|);
      }
    }
  }

  /** The service object: the company collection and, as ghost state, the CNPJs sent to the provider. */
  class Empresas {
    var empresas: seq<Company>
    ghost var lookups: seq<string>

    constructor()
      ensures empresas == [] && lookups == []
    {
      empresas := [];
      lookups := [];
    }

    method CreateFromCnpj(cnpj: string, lookup: Result<Value, Provider.Failure>, insert: CreateOutcome)
      returns (r: Result<Company, BadRequest>)
      modifies this
      ensures var c := Create(old(empresas), cnpj, lookup, insert);
        && empresas == c.stored && r == c.result
        && lookups == old(lookups) + (if c.lookedUp.Some? then [c.lookedUp.value] else [])
    {
      var normalized := OnlyDigits(cnpj);
      if normalized == "" {
        return Err(InvalidCnpj);
      }
      var existing := FindByCnpj(empresas, normalized);
      if existing.Some? {
        return Ok(existing.value);
      }
      lookups := lookups + [normalized];
      if lookup.Err? {
        return Err(LookupError(lookup.error));
      }
      var mapped := MapProviderData(normalized, lookup.value);
      if insert.InsertFailed? {
        return Err(CreateFailed(if insert.message.Some? then JStr(insert.message.value) else JNull));
      }
      empresas := empresas + [mapped];
      return Ok(mapped);
    }
  }
}
