/**
 * PollNfseStatusService.runOnce: query the provider for every due PENDING emission
 * and record what it says, with exponential backoff on transient failures.
 */
module PollNfseStatus {
  import opened Wrappers
  import opened NfseStatus
  import opened Emissions
  import opened Provider
  import Json
  import Text
  import Artifacts
  import Repository

  // ---------------------------------------------------------------- settings

  const DefaultRunLimit := 50
  const DefaultOlderThanMs := 30000
  const DefaultMaxAttempts := 12
  const DefaultBackoffBaseMs := 60000
  const DefaultBackoffMaxMs := 900000
  const DefaultBackoffJitterMs := 5000

  /** The environment variables the service reads, already parsed to numbers; None when unset. */
  datatype PollEnv = PollEnv(
    storeArtifacts: Option<string>,
    maxAttempts: Option<int>,
    backoffBaseMs: Option<int>,
    backoffMaxMs: Option<int>,
    backoffJitterMs: Option<int>)

  datatype PollSettings = PollSettings(
    storeArtifacts: bool,
    maxAttempts: int,
    baseMs: int,
    maxMs: int,
    jitterMs: int)

  /** `(NFSE_STORE_ARTIFACTS ?? 'true').toLowerCase() === 'true'` */
  predicate StoreArtifactsEnabled(env: Option<string>) {
    Text.ToLower(env.GetOr("true")) == "true"
  }

  function Settings(env: PollEnv): PollSettings {
    PollSettings(
      StoreArtifactsEnabled(env.storeArtifacts),
      env.maxAttempts.GetOr(DefaultMaxAttempts),
      env.backoffBaseMs.GetOr(DefaultBackoffBaseMs),
      env.backoffMaxMs.GetOr(DefaultBackoffMaxMs),
      env.backoffJitterMs.GetOr(DefaultBackoffJitterMs))
  }

  /** Artifact storage is on unless the variable is set to something other than "true" in any case. */
  lemma StoreArtifactsSwitch()
    ensures StoreArtifactsEnabled(None)
    ensures StoreArtifactsEnabled(Some("TRUE")) && StoreArtifactsEnabled(Some("True"))
    ensures !StoreArtifactsEnabled(Some("false")) && !StoreArtifactsEnabled(Some(""))
    ensures !StoreArtifactsEnabled(Some("1"))
  {
    assert Text.ToLower("TRUE") == "true";
    assert Text.ToLower("True") == "true";
    assert Text.ToLower("false") != "true" by { assert |Text.ToLower("false")| == 5; }
    assert |Text.ToLower("")| == 0;
    assert |Text.ToLower("1")| == 1;
  }

  /** Any casing of "true" switches storage on, and nothing else does: exactly the four-letter texts t, r, u, e in either case. */
  lemma StoreArtifactsCasings(s: string)
    ensures StoreArtifactsEnabled(Some(s)) <==>
      && |s| == 4
      && (s[0] == 't' || s[0] == 'T') && (s[1] == 'r' || s[1] == 'R')
      && (s[2] == 'u' || s[2] == 'U') && (s[3] == 'e' || s[3] == 'E')
  {
    var l := Text.ToLower(s);
    if |s| == 4 {
      assert l == [l[0], l[1], l[2], l[3]];
      assert l[0] == Text.LowerChar(s[0]) && l[1] == Text.LowerChar(s[1]);
      assert l[2] == Text.LowerChar(s[2]) && l[3] == Text.LowerChar(s[3]);
    }
  }

  // ---------------------------------------------------------------- backoff

  function Pow2(n: nat): (r: nat)
    ensures r >= 1
  {
    if n == 0 then 1 else 2 * Pow2(n - 1)
  }

  function Max(a: int, b: int): int {
    if a >= b then a else b
  }

  function Min(a: int, b: int): int {
    if a <= b then a else b
  }

  /** `Math.min(maxMs, baseMs * 2 ** Math.max(0, attempt - 1))` */
  function BackoffDelay(attempt: int, baseMs: int, maxMs: int): int {
    Min(maxMs, baseMs * Pow2(Max(0, attempt - 1)))
  }

  /** `Math.floor(random * jitterMs)` for the draw `random` of Math.random(). */
  function Jitter(random: real, jitterMs: int): int {
    (random * jitterMs as real).Floor
  }

  /** `computeNextPollAt(attempt)` at the clock reading `nowMs`. */
  function ComputeNextPollAt(attempt: int, nowMs: int, s: PollSettings, random: real): int {
    nowMs + BackoffDelay(attempt, s.baseMs, s.maxMs) + Jitter(random, s.jitterMs)
  }

  lemma {:induction false} Pow2Monotone(a: nat, b: nat)
    requires a <= b
    ensures Pow2(a) <= Pow2(b)
    decreases b - a
  {
    if a < b {
      Pow2Monotone(a, b - 1);
    }
  }

  lemma MulMonotone(c: int, x: int, y: int)
    requires c >= 0 && x <= y
    ensures c * x <= c * y
  {
  }

  /** The delay before jitter never exceeds maxMs and never decreases as the attempts grow. */
  lemma BackoffBoundedMonotone(a: int, b: int, baseMs: int, maxMs: int)
    requires a <= b && baseMs >= 0
    ensures BackoffDelay(a, baseMs, maxMs) <= maxMs
    ensures BackoffDelay(a, baseMs, maxMs) <= BackoffDelay(b, baseMs, maxMs)
  {
    Pow2Monotone(Max(0, a - 1), Max(0, b - 1));
    MulMonotone(baseMs, Pow2(Max(0, a - 1)), Pow2(Max(0, b - 1)));
  }

  /** The first retry waits baseMs (capped at maxMs); each later one doubles it up to the cap. */
  lemma BackoffDoubles(attempt: int, baseMs: int, maxMs: int)
    requires attempt >= 1
    ensures BackoffDelay(1, baseMs, maxMs) == Min(maxMs, baseMs)
    ensures BackoffDelay(attempt + 1, baseMs, maxMs) == Min(maxMs, 2 * (baseMs * Pow2(attempt - 1)))
  {
    assert Pow2(attempt) == 2 * Pow2(attempt - 1);
  }

  /** With the default settings the retries wait 1, 2, 4 and 8 minutes, then 15 minutes from the fifth on. */
  lemma DefaultSchedule(attempt: int)
    requires attempt >= 5
    ensures BackoffDelay(1, DefaultBackoffBaseMs, DefaultBackoffMaxMs) == 60000
    ensures BackoffDelay(2, DefaultBackoffBaseMs, DefaultBackoffMaxMs) == 120000
    ensures BackoffDelay(3, DefaultBackoffBaseMs, DefaultBackoffMaxMs) == 240000
    ensures BackoffDelay(4, DefaultBackoffBaseMs, DefaultBackoffMaxMs) == 480000
    ensures BackoffDelay(attempt, DefaultBackoffBaseMs, DefaultBackoffMaxMs) == DefaultBackoffMaxMs
  {
    assert Pow2(4) == 16;
    BackoffBoundedMonotone(5, attempt, DefaultBackoffBaseMs, DefaultBackoffMaxMs);
  }

  /** For a draw in [0, 1) the jitter is an integer in [0, jitterMs). */
  lemma JitterRange(random: real, jitterMs: int)
    requires 0.0 <= random < 1.0 && jitterMs > 0
    ensures 0 <= Jitter(random, jitterMs) < jitterMs
  {
    var j := jitterMs as real;
    assert 0.0 <= random * j;
    assert random * j < j;
  }

  /** The next poll is scheduled at now + delay + jitter, the jitter in [0, jitterMs). */
  lemma NextPollAtRange(attempt: int, nowMs: int, s: PollSettings, random: real)
    requires 0.0 <= random < 1.0 && s.jitterMs > 0 && s.baseMs >= 0
    ensures var d := BackoffDelay(attempt, s.baseMs, s.maxMs);
      nowMs + d <= ComputeNextPollAt(attempt, nowMs, s, random) < nowMs + d + s.jitterMs
    ensures ComputeNextPollAt(attempt, nowMs, s, random) < nowMs + s.maxMs + s.jitterMs
  {
    JitterRange(random, s.jitterMs);
    BackoffBoundedMonotone(attempt, attempt, s.baseMs, s.maxMs);
  }

  // ---------------------------------------------------------------- failure classification

  /** `isTransientError`: status 429, a status in 500..599, or no status at all. */
  predicate IsTransientError(status: Option<int>) {
    status == Some(429) || (status.Some? && 500 <= status.value <= 599) || status.None?
  }

  /** Every other status is fatal: in particular every 4xx other than 429, and every 3xx or 600+. */
  lemma FatalStatuses(code: int)
    ensures 400 <= code < 500 && code != 429 ==> !IsTransientError(Some(code))
    ensures (code < 500 && code != 429) || code > 599 ==> !IsTransientError(Some(code))
    ensures IsTransientError(Some(code)) <==> code == 429 || 500 <= code <= 599
  {
  }

  // ---------------------------------------------------------------- one emission

  /** The provider calls and repository writes made for one emission. */
  datatype Step = Step(calls: seq<Call>, ops: seq<RepoOp>)

  function StatusUpdate(externalId: string, providerName: string, status: Status, response: Json.Value,
                        error: Option<string>, xml: Option<string>, pdf: Option<string>, now: int): RepoOp {
    RepoOp.UpdateByExternalId(
      ByExternalIdInput(Json.JStr(externalId), status, response, error, Some(providerName), xml, pdf), now)
  }

  /** The write of the catch block for a failure `f` while polling `e`; `random` is this emission's draw. */
  function FailureWrite(e: Emission, externalId: string, f: Failure, providerName: string,
                        s: PollSettings, now: int, random: real): RepoOp {
    if IsTransientError(f.status) then
      var attempts := e.pollAttempts + 1;
      if attempts >= s.maxAttempts then
        StatusUpdate(externalId, providerName, ERROR, Json.JUndefined, Some(f.message), None, None, now)
      else
        RepoOp.MarkPollingTransientFailure(
          TransientInput(externalId, Some(providerName), f.message, ComputeNextPollAt(attempts, now, s, random)),
          now)
    else
      StatusUpdate(externalId, providerName, ERROR, Json.JUndefined, Some(f.message), None, None, now)
  }

  /**
   * One iteration of the loop, for the k-th pending emission `e`. A PENDING answer and any answer
   * other than an AUTHORIZED one with storage on both write the status and the response.
   */
  function PollOne(e: Emission, k: nat, o: Oracles, s: PollSettings, now: int, random: nat -> real): Step {
    if e.externalId.None? || e.externalId.value == "" then Step([], [])
    else
      var ext := e.externalId.value;
      match o.query(ext)
      case QueryFailed(f) => Step([Query(ext)], [FailureWrite(e, ext, f, o.name, s, now, random(k))])
      case Queried(status, response) =>
        if status == AUTHORIZED && s.storeArtifacts then
          var id := Artifacts.ExtractArtifactId(response, ext);
          var calls := [Query(ext), DownloadXml(id), DownloadPdf(id)];
          match (o.xml(id), o.pdf(id))
          case (DownloadFailed(f), _) => Step(calls, [FailureWrite(e, ext, f, o.name, s, now, random(k))])
          case (Downloaded(_), DownloadFailed(f)) => Step(calls, [FailureWrite(e, ext, f, o.name, s, now, random(k))])
          case (Downloaded(x), Downloaded(p)) =>
            Step(calls, [StatusUpdate(ext, o.name, status, response, None, Some(Base64(x)), Some(Base64(p)), now)])
        else
          Step([Query(ext)], [StatusUpdate(ext, o.name, status, response, None, None, None, now)])
  }

  predicate Polled(e: Emission) {
    e.externalId.Some? && e.externalId.value != ""
  }

  /**
   * An emission without an externalId is skipped: no provider call and no write. Every other
   * emission is queried first, and gets exactly one repository write, which never is
   * saveArtifactsById.
   */
  lemma OneWritePerPolledEmission(e: Emission, k: nat, o: Oracles, s: PollSettings, now: int, random: nat -> real)
    ensures var st := PollOne(e, k, o, s, now, random);
      && (!Polled(e) <==> st.calls == [])
      && (!Polled(e) ==> st.ops == [])
      && (Polled(e) ==> |st.ops| == 1 && st.calls[0] == Query(e.externalId.value) && Guarded(st.ops[0]))
  {
  }

  /**
   * XML and PDF are downloaded only when the provider reports AUTHORIZED and storage is on;
   * both with the same id, extracted from the response; when both arrive they are stored with
   * the status in one updateByExternalId.
   */
  lemma DownloadsOnlyWhenAuthorized(e: Emission, k: nat, o: Oracles, s: PollSettings, now: int, random: nat -> real)
    requires Polled(e)
    ensures var st := PollOne(e, k, o, s, now, random);
            var ext := e.externalId.value;
            var q := o.query(ext);
      && ((exists c :: c in st.calls && IsDownload(c)) <==> (q.Queried? && q.status == AUTHORIZED && s.storeArtifacts))
      && (q.Queried? && q.status == AUTHORIZED && s.storeArtifacts ==>
            var id := Artifacts.ExtractArtifactId(q.response, ext);
            && st.calls == [Query(ext), DownloadXml(id), DownloadPdf(id)]
            && (o.xml(id).Downloaded? && o.pdf(id).Downloaded? ==>
                  st.ops == [StatusUpdate(ext, o.name, AUTHORIZED, q.response, None,
                                          Some(Base64(o.xml(id).data)), Some(Base64(o.pdf(id).data)), now)]))
      && (q.Queried? && !(q.status == AUTHORIZED && s.storeArtifacts) ==>
            st.ops == [StatusUpdate(ext, o.name, q.status, q.response, None, None, None, now)])
  {
    var st := PollOne(e, k, o, s, now, random);
    var q := o.query(e.externalId.value);
    if !(q.Queried? && q.status == AUTHORIZED && s.storeArtifacts) {
      assert st.calls == [Query(e.externalId.value)];
      assert forall c :: c in st.calls ==> !IsDownload(c);
    } else {
      assert IsDownload(st.calls[1]);
    }
  }

  /**
   * A transient failure counts one more attempt: at maxAttempts or beyond the emission is marked
   * ERROR with the message; before that markPollingTransientFailure schedules the next poll at
   * now + backoff + jitter and the status stays PENDING.
   */
  lemma TransientFailureHandling(e: Emission, ext: string, f: Failure, name: string, s: PollSettings,
                                 now: int, random: real)
    requires IsTransientError(f.status)
    ensures var w := FailureWrite(e, ext, f, name, s, now, random);
      && (e.pollAttempts + 1 >= s.maxAttempts ==>
            w.UpdateByExternalId? && w.byExternalId.status == ERROR && w.byExternalId.error == Some(f.message))
      && (e.pollAttempts + 1 < s.maxAttempts ==>
            && w.MarkPollingTransientFailure?
            && w.transient.nextPollAt == ComputeNextPollAt(e.pollAttempts + 1, now, s, random)
            && w.transient.message == f.message
            && (forall rs: seq<Emission>, i :: 0 <= i < |rs| ==> Apply(rs, w)[i].status == rs[i].status))
  {
    var w := FailureWrite(e, ext, f, name, s, now, random);
    if e.pollAttempts + 1 < s.maxAttempts {
      forall rs: seq<Emission>, i | 0 <= i < |rs|
        ensures Apply(rs, w)[i].status == rs[i].status
      {
        TransientFailureWrite(rs, w.transient, w.at, i);
      }
    }
  }

  /** A fatal failure marks the emission ERROR with the message and schedules no retry. */
  lemma FatalFailureHandling(e: Emission, ext: string, f: Failure, name: string, s: PollSettings,
                             now: int, random: real)
    requires !IsTransientError(f.status)
    ensures var w := FailureWrite(e, ext, f, name, s, now, random);
      && w == StatusUpdate(ext, name, ERROR, Json.JUndefined, Some(f.message), None, None, now)
      && !w.MarkPollingTransientFailure?
      && forall r :: Written(r, w).nextPollAt.None? && Written(r, w).lastPollError.None?
  {
  }

  // ---------------------------------------------------------------- the run

  /** The step of each pending emission; the k-th uses draw random(k). */
  function Steps(pending: seq<Emission>, o: Oracles, s: PollSettings, now: int, random: nat -> real): (r: seq<Step>)
    ensures |r| == |pending|
    decreases |pending|
  {
    if |pending| == 0 then []
    else Steps(pending[..|pending| - 1], o, s, now, random)
         + [PollOne(pending[|pending| - 1], |pending| - 1, o, s, now, random)]
  }

  lemma {:induction false} StepsAt(pending: seq<Emission>, k: nat, o: Oracles, s: PollSettings, now: int, random: nat -> real)
    requires k < |pending|
    ensures Steps(pending, o, s, now, random)[k] == PollOne(pending[k], k, o, s, now, random)
    decreases |pending|
  {
    if k < |pending| - 1 {
      StepsAt(pending[..|pending| - 1], k, o, s, now, random);
    }
  }

  /** The steps one after the other: their calls and their writes, in order. */
  function Join(steps: seq<Step>): Step
    decreases |steps|
  {
    if |steps| == 0 then Step([], [])
    else
      var prev := Join(steps[..|steps| - 1]);
      Step(prev.calls + steps[|steps| - 1].calls, prev.ops + steps[|steps| - 1].ops)
  }

  lemma JoinSnoc(steps: seq<Step>, k: nat)
    requires k < |steps|
    ensures Join(steps[..k + 1]) == Step(Join(steps[..k]).calls + steps[k].calls, Join(steps[..k]).ops + steps[k].ops)
  {
    assert steps[..k + 1][..k] == steps[..k];
  }

  /** The calls and writes of the whole loop over `pending`. */
  function PollAll(pending: seq<Emission>, o: Oracles, s: PollSettings, now: int, random: nat -> real): Step {
    Join(Steps(pending, o, s, now, random))
  }

  function CountPolled(pending: seq<Emission>): nat
    decreases |pending|
  {
    if |pending| == 0 then 0
    else CountPolled(pending[..|pending| - 1]) + (if Polled(pending[|pending| - 1]) then 1 else 0)
  }

  lemma {:induction false} JoinWrites(pending: seq<Emission>, steps: seq<Step>, k: nat,
                                      o: Oracles, s: PollSettings, now: int, random: nat -> real)
    requires steps == Steps(pending, o, s, now, random) && k <= |pending|
    ensures |Join(steps[..k]).ops| == CountPolled(pending[..k])
    ensures forall j :: 0 <= j < |Join(steps[..k]).ops| ==> Guarded(Join(steps[..k]).ops[j])
    decreases k
  {
    if k > 0 {
      JoinWrites(pending, steps, k - 1, o, s, now, random);
      JoinSnoc(steps, k - 1);
      StepsAt(pending, k - 1, o, s, now, random);
      OneWritePerPolledEmission(pending[k - 1], k - 1, o, s, now, random);
      assert pending[..k][..k - 1] == pending[..k - 1];
    }
  }

  /**
   * A run writes exactly once per pending emission that has an externalId (nothing for an
   * empty pending list), and none of its writes is saveArtifactsById.
   */
  lemma RunWrites(pending: seq<Emission>, o: Oracles, s: PollSettings, now: int, random: nat -> real)
    ensures var run := PollAll(pending, o, s, now, random);
      && |run.ops| == CountPolled(pending)
      && (forall k :: 0 <= k < |run.ops| ==> Guarded(run.ops[k]))
  {
    var steps := Steps(pending, o, s, now, random);
    JoinWrites(pending, steps, |pending|, o, s, now, random);
    assert steps[..|pending|] == steps && pending[..|pending|] == pending;
  }

  /** A run never changes the status of an emission that has left PENDING. */
  lemma RunKeepsSettledStatus(rs: seq<Emission>, i: nat, pending: seq<Emission>, o: Oracles, s: PollSettings,
                              now: int, random: nat -> real)
    requires i < |rs| && rs[i].status != PENDING
    ensures var rs' := ApplyAll(rs, PollAll(pending, o, s, now, random).ops);
      i < |rs'| && rs'[i].status == rs[i].status
  {
    RunWrites(pending, o, s, now, random);
    TerminalStatusStableAll(rs, PollAll(pending, o, s, now, random).ops, i);
  }

  /** The findPending options of runOnce. */
  function RunQuery(providerName: string, limit: Option<int>, olderThanMs: Option<int>, now: int): PendingQuery {
    PendingQuery(Some(providerName), Some(limit.GetOr(DefaultRunLimit)),
                 Some(olderThanMs.GetOr(DefaultOlderThanMs)), now, now)
  }

  /** The catch block: the write for failure `f` while polling `e`. */
  method RecordFailure(repo: Repository.NfseEmissionRepository, e: Emission, externalId: string, f: Failure,
                       providerName: string, s: PollSettings, now: int, random: real)
    requires repo.Valid()
    modifies repo
    ensures repo.Valid()
    ensures repo.records == Apply(old(repo.records), FailureWrite(e, externalId, f, providerName, s, now, random))
    ensures repo.history == old(repo.history) + [FailureWrite(e, externalId, f, providerName, s, now, random)]
  {
    if IsTransientError(f.status) {
      var attempts := e.pollAttempts + 1;
      if attempts >= s.maxAttempts {
        repo.UpdateByExternalId(
          ByExternalIdInput(Json.JStr(externalId), ERROR, Json.JUndefined, Some(f.message), Some(providerName), None, None),
          now);
        return;
      }
      var nextPollAt := ComputeNextPollAt(attempts, now, s, random);
      repo.MarkPollingTransientFailure(TransientInput(externalId, Some(providerName), f.message, nextPollAt), now);
      return;
    }
    repo.UpdateByExternalId(
      ByExternalIdInput(Json.JStr(externalId), ERROR, Json.JUndefined, Some(f.message), Some(providerName), None, None),
      now);
  }

  /** One iteration of the loop: the body of the `for`, with its catch block. */
  method PollEmission(repo: Repository.NfseEmissionRepository, provider: FiscalProvider, e: Emission, k: nat,
                      s: PollSettings, now: int, random: nat -> real)
    requires repo.Valid()
    modifies repo, provider
    ensures repo.Valid()
    ensures var step := PollOne(e, k, provider.oracles, s, now, random);
      && repo.history == old(repo.history) + step.ops
      && provider.calls == old(provider.calls) + step.calls
      && repo.records == ApplyAll(old(repo.records), step.ops)
  {
    if e.externalId.None? || e.externalId.value == "" {
      return;
    }
    var ext := e.externalId.value;
    var name := provider.oracles.name;
    ghost var rs := repo.records;
    var q := provider.ConsultarNfse(ext);
    match q {
      case QueryFailed(f) =>
        RecordFailure(repo, e, ext, f, name, s, now, random(k));
      case Queried(status, response) =>
        if status == AUTHORIZED && s.storeArtifacts {
          var artifactId := Artifacts.ExtractArtifactId(response, ext);
          var xml := provider.BaixarXmlNfse(artifactId);
          var pdf := provider.BaixarPdfNfse(artifactId);
          if xml.DownloadFailed? {
            RecordFailure(repo, e, ext, xml.failure, name, s, now, random(k));
          } else if pdf.DownloadFailed? {
            RecordFailure(repo, e, ext, pdf.failure, name, s, now, random(k));
          } else {
            repo.UpdateByExternalId(
              ByExternalIdInput(Json.JStr(ext), status, response, None, Some(name),
                                Some(Base64(xml.data)), Some(Base64(pdf.data))), now);
          }
        } else {
          repo.UpdateByExternalId(
            ByExternalIdInput(Json.JStr(ext), status, response, None, Some(name), None, None), now);
        }
    }
    ghost var step := PollOne(e, k, provider.oracles, s, now, random);
    assert ApplyAll(rs, step.ops) == ApplyAll(Apply(rs, step.ops[0]), []);
  }

  /** The loop body for the k-th pending emission, stated through that emission's step. */
  method PollNext(repo: Repository.NfseEmissionRepository, provider: FiscalProvider, pending: seq<Emission>, k: nat,
                  s: PollSettings, now: int, random: nat -> real, ghost steps: seq<Step>)
    requires steps == Steps(pending, provider.oracles, s, now, random)
    requires k < |pending| && repo.Valid()
    modifies repo, provider
    ensures repo.Valid()
    ensures repo.history == old(repo.history) + steps[k].ops
    ensures provider.calls == old(provider.calls) + steps[k].calls
    ensures repo.records == ApplyAll(old(repo.records), steps[k].ops)
  {
    StepsAt(pending, k, provider.oracles, s, now, random);
    PollEmission(repo, provider, pending[k], k, s, now, random);
  }

  /**
   * `runOnce`: the writes and provider calls are exactly those of PollAll over the emissions
   * findPending returned, each emission's failure caught and the loop moving on.
   */
  method RunOnce(repo: Repository.NfseEmissionRepository, provider: FiscalProvider,
                 limit: Option<int>, olderThanMs: Option<int>, env: PollEnv, now: int, random: nat -> real)
    requires repo.Valid()
    modifies repo, provider
    ensures repo.Valid()
    ensures var pending := Emissions.FindPending(old(repo.records),
                                                 RunQuery(provider.oracles.name, limit, olderThanMs, now));
            var run := PollAll(pending, provider.oracles, Settings(env), now, random);
      && repo.history == old(repo.history) + run.ops
      && provider.calls == old(provider.calls) + run.calls
      && repo.records == ApplyAll(old(repo.records), run.ops)
  {
    var pending := repo.FindPending(RunQuery(provider.oracles.name, limit, olderThanMs, now));
    if |pending| == 0 {
      return;
    }
    var s := Settings(env);
    ghost var steps := Steps(pending, provider.oracles, s, now, random);
    var k := 0;
    while k < |pending|
      invariant 0 <= k <= |pending|
      invariant repo.Valid()
      invariant repo.history == old(repo.history) + Join(steps[..k]).ops
      invariant provider.calls == old(provider.calls) + Join(steps[..k]).calls
      invariant repo.records == ApplyAll(old(repo.records), Join(steps[..k]).ops)
    {
      ghost var done := Join(steps[..k]);
      PollNext(repo, provider, pending, k, s, now, random, steps);
      JoinSnoc(steps, k);
      ApplyAllConcat(old(repo.records), done.ops, steps[k].ops);
      AppendAssoc(old(repo.history), done.ops, steps[k].ops);
      AppendAssoc(old(provider.calls), done.calls, steps[k].calls);
      k := k + 1;
    }
    assert steps[..k] == steps;
  }

  /**
   * The polling test: one PENDING emission with externalId 'protocol-123' and no attempts, a
   * provider answering AUTHORIZED with `idNota: 'id-nota-999'`, storage on. Both downloads ask for
   * 'id-nota-999' and the emission ends AUTHORIZED holding both artifacts.
   */
  lemma AuthorizedExample(e: Emission, o: Oracles, s: PollSettings, now: int, random: nat -> real,
                          xml: Bytes, pdf: Bytes)
    requires e.externalId == Some("protocol-123") && e.pollAttempts == 0 && e.status == PENDING
    requires e.provider == "PLUGNOTAS" && o.name == "PLUGNOTAS" && s.storeArtifacts
    requires o.query("protocol-123") ==
      Queried(AUTHORIZED, Json.JObj([("idNota", Json.JStr("id-nota-999")), ("status", Json.JStr("AUTORIZADA"))]))
    requires o.xml(Json.JStr("id-nota-999")) == Downloaded(xml) && o.pdf(Json.JStr("id-nota-999")) == Downloaded(pdf)
    ensures var st := PollOne(e, 0, o, s, now, random);
            var op := StatusUpdate("protocol-123", "PLUGNOTAS", AUTHORIZED, o.query("protocol-123").response,
                                   None, Some(Base64(xml)), Some(Base64(pdf)), now);
            var after := Written(e, op);
      && st.calls == [Query("protocol-123"), DownloadXml(Json.JStr("id-nota-999")), DownloadPdf(Json.JStr("id-nota-999"))]
      && st.ops == [op]
      && ApplyAll([e], st.ops) == [after]
      && after.status == AUTHORIZED && after.xmlBase64 == Some(Base64(xml)) && after.pdfBase64 == Some(Base64(pdf))
      && after.nextPollAt.None?
  {
    Artifacts.IdNotaExample();
    var st := PollOne(e, 0, o, s, now, random);
    assert Matches(e, st.ops[0]);
    assert ApplyAll([e], st.ops) == ApplyAll(Apply([e], st.ops[0]), []);
  }
}
