/** The service layer around the translator (sevdo_backend/backend_compiler.py):
    token validation, the small time-to-live cache and the batch endpoints. */
module BackendService {
  import opened Wrappers
  import opened Text
  import opened Seqs
  import opened RouteTexts
  import opened BackendCompiler
  import opened BackendRoundTrip

  /** The `detail` of a rejected request: a code and, for unknown tokens,
      the offending tokens. */
  datatype Rejection = Rejection(status: int, code: string, unknown: seq<string>)

  // ----- _validate_tokens -----

  predicate Unknown(t: string) {
    !IsKnown(t)
  }

  /** `_validate_tokens(tokens, list(mapping.keys()))`: passes the tokens on,
      or rejects them with 400 listing the unknown ones in input order. */
  function ValidateTokens(tokens: seq<string>): (r: Result<seq<string>, Rejection>)
    ensures r.Ok? <==> forall i :: 0 <= i < |tokens| ==> IsKnown(tokens[i])
    ensures r.Ok? ==> r.value == tokens
    ensures r.Err? ==> r.error.status == 400 && r.error.code == "unknown_tokens"
    ensures r.Err? ==> |r.error.unknown| > 0
                       && (forall t :: t in r.error.unknown <==> t in tokens && !IsKnown(t))
    ensures r.Err? ==> r.error.unknown == Filter(Unknown, tokens)
  {
    var unknown := Filter(Unknown, tokens);
    if |unknown| > 0 then
      assert unknown[0] in tokens && !IsKnown(unknown[0]);
      Err(Rejection(400, "unknown_tokens", unknown))
    else
      assert forall i :: 0 <= i < |tokens| ==> IsKnown(tokens[i]) by {
        forall i | 0 <= i < |tokens|
          ensures IsKnown(tokens[i])
        {
          assert tokens[i] in tokens;
        }
      }
      Ok(tokens)
  }

  /** The unknown tokens of a rejection and the known tokens split the input:
      every token lands in exactly one of the two lists, as often as it occurs. */
  lemma ValidatePartitions(tokens: seq<string>)
    requires ValidateTokens(tokens).Err?
    ensures multiset(ValidateTokens(tokens).error.unknown) + multiset(Filter(IsKnown, tokens))
         == multiset(tokens)
  {
    FilterComplement(IsKnown, Unknown, tokens);
  }

  /** The unknown tokens are listed in input order: rejecting `a + b` lists
      those of `a`, then those of `b`. */
  lemma {:induction false} UnknownInInputOrder(a: seq<string>, b: seq<string>)
    requires ValidateTokens(a).Err? && ValidateTokens(b).Err?
    ensures ValidateTokens(a + b).Err?
    ensures ValidateTokens(a + b).error.unknown == ValidateTokens(a).error.unknown + ValidateTokens(b).error.unknown
  {
    FilterAppend(Unknown, a, b);
  }

  /** Validated tokens compile without losing any: their code reads back as
      the same list when it has no repeats. */
  lemma ValidatedRoundTrip(m: Texts, tokens: seq<string>, includeImports: bool)
    requires m.WellFormed()
    requires ValidateTokens(tokens).Ok? && NoDup(tokens)
    ensures CodeToTokens(m, TokensToCode(m, tokens, includeImports)) == tokens
  {
    RoundTripIdentity(m, tokens, includeImports);
  }

  // ----- SimpleTTLCache -----

  /** `SimpleTTLCache`: the dictionary `_store` as its keys (digests, as
      strings) in insertion order and the `(value, expiry)` entry of each
      key. Times are whole seconds. */
  datatype Cache<V> = Cache(maxsize: int, ttl: int, order: seq<string>, entries: map<string, (V, int)>)

  /** At least one slot, every key once in the order, never more entries than slots. */
  predicate Valid<V>(c: Cache<V>) {
    && c.maxsize >= 1
    && |c.order| <= c.maxsize
    && NoDup(c.order)
    && c.entries.Keys == set k | k in c.order
  }

  /** `SimpleTTLCache(maxsize, ttl)` starts empty. */
  function NewCache<V>(maxsize: int, ttl: int): (c: Cache<V>)
    requires maxsize >= 1
    ensures Valid(c) && c.entries == map[]
  {
    Cache(maxsize, ttl, [], map[])
  }

  /** `self._store.pop(key, None)` */
  function Drop<V>(c: Cache<V>, key: string): (r: Cache<V>)
    requires Valid(c)
    ensures Valid(r) && r.maxsize == c.maxsize && r.ttl == c.ttl
    ensures r.entries == c.entries - {key}
    ensures forall k :: k in r.order <==> k in c.order && k != key
  {
    var order := Filter(k => k != key, c.order);
    FilterNoDup(k => k != key, c.order);
    c.(order := order, entries := c.entries - {key})
  }

  /** `get(key)` at time `now`: the new cache and the answer. An entry whose
      expiry is before `now` is dropped and not returned; nothing else changes. */
  function Get<V>(c: Cache<V>, key: string, now: int): (r: (Cache<V>, Option<V>))
    requires Valid(c)
    ensures Valid(r.0) && r.0.maxsize == c.maxsize && r.0.ttl == c.ttl
    ensures r.1.Some? <==> key in c.entries && c.entries[key].1 >= now
    ensures r.1.Some? ==> r.1.value == c.entries[key].0
    ensures key in c.entries && c.entries[key].1 < now ==> r.0.entries == c.entries - {key}
    ensures !(key in c.entries && c.entries[key].1 < now) ==> r.0 == c
  {
    if key !in c.entries then (c, None)
    else
      var (v, expiry) := c.entries[key];
      if expiry < now then (Drop(c, key), None)
      else (c, Some(v))
  }

  /** `set(key, value)` at time `now`: when full, the oldest entry goes first
      (even when `key` is already present), then the entry is written with
      expiry `now + ttl`; a new key goes last in the order. */
  function Set<V>(c: Cache<V>, key: string, v: V, now: int): (r: Cache<V>)
    requires Valid(c)
    ensures Valid(r) && r.maxsize == c.maxsize && r.ttl == c.ttl
    ensures key in r.entries && r.entries[key] == (v, now + c.ttl)
    ensures |c.order| < c.maxsize ==> r.entries == c.entries[key := (v, now + c.ttl)]
    ensures |c.order| >= c.maxsize
            ==> r.entries == (c.entries - {c.order[0]})[key := (v, now + c.ttl)]
    ensures var kept := if |c.order| >= c.maxsize then c.order[1..] else c.order;
            r.order == if key in kept then kept else kept + [key]
  {
    var kept := if |c.order| >= c.maxsize then Evict(c) else c;
    var order := if key in kept.entries then kept.order else kept.order + [key];
    assert NoDup(order);
    kept.(order := order, entries := kept.entries[key := (v, now + c.ttl)])
  }

  /** `self._store.pop(next(iter(self._store)))`: the oldest entry goes. */
  function Evict<V>(c: Cache<V>): (r: Cache<V>)
    requires Valid(c) && |c.order| > 0
    ensures Valid(r) && r.maxsize == c.maxsize && r.ttl == c.ttl
    ensures r.order == c.order[1..]
    ensures r.entries == c.entries - {c.order[0]}
  {
    assert c.order[0] !in c.order[1..];
    c.(order := c.order[1..], entries := c.entries - {c.order[0]})
  }

  /** The store never outgrows `maxsize`, whatever sequence of calls. */
  lemma SetBounded<V>(c: Cache<V>, key: string, v: V, now: int)
    requires Valid(c)
    ensures |Set(c, key, v, now).entries| <= c.maxsize
  {
    var r := Set(c, key, v, now);
    assert r.entries.Keys == set k | k in r.order;
    NoDupCardinality(r.order);
  }

  /** A value written is read back until its expiry, `ttl` seconds later,
      and the cache is not changed by reading it. */
  lemma SetThenGet<V>(c: Cache<V>, key: string, v: V, now: int, later: int)
    requires Valid(c) && now <= later <= now + c.ttl
    ensures Get(Set(c, key, v, now), key, later).1 == Some(v)
    ensures Get(Set(c, key, v, now), key, later).0 == Set(c, key, v, now)
  {
  }

  /** After the expiry it is gone, and the entry is dropped. */
  lemma SetThenGetExpired<V>(c: Cache<V>, key: string, v: V, now: int, later: int)
    requires Valid(c) && later > now + c.ttl
    ensures Get(Set(c, key, v, now), key, later).1 == None
    ensures key !in Get(Set(c, key, v, now), key, later).0.entries
  {
  }

  // ----- compile_batch_api / decompile_batch_api -----

  datatype CompileJob = CompileJob(id: Option<string>, inputPath: string, outputPath: string,
                                   includeImports: bool, useCache: bool)

  datatype DecompileJob = DecompileJob(id: Option<string>, codePath: string, useCache: bool)

  /** What a successful compile job reports: `written_to`, `tokens`, `bytes`. */
  datatype Compiled = Compiled(writtenTo: string, tokens: seq<string>, bytes: nat)

  /** One entry of `results`: the payload of a job that succeeded, or its
      status and error detail. */
  datatype JobResult<R> = Succeeded(id: string, result: R) | Failed(id: string, status: int, error: Rejection)

  datatype BatchReport<R> = BatchReport(results: seq<JobResult<R>>, ok: nat, failed: int)

  /** `job.id or str(idx)`: a missing or empty id becomes the job's index. */
  function JobId(id: Option<string>, idx: nat): string {
    match id
    case Some(s) => if s != "" then s else NatToString(idx)
    case None => NatToString(idx)
  }

  /** The rejection of a job whose output directory is missing. */
  const OutputDirMissing := Rejection(404, "output_dir_not_found", [])

  /** The rejection of code with no recognisable endpoint. */
  const NoEndpoints := Rejection(400, "invalid_code_format", [])

  /** `process` of `compile_batch_api`. Reading the input file is the
      parameter `read` (its size limit and failures included), the existence
      of the output directory is `parentExists`; writing is left to the caller. */
  function CompileOne(m: Texts, read: string -> Result<string, Rejection>, parentExists: string -> bool,
                      idx: nat, job: CompileJob): JobResult<Compiled>
  {
    var id := JobId(job.id, idx);
    match read(job.inputPath)
    case Err(e) => Failed(id, e.status, e)
    case Ok(content) =>
      var tokens := Words(content);
      match ValidateTokens(tokens)
      case Err(e) => Failed(id, e.status, e)
      case Ok(_) =>
        if !parentExists(job.outputPath) then Failed(id, 404, OutputDirMissing)
        else Succeeded(id, Compiled(job.outputPath, tokens, |TokensToCode(m, tokens, job.includeImports)|))
  }

  /** `process` of `decompile_batch_api`: the tokens read back from the code,
      or 400 when there are none. */
  function DecompileOne(m: Texts, read: string -> Result<string, Rejection>,
                        idx: nat, job: DecompileJob): JobResult<seq<string>>
  {
    var id := JobId(job.id, idx);
    match read(job.codePath)
    case Err(e) => Failed(id, e.status, e)
    case Ok(code) =>
      var tokens := CodeToTokens(m, code);
      if |tokens| == 0 then Failed(id, 400, NoEndpoints) else Succeeded(id, tokens)
  }

  function CountSucceeded<R>(rs: seq<JobResult<R>>): (n: nat)
    ensures n <= |rs|
  {
    if |rs| == 0 then 0 else (if rs[0].Succeeded? then 1 else 0) + CountSucceeded(rs[1..])
  }

  lemma CountSucceededAppend<R>(rs: seq<JobResult<R>>, x: JobResult<R>)
    ensures CountSucceeded(rs + [x]) == CountSucceeded(rs) + (if x.Succeeded? then 1 else 0)
  {
    if |rs| > 0 {
      assert (rs + [x])[1..] == rs[1..] + [x];
      CountSucceededAppend(rs[1..], x);
    }
  }

  /** The collecting loop of both batch endpoints, run in job order (the
      thread pool only changes when each job runs): `results[i]` is the
      outcome of job `i`, `ok` counts the successes and `failed` the rest. */
  method RunBatch<J, R>(jobs: seq<J>, process: (nat, J) -> JobResult<R>) returns (report: BatchReport<R>)
    ensures |report.results| == |jobs|
    ensures forall i :: 0 <= i < |jobs| ==> report.results[i] == process(i, jobs[i])
    ensures report.ok == CountSucceeded(report.results)
    ensures report.ok + report.failed == |jobs| && report.failed >= 0
  {
    var results: seq<JobResult<R>> := [];
    var ok: nat := 0;
    var i := 0;
    while i < |jobs|
      invariant i <= |jobs| && |results| == i
      invariant forall k :: 0 <= k < i ==> results[k] == process(k, jobs[k])
      invariant ok == CountSucceeded(results)
    {
      var payload := process(i, jobs[i]);
      CountSucceededAppend(results, payload);
      results := results + [payload];
      if payload.Succeeded? {
        ok := ok + 1;
      }
      i := i + 1;
    }
    report := BatchReport(results, ok, |results| - ok);
  }

  /** `compile_batch_api`: one entry per job, in job order, under the job's id;
      a job succeeds exactly when its file is read, all its tokens are known
      and its output directory exists. */
  method CompileBatch(m: Texts, read: string -> Result<string, Rejection>, parentExists: string -> bool,
                      jobs: seq<CompileJob>) returns (report: BatchReport<Compiled>)
    ensures |report.results| == |jobs| && report.ok + report.failed == |jobs|
    ensures forall i :: 0 <= i < |jobs| ==> report.results[i].id == JobId(jobs[i].id, i)
    ensures forall i :: 0 <= i < |jobs| ==>
              (report.results[i].Succeeded? <==>
                 && read(jobs[i].inputPath).Ok?
                 && (forall t :: t in Words(read(jobs[i].inputPath).value) ==> IsKnown(t))
                 && parentExists(jobs[i].outputPath))
    ensures forall i :: 0 <= i < |jobs| && report.results[i].Succeeded? ==>
              && report.results[i].result.writtenTo == jobs[i].outputPath
              && report.results[i].result.tokens == Words(read(jobs[i].inputPath).value)
  {
    report := RunBatch(jobs, (i, job) => CompileOne(m, read, parentExists, i, job));
  }

  /** `decompile_batch_api`: one entry per job under the job's id; a job
      succeeds exactly when its file is read and some endpoint is recognised,
      and then reports the tokens `code_to_tokens` reads back. */
  method DecompileBatch(m: Texts, read: string -> Result<string, Rejection>,
                        jobs: seq<DecompileJob>) returns (report: BatchReport<seq<string>>)
    ensures |report.results| == |jobs| && report.ok + report.failed == |jobs|
    ensures forall i :: 0 <= i < |jobs| ==> report.results[i].id == JobId(jobs[i].id, i)
    ensures forall i :: 0 <= i < |jobs| ==>
              (report.results[i].Succeeded? <==>
                 read(jobs[i].codePath).Ok? && |CodeToTokens(m, read(jobs[i].codePath).value)| > 0)
    ensures forall i :: 0 <= i < |jobs| && report.results[i].Succeeded? ==>
              report.results[i].result == CodeToTokens(m, read(jobs[i].codePath).value)
  {
    report := RunBatch(jobs, (i, job) => DecompileOne(m, read, i, job));
  }

  /** The default id of a job is its index, so jobs without ids get distinct ones. */
  lemma DefaultIdsDistinct(i: nat, j: nat)
    requires i != j
    ensures JobId(None, i) != JobId(None, j)
  {
    if JobId(None, i) == JobId(None, j) {
      NatToStringInjective(i, j);
    }
  }
}
