/** The OSV client logic: query construction, batching into requests of at
    most 1000 queries, the retry loop, the per-batch request loop and the
    shape of the hydrated response. The HTTP transport, the JSON codec and the
    per-vulnerability fetch are parameters. */
module Osv {
  import opened Common
  import opened Models
  import Results

  const MaxQueriesPerRequest := 1000
  const MaxRetryAttempts := 4
  const StatusOK := 200

  datatype OsvPackage = OsvPackage(name: string, ecosystem: string)

  datatype Query = Query(pkg: OsvPackage, version: string, source: Results.SourceInfo, metadata: Results.Metadata)

  datatype MinimalVulnerability = MinimalVulnerability(id: string)

  /** One batch entry of the querybatch answer: the ids of the matching vulnerabilities. */
  datatype MinimalResponse = MinimalResponse(vulns: seq<MinimalVulnerability>)

  /** An HTTP answer: its status and the outcome of reading its body. */
  datatype HttpResponse = HttpResponse(statusCode: int, body: Result<string>)

  // ---------------------------------------------------------------------------
  // Queries

  /** MakePkgRequest: a package without ecosystem becomes a query by
      repository URL; any other one a query by name, ecosystem and version. */
  function MakePkgRequest(p: PackageDetails): (q: Query)
    ensures q.metadata.depGroups == p.depGroups
    ensures q.source == Results.SourceInfo("", "")
    ensures p.ecosystem == "" ==> q.pkg == OsvPackage("", "") && q.version == "" && q.metadata.repoURL == p.name
    ensures p.ecosystem != "" ==>
      q.pkg == OsvPackage(p.name, p.ecosystem) && q.version == p.version && q.metadata.repoURL == ""
  {
    if p.ecosystem == "" then
      Query(OsvPackage("", ""), "", Results.SourceInfo("", ""), Results.Metadata(p.name, p.depGroups))
    else
      Query(OsvPackage(p.name, p.ecosystem), p.version, Results.SourceInfo("", ""), Results.Metadata("", p.depGroups))
  }

  /** Two ecosystem packages give the same query exactly when they agree on
      name, ecosystem, version and groups. */
  lemma MakePkgRequestInjective(p: PackageDetails, p': PackageDetails)
    requires p.ecosystem != "" && p'.ecosystem != ""
    ensures MakePkgRequest(p) == MakePkgRequest(p') <==>
      p.name == p'.name && p.ecosystem == p'.ecosystem && p.version == p'.version && p.depGroups == p'.depGroups
  {
  }

  // ---------------------------------------------------------------------------
  // chunkBy

  /** The chunks chunkBy produces: full chunks while more than `size` items
      remain, then the remainder (possibly empty) as the last chunk. */
  function Chunks<T>(items: seq<T>, size: nat): seq<seq<T>>
    requires size > 0
    decreases |items|
  {
    if size < |items| then [items[..size]] + Chunks(items[size..], size) else [items]
  }

  function Concat<T>(ss: seq<seq<T>>): seq<T> {
    if ss == [] then [] else ss[0] + Concat(ss[1..])
  }

  /** Concatenating the chunks gives the input back. */
  lemma {:induction false} ChunksConcat<T>(items: seq<T>, size: nat)
    requires size > 0
    ensures Concat(Chunks(items, size)) == items
    decreases |items|
  {
    if size < |items| {
      ChunksConcat(items[size..], size);
      assert Chunks(items, size)[1..] == Chunks(items[size..], size);
      assert items == items[..size] + items[size..];
    }
  }

  /** Every chunk but the last is full; the last is not empty unless the input is. */
  lemma {:induction false} ChunksSizes<T>(items: seq<T>, size: nat)
    requires size > 0
    ensures var c := Chunks(items, size);
      && |c| >= 1
      && (forall i :: 0 <= i < |c| - 1 ==> |c[i]| == size)
      && (0 < |c[|c| - 1]| <= size || (items == [] && c == [[]]))
    decreases |items|
  {
    if size < |items| {
      ChunksSizes(items[size..], size);
      var c := Chunks(items, size);
      assert c[1..] == Chunks(items[size..], size);
      forall i | 0 < i < |c| - 1
        ensures |c[i]| == size
      {
        assert c[i] == c[1..][i - 1];
      }
    }
  }

  /** A single chunk when the input fits, otherwise ⌈|items| / size⌉ chunks. */
  lemma {:induction false} ChunksCount<T>(items: seq<T>, size: nat)
    requires size > 0
    ensures |items| <= size ==> |Chunks(items, size)| == 1
    ensures |items| > 0 ==> (|Chunks(items, size)| - 1) * size < |items| <= |Chunks(items, size)| * size
    decreases |items|
  {
    if size < |items| {
      ChunksCount(items[size..], size);
      var n := |Chunks(items[size..], size)|;
      assert |Chunks(items, size)| == n + 1;
      assert (n + 1) * size == n * size + size;
    }
  }

  /** 2500 queries at 1000 per request: batches of 1000, 1000 and 500. */
  lemma ChunksExample(items: seq<int>)
    requires |items| == 2500
    ensures var c := Chunks(items, MaxQueriesPerRequest);
      |c| == 3 && |c[0]| == 1000 && |c[1]| == 1000 && |c[2]| == 500
  {
    var r1 := items[1000..];
    var r2 := r1[1000..];
    assert Chunks(r2, 1000) == [r2];
    assert Chunks(r1, 1000) == [r1[..1000]] + [r2];
  }

  /** chunkBy: the loop that cuts full chunks off the front of `items`. */
  method ChunkBy<T>(items: seq<T>, chunkSize: nat) returns (chunks: seq<seq<T>>)
    requires chunkSize > 0
    ensures chunks == Chunks(items, chunkSize)
  {
    var rest := items;
    chunks := [];
    while chunkSize < |rest|
      invariant chunks + Chunks(rest, chunkSize) == Chunks(items, chunkSize)
      decreases |rest|
    {
      chunks, rest := chunks + [rest[..chunkSize]], rest[chunkSize..];
    }
    chunks := chunks + [rest];
  }

  // ---------------------------------------------------------------------------
  // checkResponseError and makeRetryRequest

  /** checkResponseError: no error for status 200; otherwise the body, or the
      failure to read it, becomes the error. */
  function CheckResponseError(resp: HttpResponse): (r: Option<string>)
    ensures r.None? <==> resp.statusCode == StatusOK
  {
    if resp.statusCode == StatusOK then None
    else match resp.body
      case Failure(e) => Some("ошибка при чтении ответа от сервера: " + e)
      case Success(text) => Some("ошибка ответа сервера: " + text)
  }

  /** The (response, error) pair one call of the action leaves behind. */
  function AttemptOutcome(o: Result<HttpResponse>): (Option<HttpResponse>, Option<string>) {
    match o
    case Failure(e) => (None, Some(e))
    case Success(resp) => (Some(resp), CheckResponseError(resp))
  }

  predicate Succeeded(o: Result<HttpResponse>) {
    o.Success? && o.value.statusCode == StatusOK
  }

  /** How many times the action is called when its i-th call yields `action(i)`:
      up to the first success, and at most MaxRetryAttempts. */
  function Attempts(action: nat -> Result<HttpResponse>): (n: nat)
    ensures 1 <= n <= MaxRetryAttempts
  {
    AttemptsFrom(action, 0)
  }

  function AttemptsFrom(action: nat -> Result<HttpResponse>, i: nat): (n: nat)
    requires i < MaxRetryAttempts
    ensures i < n <= MaxRetryAttempts
    decreases MaxRetryAttempts - i
  {
    if i == MaxRetryAttempts - 1 || Succeeded(action(i)) then i + 1 else AttemptsFrom(action, i + 1)
  }

  /** What makeRetryRequest returns: the last attempt's outcome. */
  function RetryOutcome(action: nat -> Result<HttpResponse>): (Option<HttpResponse>, Option<string>) {
    AttemptOutcome(action(Attempts(action) - 1))
  }

  lemma {:induction false} AttemptsFromStops(action: nat -> Result<HttpResponse>, i: nat)
    requires i < MaxRetryAttempts
    ensures forall k :: i <= k < AttemptsFrom(action, i) - 1 ==> !Succeeded(action(k))
    ensures AttemptsFrom(action, i) < MaxRetryAttempts ==> Succeeded(action(AttemptsFrom(action, i) - 1))
    decreases MaxRetryAttempts - i
  {
    if i < MaxRetryAttempts - 1 && !Succeeded(action(i)) {
      AttemptsFromStops(action, i + 1);
    }
  }

  /** The retry stops at the first successful attempt, and only then. */
  lemma AttemptsStop(action: nat -> Result<HttpResponse>)
    ensures forall k :: 0 <= k < Attempts(action) - 1 ==> !Succeeded(action(k))
    ensures Attempts(action) < MaxRetryAttempts ==> Succeeded(action(Attempts(action) - 1))
  {
    AttemptsFromStops(action, 0);
  }

  /** The retry ends without error exactly when one of the four attempts succeeds. */
  lemma RetrySucceedsIff(action: nat -> Result<HttpResponse>)
    ensures RetryOutcome(action).1.None? <==> exists k :: 0 <= k < MaxRetryAttempts && Succeeded(action(k))
  {
    AttemptsStop(action);
    var n := Attempts(action);
    if exists k :: 0 <= k < MaxRetryAttempts && Succeeded(action(k)) {
      var k :| 0 <= k < MaxRetryAttempts && Succeeded(action(k));
      assert k >= n - 1;
      if n == MaxRetryAttempts && k > n - 1 {
        assert false;
      }
    }
    if RetryOutcome(action).1.None? {
      assert Succeeded(action(n - 1));
    }
  }

  /** makeRetryRequest: call the action until a call yields status 200, at most
      four times, sleeping i² seconds (plus jitter) before call i. `action(i)`
      is the outcome of the i-th call; `delays` lists the base sleeps. */
  method MakeRetryRequest(action: nat -> Result<HttpResponse>)
    returns (resp: Option<HttpResponse>, err: Option<string>, delays: seq<nat>)
    ensures |delays| == Attempts(action)
    ensures forall i :: 0 <= i < |delays| ==> delays[i] == i * i
    ensures (resp, err) == RetryOutcome(action)
  {
    resp, err := None, None;
    delays := [];
    var i := 0;
    AttemptsStop(action);
    while i < MaxRetryAttempts
      invariant 0 <= i <= MaxRetryAttempts
      invariant i <= Attempts(action)
      invariant forall k :: 0 <= k < i ==> !Succeeded(action(k))
      invariant |delays| == i
      invariant forall k :: 0 <= k < i ==> delays[k] == k * k
      invariant i > 0 ==> (resp, err) == AttemptOutcome(action(i - 1))
      invariant i == MaxRetryAttempts ==> Attempts(action) == MaxRetryAttempts
    {
      delays := delays + [i * i];
      var outcome := AttemptOutcome(action(i));
      resp, err := outcome.0, outcome.1;
      if err.None? {
        assert Attempts(action) == i + 1;
        return;
      }
      i := i + 1;
    }
  }

  // ---------------------------------------------------------------------------
  // MakeRequest

  /** The outcome for one chunk: the retried POST, then the decoding of its body. */
  function ChunkOutcome(
    chunk: seq<Query>,
    transport: (seq<Query>, nat) -> Result<HttpResponse>,
    decode: string -> Result<seq<MinimalResponse>>): Result<seq<MinimalResponse>>
  {
    var (resp, err) := RetryOutcome((i: nat) => transport(chunk, i));
    if err.Some? then Failure(err.value)
    else if resp.None? then Failure("no response")
    else match resp.value.body
      case Failure(e) => Failure(e)
      case Success(text) => decode(text)
  }

  /** The results of the chunks in order, or the first chunk's failure. */
  function Collect(
    chunks: seq<seq<Query>>,
    transport: (seq<Query>, nat) -> Result<HttpResponse>,
    decode: string -> Result<seq<MinimalResponse>>): Result<seq<MinimalResponse>>
  {
    if chunks == [] then Success([])
    else
      match Collect(chunks[..|chunks| - 1], transport, decode)
      case Failure(e) => Failure(e)
      case Success(prev) =>
        match ChunkOutcome(chunks[|chunks| - 1], transport, decode)
        case Failure(e) => Failure(e)
        case Success(results) => Success(prev + results)
  }

  lemma {:induction false} CollectFailureSticks(
    chunks: seq<seq<Query>>, i: nat,
    transport: (seq<Query>, nat) -> Result<HttpResponse>,
    decode: string -> Result<seq<MinimalResponse>>)
    requires i <= |chunks| && Collect(chunks[..i], transport, decode).Failure?
    ensures Collect(chunks, transport, decode) == Collect(chunks[..i], transport, decode)
    decreases |chunks|
  {
    if i < |chunks| {
      var init := chunks[..|chunks| - 1];
      assert init[..i] == chunks[..i];
      CollectFailureSticks(init, i, transport, decode);
    } else {
      assert chunks[..i] == chunks;
    }
  }

  /** The request succeeds exactly when every chunk does. */
  lemma {:induction false} CollectSucceedsIff(
    chunks: seq<seq<Query>>,
    transport: (seq<Query>, nat) -> Result<HttpResponse>,
    decode: string -> Result<seq<MinimalResponse>>)
    ensures Collect(chunks, transport, decode).Success? <==>
      forall i :: 0 <= i < |chunks| ==> ChunkOutcome(chunks[i], transport, decode).Success?
    decreases |chunks|
  {
    if chunks != [] {
      var init := chunks[..|chunks| - 1];
      CollectSucceedsIff(init, transport, decode);
      assert forall i :: 0 <= i < |init| ==> init[i] == chunks[i];
    }
  }

  /** The chunks' results, in chunk order. */
  function ChunkResults(
    chunks: seq<seq<Query>>,
    transport: (seq<Query>, nat) -> Result<HttpResponse>,
    decode: string -> Result<seq<MinimalResponse>>): (r: seq<seq<MinimalResponse>>)
    requires forall i :: 0 <= i < |chunks| ==> ChunkOutcome(chunks[i], transport, decode).Success?
    ensures |r| == |chunks|
    ensures forall i :: 0 <= i < |chunks| ==> r[i] == ChunkOutcome(chunks[i], transport, decode).value
    decreases |chunks|
  {
    if chunks == [] then []
    else ChunkResults(chunks[..|chunks| - 1], transport, decode) + [ChunkOutcome(chunks[|chunks| - 1], transport, decode).value]
  }

  /** A successful request's results are the chunks' results concatenated in chunk order. */
  lemma {:induction false} CollectValue(
    chunks: seq<seq<Query>>,
    transport: (seq<Query>, nat) -> Result<HttpResponse>,
    decode: string -> Result<seq<MinimalResponse>>)
    requires forall i :: 0 <= i < |chunks| ==> ChunkOutcome(chunks[i], transport, decode).Success?
    ensures Collect(chunks, transport, decode) == Success(Concat(ChunkResults(chunks, transport, decode)))
    decreases |chunks|
  {
    if chunks != [] {
      var init := chunks[..|chunks| - 1];
      assert forall i :: 0 <= i < |init| ==> init[i] == chunks[i];
      CollectValue(init, transport, decode);
      ConcatSnoc(ChunkResults(init, transport, decode), ChunkOutcome(chunks[|chunks| - 1], transport, decode).value);
    }
  }

  lemma {:induction false} ConcatSnoc<T>(ss: seq<seq<T>>, s: seq<T>)
    ensures Concat(ss + [s]) == Concat(ss) + s
  {
    if ss != [] {
      assert (ss + [s])[1..] == ss[1..] + [s];
      ConcatSnoc(ss[1..], s);
    }
  }

  /** MakeRequest: one retried request per chunk of at most 1000 queries;
      the batch results are appended in chunk order, and any failure aborts. */
  method MakeRequest(
    queries: seq<Query>,
    transport: (seq<Query>, nat) -> Result<HttpResponse>,
    decode: string -> Result<seq<MinimalResponse>>) returns (r: Result<seq<MinimalResponse>>)
    ensures r == Collect(Chunks(queries, MaxQueriesPerRequest), transport, decode)
  {
    var chunks := ChunkBy(queries, MaxQueriesPerRequest);
    var total: seq<MinimalResponse> := [];
    for i := 0 to |chunks|
      invariant Collect(chunks[..i], transport, decode) == Success(total)
    {
      var outcome := SendChunk(chunks[i], transport, decode);
      assert chunks[..i + 1][..i] == chunks[..i];
      if outcome.Failure? {
        CollectFailureSticks(chunks, i + 1, transport, decode);
        return Failure(outcome.error);
      }
      total := total + outcome.value;
    }
    assert chunks[..|chunks|] == chunks;
    r := Success(total);
  }

  /** One turn of MakeRequest's loop: the retried request and the decoding. */
  method SendChunk(
    chunk: seq<Query>,
    transport: (seq<Query>, nat) -> Result<HttpResponse>,
    decode: string -> Result<seq<MinimalResponse>>) returns (r: Result<seq<MinimalResponse>>)
    ensures r == ChunkOutcome(chunk, transport, decode)
  {
    var resp, err, delays := MakeRetryRequest((i: nat) => transport(chunk, i));
    if err.Some? {
      return Failure(err.value);
    }
    if resp.None? {
      return Failure("no response");
    }
    match resp.value.body
    case Failure(e) => r := Failure(e);
    case Success(text) => r := decode(text);
  }

  // ---------------------------------------------------------------------------
  // Hydration

  const EmptyVulnerability := Results.Vulnerability("", [], [])

  /** The vulnerabilities of one batch, fetched by id into a preallocated slice. */
  method HydrateBatch(batch: MinimalResponse, get: string -> Result<Results.Vulnerability>)
    returns (r: Result<seq<Results.Vulnerability>>)
    ensures r.Success? <==> forall j :: 0 <= j < |batch.vulns| ==> get(batch.vulns[j].id).Success?
    ensures r.Success? ==> |r.value| == |batch.vulns|
    ensures r.Success? ==> forall j :: 0 <= j < |batch.vulns| ==> r.value[j] == get(batch.vulns[j].id).value
    ensures r.Failure? ==> exists j :: 0 <= j < |batch.vulns| && get(batch.vulns[j].id) == Failure(r.error)
  {
    var vulns := seq(|batch.vulns|, _ => EmptyVulnerability);
    for j := 0 to |batch.vulns|
      invariant |vulns| == |batch.vulns|
      invariant forall k :: 0 <= k < j ==> get(batch.vulns[k].id).Success? && vulns[k] == get(batch.vulns[k].id).value
    {
      var v := get(batch.vulns[j].id);
      if v.Failure? {
        return Failure(v.error);
      }
      vulns := vulns[j := v.value];
    }
    r := Success(vulns);
  }

  /** Every id of the querybatch response can be fetched. */
  predicate AllFetched(resp: seq<MinimalResponse>, get: string -> Result<Results.Vulnerability>) {
    forall i, j :: 0 <= i < |resp| && 0 <= j < |resp[i].vulns| ==> get(resp[i].vulns[j].id).Success?
  }

  /** `hydrated` has the response's batch structure, each id replaced by the
      record fetched for it. */
  predicate FetchedInPlace(resp: seq<MinimalResponse>, get: string -> Result<Results.Vulnerability>, hydrated: seq<seq<Results.Vulnerability>>) {
    && |hydrated| == |resp|
    && (forall i :: 0 <= i < |resp| ==> |hydrated[i]| == |resp[i].vulns|)
    && (forall i, j :: 0 <= i < |resp| && 0 <= j < |resp[i].vulns| ==>
          get(resp[i].vulns[j].id) == Success(hydrated[i][j]))
  }

  /** Fetching some id of the response fails with `err`. */
  ghost predicate FetchFailed(resp: seq<MinimalResponse>, get: string -> Result<Results.Vulnerability>, err: string) {
    exists i, j :: 0 <= i < |resp| && 0 <= j < |resp[i].vulns| && get(resp[i].vulns[j].id) == Failure(err)
  }

  /** HydrateWithClient, without its concurrency: the answer keeps the batch
      structure of the querybatch response, each id replaced by its record;
      a failed fetch makes the whole hydration fail with that fetch's error. */
  method Hydrate(resp: seq<MinimalResponse>, get: string -> Result<Results.Vulnerability>)
    returns (r: Result<seq<seq<Results.Vulnerability>>>)
    ensures r.Success? <==> AllFetched(resp, get)
    ensures r.Success? ==> FetchedInPlace(resp, get, r.value)
    ensures r.Failure? ==> FetchFailed(resp, get, r.error)
  {
    var hydrated := seq(|resp|, i requires 0 <= i < |resp| => seq(|resp[i].vulns|, _ => EmptyVulnerability));
    for i := 0 to |resp|
      invariant |hydrated| == |resp|
      invariant forall k :: 0 <= k < |resp| ==> |hydrated[k]| == |resp[k].vulns|
      invariant forall k, j :: 0 <= k < i && 0 <= j < |resp[k].vulns| ==>
        get(resp[k].vulns[j].id).Success? && hydrated[k][j] == get(resp[k].vulns[j].id).value
    {
      var batch := HydrateBatch(resp[i], get);
      if batch.Failure? {
        return Failure(batch.error);
      }
      hydrated := hydrated[i := batch.value];
    }
    r := Success(hydrated);
  }
}
