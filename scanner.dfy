/** The scan driver (src/osvscanner/osv_scanner.go): severity classes for
    CVSS scores, per-file package extraction, the filter that drops packages
    OSV cannot be asked about, the batch query, and the control flow of
    `DoScan`. Scores are real numbers; the extractor's and the OSV client's
    external dependencies are parameters. */
module Scanner {
  import opened Common
  import opened Models
  import Results
  import Extractor
  import Requirements
  import NpmLock
  import Osv

  // ---------------------------------------------------------------------------
  // Severity

  /** The least integer not below `x`. */
  function Ceil(x: real): (c: int)
    ensures x <= c as real < x + 1.0
  {
    if x.Floor as real == x then x.Floor else x.Floor + 1
  }

  /** roundup: `x` rounded up to one decimal place. */
  function Roundup(x: real): (r: real)
    ensures x <= r < x + 0.1
    ensures r == Ceil(10.0 * x) as real / 10.0
  {
    Ceil(10.0 * x) as real / 10.0
  }

  /** ParseSeverityCategory over the rounded score. */
  function ParseSeverityCategory(score: real): (r: string)
    ensures r == "Low" || r == "Moderate" || r == "High"
  {
    var value := Roundup(score);
    if 0.0 <= value <= 3.9 then "Low"
    else if 4.0 <= value <= 6.9 then "Moderate"
    else if 7.0 <= value <= 10.0 then "High"
    else "High"
  }

  /** The classes as bands of the raw score: rounding up moves every score
      in (3.9, 4.0) to Moderate and every score in (6.9, 7.0) to High, and a
      score just below zero still rounds to 0.0. */
  lemma SeverityBands(score: real)
    ensures ParseSeverityCategory(score) == "Low" <==> -0.1 < score <= 3.9
    ensures ParseSeverityCategory(score) == "Moderate" <==> 3.9 < score <= 6.9
    ensures ParseSeverityCategory(score) == "High" <==> score <= -0.1 || 6.9 < score
  {
    var k := Ceil(10.0 * score);
    assert Roundup(score) == k as real / 10.0;
    assert 0.0 <= Roundup(score) <==> 0 <= k;
    assert Roundup(score) <= 3.9 <==> k <= 39;
    assert 4.0 <= Roundup(score) <==> 40 <= k;
    assert Roundup(score) <= 6.9 <==> k <= 69;
    assert 7.0 <= Roundup(score) <==> 70 <= k;
    assert Roundup(score) <= 10.0 <==> k <= 100;
  }

  lemma SeverityExamples()
    ensures ParseSeverityCategory(3.9) == "Low"
    ensures ParseSeverityCategory(3.91) == "Moderate"
    ensures ParseSeverityCategory(4.0) == "Moderate"
    ensures ParseSeverityCategory(10.0) == "High"
    ensures ParseSeverityCategory(11.0) == "High"
  {
    SeverityBands(3.9);
    SeverityBands(3.91);
    SeverityBands(4.0);
    SeverityBands(10.0);
    SeverityBands(11.0);
  }

  function SeverityRank(category: string): nat {
    if category == "Low" then 0 else if category == "Moderate" then 1 else 2
  }

  /** On valid CVSS scores the class never drops as the score grows. */
  lemma SeverityMonotone(x: real, y: real)
    requires 0.0 <= x <= y <= 10.0
    ensures SeverityRank(ParseSeverityCategory(x)) <= SeverityRank(ParseSeverityCategory(y))
  {
    SeverityBands(x);
    SeverityBands(y);
  }

  // ---------------------------------------------------------------------------
  // Packages to scan

  datatype ScannedPackage = ScannedPackage(
    name: string,
    ecosystem: string,
    version: string,
    source: Results.SourceInfo,
    depGroups: seq<string>)

  /** The scanned form of a parsed package found in the file at `path`. */
  function Scanned(p: PackageDetails, path: string): ScannedPackage {
    ScannedPackage(p.name, p.ecosystem, p.version, Results.SourceInfo(path, "lockfile"), p.depGroups)
  }

  /** The scanned form of every parsed package of the file at `path`, in order. */
  function ScannedAll(parsed: seq<PackageDetails>, path: string): seq<ScannedPackage> {
    seq(|parsed|, i requires 0 <= i < |parsed| => Scanned(parsed[i], path))
  }

  /** The loop of scanLockfile that fills the preallocated `packages` slice. */
  method ToScanned(parsed: seq<PackageDetails>, path: string) returns (packages: seq<ScannedPackage>)
    ensures |packages| == |parsed|
    ensures forall i :: 0 <= i < |parsed| ==> packages[i] == Scanned(parsed[i], path)
    ensures packages == ScannedAll(parsed, path)
  {
    var a := new ScannedPackage[|parsed|];
    for i := 0 to |parsed|
      invariant forall k :: 0 <= k < i ==> a[k] == Scanned(parsed[k], path)
    {
      a[i] := Scanned(parsed[i], path);
    }
    packages := a[..];
  }

  /** scanLockfile: extract the file's packages; any extraction error, a
      parse error included, is returned instead of the packages. On success
      the packages are the scanned forms of what the extractor returned
      (`parsed`), in its order. */
  method ScanLockfile(
    file: DepFile,
    decode: string -> Option<NpmLock.NpmLockfile>,
    parseUrl: string -> Option<NpmLock.Url>) returns (r: Result<seq<ScannedPackage>>, ghost parsed: seq<PackageDetails>)
    ensures r.Success? <==> Extractor.Extracts(file, decode, parseUrl)
    ensures r.Success? ==> r.value == ScannedAll(parsed, file.path) && Extractor.Extracted(file, decode, parseUrl, parsed)
    ensures Extractor.FindParser(file).0.None? ==> r == Failure(Extractor.NoParserError(file.path))
    ensures file.name == "package-lock.json" && decode(file.content).None? ==>
      r == Failure(Extractor.WrapParseError("could not extract from " + file.path))
    ensures r.Failure? ==> r.error == Extractor.ExtractError(file, decode)
    ensures file.name == "requirements.txt" ==>
      r.Success? && |r.value| == |Requirements.ParsedRequirements(file)|
    ensures r.Success? ==> forall i :: 0 <= i < |r.value| ==> r.value[i].source == Results.SourceInfo(file.path, "lockfile")
  {
    var lockfile, err := Extractor.ExtractDeps(file, decode, parseUrl);
    parsed := lockfile.packages;
    if err.Some? {
      return Failure(err.value), parsed;
    }
    var packages := ToScanned(lockfile.packages, file.path);
    r := Success(packages);
  }

  predicate Scannable(p: ScannedPackage) {
    p.ecosystem != "" && p.name != "" && p.version != ""
  }

  /** filterUnscannablePackages: the append loop over the packages. */
  method FilterUnscannablePackages(packages: seq<ScannedPackage>) returns (out: seq<ScannedPackage>)
    ensures out == Filter(packages, Scannable)
  {
    out := [];
    for i := 0 to |packages|
      invariant out == Filter(packages[..i], Scannable)
    {
      assert packages[..i + 1][..i] == packages[..i];
      if Scannable(packages[i]) {
        out := out + [packages[i]];
      }
    }
    assert packages[..|packages|] == packages;
  }

  /** The query makeRequest builds for a package: by name, ecosystem and
      version, without the package's groups. */
  function QueryFor(p: ScannedPackage): Osv.Query {
    Osv.MakePkgRequest(PackageDetails(p.name, p.version, "", p.ecosystem, "", []))
  }

  /** The query-building loop of makeRequest: one query per package, in
      order; a package without ecosystem, name or version is an error. */
  method BuildQueries(packages: seq<ScannedPackage>) returns (r: Result<seq<Osv.Query>>)
    ensures r.Success? <==> forall i :: 0 <= i < |packages| ==> Scannable(packages[i])
    ensures r.Failure? ==> r.error == IdentityError
    ensures r.Success? ==> |r.value| == |packages|
    ensures r.Success? ==> forall i :: 0 <= i < |packages| ==> r.value[i] == QueryFor(packages[i])
    ensures r.Success? ==> forall i :: 0 <= i < |packages| ==>
      && r.value[i].pkg == Osv.OsvPackage(packages[i].name, packages[i].ecosystem)
      && r.value[i].version == packages[i].version
      && r.value[i].metadata == Results.Metadata("", [])
  {
    var queries: seq<Osv.Query> := [];
    for i := 0 to |packages|
      invariant |queries| == i
      invariant forall k :: 0 <= k < i ==> Scannable(packages[k]) && queries[k] == QueryFor(packages[k])
    {
      if !Scannable(packages[i]) {
        return Failure(IdentityError);
      }
      queries := queries + [QueryFor(packages[i])];
    }
    r := Success(queries);
  }

  const IdentityError := "пакет " + "не содержит ecosystem/name/version идентификаторы"
  const ErrAPIFailed := "ошибка API запроса"

  /** Errors wrapped under ErrAPIFailed are told apart from the identity error. */
  lemma ApiErrorIsNotIdentityError(detail: string)
    ensures ErrAPIFailed + detail != IdentityError
  {
    assert (ErrAPIFailed + detail)[0] == ErrAPIFailed[0] == 'о';
    assert IdentityError[0] == "пакет "[0] == 'п';
  }

  /** One query per package, in order. */
  function Queries(packages: seq<ScannedPackage>): seq<Osv.Query> {
    seq(|packages|, i requires 0 <= i < |packages| => QueryFor(packages[i]))
  }

  const QueryFailed := ": ошибка запроса к osv.dev: "
  const HydrationFailed := ": ошибка упаковки OSV ответа: "

  /** The external services the scan talks to. */
  datatype Services = Services(
    decodeLockfile: string -> Option<NpmLock.NpmLockfile>,
    parseUrl: string -> Option<NpmLock.Url>,
    transport: (seq<Osv.Query>, nat) -> Result<Osv.HttpResponse>,
    decodeBatch: string -> Result<seq<Osv.MinimalResponse>>,
    get: string -> Result<Results.Vulnerability>)

  /** The querybatch answers for the packages' queries, sent in chunks. */
  function Batch(packages: seq<ScannedPackage>, services: Services): Result<seq<Osv.MinimalResponse>> {
    Osv.Collect(Osv.Chunks(Queries(packages), Osv.MaxQueriesPerRequest), services.transport, services.decodeBatch)
  }

  /** `r` is what makeRequest may answer for scannable packages: a failed
      batch request is wrapped as a query error; otherwise the answer has the
      batch's structure with every id's record in place, and fails, wrapped
      as a hydration error, exactly when fetching some id fails. */
  ghost predicate Answered(packages: seq<ScannedPackage>, services: Services, r: Result<seq<seq<Results.Vulnerability>>>) {
    var batch := Batch(packages, services);
    && (batch.Failure? ==> r == Failure(ErrAPIFailed + (QueryFailed + batch.error)))
    && (batch.Success? ==>
          && (r.Success? <==> Osv.AllFetched(batch.value, services.get))
          && (r.Success? ==> Osv.FetchedInPlace(batch.value, services.get, r.value))
          && (r.Failure? ==> exists e :: r.error == ErrAPIFailed + (HydrationFailed + e) && Osv.FetchFailed(batch.value, services.get, e)))
  }

  /** makeRequest: queries, the batched request, then hydration; client
      errors are wrapped under ErrAPIFailed. */
  method MakeRequest(packages: seq<ScannedPackage>, services: Services) returns (r: Result<seq<seq<Results.Vulnerability>>>)
    ensures (exists i :: 0 <= i < |packages| && !Scannable(packages[i])) ==> r == Failure(IdentityError)
    ensures (forall i :: 0 <= i < |packages| ==> Scannable(packages[i])) ==> r != Failure(IdentityError)
    ensures r.Success? ==> forall i :: 0 <= i < |packages| ==> Scannable(packages[i])
    ensures r.Success? ==> Batch(packages, services).Success? && |r.value| == |Batch(packages, services).value|
    ensures (forall i :: 0 <= i < |packages| ==> Scannable(packages[i])) ==> Answered(packages, services, r)
  {
    var queries := BuildQueries(packages);
    if queries.Failure? {
      return Failure(queries.error);
    }
    assert queries.value == Queries(packages);
    var resp := Osv.MakeRequest(queries.value, services.transport, services.decodeBatch);
    if resp.Failure? {
      ApiErrorIsNotIdentityError(QueryFailed + resp.error);
      return Failure(ErrAPIFailed + (QueryFailed + resp.error));
    }
    var hydrated := Osv.Hydrate(resp.value, services.get);
    if hydrated.Failure? {
      ApiErrorIsNotIdentityError(HydrationFailed + hydrated.error);
      return Failure(ErrAPIFailed + (HydrationFailed + hydrated.error));
    }
    r := Success(hydrated.value);
  }

  /** What DoScan hands to buildVulnerabilityResults, or that nothing was found. */
  datatype ScanResult =
    | NoPackages
    | Response(packages: seq<ScannedPackage>, hydrated: seq<seq<Results.Vulnerability>>)

  predicate HasParser(file: DepFile) {
    Extractor.FindParser(file).0.Some?
  }

  /** scanLockfile succeeds on the file. */
  ghost predicate Scans(file: DepFile, services: Services) {
    Extractor.Extracts(file, services.decodeLockfile, services.parseUrl)
  }

  /** `pkgs` is what scanLockfile may return for the file. */
  ghost predicate ScannedFrom(file: DepFile, services: Services, pkgs: seq<ScannedPackage>) {
    exists parsed :: pkgs == ScannedAll(parsed, file.path) && Extractor.Extracted(file, services.decodeLockfile, services.parseUrl, parsed)
  }

  /** The hydrated answer a scan result carries; none when nothing was found. */
  function Hydrated(r: Result<ScanResult>): Result<seq<seq<Results.Vulnerability>>> {
    match r
    case Failure(e) => Failure(e)
    case Success(NoPackages) => Success([])
    case Success(Response(_, hydrated)) => Success(hydrated)
  }

  /** The error scanLockfile returns for a file it does not scan. */
  function ScanError(file: DepFile, services: Services): string {
    Extractor.ExtractError(file, services.decodeLockfile)
  }

  /** `e` is the error of the first file that does not scan: every file
      before it scans. */
  ghost predicate FirstFailure(files: seq<DepFile>, services: Services, e: string) {
    exists i :: 0 <= i < |files| && (forall j :: 0 <= j < i ==> Scans(files[j], services)) &&
      !Scans(files[i], services) && e == ScanError(files[i], services)
  }

  /** The paths of the scanned files. */
  function Paths(files: seq<DepFile>): set<string> {
    set f | f in files :: f.path
  }

  /** The file loop of DoScan: the files' packages in file order (file i
      gave `perFile[i]`), or an extraction error when some file fails. */
  method ScanFiles(files: seq<DepFile>, services: Services)
    returns (r: Result<seq<ScannedPackage>>, ghost perFile: seq<seq<ScannedPackage>>)
    ensures (exists i :: 0 <= i < |files| && !HasParser(files[i])) ==> r.Failure?
    ensures files == [] ==> r == Success([])
    ensures r.Success? <==> forall i :: 0 <= i < |files| ==> Scans(files[i], services)
    ensures r.Failure? ==> FirstFailure(files, services, r.error)
    ensures r.Success? ==> |perFile| == |files| && r.value == Osv.Concat(perFile)
    ensures r.Success? ==> forall i :: 0 <= i < |files| ==> ScannedFrom(files[i], services, perFile[i])
    ensures r.Success? ==> forall j :: 0 <= j < |r.value| ==>
      r.value[j].source.typ == "lockfile" && r.value[j].source.path in Paths(files)
  {
    var scanned: seq<ScannedPackage> := [];
    perFile := [];
    for i := 0 to |files|
      invariant |perFile| == i && scanned == Osv.Concat(perFile)
      invariant forall k :: 0 <= k < i ==> Scans(files[k], services) && ScannedFrom(files[k], services, perFile[k])
      invariant forall j :: 0 <= j < |scanned| ==>
        scanned[j].source.typ == "lockfile" && scanned[j].source.path in Paths(files)
    {
      var next, pkgs := ScanNext(scanned, files, i, services);
      if next.Failure? {
        assert FirstFailure(files, services, next.error);
        return Failure(next.error), perFile;
      }
      Osv.ConcatSnoc(perFile, pkgs);
      KeepsFiles(files, services, perFile, pkgs);
      scanned, perFile := next.value, perFile + [pkgs];
    }
    r := Success(scanned);
  }

  lemma KeepsFiles(files: seq<DepFile>, services: Services, perFile: seq<seq<ScannedPackage>>, pkgs: seq<ScannedPackage>)
    requires |perFile| < |files|
    requires forall k :: 0 <= k < |perFile| ==> Scans(files[k], services) && ScannedFrom(files[k], services, perFile[k])
    requires Scans(files[|perFile|], services) && ScannedFrom(files[|perFile|], services, pkgs)
    ensures forall k :: 0 <= k <= |perFile| ==> Scans(files[k], services) && ScannedFrom(files[k], services, (perFile + [pkgs])[k])
  {
  }

  /** One turn of the file loop: scan file `i` and append its packages. */
  method ScanNext(scanned: seq<ScannedPackage>, files: seq<DepFile>, i: nat, services: Services)
    returns (r: Result<seq<ScannedPackage>>, ghost pkgs: seq<ScannedPackage>)
    requires i < |files|
    requires forall j :: 0 <= j < |scanned| ==>
      scanned[j].source.typ == "lockfile" && scanned[j].source.path in Paths(files)
    ensures !HasParser(files[i]) ==> r.Failure?
    ensures r.Success? <==> Scans(files[i], services)
    ensures r.Failure? ==> r.error == ScanError(files[i], services)
    ensures r.Success? ==> r.value == scanned + pkgs && ScannedFrom(files[i], services, pkgs)
    ensures r.Success? ==> forall j :: 0 <= j < |r.value| ==>
      r.value[j].source.typ == "lockfile" && r.value[j].source.path in Paths(files)
  {
    var scan, parsed := ScanLockfile(files[i], services.decodeLockfile, services.parseUrl);
    if scan.Failure? {
      return Failure(scan.error), [];
    }
    pkgs := scan.value;
    var all := scanned + scan.value;
    assert files[i].path in Paths(files);
    forall j | 0 <= j < |all|
      ensures all[j].source.typ == "lockfile" && all[j].source.path in Paths(files)
    {
      if j >= |scanned| {
        assert all[j] == pkgs[j - |scanned|];
      }
    }
    r := Success(all);
  }

  /** DoScan: scan every file, stop at the first extraction error, return
      empty results when no file yields a package, otherwise query OSV for
      the scannable packages; file i gave `perFile[i]`. */
  method DoScan(files: seq<DepFile>, services: Services) returns (r: Result<ScanResult>, ghost perFile: seq<seq<ScannedPackage>>)
    ensures (exists i :: 0 <= i < |files| && !HasParser(files[i])) ==> r.Failure?
    ensures files == [] ==> r == Success(NoPackages)
    ensures (exists i :: 0 <= i < |files| && !Scans(files[i], services)) ==>
      r.Failure? && FirstFailure(files, services, r.error)
    ensures (forall i :: 0 <= i < |files| ==> Scans(files[i], services)) ==>
      && |perFile| == |files|
      && (forall i :: 0 <= i < |files| ==> ScannedFrom(files[i], services, perFile[i]))
      && (r == Success(NoPackages) <==> Osv.Concat(perFile) == [])
      && (Osv.Concat(perFile) != [] ==> Answered(Filter(Osv.Concat(perFile), Scannable), services, Hydrated(r)))
    ensures r.Success? && r.value.Response? ==> r.value.packages == Filter(Osv.Concat(perFile), Scannable)
    ensures r.Success? && r.value.Response? ==> forall i :: 0 <= i < |r.value.packages| ==>
      && Scannable(r.value.packages[i])
      && r.value.packages[i].source.typ == "lockfile"
      && r.value.packages[i].source.path in Paths(files)
  {
    var scanned;
    scanned, perFile := ScanFiles(files, services);
    if scanned.Failure? {
      return Failure(scanned.error), perFile;
    }
    if |scanned.value| == 0 {
      return Success(NoPackages), perFile;
    }
    var filtered := FilterUnscannablePackages(scanned.value);
    FilterAccepted(scanned.value, Scannable);
    FilterExactly(scanned.value, Scannable);
    var hydrated := MakeRequest(filtered, services);
    if hydrated.Failure? {
      return Failure(hydrated.error), perFile;
    }
    forall j | 0 <= j < |filtered|
      ensures filtered[j].source.typ == "lockfile" && filtered[j].source.path in Paths(files)
    {
      assert filtered[j] in scanned.value;
    }
    r := Success(Response(filtered, hydrated.value));
  }
}
