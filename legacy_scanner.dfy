/** The older copy of the scan driver (osvscanner/osv_scanner.go). Its
    packages may also be identified by commit or by package URL, its query
    builder prefers name+ecosystem+version over commit over package URL, and
    a scan that finds no package is an error. The older OSV client
    (querying, hydration, commit and package-URL queries) is not part of this
    model; it is passed in as functions. */
module LegacyScanner {
  import opened Common
  import opened Models
  import Results
  import Extractor
  import LegacyExtractor
  import Osv

  datatype ScannedPackage = ScannedPackage(
    purl: string,
    name: string,
    ecosystem: string,
    commit: string,
    version: string,
    source: Results.SourceInfo,
    depGroups: seq<string>)

  /** The scanned form of a parsed package: the commit is kept, the package URL stays empty. */
  function Scanned(p: PackageDetails, path: string): ScannedPackage {
    ScannedPackage("", p.name, p.ecosystem, p.commit, p.version, Results.SourceInfo(path, "lockfile"), p.depGroups)
  }

  /** The scanned form of every parsed package of the file at `path`, in order. */
  function ScannedAll(parsed: seq<PackageDetails>, path: string): seq<ScannedPackage> {
    seq(|parsed|, i requires 0 <= i < |parsed| => Scanned(parsed[i], path))
  }

  /** The loop of scanLockfile that fills the preallocated `packages` slice. */
  method ToScanned(parsed: seq<PackageDetails>, path: string) returns (packages: seq<ScannedPackage>)
    ensures packages == ScannedAll(parsed, path)
    ensures |packages| == |parsed|
    ensures forall i :: 0 <= i < |parsed| ==>
      && packages[i].purl == ""
      && packages[i].commit == parsed[i].commit
      && packages[i].name == parsed[i].name
      && packages[i].version == parsed[i].version
      && packages[i].ecosystem == parsed[i].ecosystem
      && packages[i].depGroups == parsed[i].depGroups
      && packages[i].source == Results.SourceInfo(path, "lockfile")
  {
    var a := new ScannedPackage[|parsed|];
    for i := 0 to |parsed|
      invariant forall k :: 0 <= k < i ==> a[k] == Scanned(parsed[k], path)
    {
      a[i] := Scanned(parsed[i], path);
    }
    packages := a[..];
  }

  /** scanLockfile succeeds on the file: it is a package-lock.json that parses. */
  predicate Scans(file: DepFile, parseNpm: DepFile -> Result<seq<PackageDetails>>) {
    file.name == "package-lock.json" && parseNpm(file).Success?
  }

  /** The error scanLockfile returns for a file it does not scan: no
      parser for the name, or the wrapped parser error. */
  function ScanError(file: DepFile, parseNpm: DepFile -> Result<seq<PackageDetails>>): string
    requires !Scans(file, parseNpm)
  {
    if file.name != "package-lock.json" then Extractor.NoParserError(file.path)
    else Extractor.WrapParseError(parseNpm(file).error)
  }

  /** `e` is the error of the first file that does not scan: every file
      before it scans. */
  ghost predicate FirstFailure(files: seq<DepFile>, parseNpm: DepFile -> Result<seq<PackageDetails>>, e: string) {
    exists i :: 0 <= i < |files| && (forall j :: 0 <= j < i ==> Scans(files[j], parseNpm)) &&
      !Scans(files[i], parseNpm) && e == ScanError(files[i], parseNpm)
  }

  /** `pkgs` is what scanLockfile may return for the file: the scanned forms
      of the parser's packages, sorted. */
  ghost predicate ScannedFrom(file: DepFile, parseNpm: DepFile -> Result<seq<PackageDetails>>, pkgs: seq<ScannedPackage>) {
    Scans(file, parseNpm) &&
    exists parsed :: pkgs == ScannedAll(parsed, file.path) && Extractor.PackagesSorted(parsed) && multiset(parsed) == multiset(parseNpm(file).value)
  }

  /** scanLockfile: the extractor's packages (`parsed`) in scanned form, or its error. */
  method ScanLockfile(file: DepFile, parseNpm: DepFile -> Result<seq<PackageDetails>>)
    returns (r: Result<seq<ScannedPackage>>, ghost parsed: seq<PackageDetails>)
    ensures r.Success? <==> Scans(file, parseNpm)
    ensures r.Failure? ==> !Scans(file, parseNpm) && r.error == ScanError(file, parseNpm)
    ensures r.Success? ==>
      && r.value == ScannedAll(parsed, file.path)
      && Extractor.PackagesSorted(parsed)
      && multiset(parsed) == multiset(parseNpm(file).value)
    ensures file.name != "package-lock.json" ==> r == Failure(Extractor.NoParserError(file.path))
    ensures file.name == "package-lock.json" && parseNpm(file).Failure? ==>
      r == Failure(Extractor.WrapParseError(parseNpm(file).error))
    ensures file.name == "package-lock.json" && parseNpm(file).Success? ==>
      r.Success? && |r.value| == |parseNpm(file).value|
    ensures r.Success? ==> forall i :: 0 <= i < |r.value| ==>
      r.value[i].source == Results.SourceInfo(file.path, "lockfile") && r.value[i].purl == ""
  {
    var lockfile, err := LegacyExtractor.ExtractDeps(file, parseNpm);
    parsed := lockfile.packages;
    if err.Some? {
      return Failure(err.value), parsed;
    }
    assert |lockfile.packages| == |multiset(lockfile.packages)| == |multiset(parseNpm(file).value)|;
    var packages := ToScanned(lockfile.packages, file.path);
    r := Success(packages);
  }

  // ---------------------------------------------------------------------------
  // Identity

  /** How a package can be looked up in OSV, in order of preference. */
  datatype Identity = ByPackage | ByCommit | ByPurl | Unidentified

  function IdentityOf(p: ScannedPackage): Identity {
    if p.ecosystem != "" && p.name != "" && p.version != "" then ByPackage
    else if p.commit != "" then ByCommit
    else if p.purl != "" then ByPurl
    else Unidentified
  }

  /** The switch of filterUnscannablePackages: some identity case matches. */
  predicate Scannable(p: ScannedPackage) {
    IdentityOf(p) != Unidentified
  }

  /** A package is kept iff it has a full package identity, a commit or a package URL. */
  lemma ScannableIff(p: ScannedPackage)
    ensures Scannable(p) <==> (p.ecosystem != "" && p.name != "" && p.version != "") || p.commit != "" || p.purl != ""
  {
  }

  /** The identity with the highest preference wins. */
  lemma IdentityPriority(p: ScannedPackage)
    ensures p.ecosystem != "" && p.name != "" && p.version != "" ==> IdentityOf(p) == ByPackage
    ensures IdentityOf(p) == ByCommit ==> p.commit != "" && (p.ecosystem == "" || p.name == "" || p.version == "")
    ensures IdentityOf(p) == ByPurl ==> p.purl != "" && p.commit == "" && (p.ecosystem == "" || p.name == "" || p.version == "")
  {
  }

  /** filterUnscannablePackages: the append loop over the packages. */
  method FilterUnscannablePackages(packages: seq<ScannedPackage>) returns (out: seq<ScannedPackage>)
    ensures out == Filter(packages, Scannable)
  {
    out := [];
    for i := 0 to |packages|
      invariant out == Filter(packages[..i], Scannable)
    {
      assert packages[..i + 1][..i] == packages[..i];
      if Scannable(packages[i]) {
        out := out + [packages[i]];
      }
    }
    assert packages[..|packages|] == packages;
  }

  /** The queries of the older client. */
  datatype LegacyQuery =
    | PackageQuery(query: Osv.Query)
    | CommitQuery(commit: string)
    | PurlQuery(purl: string)

  /** The query makeRequest builds for a scannable package, by its preferred identity. */
  function QueryFor(p: ScannedPackage): (q: LegacyQuery)
    requires Scannable(p)
    ensures q.PackageQuery? <==> IdentityOf(p) == ByPackage
    ensures q.CommitQuery? <==> IdentityOf(p) == ByCommit
    ensures q.PurlQuery? <==> IdentityOf(p) == ByPurl
  {
    match IdentityOf(p)
    case ByPackage => PackageQuery(Osv.MakePkgRequest(PackageDetails(p.name, p.version, "", p.ecosystem, "", [])))
    case ByCommit => CommitQuery(p.commit)
    case ByPurl => PurlQuery(p.purl)
  }

  const IdentityErrorSuffix := " does not have a commit, PURL or ecosystem/name/version identifier"

  /** `e` is the error naming the first package with no identity: every
      package before it is scannable. */
  predicate IdentityFailure(packages: seq<ScannedPackage>, e: string) {
    exists i :: 0 <= i < |packages| && (forall j :: 0 <= j < i ==> Scannable(packages[j])) &&
      !Scannable(packages[i]) && e == "package " + packages[i].name + IdentityErrorSuffix
  }

  /** The query-building loop of makeRequest: one query per package, in
      order; the first package with no identity stops it with an error naming it. */
  method BuildQueries(packages: seq<ScannedPackage>) returns (r: Result<seq<LegacyQuery>>)
    ensures r.Success? <==> forall i :: 0 <= i < |packages| ==> Scannable(packages[i])
    ensures r.Success? ==> |r.value| == |packages| && forall i :: 0 <= i < |packages| ==> r.value[i] == QueryFor(packages[i])
    ensures r.Failure? ==> IdentityFailure(packages, r.error)
  {
    var queries: seq<LegacyQuery> := [];
    for i := 0 to |packages|
      invariant |queries| == i
      invariant forall k :: 0 <= k < i ==> Scannable(packages[k]) && queries[k] == QueryFor(packages[k])
    {
      if !Scannable(packages[i]) {
        assert IdentityFailure(packages, "package " + packages[i].name + IdentityErrorSuffix);
        return Failure("package " + packages[i].name + IdentityErrorSuffix);
      }
      queries := queries + [QueryFor(packages[i])];
    }
    r := Success(queries);
  }

  const ErrAPIFailed := "API query failed"

  /** The older OSV client: the batched query and the hydration. */
  datatype Client = Client(
    query: seq<LegacyQuery> -> Result<seq<Osv.MinimalResponse>>,
    hydrate: seq<Osv.MinimalResponse> -> Result<seq<seq<Results.Vulnerability>>>)

  /** One query per scannable package, in order. */
  function Queries(packages: seq<ScannedPackage>): seq<LegacyQuery>
    requires forall i :: 0 <= i < |packages| ==> Scannable(packages[i])
  {
    seq(|packages|, i requires 0 <= i < |packages| => QueryFor(packages[i]))
  }

  /** What the client answers for the queries: a failed query or a failed
      hydration is wrapped under ErrAPIFailed, else the hydrated batch. */
  function Outcome(queries: seq<LegacyQuery>, client: Client): Result<seq<seq<Results.Vulnerability>>> {
    match client.query(queries)
    case Failure(e) => Failure(ErrAPIFailed + ": osv.dev query failed: " + e)
    case Success(resp) =>
      match client.hydrate(resp)
      case Failure(e) => Failure(ErrAPIFailed + ": failed to hydrate OSV response: " + e)
      case Success(h) => Success(h)
  }

  /** makeRequest: queries, then the client; its errors are wrapped under ErrAPIFailed. */
  method MakeRequest(packages: seq<ScannedPackage>, client: Client) returns (r: Result<seq<seq<Results.Vulnerability>>>)
    ensures (exists i :: 0 <= i < |packages| && !Scannable(packages[i])) ==>
      r.Failure? && IdentityFailure(packages, r.error)
    ensures (forall i :: 0 <= i < |packages| ==> Scannable(packages[i])) ==> r == Outcome(Queries(packages), client)
  {
    var queries := BuildQueries(packages);
    if queries.Failure? {
      return Failure(queries.error);
    }
    assert queries.value == Queries(packages);
    var resp := client.query(queries.value);
    if resp.Failure? {
      return Failure(ErrAPIFailed + ": osv.dev query failed: " + resp.error);
    }
    var hydrated := client.hydrate(resp.value);
    if hydrated.Failure? {
      return Failure(ErrAPIFailed + ": failed to hydrate OSV response: " + hydrated.error);
    }
    r := Success(hydrated.value);
  }

  /** The paths of the scanned files. */
  function Paths(files: seq<DepFile>): set<string> {
    set f | f in files :: f.path
  }

  /** One turn of the file loop: scan file `i` and append its packages. */
  method ScanNext(
    scanned: seq<ScannedPackage>, files: seq<DepFile>, i: nat,
    parseNpm: DepFile -> Result<seq<PackageDetails>>) returns (r: Result<seq<ScannedPackage>>, ghost pkgs: seq<ScannedPackage>)
    requires i < |files|
    requires forall j :: 0 <= j < |scanned| ==> scanned[j].source.path in Paths(files) && scanned[j].purl == ""
    ensures files[i].name != "package-lock.json" ==> r.Failure?
    ensures r.Success? <==> Scans(files[i], parseNpm)
    ensures r.Failure? ==> !Scans(files[i], parseNpm) && r.error == ScanError(files[i], parseNpm)
    ensures r.Success? ==> r.value == scanned + pkgs && ScannedFrom(files[i], parseNpm, pkgs)
    ensures r.Success? ==> forall j :: 0 <= j < |r.value| ==> r.value[j].source.path in Paths(files) && r.value[j].purl == ""
  {
    var scan, parsed := ScanLockfile(files[i], parseNpm);
    if scan.Failure? {
      return Failure(scan.error), [];
    }
    pkgs := scan.value;
    assert files[i].path in Paths(files);
    r := Success(scanned + scan.value);
  }

  lemma KeepsFiles(files: seq<DepFile>, parseNpm: DepFile -> Result<seq<PackageDetails>>, perFile: seq<seq<ScannedPackage>>, pkgs: seq<ScannedPackage>)
    requires |perFile| < |files|
    requires forall k :: 0 <= k < |perFile| ==> ScannedFrom(files[k], parseNpm, perFile[k])
    requires ScannedFrom(files[|perFile|], parseNpm, pkgs)
    ensures forall k :: 0 <= k <= |perFile| ==> ScannedFrom(files[k], parseNpm, (perFile + [pkgs])[k])
  {
  }

  /** What DoScan hands to buildVulnerabilityResults. */
  datatype ScanResult = ScanResult(packages: seq<ScannedPackage>, hydrated: seq<seq<Results.Vulnerability>>)

  const NoPackagesError := "no packages found in scan"

  /** The scan result for the scanned packages: the scannable ones with the
      client's answer for them, or the client's error. */
  function Answer(scanned: seq<ScannedPackage>, client: Client): Result<ScanResult> {
    var packages := Filter(scanned, Scannable);
    FilterAccepted(scanned, Scannable);
    match Outcome(Queries(packages), client)
    case Failure(e) => Failure(e)
    case Success(hydrated) => Success(ScanResult(packages, hydrated))
  }

  /** DoScan of the older copy: every file must be a package-lock.json that
      parses (file i gives `perFile[i]`); finding no package at all is an
      error; otherwise the scannable packages go to the client. */
  method DoScan(files: seq<DepFile>, parseNpm: DepFile -> Result<seq<PackageDetails>>, client: Client)
    returns (r: Result<ScanResult>, ghost perFile: seq<seq<ScannedPackage>>)
    ensures (exists i :: 0 <= i < |files| && files[i].name != "package-lock.json") ==> r.Failure?
    ensures files == [] ==> r == Failure(NoPackagesError)
    ensures (exists i :: 0 <= i < |files| && !Scans(files[i], parseNpm)) ==>
      r.Failure? && FirstFailure(files, parseNpm, r.error)
    ensures (forall i :: 0 <= i < |files| ==> Scans(files[i], parseNpm)) ==>
      && |perFile| == |files|
      && (forall i :: 0 <= i < |files| ==> ScannedFrom(files[i], parseNpm, perFile[i]))
      && (Osv.Concat(perFile) == [] ==> r == Failure(NoPackagesError))
      && (Osv.Concat(perFile) != [] ==> r == Answer(Osv.Concat(perFile), client))
    ensures r.Success? ==> forall i :: 0 <= i < |r.value.packages| ==>
      && Scannable(r.value.packages[i])
      && r.value.packages[i].source.path in Paths(files)
      && r.value.packages[i].purl == ""
  {
    var scanned: seq<ScannedPackage> := [];
    perFile := [];
    for i := 0 to |files|
      invariant |perFile| == i && scanned == Osv.Concat(perFile)
      invariant forall k :: 0 <= k < i ==> ScannedFrom(files[k], parseNpm, perFile[k])
      invariant forall j :: 0 <= j < |scanned| ==> scanned[j].source.path in Paths(files) && scanned[j].purl == ""
    {
      var next, pkgs := ScanNext(scanned, files, i, parseNpm);
      if next.Failure? {
        assert FirstFailure(files, parseNpm, next.error);
        return Failure(next.error), perFile;
      }
      Osv.ConcatSnoc(perFile, pkgs);
      KeepsFiles(files, parseNpm, perFile, pkgs);
      scanned, perFile := next.value, perFile + [pkgs];
    }
    if |scanned| == 0 {
      return Failure(NoPackagesError), perFile;
    }
    var filtered := FilterUnscannablePackages(scanned);
    FilterAccepted(scanned, Scannable);
    FilterExactly(scanned, Scannable);
    var hydrated := MakeRequest(filtered, client);
    if hydrated.Failure? {
      return Failure(hydrated.error), perFile;
    }
    forall j | 0 <= j < |filtered|
      ensures filtered[j].source.path in Paths(files) && filtered[j].purl == ""
    {
      assert filtered[j] in scanned;
    }
    r := Success(ScanResult(filtered, hydrated.value));
  }
}
