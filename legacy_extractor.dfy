/** The older copy of the extractor: a registry that only knows
    `package-lock.json`, an empty table of pluggable extractors, and the same
    sort of the parser's packages. The npm parser of that copy is not part of
    this model; `ExtractDeps` receives it as a function. */
module LegacyExtractor {
  import opened Common
  import opened Models
  import Extractor

  /** The registry: the other manifest kinds are commented out. */
  const Parsers: map<string, Extractor.Parser> := map["package-lock.json" := Extractor.NpmLockParser]

  /** findParser: lookup by exact file name. */
  function FindParser(depFile: DepFile): (r: (Option<Extractor.Parser>, string))
    ensures r.1 == depFile.name
    ensures r.0.Some? <==> depFile.name == "package-lock.json"
  {
    if depFile.name in Parsers then (Some(Parsers[depFile.name]), depFile.name) else (None, depFile.name)
  }

  /** The `Extractor` interface: a path test and an extraction function. */
  datatype LockfileExtractor = LockfileExtractor(
    shouldExtract: string -> bool,
    extract: DepFile -> Result<seq<PackageDetails>>)

  /** `lockfileExtractors`: declared and never filled. */
  const LockfileExtractors: map<string, LockfileExtractor> := map[]

  /** FindExtractor's search over a registry: a named lookup when `extractAs`
      is given, otherwise the first extractor (in map order) that claims the
      path, or nothing. */
  method FindExtractorIn(extractors: map<string, LockfileExtractor>, path: string, extractAs: string)
    returns (found: Option<LockfileExtractor>, name: string)
    ensures extractAs != "" ==> name == extractAs && (found.Some? <==> extractAs in extractors)
    ensures extractAs != "" && found.Some? ==> found.value == extractors[extractAs]
    ensures extractAs == "" && found.Some? ==> name in extractors && extractors[name] == found.value && found.value.shouldExtract(path)
    ensures extractAs == "" && found.None? ==> name == "" && forall n :: n in extractors ==> !extractors[n].shouldExtract(path)
  {
    if extractAs != "" {
      if extractAs in extractors {
        return Some(extractors[extractAs]), extractAs;
      }
      return None, extractAs;
    }
    var rest := extractors.Keys;
    while rest != {}
      invariant rest <= extractors.Keys
      invariant forall n :: n in extractors && n !in rest ==> !extractors[n].shouldExtract(path)
      decreases |rest|
    {
      var n :| n in rest;
      if extractors[n].shouldExtract(path) {
        return Some(extractors[n]), n;
      }
      rest := rest - {n};
    }
    return None, "";
  }

  /** FindExtractor over the (empty) registry finds nothing, whatever it is asked. */
  method FindExtractor(path: string, extractAs: string) returns (found: Option<LockfileExtractor>, name: string)
    ensures found.None?
    ensures name == extractAs
  {
    found, name := FindExtractorIn(LockfileExtractors, path, extractAs);
  }

  /** ExtractDeps of the older copy: the only parser is npm's, given as `parseNpm`. */
  method ExtractDeps(depFile: DepFile, parseNpm: DepFile -> Result<seq<PackageDetails>>)
    returns (lockfile: Lockfile, err: Option<string>)
    ensures depFile.name != "package-lock.json" ==>
      lockfile == Lockfile("", "", []) && err == Some(Extractor.NoParserError(depFile.path))
    ensures depFile.name == "package-lock.json" ==>
      && lockfile.filePath == depFile.path
      && lockfile.parsedAs == depFile.name
      && Extractor.PackagesSorted(lockfile.packages)
    ensures depFile.name == "package-lock.json" && parseNpm(depFile).Success? ==>
      err.None? && multiset(lockfile.packages) == multiset(parseNpm(depFile).value)
    ensures depFile.name == "package-lock.json" && parseNpm(depFile).Failure? ==>
      err == Some(Extractor.WrapParseError(parseNpm(depFile).error)) && lockfile.packages == []
  {
    var (parser, parsedAs) := FindParser(depFile);
    if parser.None? {
      return Lockfile("", "", []), Some(Extractor.NoParserError(depFile.path));
    }
    var packages: seq<PackageDetails> := [];
    err := None;
    var r := parseNpm(depFile);
    if r.Failure? {
      err := Some(Extractor.WrapParseError(r.error));
    } else {
      packages := r.value;
    }
    var sorted := Extractor.SortedPackages(packages);
    if r.Failure? {
      assert |sorted| == |multiset(sorted)| == 0;
    }
    lockfile := Lockfile(depFile.path, parsedAs, sorted);
  }
}
