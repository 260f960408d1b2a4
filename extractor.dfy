/** The parser registry and `ExtractDeps`: pick the parser by the manifest's
    exact file name, run it, and sort its packages in place by name, then
    version. */
module Extractor {
  import opened Common
  import opened Models
  import NpmLock
  import Requirements

  /** The parsers the registry can hand out. */
  datatype Parser = NpmLockParser | RequirementsTxtParser

  /** The registry, keyed by a manifest's base name. */
  const Parsers: map<string, Parser> := map["package-lock.json" := NpmLockParser, "requirements.txt" := RequirementsTxtParser]

  /** findParser: the lookup is by the file's name alone, never by its path;
      the name comes back as the "parsed as" label whether or not it is known. */
  function FindParser(depFile: DepFile): (r: (Option<Parser>, string))
    ensures r.1 == depFile.name
    ensures r.0.Some? <==> depFile.name == "package-lock.json" || depFile.name == "requirements.txt"
    ensures r.0 == Some(NpmLockParser) <==> depFile.name == "package-lock.json"
  {
    if depFile.name in Parsers then (Some(Parsers[depFile.name]), depFile.name) else (None, depFile.name)
  }

  /** Only the name takes part in the lookup. */
  lemma FindParserIgnoresPath(f: DepFile, g: DepFile)
    requires f.name == g.name
    ensures FindParser(f) == FindParser(g)
  {
  }

  function NoParserError(path: string): string {
    "не найден парсер для lock-файла " + path
  }

  function WrapParseError(err: string): string {
    "ошибка при парсинге: " + err
  }

  // The order sort.Slice is given

  /** The comparator: by name, and by version between equal names. */
  predicate PackageLess(a: PackageDetails, b: PackageDetails) {
    if a.name == b.name then Less(a.version, b.version) else Less(a.name, b.name)
  }

  /** `a` may precede `b` in a sorted result: `b` is not less than `a`. */
  predicate InOrder(a: PackageDetails, b: PackageDetails) {
    !PackageLess(b, a)
  }

  predicate PackagesSorted(s: seq<PackageDetails>) {
    forall i, j :: 0 <= i < j < |s| ==> InOrder(s[i], s[j])
  }

  /** InOrder is the lexicographic order on (name, version). */
  lemma InOrderIff(a: PackageDetails, b: PackageDetails)
    ensures InOrder(a, b) <==> Less(a.name, b.name) || (a.name == b.name && LessEq(a.version, b.version))
  {
    LessTotal(a.name, b.name);
    LessTotal(a.version, b.version);
    if Less(a.name, b.name) {
      LessAsymmetric(a.name, b.name);
    }
    if Less(a.version, b.version) {
      LessAsymmetric(a.version, b.version);
    }
  }

  lemma InOrderTransitive(a: PackageDetails, b: PackageDetails, c: PackageDetails)
    requires InOrder(a, b) && InOrder(b, c)
    ensures InOrder(a, c)
  {
    InOrderIff(a, b);
    InOrderIff(b, c);
    InOrderIff(a, c);
    LessIrreflexive(a.name);
    LessIrreflexive(b.name);
    if a.name == b.name && b.name == c.name {
      LessEqTransitive(a.version, b.version, c.version);
    } else if a.name == b.name || b.name == c.name {
    } else {
      LessTransitive(a.name, b.name, c.name);
    }
  }

  lemma LessInOrder(a: PackageDetails, b: PackageDetails)
    requires PackageLess(a, b)
    ensures InOrder(a, b) && !InOrder(b, a)
  {
    if a.name == b.name {
      LessAsymmetric(a.version, b.version);
    } else {
      LessAsymmetric(a.name, b.name);
    }
  }

  /** Any two packages can be placed in some order. */
  lemma InOrderTotal(a: PackageDetails, b: PackageDetails)
    ensures InOrder(a, b) || InOrder(b, a)
  {
    if PackageLess(a, b) {
      LessInOrder(a, b);
    }
  }

  /** sort.Slice over the packages: an insertion sort by adjacent swaps. */
  method SortPackages(a: array<PackageDetails>)
    modifies a
    ensures PackagesSorted(a[..])
    ensures multiset(a[..]) == multiset(old(a[..]))
  {
    var i := 0;
    while i < a.Length
      invariant 0 <= i <= a.Length
      invariant PackagesSorted(a[..i])
      invariant multiset(a[..]) == multiset(old(a[..]))
    {
      InsertAt(a, i);
      i := i + 1;
    }
    assert a[..a.Length] == a[..];
  }

  /** One pass of the insertion sort: `a[i]` sinks into the sorted prefix `a[..i]`. */
  method InsertAt(a: array<PackageDetails>, i: nat)
    requires i < a.Length && PackagesSorted(a[..i])
    modifies a
    ensures PackagesSorted(a[..i + 1])
    ensures multiset(a[..]) == multiset(old(a[..]))
  {
    var j: nat := i;
    while j > 0 && PackageLess(a[j], a[j - 1])
      invariant j <= i
      invariant Sinking(a[..], i, j)
      invariant multiset(a[..]) == multiset(old(a[..]))
    {
      SinkStep(a[..], i, j);
      a[j - 1], a[j] := a[j], a[j - 1];
      j := j - 1;
    }
    InsertedSorted(a[..], i, j);
  }

  /** While `s[j]` sinks, the other elements up to `i` keep their order and
      `s[j]` is below everything after it. */
  predicate Sinking(s: seq<PackageDetails>, i: nat, j: nat) {
    && j <= i < |s|
    && (forall k, l :: 0 <= k < l <= i && k != j && l != j ==> InOrder(s[k], s[l]))
    && (forall l :: j < l <= i ==> PackageLess(s[j], s[l]))
  }

  /** Swapping the sinking element with a greater left neighbour keeps it sinking. */
  lemma SinkStep(s: seq<PackageDetails>, i: nat, j: nat)
    requires Sinking(s, i, j) && 0 < j && PackageLess(s[j], s[j - 1])
    ensures Sinking(s[j - 1 := s[j]][j := s[j - 1]], i, j - 1)
  {
  }

  /** When the sinking element stops, the prefix up to `i` is sorted. */
  lemma InsertedSorted(s: seq<PackageDetails>, i: nat, j: nat)
    requires Sinking(s, i, j)
    requires j > 0 ==> !PackageLess(s[j], s[j - 1])
    ensures PackagesSorted(s[..i + 1])
  {
    forall k, l | 0 <= k < l <= i
      ensures InOrder(s[k], s[l])
    {
      if k == j {
        LessInOrder(s[k], s[l]);
      } else if l == j && k < j - 1 {
        InOrderTransitive(s[k], s[j - 1], s[j]);
      }
    }
  }

  /** sort.Slice on a slice value: the result is sorted and holds the same packages. */
  method SortedPackages(packages: seq<PackageDetails>) returns (r: seq<PackageDetails>)
    ensures PackagesSorted(r)
    ensures multiset(r) == multiset(packages)
  {
    var a := new PackageDetails[|packages|](i requires 0 <= i < |packages| => packages[i]);
    assert a[..] == packages;
    SortPackages(a);
    r := a[..];
  }

  // Permutations keep the parser's guarantees

  lemma {:induction false} DistinctCount(s: seq<PackageDetails>, x: PackageDetails)
    requires forall i, j :: 0 <= i < j < |s| ==> s[i] != s[j]
    ensures multiset(s)[x] <= 1
  {
    if |s| > 0 {
      assert s == [s[0]] + s[1..];
      DistinctCount(s[1..], x);
      if x == s[0] {
        assert x !in s[1..];
      }
    }
  }

  lemma TwiceCount(s: seq<PackageDetails>, i: nat, j: nat)
    requires i < j < |s| && s[i] == s[j]
    ensures multiset(s)[s[i]] >= 2
  {
    assert s == s[..i] + [s[i]] + s[i + 1..j] + [s[j]] + s[j + 1..];
  }

  /** Reordering the requirements parser's output keeps it a listing of its map. */
  lemma PermutedListsValues(ps: seq<PackageDetails>, qs: seq<PackageDetails>, m: map<string, PackageDetails>)
    requires Requirements.ListsValues(ps, m)
    requires multiset(qs) == multiset(ps)
    ensures Requirements.ListsValues(qs, m)
  {
    assert |qs| == |multiset(qs)| == |multiset(ps)| == |ps|;
    forall i | 0 <= i < |qs|
      ensures Requirements.Key(qs[i]) in m && m[Requirements.Key(qs[i])] == qs[i]
    {
      assert qs[i] in multiset(qs);
      assert qs[i] in ps;
    }
    forall i, j | 0 <= i < j < |qs|
      ensures Requirements.Key(qs[i]) != Requirements.Key(qs[j])
    {
      if Requirements.Key(qs[i]) == Requirements.Key(qs[j]) {
        TwiceCount(qs, i, j);
        assert forall k, l :: 0 <= k < l < |ps| ==> ps[k] != ps[l];
        DistinctCount(ps, qs[i]);
        assert false;
      }
    }
  }

  // What ExtractDeps returns

  /** `packages` holds, each once and in some order, the records of a map
      parseNpmLock may build from the lockfile. */
  ghost predicate NpmListed(lockfile: NpmLock.NpmLockfile, parse: string -> Option<NpmLock.Url>, packages: seq<PackageDetails>) {
    exists details: map<string, PackageDetails>, keys: seq<string> ::
      && NpmLock.Parsed(lockfile, parse, details)
      && EnumeratesKeys(keys, details)
      && multiset(packages) == multiset(Lookup(keys, details))
  }

  /** ExtractDeps returns no error: a parser is registered for the name and,
      for package-lock.json, the content decodes and parseNpmLock returns. */
  ghost predicate Extracts(depFile: DepFile, decode: string -> Option<NpmLock.NpmLockfile>, parseUrl: string -> Option<NpmLock.Url>) {
    && FindParser(depFile).0.Some?
    && (depFile.name == "package-lock.json" ==>
          decode(depFile.content).Some? && NpmLock.Parses(decode(depFile.content).value, parseUrl))
  }

  /** The error ExtractDeps returns when it does not extract the file: no
      parser for the name, content that does not decode, or the lockfile
      parser's slice-bounds panic. */
  function ExtractError(depFile: DepFile, decode: string -> Option<NpmLock.NpmLockfile>): string {
    if FindParser(depFile).0.None? then NoParserError(depFile.path)
    else if decode(depFile.content).None? then WrapParseError("could not extract from " + depFile.path)
    else WrapParseError(NpmLock.SliceOutOfRange)
  }

  /** `packages` is what a successful ExtractDeps may return: sorted, and a
      reordering of the parser's output, which for requirements.txt lists the
      parsed requirements once each and for package-lock.json the records of
      the parsed lockfile. */
  ghost predicate Extracted(depFile: DepFile, decode: string -> Option<NpmLock.NpmLockfile>, parseUrl: string -> Option<NpmLock.Url>, packages: seq<PackageDetails>) {
    && PackagesSorted(packages)
    && (depFile.name == "requirements.txt" ==>
          Requirements.ListsValues(packages, Requirements.ParsedRequirements(depFile)))
    && (depFile.name == "package-lock.json" ==>
          decode(depFile.content).Some? && NpmListed(decode(depFile.content).value, parseUrl, packages))
  }

  /** ExtractDeps: look the parser up, run it, wrap its error, sort its
      packages and label the result with the file's path and name. The JSON
      decoder and the URL parser the npm parser relies on are parameters. */
  method ExtractDeps(depFile: DepFile, decode: string -> Option<NpmLock.NpmLockfile>, parseUrl: string -> Option<NpmLock.Url>)
    returns (lockfile: Lockfile, err: Option<string>)
    ensures FindParser(depFile).0.None? ==> lockfile == Lockfile("", "", []) && err == Some(NoParserError(depFile.path))
    ensures FindParser(depFile).0.Some? ==>
      lockfile.filePath == depFile.path && lockfile.parsedAs == depFile.name && PackagesSorted(lockfile.packages)
    ensures depFile.name == "requirements.txt" ==>
      err.None? && Requirements.ListsValues(lockfile.packages, Requirements.ParsedRequirements(depFile))
    ensures depFile.name == "package-lock.json" && decode(depFile.content).None? ==>
      lockfile.packages == [] && err == Some(WrapParseError("could not extract from " + depFile.path))
    ensures depFile.name == "package-lock.json" && decode(depFile.content).Some? && decode(depFile.content).value.packages.Some? ==>
      err.None?
    ensures depFile.name == "package-lock.json" ==>
      forall i :: 0 <= i < |lockfile.packages| ==> lockfile.packages[i].ecosystem == NpmEcosystem
    ensures err.None? <==> Extracts(depFile, decode, parseUrl)
    ensures err.Some? ==> err.value == ExtractError(depFile, decode)
    ensures err.None? ==> Extracted(depFile, decode, parseUrl, lockfile.packages)
  {
    var (parser, parsedAs) := FindParser(depFile);
    if parser.None? {
      return Lockfile("", "", []), Some(NoParserError(depFile.path));
    }
    var packages: seq<PackageDetails>;
    err := None;
    if parser.value == NpmLockParser {
      var r, details, keys := NpmLock.ParseNpmLock(depFile, decode(depFile.content), parseUrl);
      if r.Failure? {
        packages := [];
        err := Some(WrapParseError(r.error));
      } else {
        packages := r.value;
      }
      var sorted := SortedPackages(packages);
      forall i | 0 <= i < |sorted|
        ensures sorted[i].ecosystem == NpmEcosystem
      {
        assert sorted[i] in multiset(packages);
      }
      if r.Success? {
        assert multiset(sorted) == multiset(Lookup(keys, details));
        assert NpmListed(decode(depFile.content).value, parseUrl, sorted);
      }
      return Lockfile(depFile.path, parsedAs, sorted), err;
    }
    packages := Requirements.ParseRequirementsTxt(depFile);
    var sorted := SortedPackages(packages);
    PermutedListsValues(packages, sorted, Requirements.ParsedRequirements(depFile));
    lockfile := Lockfile(depFile.path, parsedAs, sorted);
  }
}
