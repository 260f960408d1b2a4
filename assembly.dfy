/** The two result-assembly loops of the request handler (main.go): every
    downloaded file gets a result entry even when it has no vulnerable
    package, and the vulnerabilities are counted by severity with adjacent
    duplicates skipped. The database calls around them are not modelled. */
module Assembly {
  import opened Common
  import Results
  import Scanner
  import Walker

  // ---------------------------------------------------------------------------
  // Every scanned file gets an entry

  /** The paths that already have a result entry. */
  function SourcePaths(results: seq<Results.PackageSource>): set<string> {
    set r | r in results :: r.source.path
  }

  /** The entry added for a file no result mentions: no packages. */
  function EmptyEntry(file: Walker.Entry): Results.PackageSource {
    Results.PackageSource(Results.SourceInfo(file.path, file.typ), [])
  }

  /** The results after the completion loop has seen `files`: each file whose
      path is not yet the source of an entry (counting the entries added so
      far) gets an empty entry at the end. */
  function Completed(files: seq<Walker.Entry>, results: seq<Results.PackageSource>): seq<Results.PackageSource> {
    if files == [] then results
    else
      var done := Completed(files[..|files| - 1], results);
      var file := files[|files| - 1];
      if file.path in SourcePaths(done) then done else done + [EmptyEntry(file)]
  }

  /** The inner loop: does some result already have this path? */
  method PathExists(results: seq<Results.PackageSource>, path: string) returns (isExists: bool)
    ensures isExists <==> path in SourcePaths(results)
  {
    isExists := false;
    for i := 0 to |results|
      invariant isExists <==> exists k :: 0 <= k < i && results[k].source.path == path
    {
      if results[i].source.path == path {
        isExists := true;
      }
    }
    if path in SourcePaths(results) {
      var r :| r in results && r.source.path == path;
      var k :| 0 <= k < |results| && results[k] == r;
    }
  }

  /** The completion loop over the downloaded files. */
  method CompleteSources(files: seq<Walker.Entry>, results: seq<Results.PackageSource>) returns (out: seq<Results.PackageSource>)
    ensures out == Completed(files, results)
  {
    out := results;
    for i := 0 to |files|
      invariant out == Completed(files[..i], results)
    {
      assert files[..i + 1][..i] == files[..i];
      var isExists := PathExists(out, files[i].path);
      if !isExists {
        out := out + [EmptyEntry(files[i])];
      }
    }
    assert files[..|files|] == files;
  }

  /** The completion keeps the existing entries in front, unchanged, and every
      file's path becomes the source of some entry. */
  lemma {:induction false} CompletedCovers(files: seq<Walker.Entry>, results: seq<Results.PackageSource>)
    ensures |results| <= |Completed(files, results)|
    ensures Completed(files, results)[..|results|] == results
    ensures forall i :: 0 <= i < |files| ==> files[i].path in SourcePaths(Completed(files, results))
  {
    if files != [] {
      var init := files[..|files| - 1];
      CompletedCovers(init, results);
      var done := Completed(init, results);
      var file := files[|files| - 1];
      if file.path !in SourcePaths(done) {
        assert (done + [EmptyEntry(file)])[..|results|] == done[..|results|];
        assert EmptyEntry(file) in done + [EmptyEntry(file)];
        forall i | 0 <= i < |files| - 1
          ensures files[i].path in SourcePaths(Completed(files, results))
        {
          assert files[i] == init[i];
          var r :| r in done && r.source.path == files[i].path;
          assert r in done + [EmptyEntry(file)];
        }
      } else {
        forall i | 0 <= i < |files| - 1
          ensures files[i].path in SourcePaths(Completed(files, results))
        {
          assert files[i] == init[i];
        }
      }
    }
  }

  /** The added entries are empty entries of files whose path no earlier
      entry had. */
  lemma {:induction false} CompletedAdds(files: seq<Walker.Entry>, results: seq<Results.PackageSource>)
    ensures |results| <= |Completed(files, results)|
    ensures forall k :: |results| <= k < |Completed(files, results)| ==>
      && Completed(files, results)[k].packages == []
      && Completed(files, results)[k].source.path !in SourcePaths(results)
      && exists i :: 0 <= i < |files| && Completed(files, results)[k] == EmptyEntry(files[i])
  {
    if files != [] {
      var init := files[..|files| - 1];
      CompletedAdds(init, results);
      CompletedCovers(init, results);
      var done := Completed(init, results);
      var file := files[|files| - 1];
      var out := Completed(files, results);
      forall k | |results| <= k < |done|
        ensures exists i :: 0 <= i < |files| && out[k] == EmptyEntry(files[i])
      {
        var i :| 0 <= i < |init| && done[k] == EmptyEntry(init[i]);
        assert files[i] == init[i];
      }
      if file.path !in SourcePaths(done) {
        assert out == done + [EmptyEntry(file)];
        forall r | r in results
          ensures r.source.path != file.path
        {
          var k :| 0 <= k < |results| && results[k] == r;
          assert done[k] == r;
          assert done[k] in done;
        }
      }
    }
  }

  /** No path is added twice: the check runs against the growing results. */
  lemma {:induction false} CompletedDistinct(files: seq<Walker.Entry>, results: seq<Results.PackageSource>)
    ensures |results| <= |Completed(files, results)|
    ensures forall k, l :: |results| <= k < l < |Completed(files, results)| ==>
      Completed(files, results)[k].source.path != Completed(files, results)[l].source.path
  {
    if files != [] {
      var init := files[..|files| - 1];
      CompletedDistinct(init, results);
      var done := Completed(init, results);
      var file := files[|files| - 1];
      if file.path !in SourcePaths(done) {
        assert Completed(files, results) == done + [EmptyEntry(file)];
        forall k | 0 <= k < |done|
          ensures done[k].source.path != file.path
        {
          assert done[k] in done;
        }
      }
    }
  }

  // ---------------------------------------------------------------------------
  // Severity counting with adjacent duplicates skipped

  datatype SeverityCounts = SeverityCounts(low: nat, moderate: nat, high: nat)

  /** The counters start at 0. */
  const NoCounts := SeverityCounts(0, 0, 0)

  function Total(c: SeverityCounts): nat {
    c.low + c.moderate + c.high
  }

  /** The switch on the severity class: bump the matching counter. */
  function Bump(c: SeverityCounts, category: string): (r: SeverityCounts)
    ensures category == "Low" || category == "Moderate" || category == "High" ==> Total(r) == Total(c) + 1
    ensures category == "Low" ==> r == c.(low := c.low + 1)
    ensures category == "Moderate" ==> r == c.(moderate := c.moderate + 1)
    ensures category == "High" ==> r == c.(high := c.high + 1)
  {
    if category == "Low" then c.(low := c.low + 1)
    else if category == "Moderate" then c.(moderate := c.moderate + 1)
    else if category == "High" then c.(high := c.high + 1)
    else c
  }

  /** The duplicate guard compares (package name, vulnerability id). */
  datatype Key = Key(pkg: string, id: string)

  /** One turn of the innermost loop: a vulnerability of a package, with the
      package's groups. */
  datatype Visit = Visit(key: Key, groups: seq<Results.GroupInfo>)

  /** The loop-carried state: the previous (package, id) pair and the counters. */
  datatype TallyState = TallyState(prev: Key, counts: SeverityCounts)

  /** The guard's state at the start of each source. */
  const NoKey := Key("", "")

  /** Indexing the empty `Groups` slice makes Go panic. */
  const IndexOutOfRange := "runtime error: index out of range [0] with length 0"

  /** The visits of one package, in order. */
  function PackageVisits(p: Results.PackageVulns): (vs: seq<Visit>)
    ensures |vs| == |p.vulnerabilities|
    ensures forall i :: 0 <= i < |vs| ==> vs[i] == Visit(Key(p.pkg.name, p.vulnerabilities[i].id), p.groups)
  {
    seq(|p.vulnerabilities|, i requires 0 <= i < |p.vulnerabilities| => Visit(Key(p.pkg.name, p.vulnerabilities[i].id), p.groups))
  }

  /** The visits of one source: its packages' visits, in order. */
  function SourceVisits(pkgs: seq<Results.PackageVulns>): seq<Visit> {
    if pkgs == [] then [] else SourceVisits(pkgs[..|pkgs| - 1]) + PackageVisits(pkgs[|pkgs| - 1])
  }

  /** One turn: skip a visit equal to the previous pair; otherwise remember it
      and count it under the class of its first group's maximum severity. */
  function Step(t: Result<TallyState>, v: Visit, parseFloat: string -> real): Result<TallyState> {
    match t
    case Failure(e) => Failure(e)
    case Success(st) =>
      if v.key == st.prev then t
      else if v.groups == [] then Failure(IndexOutOfRange)
      else Success(TallyState(v.key, Bump(st.counts, Scanner.ParseSeverityCategory(parseFloat(v.groups[0].maxSeverity)))))
  }

  function Run(t: Result<TallyState>, vs: seq<Visit>, parseFloat: string -> real): Result<TallyState> {
    if vs == [] then t else Step(Run(t, vs[..|vs| - 1], parseFloat), vs[|vs| - 1], parseFloat)
  }

  /** The counters after all sources: each source starts with a cleared guard. */
  function RunSources(c: Result<SeverityCounts>, sources: seq<Results.PackageSource>, parseFloat: string -> real): Result<SeverityCounts> {
    if sources == [] then c
    else
      match RunSources(c, sources[..|sources| - 1], parseFloat)
      case Failure(e) => Failure(e)
      case Success(counts) =>
        match Run(Success(TallyState(NoKey, counts)), SourceVisits(sources[|sources| - 1].packages), parseFloat)
        case Failure(e) => Failure(e)
        case Success(st) => Success(st.counts)
  }

  lemma {:induction false} RunFailureSticks(e: string, vs: seq<Visit>, parseFloat: string -> real)
    ensures Run(Failure(e), vs, parseFloat) == Failure(e)
  {
    if vs != [] {
      RunFailureSticks(e, vs[..|vs| - 1], parseFloat);
    }
  }

  lemma {:induction false} RunAppend(t: Result<TallyState>, xs: seq<Visit>, ys: seq<Visit>, parseFloat: string -> real)
    ensures Run(t, xs + ys, parseFloat) == Run(Run(t, xs, parseFloat), ys, parseFloat)
  {
    if ys == [] {
      assert xs + ys == xs;
    } else {
      assert (xs + ys)[..|xs + ys| - 1] == xs + ys[..|ys| - 1];
      RunAppend(t, xs, ys[..|ys| - 1], parseFloat);
    }
  }

  /** The innermost loop over one package's vulnerabilities. */
  method CountPackage(st: TallyState, pkg: Results.PackageVulns, parseFloat: string -> real) returns (r: Result<TallyState>)
    ensures r == Run(Success(st), PackageVisits(pkg), parseFloat)
  {
    var prevVulnPackage, prevVulnID := st.prev.pkg, st.prev.id;
    var counts := st.counts;
    ghost var vs := PackageVisits(pkg);
    for i := 0 to |pkg.vulnerabilities|
      invariant Run(Success(st), vs[..i], parseFloat) == Success(TallyState(Key(prevVulnPackage, prevVulnID), counts))
    {
      RunSnoc(Success(st), vs, i, parseFloat);
      var v := pkg.vulnerabilities[i];
      if prevVulnPackage == pkg.pkg.name && prevVulnID == v.id {
        continue;
      }
      prevVulnPackage, prevVulnID := pkg.pkg.name, v.id;
      if pkg.groups == [] {
        RunPrefixFails(Success(st), vs, i + 1, parseFloat);
        return Failure(IndexOutOfRange);
      }
      var maxSev := parseFloat(pkg.groups[0].maxSeverity);
      var category := Scanner.ParseSeverityCategory(maxSev);
      if category == "Low" {
        counts := counts.(low := counts.low + 1);
      } else if category == "Moderate" {
        counts := counts.(moderate := counts.moderate + 1);
      } else if category == "High" {
        counts := counts.(high := counts.high + 1);
      }
    }
    assert vs[..|vs|] == vs;
    r := Success(TallyState(Key(prevVulnPackage, prevVulnID), counts));
  }

  lemma RunSnoc(t: Result<TallyState>, vs: seq<Visit>, i: nat, parseFloat: string -> real)
    requires i < |vs|
    ensures Run(t, vs[..i + 1], parseFloat) == Step(Run(t, vs[..i], parseFloat), vs[i], parseFloat)
  {
    assert vs[..i + 1][..i] == vs[..i];
  }

  /** A failure after the first `n` visits is the failure of the whole run. */
  lemma RunPrefixFails(t: Result<TallyState>, vs: seq<Visit>, n: nat, parseFloat: string -> real)
    requires n <= |vs| && Run(t, vs[..n], parseFloat).Failure?
    ensures Run(t, vs, parseFloat) == Run(t, vs[..n], parseFloat)
  {
    assert vs == vs[..n] + vs[n..];
    RunAppend(t, vs[..n], vs[n..], parseFloat);
    RunFailureSticks(Run(t, vs[..n], parseFloat).error, vs[n..], parseFloat);
  }

  /** The loop over one source's packages; the guard starts cleared. */
  method CountSource(counts: SeverityCounts, source: Results.PackageSource, parseFloat: string -> real) returns (r: Result<TallyState>)
    ensures r == Run(Success(TallyState(NoKey, counts)), SourceVisits(source.packages), parseFloat)
  {
    var pkgs := source.packages;
    var st := TallyState(NoKey, counts);
    for p := 0 to |pkgs|
      invariant Run(Success(TallyState(NoKey, counts)), SourceVisits(pkgs[..p]), parseFloat) == Success(st)
    {
      SourceRunStep(Success(TallyState(NoKey, counts)), pkgs, p, parseFloat);
      var next := CountPackage(st, pkgs[p], parseFloat);
      if next.Failure? {
        SourceRunFails(Success(TallyState(NoKey, counts)), pkgs, p + 1, parseFloat);
        return Failure(next.error);
      }
      st := next.value;
    }
    assert pkgs[..|pkgs|] == pkgs;
    r := Success(st);
  }

  /** One more package: its visits run after those of the packages before it. */
  lemma SourceRunStep(t: Result<TallyState>, pkgs: seq<Results.PackageVulns>, p: nat, parseFloat: string -> real)
    requires p < |pkgs|
    ensures Run(t, SourceVisits(pkgs[..p + 1]), parseFloat) == Run(Run(t, SourceVisits(pkgs[..p]), parseFloat), PackageVisits(pkgs[p]), parseFloat)
  {
    assert pkgs[..p + 1][..p] == pkgs[..p];
    RunAppend(t, SourceVisits(pkgs[..p]), PackageVisits(pkgs[p]), parseFloat);
  }

  /** A failure within the first `n` packages is the failure of the source. */
  lemma SourceRunFails(t: Result<TallyState>, pkgs: seq<Results.PackageVulns>, n: nat, parseFloat: string -> real)
    requires n <= |pkgs| && Run(t, SourceVisits(pkgs[..n]), parseFloat).Failure?
    ensures Run(t, SourceVisits(pkgs), parseFloat) == Run(t, SourceVisits(pkgs[..n]), parseFloat)
  {
    SourceVisitsPrefix(pkgs, n);
    var rest := SourceVisits(pkgs)[|SourceVisits(pkgs[..n])|..];
    RunAppend(t, SourceVisits(pkgs[..n]), rest, parseFloat);
    RunFailureSticks(Run(t, SourceVisits(pkgs[..n]), parseFloat).error, rest, parseFloat);
  }

  /** The visits of a prefix of the packages are a prefix of the visits. */
  lemma {:induction false} SourceVisitsPrefix(pkgs: seq<Results.PackageVulns>, n: nat)
    requires n <= |pkgs|
    ensures |SourceVisits(pkgs[..n])| <= |SourceVisits(pkgs)|
    ensures SourceVisits(pkgs) == SourceVisits(pkgs[..n]) + SourceVisits(pkgs)[|SourceVisits(pkgs[..n])|..]
    decreases |pkgs|
  {
    if n < |pkgs| {
      var init := pkgs[..|pkgs| - 1];
      assert pkgs[..n] == init[..n];
      SourceVisitsPrefix(init, n);
    } else {
      assert pkgs[..n] == pkgs;
    }
  }

  /** The dedup-and-count loop over all sources of the result. */
  method CountSeverities(results: seq<Results.PackageSource>, parseFloat: string -> real) returns (r: Result<SeverityCounts>)
    ensures r == RunSources(Success(NoCounts), results, parseFloat)
  {
    var counts := NoCounts;
    for s := 0 to |results|
      invariant RunSources(Success(NoCounts), results[..s], parseFloat) == Success(counts)
    {
      assert results[..s + 1][..s] == results[..s];
      var st := CountSource(counts, results[s], parseFloat);
      if st.Failure? {
        RunSourcesFailureSticks(results, s + 1, parseFloat);
        return Failure(st.error);
      }
      counts := st.value.counts;
    }
    assert results[..|results|] == results;
    r := Success(counts);
  }

  lemma {:induction false} RunSourcesFailureSticks(results: seq<Results.PackageSource>, n: nat, parseFloat: string -> real)
    requires n <= |results| && RunSources(Success(NoCounts), results[..n], parseFloat).Failure?
    ensures RunSources(Success(NoCounts), results, parseFloat) == RunSources(Success(NoCounts), results[..n], parseFloat)
    decreases |results|
  {
    if n < |results| {
      var init := results[..|results| - 1];
      assert results[..n] == init[..n];
      RunSourcesFailureSticks(init, n, parseFloat);
    } else {
      assert results[..n] == results;
    }
  }

  // ---------------------------------------------------------------------------
  // What the counting does

  /** Visit `j` is skipped iff it repeats the pair of the visit just before
      it (or, for the first visit of a source, the empty pair): the guard
      only ever suppresses adjacent duplicates. */
  predicate Skipped(vs: seq<Visit>, j: nat)
    requires j < |vs|
  {
    vs[j].key == (if j == 0 then NoKey else vs[j - 1].key)
  }

  /** How many visits are not skipped. */
  function KeptCount(vs: seq<Visit>): nat {
    if vs == [] then 0 else KeptCount(vs[..|vs| - 1]) + (if Skipped(vs, |vs| - 1) then 0 else 1)
  }

  /** A visit that is not skipped and whose package has no group. */
  predicate Panics(vs: seq<Visit>, j: nat)
    requires j < |vs|
  {
    !Skipped(vs, j) && vs[j].groups == []
  }

  /** From a cleared guard, the remembered pair is always the last visit's
      (a skipped visit equals it anyway); each visit that is not skipped
      bumps exactly one counter; the count fails iff some visit that is not
      skipped belongs to a package with no group. */
  lemma {:induction false} RunCounts(c: SeverityCounts, vs: seq<Visit>, parseFloat: string -> real)
    ensures Run(Success(TallyState(NoKey, c)), vs, parseFloat).Success? <==> forall j :: 0 <= j < |vs| ==> !Panics(vs, j)
    ensures Run(Success(TallyState(NoKey, c)), vs, parseFloat).Success? ==>
      && Run(Success(TallyState(NoKey, c)), vs, parseFloat).value.prev == (if vs == [] then NoKey else vs[|vs| - 1].key)
      && Total(Run(Success(TallyState(NoKey, c)), vs, parseFloat).value.counts) == Total(c) + KeptCount(vs)
  {
    if vs != [] {
      var init := vs[..|vs| - 1];
      RunCounts(c, init, parseFloat);
      var t := Run(Success(TallyState(NoKey, c)), init, parseFloat);
      if t.Success? {
        assert forall j :: 0 <= j < |init| ==> (Panics(vs, j) <==> Panics(init, j));
        assert vs[..|vs| - 1] == init;
        if |vs| > 1 {
          assert vs[|vs| - 2] == init[|init| - 1];
        }
        assert Skipped(vs, |vs| - 1) <==> vs[|vs| - 1].key == t.value.prev;
        assert Run(Success(TallyState(NoKey, c)), vs, parseFloat) == Step(t, vs[|vs| - 1], parseFloat);
        if Panics(vs, |vs| - 1) {
          assert Step(t, vs[|vs| - 1], parseFloat).Failure?;
        }
      } else {
        assert !forall j :: 0 <= j < |init| ==> !Panics(init, j);
        var j :| 0 <= j < |init| && Panics(init, j);
        assert Panics(vs, j);
      }
    }
  }

  /** The visits counted over all sources; each source starts with a cleared guard. */
  function KeptAll(sources: seq<Results.PackageSource>): nat {
    if sources == [] then 0
    else KeptAll(sources[..|sources| - 1]) + KeptCount(SourceVisits(sources[|sources| - 1].packages))
  }

  /** Low + Moderate + High is the number of vulnerabilities not skipped. */
  lemma {:induction false} RunSourcesTotal(sources: seq<Results.PackageSource>, parseFloat: string -> real)
    ensures RunSources(Success(NoCounts), sources, parseFloat).Success? ==>
      Total(RunSources(Success(NoCounts), sources, parseFloat).value) == KeptAll(sources)
  {
    if sources != [] {
      var init := sources[..|sources| - 1];
      RunSourcesTotal(init, parseFloat);
      var c := RunSources(Success(NoCounts), init, parseFloat);
      if c.Success? {
        RunCounts(c.value, SourceVisits(sources[|sources| - 1].packages), parseFloat);
      }
    }
  }

  /** Only adjacent repeats are skipped: a vulnerability seen again after
      another one is counted again. */
  lemma AdjacentOnly(g: seq<Results.GroupInfo>)
    ensures var a, b := Visit(Key("lodash", "GHSA-1"), g), Visit(Key("lodash", "GHSA-2"), g);
      KeptCount([a, a]) == 1 && KeptCount([a, b, a]) == 3
  {
    var a, b := Visit(Key("lodash", "GHSA-1"), g), Visit(Key("lodash", "GHSA-2"), g);
    assert [a, a][..1] == [a];
    assert [a, b, a][..2] == [a, b];
    assert [a, b][..1] == [a];
    assert [a][..0] == [];
    assert !Skipped([a], 0);
    assert KeptCount([a]) == 1;
    assert Skipped([a, a], 1);
    assert !Skipped([a, b], 1) && KeptCount([a, b]) == 2;
    assert !Skipped([a, b, a], 2);
  }
}
