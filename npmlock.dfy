/** The package-lock.json parser (gitParser/parse_npm_lock.go), working on a
    lockfile that has already been decoded from JSON. The v1 "dependencies"
    tree and the v2+ "packages" map are both read into a map keyed by
    name@version (or name@commit), whose values are then returned in
    unspecified order. */
module NpmLock {
  import opened Common
  import opened Models

  /** An entry of the v1 "dependencies" tree. An absent and an empty nested
      "dependencies" object are parsed alike, so both are the empty map here. */
  datatype LockDependency = LockDependency(
    version: string,
    dependencies: map<string, LockDependency>,
    dev: bool,
    optional: bool)

  /** An entry of the v2+ "packages" map, keyed by its node_modules path. */
  datatype LockPackage = LockPackage(
    name: string,
    version: string,
    resolved: string,
    dev: bool,
    devOptional: bool,
    optional: bool)

  /** The decoded lockfile; `packages` is None when the key is absent. */
  datatype NpmLockfile = NpmLockfile(
    lockfileVersion: int,
    dependencies: map<string, LockDependency>,
    packages: Option<map<string, LockPackage>>)

  /** What the host fallback reads from net/url's parse of a resolution:
      the host, the raw query, the first "ref" query value if any, and the fragment. */
  datatype Url = Url(host: string, rawQuery: string, ref: Option<string>, fragment: string)

  // ---------------------------------------------------------------------------
  // depGroups

  /** The groups of a v1 dependency. */
  function DependencyGroups(dep: LockDependency): seq<string> {
    if dep.dev && dep.optional then ["dev", "optional"]
    else if dep.dev then ["dev"]
    else if dep.optional then ["optional"]
    else []
  }

  /** A v1 dependency is tagged "dev" exactly when it is dev and "optional"
      exactly when it is optional, "dev" first, each at most once. */
  lemma DependencyGroupsFlags(dep: LockDependency)
    ensures var g := DependencyGroups(dep);
            && ("dev" in g <==> dep.dev)
            && ("optional" in g <==> dep.optional)
            && |g| == (if dep.dev then 1 else 0) + (if dep.optional then 1 else 0)
            && (|g| == 2 ==> g == ["dev", "optional"])
  {
  }

  /** The groups of a v2+ package. */
  function PackageGroups(pkg: LockPackage): seq<string> {
    if pkg.dev then ["dev"]
    else if pkg.optional then ["optional"]
    else if pkg.devOptional then ["dev", "optional"]
    else []
  }

  /** "dev" wins over "optional", which wins over "devOptional": a package is
      tagged "dev" when dev or only devOptional, and "optional" when not dev
      but optional or devOptional. */
  lemma PackageGroupsPriority(pkg: LockPackage)
    ensures var g := PackageGroups(pkg);
            && ("dev" in g <==> pkg.dev || (!pkg.optional && pkg.devOptional))
            && ("optional" in g <==> !pkg.dev && (pkg.optional || pkg.devOptional))
            && (g == [] <==> !pkg.dev && !pkg.optional && !pkg.devOptional)
  {
  }

  // ---------------------------------------------------------------------------
  // extractNpmPackageName

  /** path.Dir for paths without "." or ".." elements: everything before the
      last slash, trailing slashes removed; "." when there is no slash. */
  function Dir(p: string): (r: string)
    ensures |r| > 0
  {
    var i := LastIndexOf(p, '/');
    if i < 0 then "."
    else
      var d := StripTrailingSlashes(p[..i]);
      if d == "" then "/" else d
  }

  /** The package name of a node_modules path: its last element, preceded by
      the parent element and a slash when the parent is an @scope. */
  function ExtractNpmPackageName(name: string): string {
    var maybeScope := Base(Dir(name));
    var pkgName := Base(name);
    if HasPrefix(maybeScope, "@") then maybeScope + "/" + pkgName else pkgName
  }

  lemma {:induction false} LastIndexOfAppend(a: string, b: string, c: char)
    requires c !in b
    ensures LastIndexOf(a + b, c) == LastIndexOf(a, c)
  {
    if b == [] {
      assert a + b == a;
    } else {
      assert (a + b)[..|a + b| - 1] == a + b[..|b| - 1];
      LastIndexOfAppend(a, b[..|b| - 1], c);
    }
  }

  lemma BaseOfElement(prefix: string, elem: string)
    requires elem != [] && '/' !in elem
    ensures Base(prefix + "/" + elem) == elem
    ensures Dir(prefix + "/" + elem) == (if StripTrailingSlashes(prefix) == "" then "/" else StripTrailingSlashes(prefix))
  {
    var p := prefix + "/" + elem;
    LastIndexOfAppend(prefix + "/", elem, '/');
    assert LastIndexOf(prefix + "/", '/') == |prefix|;
    assert p[|p| - 1] == elem[|elem| - 1];
    assert StripTrailingSlashes(p) == p;
    assert p[|prefix| + 1..] == elem;
    assert p[..|prefix|] == prefix;
  }

  /** A scoped path `…/@scope/pkg` names `@scope/pkg`; a path whose parent
      element is not a scope names its last element. */
  lemma ExtractScopedName(dir: string, scope: string, pkg: string)
    requires pkg != [] && '/' !in pkg && scope != [] && '/' !in scope
    ensures HasPrefix(scope, "@") ==> ExtractNpmPackageName(dir + "/" + scope + "/" + pkg) == scope + "/" + pkg
    ensures !HasPrefix(scope, "@") ==> ExtractNpmPackageName(dir + "/" + scope + "/" + pkg) == pkg
  {
    var parent := dir + "/" + scope;
    assert dir + "/" + scope + "/" + pkg == parent + "/" + pkg;
    BaseOfElement(parent, pkg);
    assert StripTrailingSlashes(parent) == parent by {
      assert parent[|parent| - 1] == scope[|scope| - 1];
    }
    BaseOfElement(dir, scope);
  }

  /** A path of two elements whose first is not a scope, such as
      `node_modules/pkg`, names its second element. */
  lemma ExtractTopLevelName(dir: string, pkg: string)
    requires pkg != [] && '/' !in pkg && dir != [] && '/' !in dir && !HasPrefix(dir, "@")
    ensures ExtractNpmPackageName(dir + "/" + pkg) == pkg
  {
    BaseOfElement(dir, pkg);
    assert StripTrailingSlashes(dir) == dir by {
      assert dir[|dir| - 1] in dir;
    }
    assert LastIndexOf(dir, '/') == -1;
  }

  // ---------------------------------------------------------------------------
  // tryExtractCommit: the five patterns as predicates on the resolution

  /** `\w` */
  predicate IsWordChar(c: char) {
    'a' <= c <= 'z' || 'A' <= c <= 'Z' || '0' <= c <= '9' || c == '_'
  }

  /** `\w+` over the whole string. */
  predicate IsWord(s: string) {
    |s| > 0 && forall k :: 0 <= k < |s| ==> IsWordChar(s[k])
  }

  /** `[\w-.]+` over the whole string. */
  predicate IsSegment(s: string) {
    |s| > 0 && forall k :: 0 <= k < |s| ==> IsWordChar(s[k]) || s[k] == '-' || s[k] == '.'
  }

  /** The text after the last occurrence of c (the whole string if there is none). */
  function AfterLast(s: string, c: char): (r: string)
    ensures c !in r && HasSuffix(s, r)
  {
    var i := LastIndexOf(s, c);
    assert s[i + 1..] == s[|s| - (|s| - i - 1)..];
    s[i + 1..]
  }

  /** `(?:^|.+@)` ending at p: the start of the text, or an '@' preceded by a
      character other than a newline. */
  predicate StartsAt(s: string, p: nat)
    requires p <= |s|
  {
    p == 0 || (p >= 2 && s[p - 1] == '@' && s[p - 2] != '\n')
  }

  predicate TextAt(s: string, p: nat, t: string) {
    p + |t| <= |s| && s[p..p + |t|] == t
  }

  /** `.+#(\w+)$` from position q: a non-empty run without newline up to the
      last '#', and a word after it to the end. */
  predicate HashWordFrom(s: string, q: nat) {
    var h := LastIndexOf(s, '#');
    q < h && '\n' !in s[q..h] && IsWord(s[h + 1..])
  }

  const GitSchemes: seq<string> := ["git://", "git+ssh://", "git+https://", "ssh://"]

  /** `(?:^|.+@)(?:git(?:\+(?:ssh|https))?|ssh)://.+#(\w+)$` */
  predicate GitSchemeMatch(s: string) {
    exists p: nat, i :: 0 <= i < |GitSchemes| && p <= |s| && StartsAt(s, p)
      && TextAt(s, p, GitSchemes[i]) && HashWordFrom(s, p + |GitSchemes[i]|)
  }

  /** `(?:^|.+@)https://.+\.git#(\w+)$` */
  predicate HttpsGitMatch(s: string) {
    var h := LastIndexOf(s, '#');
    && h >= 4 && s[h - 4..h] == ".git" && IsWord(s[h + 1..])
    && exists p: nat :: p + 8 < h - 4 && StartsAt(s, p) && TextAt(s, p, "https://") && '\n' !in s[p + 8..h - 4]
  }

  /** `https://codeload\.github\.com(?:/[\w-.]+){2}/tar\.gz/(\w+)$` */
  predicate CodeloadMatch(s: string) {
    var t := LastIndexOf(s, '/');
    && t >= 7 && s[t - 7..t + 1] == "/tar.gz/" && IsWord(s[t + 1..])
    && var j := LastIndexOf(s[..t - 7], '/');
    && j >= 0 && IsSegment(s[j + 1..t - 7])
    && var k := LastIndexOf(s[..j], '/');
    && k >= 0 && IsSegment(s[k + 1..j]) && HasSuffix(s[..k], "https://codeload.github.com")
  }

  /** `.+#commit[:=](\w+)$` */
  predicate CommitTagMatch(s: string) {
    var h := LastIndexOf(s, '#');
    var tail := s[h + 1..];
    && h >= 1 && s[h - 1] != '\n'
    && |tail| >= 7 && tail[..6] == "commit" && (tail[6] == ':' || tail[6] == '=') && IsWord(tail[7..])
  }

  const Shortcuts: seq<string> := ["github:", "gitlab:", "bitbucket:"]

  /** `^(?:github|gitlab|bitbucket):.+#(\w+)$` */
  predicate ShortcutMatch(s: string) {
    exists i :: 0 <= i < |Shortcuts| && HasPrefix(s, Shortcuts[i]) && HashWordFrom(s, |Shortcuts[i]|)
  }

  /** The five matchers, in the order they are tried. */
  datatype Matcher = GitScheme | HttpsGit | Codeload | CommitTag | Shortcut

  const Matchers: seq<Matcher> := [GitScheme, HttpsGit, Codeload, CommitTag, Shortcut]

  /** The first capture group of a matcher on the resolution, if it matches. */
  function Capture(m: Matcher, s: string): (r: Option<string>)
    ensures r.Some? ==> IsWord(r.value) && HasSuffix(s, r.value)
  {
    match m
    case GitScheme => if GitSchemeMatch(s) then Some(AfterLast(s, '#')) else None
    case HttpsGit => if HttpsGitMatch(s) then Some(AfterLast(s, '#')) else None
    case Codeload => if CodeloadMatch(s) then Some(AfterLast(s, '/')) else None
    case CommitTag =>
      if CommitTagMatch(s) then
        var tail := AfterLast(s, '#');
        assert HasSuffix(s, tail[7..]) by {
          assert tail[7..] == s[|s| - (|tail| - 7)..];
        }
        Some(tail[7..])
      else None
    case Shortcut => if ShortcutMatch(s) then Some(AfterLast(s, '#')) else None
  }

  /** The capture of the first matcher in `ms` that matches. */
  function FirstCapture(ms: seq<Matcher>, s: string): (r: Option<string>)
    ensures r.Some? ==> exists i :: 0 <= i < |ms| && Capture(ms[i], s) == r
    ensures r.None? <==> forall i :: 0 <= i < |ms| ==> Capture(ms[i], s).None?
  {
    if ms == [] then None
    else if Capture(ms[0], s).Some? then Capture(ms[0], s)
    else
      var r := FirstCapture(ms[1..], s);
      assert forall i :: 1 <= i < |ms| ==> ms[i] == ms[1..][i - 1];
      r
  }

  /** First match wins: the capture is that of the earliest matcher that matches. */
  lemma {:induction false} FirstCaptureLeast(ms: seq<Matcher>, s: string, i: nat)
    requires i < |ms| && Capture(ms[i], s).Some?
    requires forall j :: 0 <= j < i ==> Capture(ms[j], s).None?
    ensures FirstCapture(ms, s) == Capture(ms[i], s)
  {
    if i > 0 {
      assert forall j :: 0 <= j < i - 1 ==> ms[1..][j] == ms[j + 1];
      FirstCaptureLeast(ms[1..], s, i - 1);
    }
  }

  const GitRepoHosts: seq<string> := ["bitbucket.org", "github.com", "gitlab.com"]

  /** The host fallback: for a known git host, the "ref" query value when
      there is a query holding one, otherwise the fragment. */
  function HostCommit(u: Url): string {
    if u.host !in GitRepoHosts then ""
    else if u.rawQuery != "" && u.ref.Some? then u.ref.value
    else u.fragment
  }

  /** The commit tryExtractCommit finds in a resolution, given what url.Parse
      makes of it (None when it fails). */
  function ExtractCommit(resolution: string, parsed: Option<Url>): string {
    match FirstCapture(Matchers, resolution)
    case Some(c) => c
    case None => if parsed.Some? then HostCommit(parsed.value) else ""
  }

  /** A commit found by a pattern is a word that ends the resolution. */
  lemma PatternCommitIsSuffix(resolution: string, parsed: Option<Url>)
    requires FirstCapture(Matchers, resolution).Some?
    ensures var c := ExtractCommit(resolution, parsed);
            IsWord(c) && HasSuffix(resolution, c)
  {
  }

  /** A resolution with neither '#' nor '/' matches no pattern, so only the
      host fallback can give a commit; a plain semver version gives none. */
  lemma NoPatternWithoutHashOrSlash(resolution: string, parsed: Option<Url>)
    requires '#' !in resolution && '/' !in resolution
    ensures ExtractCommit(resolution, parsed) == (if parsed.Some? then HostCommit(parsed.value) else "")
  {
    assert LastIndexOf(resolution, '#') == -1;
    assert LastIndexOf(resolution, '/') == -1;
    forall i | 0 <= i < |Matchers| ensures Capture(Matchers[i], resolution).None? {
      if Matchers[i] == GitScheme {
        assert !GitSchemeMatch(resolution);
      } else if Matchers[i] == Shortcut {
        assert !ShortcutMatch(resolution);
      }
    }
  }

  /** Only the three git hosts give a commit through the fallback. */
  lemma HostCommitNeedsGitHost(u: Url)
    requires HostCommit(u) != ""
    ensures u.host == "bitbucket.org" || u.host == "github.com" || u.host == "gitlab.com"
  {
  }

  /** tryExtractCommit: the matchers in order, first match wins; then the
      known hosts in order. */
  method TryExtractCommit(resolution: string, parsed: Option<Url>) returns (commit: string)
    ensures commit == ExtractCommit(resolution, parsed)
  {
    for i := 0 to |Matchers|
      invariant FirstCapture(Matchers, resolution) == FirstCapture(Matchers[i..], resolution)
    {
      assert Matchers[i..][1..] == Matchers[i + 1..];
      var matched := Capture(Matchers[i], resolution);
      if matched.Some? {
        return matched.value;
      }
    }
    if parsed.Some? {
      var u := parsed.value;
      for j := 0 to |GitRepoHosts|
        invariant u.host !in GitRepoHosts[..j]
      {
        if u.host != GitRepoHosts[j] {
          continue;
        }
        if u.rawQuery != "" {
          if u.ref.Some? {
            return u.ref.value;
          }
        }
        return u.fragment;
      }
      assert GitRepoHosts[..|GitRepoHosts|] == GitRepoHosts;
    }
    return "";
  }

  // ---------------------------------------------------------------------------
  // parseNpmLockPackages (lockfile version 2 and later)

  /** The map key and the record one entry of "packages" produces. */
  function PackageEntry(namePath: string, pkg: LockPackage, parse: string -> Option<Url>): (string, PackageDetails) {
    var finalName := if pkg.name == "" then ExtractNpmPackageName(namePath) else pkg.name;
    var commit := ExtractCommit(pkg.resolved, parse(pkg.resolved));
    var finalVersion := if commit != "" then commit else pkg.version;
    (finalName + "@" + finalVersion,
     PackageDetails(finalName, pkg.version, commit, NpmEcosystem, NpmEcosystem, PackageGroups(pkg)))
  }

  /** The record under key k comes from some non-root entry of "packages". */
  ghost predicate FromPackages(packages: map<string, LockPackage>, parse: string -> Option<Url>, k: string, v: PackageDetails) {
    exists np :: np in packages && np != "" && PackageEntry(np, packages[np], parse) == (k, v)
  }

  /** The result of parseNpmLockPackages: every non-root entry's key is
      present, and every record comes from an entry with that key. */
  ghost predicate PackagesParsed(packages: map<string, LockPackage>, parse: string -> Option<Url>, details: map<string, PackageDetails>) {
    && (forall np :: np in packages && np != "" ==> PackageEntry(np, packages[np], parse).0 in details)
    && (forall k :: k in details ==> FromPackages(packages, parse, k, details[k]))
  }

  /** One entry of "packages", computed as the loop body does. */
  method ParsePackageEntry(namePath: string, detail: LockPackage, parse: string -> Option<Url>) returns (key: string, value: PackageDetails)
    ensures (key, value) == PackageEntry(namePath, detail, parse)
  {
    var finalName := detail.name;
    if finalName == "" {
      finalName := ExtractNpmPackageName(namePath);
    }
    var finalVersion := detail.version;
    var commit := TryExtractCommit(detail.resolved, parse(detail.resolved));
    if commit != "" {
      finalVersion := commit;
    }
    key := finalName + "@" + finalVersion;
    value := PackageDetails(finalName, detail.version, commit, NpmEcosystem, NpmEcosystem, PackageGroups(detail));
  }

  /** parseNpmLockPackages: the root entry "" is skipped; every other entry is
      written under its key, later entries overwriting earlier ones. */
  method ParseNpmLockPackages(packages: map<string, LockPackage>, parse: string -> Option<Url>) returns (details: map<string, PackageDetails>)
    ensures PackagesParsed(packages, parse, details)
  {
    details := map[];
    var rest := packages.Keys;
    while rest != {}
      invariant rest <= packages.Keys
      invariant forall np :: np in packages && np !in rest && np != "" ==> PackageEntry(np, packages[np], parse).0 in details
      invariant forall k :: k in details ==> FromPackages(packages, parse, k, details[k])
      decreases |rest|
    {
      var namePath :| namePath in rest;
      rest := rest - {namePath};
      if namePath == "" {
        continue;
      }
      var key, value := ParsePackageEntry(namePath, packages[namePath], parse);
      details := details[key := value];
    }
  }

  // ---------------------------------------------------------------------------
  // parseNpmLockDependencies (lockfile version 1)

  /** The message of Go's panic on an out-of-range slice expression, without
      the bounds the runtime appends to it. */
  const SliceOutOfRange := "runtime error: slice bounds out of range"

  /** The map key and the record one dependency produces; an "npm:" alias
      without an '@' after its prefix makes the slice expression panic. */
  function DependencyEntry(name: string, dep: LockDependency, parse: string -> Option<Url>): Result<(string, PackageDetails)> {
    var alias := HasPrefix(dep.version, "npm:");
    var i := LastIndexOf(dep.version, '@');
    if alias && i < 4 then Failure(SliceOutOfRange)
    else
      var pkgName := if alias then dep.version[4..i] else name;
      var aliasVersion := if alias then dep.version[i + 1..] else dep.version;
      var file := HasPrefix(dep.version, "file:");
      var commit := if file then "" else ExtractCommit(dep.version, parse(dep.version));
      var finalVersion := if file || commit != "" then "" else aliasVersion;
      var keyVersion := if commit != "" then commit else dep.version;
      Success((pkgName + "@" + keyVersion,
               PackageDetails(pkgName, finalVersion, commit, NpmEcosystem, NpmEcosystem, DependencyGroups(dep))))
  }

  /** `(n, d)` is an entry of owner's nested dependencies, at any depth. */
  ghost predicate Reaches(owner: LockDependency, n: string, d: LockDependency)
    decreases owner, 0
  {
    exists k :: k in owner.dependencies && Under(k, owner.dependencies[k], n, d)
  }

  /** `(n, d)` is the entry `(name, dep)` itself or one nested under it. */
  ghost predicate Under(name: string, dep: LockDependency, n: string, d: LockDependency)
    decreases dep, 1
  {
    (n == name && d == dep) || Reaches(dep, n, d)
  }

  /** The record under key k comes from some entry of the tree. */
  ghost predicate FromTree(owner: LockDependency, parse: string -> Option<Url>, k: string, v: PackageDetails) {
    exists n, d :: Reaches(owner, n, d) && DependencyEntry(n, d, parse) == Success((k, v))
  }

  /** Record v under key k is what the entry `(name, dep)` or one below it
      writes, and nothing on the way down from `(name, dep)` to that entry
      has key k: an entry's own record is written after its nested map is
      copied in, so an ancestor with the same key would overwrite it. */
  ghost predicate WinsUnder(name: string, dep: LockDependency, parse: string -> Option<Url>, k: string, v: PackageDetails)
    decreases dep, 1
  {
    var e := DependencyEntry(name, dep, parse);
    e == Success((k, v)) || (e.Success? && e.value.0 != k && Wins(dep, parse, k, v))
  }

  /** Record v under key k may survive in the map owner's nested
      dependencies produce: it is written by some entry of the tree none of
      whose proper ancestors below owner has key k. */
  ghost predicate Wins(owner: LockDependency, parse: string -> Option<Url>, k: string, v: PackageDetails)
    decreases owner, 0
  {
    exists name :: name in owner.dependencies && WinsUnder(name, owner.dependencies[name], parse, k, v)
  }

  /** Every entry under `(name, dep)` parses, and its key is in `keys`. */
  ghost predicate SubtreeIn(name: string, dep: LockDependency, parse: string -> Option<Url>, keys: set<string>) {
    forall n, d :: Under(name, dep, n, d) ==>
      DependencyEntry(n, d, parse).Success? && DependencyEntry(n, d, parse).value.0 in keys
  }

  /** The result of parseNpmLockDependencies on owner's nested map: it panics
      exactly when some entry of the tree does, with the slice-bounds panic;
      otherwise every entry's key is present and every record comes from an
      entry with that key none of whose ancestors has the same key. */
  ghost predicate DependenciesParsed(owner: LockDependency, parse: string -> Option<Url>, r: Result<map<string, PackageDetails>>) {
    && (r.Success? <==> forall n, d :: Reaches(owner, n, d) ==> DependencyEntry(n, d, parse).Success?)
    && (r.Failure? ==> r.error == SliceOutOfRange)
    && (r.Success? ==> forall n, d :: Reaches(owner, n, d) ==> DependencyEntry(n, d, parse).value.0 in r.value)
    && (r.Success? ==> forall k :: k in r.value ==> FromTree(owner, parse, k, r.value[k]))
    && (r.Success? ==> forall k :: k in r.value ==> Wins(owner, parse, k, r.value[k]))
  }

  /** A nested entry never overrides its parent's record under the same key:
      when owner has the single entry `(name, dep)`, whatever sits under
      that entry's own key is that entry's record. */
  lemma ParentRecordWins(owner: LockDependency, name: string, parse: string -> Option<Url>, v: PackageDetails)
    requires owner.dependencies.Keys == {name}
    requires DependencyEntry(name, owner.dependencies[name], parse).Success?
    requires Wins(owner, parse, DependencyEntry(name, owner.dependencies[name], parse).value.0, v)
    ensures v == DependencyEntry(name, owner.dependencies[name], parse).value.1
  {
    var e := DependencyEntry(name, owner.dependencies[name], parse).value;
    var n :| n in owner.dependencies && WinsUnder(n, owner.dependencies[n], parse, e.0, v);
    assert n == name;
  }

  lemma ReachesVia(owner: LockDependency, name: string, n: string, d: LockDependency)
    requires name in owner.dependencies && Under(name, owner.dependencies[name], n, d)
    ensures Reaches(owner, n, d)
  {
  }

  lemma SubtreeGrows(name: string, dep: LockDependency, parse: string -> Option<Url>, a: set<string>, b: set<string>)
    requires a <= b && SubtreeIn(name, dep, parse, a)
    ensures SubtreeIn(name, dep, parse, b)
  {
  }

  /** One dependency, computed as the loop body does after the recursive call. */
  method ParseDependencyEntry(name: string, detail: LockDependency, parse: string -> Option<Url>) returns (r: Result<(string, PackageDetails)>)
    ensures r == DependencyEntry(name, detail, parse)
  {
    var pkgName := name;
    var version := detail.version;
    var finalVersion := version;
    var commit := "";
    if HasPrefix(detail.version, "npm:") {
      var i := LastIndexOf(detail.version, '@');
      if i < 4 {
        return Failure(SliceOutOfRange);
      }
      pkgName := detail.version[4..i];
      finalVersion := detail.version[i + 1..];
    }
    if HasPrefix(detail.version, "file:") {
      finalVersion := "";
    } else {
      commit := TryExtractCommit(detail.version, parse(detail.version));
      if commit != "" {
        finalVersion := "";
        version := commit;
      }
    }
    r := Success((pkgName + "@" + version,
                  PackageDetails(pkgName, finalVersion, commit, NpmEcosystem, NpmEcosystem, DependencyGroups(detail))));
  }

  /** parseNpmLockDependencies on owner's nested map: for each entry, the
      nested tree first (merged in, overwriting), then the entry itself. */
  method ParseNpmLockDependencies(ghost owner: LockDependency, dependencies: map<string, LockDependency>, parse: string -> Option<Url>)
    returns (r: Result<map<string, PackageDetails>>)
    requires dependencies == owner.dependencies
    ensures DependenciesParsed(owner, parse, r)
    decreases owner
  {
    var details: map<string, PackageDetails> := map[];
    var rest := dependencies.Keys;
    while rest != {}
      invariant rest <= dependencies.Keys
      invariant forall k :: k in details ==> FromTree(owner, parse, k, details[k])
      invariant forall k :: k in details ==> Wins(owner, parse, k, details[k])
      invariant forall name :: name in dependencies && name !in rest ==> SubtreeIn(name, dependencies[name], parse, details.Keys)
      decreases |rest|
    {
      var name :| name in rest;
      rest := rest - {name};
      var detail := dependencies[name];
      assert detail in owner.dependencies.Values;
      var nested := ParseNpmLockDependencies(detail, detail.dependencies, parse);
      if nested.Failure? {
        ghost var n, d :| Reaches(detail, n, d) && DependencyEntry(n, d, parse).Failure?;
        ReachesVia(owner, name, n, d);
        return Failure(nested.error);
      }
      var entry := ParseDependencyEntry(name, detail, parse);
      if entry.Failure? {
        ReachesVia(owner, name, name, detail);
        return Failure(entry.error);
      }
      ghost var before := details;
      details := details + nested.value;
      details := details[entry.value.0 := entry.value.1];
      forall k | k in details
        ensures FromTree(owner, parse, k, details[k]) && Wins(owner, parse, k, details[k])
      {
        if k == entry.value.0 {
          ReachesVia(owner, name, name, detail);
          assert WinsUnder(name, dependencies[name], parse, k, details[k]);
        } else if k in nested.value {
          var n, d :| Reaches(detail, n, d) && DependencyEntry(n, d, parse) == Success((k, details[k]));
          ReachesVia(owner, name, n, d);
          assert Wins(detail, parse, k, nested.value[k]);
          assert WinsUnder(name, dependencies[name], parse, k, details[k]);
        }
      }
      forall nm | nm in dependencies && nm !in rest
        ensures SubtreeIn(nm, dependencies[nm], parse, details.Keys)
      {
        if nm != name {
          SubtreeGrows(nm, dependencies[nm], parse, before.Keys, details.Keys);
        }
      }
    }
    r := Success(details);
    forall n, d | Reaches(owner, n, d)
      ensures DependencyEntry(n, d, parse).Success? && DependencyEntry(n, d, parse).value.0 in details
    {
      var k :| k in owner.dependencies && Under(k, owner.dependencies[k], n, d);
      assert SubtreeIn(k, dependencies[k], parse, details.Keys);
    }
  }

  // ---------------------------------------------------------------------------
  // parseNpmLock, extract and ParseNpmLock

  /** The v1 tree of a lockfile, as the entry that owns the top-level map. */
  function Root(lockfile: NpmLockfile): LockDependency {
    LockDependency("", lockfile.dependencies, false, false)
  }

  /** Key k holds record v in the map parseNpmLock builds from the lockfile. */
  ghost predicate Emitted(lockfile: NpmLockfile, parse: string -> Option<Url>, k: string, v: PackageDetails) {
    if lockfile.packages.Some? then FromPackages(lockfile.packages.value, parse, k, v)
    else FromTree(Root(lockfile), parse, k, v)
  }

  /** parseNpmLock returns normally: always for a v2+ "packages" map, and for
      a v1 tree when no entry of it panics. */
  ghost predicate Parses(lockfile: NpmLockfile, parse: string -> Option<Url>) {
    lockfile.packages.Some? ||
    forall n, d :: Reaches(Root(lockfile), n, d) ==> DependencyEntry(n, d, parse).Success?
  }

  /** `details` is a map parseNpmLock may build from the lockfile. */
  ghost predicate Parsed(lockfile: NpmLockfile, parse: string -> Option<Url>, details: map<string, PackageDetails>) {
    if lockfile.packages.Some? then PackagesParsed(lockfile.packages.value, parse, details)
    else DependenciesParsed(Root(lockfile), parse, Success(details))
  }

  /** parseNpmLock: the v2+ "packages" map when present, else the v1 tree. */
  method ParseNpmLockfile(lockfile: NpmLockfile, parse: string -> Option<Url>) returns (r: Result<map<string, PackageDetails>>)
    ensures lockfile.packages.Some? ==> r.Success? && PackagesParsed(lockfile.packages.value, parse, r.value)
    ensures lockfile.packages.None? ==> DependenciesParsed(Root(lockfile), parse, r)
    ensures r.Success? <==> Parses(lockfile, parse)
    ensures r.Failure? ==> r.error == SliceOutOfRange
    ensures r.Success? ==> Parsed(lockfile, parse, r.value)
    ensures r.Success? ==> forall k :: k in r.value ==> Emitted(lockfile, parse, k, r.value[k])
  {
    if lockfile.packages.Some? {
      var details := ParseNpmLockPackages(lockfile.packages.value, parse);
      return Success(details);
    }
    r := ParseNpmLockDependencies(Root(lockfile), lockfile.dependencies, parse);
  }

  /** Every record parseNpmLock emits is in the npm ecosystem and compared as npm. */
  lemma EmittedIsNpm(lockfile: NpmLockfile, parse: string -> Option<Url>, k: string, v: PackageDetails)
    requires Emitted(lockfile, parse, k, v)
    ensures v.ecosystem == NpmEcosystem && v.compareAs == NpmEcosystem
  {
    if lockfile.packages.None? {
      var n, d :| Reaches(Root(lockfile), n, d) && DependencyEntry(n, d, parse) == Success((k, v));
    }
  }

  /** A v2+ record keeps the lockfile's version verbatim and is keyed by the
      commit when one was found in "resolved", else by that version. */
  lemma PackageEntryVersion(namePath: string, pkg: LockPackage, parse: string -> Option<Url>)
    ensures var e := PackageEntry(namePath, pkg, parse);
            var commit := ExtractCommit(pkg.resolved, parse(pkg.resolved));
            && e.1.version == pkg.version && e.1.commit == commit
            && e.0 == e.1.name + "@" + (if commit != "" then commit else pkg.version)
            && (pkg.name != "" ==> e.1.name == pkg.name)
  {
  }

  /** A v1 "file:" dependency has no version and no commit; a v1 dependency
      with a commit has no version and is keyed by the commit. */
  lemma DependencyEntryVersion(name: string, dep: LockDependency, parse: string -> Option<Url>)
    requires DependencyEntry(name, dep, parse).Success?
    ensures var e := DependencyEntry(name, dep, parse).value;
            && (HasPrefix(dep.version, "file:") ==> e.1.version == "" && e.1.commit == "")
            && (e.1.commit != "" ==> e.1.version == "" && e.0 == e.1.name + "@" + e.1.commit)
  {
  }

  /** An "npm:<name>@<version>" alias names the text between the prefix and
      the last '@', at the text after it; one with no '@' past the prefix panics. */
  lemma AliasEntry(name: string, alias: string, version: string, dep: LockDependency, parse: string -> Option<Url>)
    requires dep.version == "npm:" + alias + "@" + version && '@' !in version
    ensures DependencyEntry(name, dep, parse).Success?
    ensures var e := DependencyEntry(name, dep, parse).value.1;
            e.name == alias && (e.commit == "" ==> e.version == version)
  {
    var s := dep.version;
    var head := "npm:" + alias + "@";
    assert s == head + version;
    LastIndexOfAppend(head, version, '@');
    assert LastIndexOf(head, '@') == 4 + |alias|;
    assert s[..4] == "npm:";
    assert s[0] == 'n';
    assert !HasPrefix(s, "file:");
    assert s[4..4 + |alias|] == alias;
    assert s[5 + |alias|..] == version;
  }

  lemma AliasPanics(name: string, dep: LockDependency, parse: string -> Option<Url>)
    requires HasPrefix(dep.version, "npm:") && '@' !in dep.version[4..]
    ensures DependencyEntry(name, dep, parse).Failure?
  {
    var s := dep.version;
    forall k | 4 <= k < |s| ensures s[k] != '@' {
      assert s[k] == s[4..][k - 4];
    }
  }

  /** ParseNpmLock on an already decoded lockfile (None when decoding failed):
      the records of a map parseNpmLock builds, each once, in the map's
      unspecified order (`keys`), all in the npm ecosystem; once decoded it
      fails exactly when parseNpmLock panics. */
  method ParseNpmLock(depFile: DepFile, lockfile: Option<NpmLockfile>, parse: string -> Option<Url>)
    returns (r: Result<seq<PackageDetails>>, ghost details: map<string, PackageDetails>, ghost keys: seq<string>)
    ensures lockfile.None? ==> r == Failure("could not extract from " + depFile.path)
    ensures lockfile.Some? && lockfile.value.packages.Some? ==> r.Success?
    ensures lockfile.Some? ==> (r.Success? <==> Parses(lockfile.value, parse))
    ensures lockfile.Some? && r.Failure? ==> r.error == SliceOutOfRange
    ensures r.Success? ==> lockfile.Some? && Parsed(lockfile.value, parse, details)
    ensures r.Success? ==> EnumeratesKeys(keys, details) && r.value == Lookup(keys, details)
    ensures r.Success? ==> forall i :: 0 <= i < |r.value| ==> r.value[i].ecosystem == NpmEcosystem && r.value[i].compareAs == NpmEcosystem
  {
    details, keys := map[], [];
    if lockfile.None? {
      return Failure("could not extract from " + depFile.path), details, keys;
    }
    var parsed := ParseNpmLockfile(lockfile.value, parse);
    if parsed.Failure? {
      return Failure(parsed.error), details, keys;
    }
    forall k | k in parsed.value
      ensures parsed.value[k].ecosystem == NpmEcosystem && parsed.value[k].compareAs == NpmEcosystem
    {
      EmittedIsNpm(lockfile.value, parse, k, parsed.value[k]);
    }
    var values;
    values, keys := MapValues(parsed.value);
    details := parsed.value;
    r := Success(values);
  }
}
