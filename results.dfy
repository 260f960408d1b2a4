/** The scan report (models/results.go): per-source results, the flattened
    view, group lookup and the small string renderings. */
module Results {
  import opened Common

  datatype SourceInfo = SourceInfo(path: string, typ: string)

  /** What a query carries besides the package: the repository URL for
      ecosystem-less packages and the dependency groups. */
  datatype Metadata = Metadata(repoURL: string, depGroups: seq<string>)

  datatype PackageInfo = PackageInfo(name: string, version: string, ecosystem: string)

  /** A set of vulnerability records that name the same issue. */
  datatype GroupInfo = GroupInfo(ids: seq<string>, aliases: seq<string>, maxSeverity: string)

  // The parts of an OSV vulnerability record that the core reads.
  datatype Package = Package(ecosystem: string, name: string)
  datatype Event = Event(introduced: string, fixed: string)
  datatype Range = Range(events: seq<Event>)
  datatype Affected = Affected(pkg: Package, ranges: seq<Range>)
  datatype Vulnerability = Vulnerability(id: string, aliases: seq<string>, affected: seq<Affected>)

  datatype PackageVulns = PackageVulns(
    pkg: PackageInfo,
    depGroups: seq<string>,
    vulnerabilities: seq<Vulnerability>,
    groups: seq<GroupInfo>)

  datatype PackageSource = PackageSource(source: SourceInfo, packages: seq<PackageVulns>)

  datatype VulnerabilityResults = VulnerabilityResults(results: seq<PackageSource>)

  datatype VulnerabilityFlattened = VulnerabilityFlattened(
    source: SourceInfo,
    pkg: PackageInfo,
    depGroups: seq<string>,
    vulnerability: Vulnerability,
    groupInfo: GroupInfo)

  // ---------------------------------------------------------------------------
  // String renderings

  /** SourceInfo.String */
  function SourceString(s: SourceInfo): (r: string)
    ensures |r| == |s.typ| + 1 + |s.path|
    ensures HasPrefix(r, s.typ) && HasSuffix(r, s.path) && r[|s.typ|] == ':'
  {
    s.typ + ":" + s.path
  }

  /** Whenever the type has no colon, the rendering can be cut back into type and path. */
  lemma SourceStringCut(s: SourceInfo)
    requires ':' !in s.typ
    ensures Cut(SourceString(s), ":") == (s.typ, s.path, true)
  {
    var r := SourceString(s);
    assert OccursAt(r, ":", |s.typ|);
    forall k | 0 <= k < |s.typ|
      ensures !OccursAt(r, ":", k)
    {
      assert r[k] == s.typ[k];
    }
    assert r[..|s.typ|] == s.typ;
    assert r[|s.typ| + 1..] == s.path;
  }

  /** GroupInfo.IsCalled: the reachability analysis is not implemented, so it never reports a call. */
  function IsCalled(g: GroupInfo): (r: bool)
    ensures !r
  {
    if |g.ids| == 0 then false else false
  }

  /** GroupInfo.IndexString: the member ids joined with commas. */
  function IndexString(g: GroupInfo): (r: string)
    ensures |g.ids| == 1 ==> r == g.ids[0]
    ensures |g.ids| > 1 ==> HasPrefix(r, g.ids[0] + ",")
  {
    Join(g.ids, ",")
  }

  function FirstIndex(s: string, c: char): (r: nat)
    requires c in s
    ensures r < |s| && s[r] == c
    ensures forall k :: 0 <= k < r ==> s[k] != c
  {
    if s[0] == c then 0 else FirstIndex(s[1..], c) + 1
  }

  /** strings.Split with a one-character separator. */
  function SplitOn(s: string, c: char): (r: seq<string>)
    ensures |r| >= 1
    decreases |s|
  {
    if c !in s then [s]
    else
      var i := FirstIndex(s, c);
      [s[..i]] + SplitOn(s[i + 1..], c)
  }

  /** The index string determines the group's ids when no id contains a comma. */
  lemma {:induction false} IndexStringRoundTrip(ids: seq<string>)
    requires |ids| > 0
    requires forall k :: 0 <= k < |ids| ==> ',' !in ids[k]
    ensures SplitOn(IndexString(GroupInfo(ids, [], "")), ',') == ids
  {
    if |ids| > 1 {
      var s := Join(ids, ",");
      var tail := Join(ids[1..], ",");
      assert s == ids[0] + "," + tail;
      assert s[|ids[0]|] == ',';
      assert forall k :: 0 <= k < |ids[0]| ==> s[k] == ids[0][k];
      assert FirstIndex(s, ',') == |ids[0]|;
      assert s[..|ids[0]|] == ids[0];
      assert s[|ids[0]| + 1..] == tail;
      IndexStringRoundTrip(ids[1..]);
      assert IndexString(GroupInfo(ids[1..], [], "")) == tail;
      assert ids == [ids[0]] + ids[1..];
    }
  }

  // ---------------------------------------------------------------------------
  // Group lookup and the flattened view

  /** slices.IndexFunc with "the group's ids contain `id`". */
  function GroupIndex(groups: seq<GroupInfo>, id: string): (r: int)
    ensures -1 <= r < |groups|
    ensures r >= 0 ==> id in groups[r].ids
    ensures forall k :: 0 <= k < |groups| && (r == -1 || k < r) ==> id !in groups[k].ids
  {
    if |groups| == 0 then -1
    else if id in groups[0].ids then 0
    else
      var r := GroupIndex(groups[1..], id);
      if r < 0 then -1 else r + 1
  }

  predicate InSomeGroup(groups: seq<GroupInfo>, id: string) {
    exists k :: 0 <= k < |groups| && id in groups[k].ids
  }

  /** getGroupInfoForVuln: the first group whose ids contain `id`. Go indexes
      with -1 and panics when there is none, so a covering group is required. */
  function GetGroupInfoForVuln(groups: seq<GroupInfo>, id: string): (r: GroupInfo)
    requires InSomeGroup(groups, id)
    ensures id in r.ids
    ensures exists k :: 0 <= k < |groups| && groups[k] == r
                        && forall j :: 0 <= j < k ==> id !in groups[j].ids
  {
    var k := GroupIndex(groups, id);
    groups[k]
  }

  /** Every vulnerability of a package is covered by one of that package's groups. */
  ghost predicate Covered(results: seq<PackageSource>) {
    forall i, j, k :: 0 <= i < |results| && 0 <= j < |results[i].packages|
      && 0 <= k < |results[i].packages[j].vulnerabilities|
      ==> InSomeGroup(results[i].packages[j].groups, results[i].packages[j].vulnerabilities[k].id)
  }

  predicate PackageCovered(pkg: PackageVulns) {
    forall k :: 0 <= k < |pkg.vulnerabilities| ==> InSomeGroup(pkg.groups, pkg.vulnerabilities[k].id)
  }

  function FlatEntry(source: SourceInfo, pkg: PackageVulns, k: nat): VulnerabilityFlattened
    requires k < |pkg.vulnerabilities| && PackageCovered(pkg)
  {
    var v := pkg.vulnerabilities[k];
    VulnerabilityFlattened(source, pkg.pkg, pkg.depGroups, v, GetGroupInfoForVuln(pkg.groups, v.id))
  }

  function FlattenVulns(source: SourceInfo, pkg: PackageVulns): seq<VulnerabilityFlattened>
    requires PackageCovered(pkg)
  {
    seq(|pkg.vulnerabilities|, k requires 0 <= k < |pkg.vulnerabilities| => FlatEntry(source, pkg, k))
  }

  function FlattenPackages(source: SourceInfo, pkgs: seq<PackageVulns>): seq<VulnerabilityFlattened>
    requires forall j :: 0 <= j < |pkgs| ==> PackageCovered(pkgs[j])
  {
    if pkgs == [] then []
    else FlattenPackages(source, pkgs[..|pkgs| - 1]) + FlattenVulns(source, pkgs[|pkgs| - 1])
  }

  predicate SourcesCovered(results: seq<PackageSource>) {
    forall i, j :: 0 <= i < |results| && 0 <= j < |results[i].packages| ==> PackageCovered(results[i].packages[j])
  }

  function FlattenSources(results: seq<PackageSource>): seq<VulnerabilityFlattened>
    requires SourcesCovered(results)
  {
    if results == [] then []
    else
      var last := results[|results| - 1];
      FlattenSources(results[..|results| - 1]) + FlattenPackages(last.source, last.packages)
  }

  /** VulnerabilityResults.Flatten: the nested loops, one entry per vulnerability. */
  method Flatten(vulns: VulnerabilityResults) returns (results: seq<VulnerabilityFlattened>)
    requires SourcesCovered(vulns.results)
    ensures results == FlattenSources(vulns.results)
  {
    results := [];
    var rs := vulns.results;
    for i := 0 to |rs|
      invariant results == FlattenSources(rs[..i])
    {
      var res := rs[i];
      results := AppendPackages(results, res.source, res.packages);
      assert rs[..i + 1][..i] == rs[..i];
    }
    assert rs[..|rs|] == rs;
  }

  /** The middle loop of Flatten: every package of one source. */
  method AppendPackages(results0: seq<VulnerabilityFlattened>, source: SourceInfo, pkgs: seq<PackageVulns>)
    returns (results: seq<VulnerabilityFlattened>)
    requires forall j :: 0 <= j < |pkgs| ==> PackageCovered(pkgs[j])
    ensures results == results0 + FlattenPackages(source, pkgs)
  {
    results := results0;
    for j := 0 to |pkgs|
      invariant results == results0 + FlattenPackages(source, pkgs[..j])
    {
      results := AppendVulns(results, source, pkgs[j]);
      assert pkgs[..j + 1][..j] == pkgs[..j];
    }
    assert pkgs[..|pkgs|] == pkgs;
  }

  /** The innermost loop of Flatten: one entry per vulnerability of a package. */
  method AppendVulns(results0: seq<VulnerabilityFlattened>, source: SourceInfo, pkg: PackageVulns)
    returns (results: seq<VulnerabilityFlattened>)
    requires PackageCovered(pkg)
    ensures results == results0 + FlattenVulns(source, pkg)
  {
    results := results0;
    for k := 0 to |pkg.vulnerabilities|
      invariant results == results0 + FlattenVulns(source, pkg)[..k]
    {
      var v := pkg.vulnerabilities[k];
      results := results + [VulnerabilityFlattened(source, pkg.pkg, pkg.depGroups, v, GetGroupInfoForVuln(pkg.groups, v.id))];
    }
    assert FlattenVulns(source, pkg)[..|pkg.vulnerabilities|] == FlattenVulns(source, pkg);
  }

  function PackagesVulnCount(pkgs: seq<PackageVulns>): nat {
    if pkgs == [] then 0 else PackagesVulnCount(pkgs[..|pkgs| - 1]) + |pkgs[|pkgs| - 1].vulnerabilities|
  }

  function TotalVulns(results: seq<PackageSource>): nat {
    if results == [] then 0
    else TotalVulns(results[..|results| - 1]) + PackagesVulnCount(results[|results| - 1].packages)
  }

  /** The flattened view has one entry per vulnerability over all sources and packages. */
  lemma {:induction false} FlattenLength(results: seq<PackageSource>)
    requires SourcesCovered(results)
    ensures |FlattenSources(results)| == TotalVulns(results)
  {
    if results != [] {
      FlattenLength(results[..|results| - 1]);
      var last := results[|results| - 1];
      FlattenPackagesLength(last.source, last.packages);
    }
  }

  lemma {:induction false} FlattenPackagesLength(source: SourceInfo, pkgs: seq<PackageVulns>)
    requires forall j :: 0 <= j < |pkgs| ==> PackageCovered(pkgs[j])
    ensures |FlattenPackages(source, pkgs)| == PackagesVulnCount(pkgs)
  {
    if pkgs != [] {
      FlattenPackagesLength(source, pkgs[..|pkgs| - 1]);
    }
  }

  /** Every flattened entry carries its enclosing source, package and dependency
      groups, one of that package's vulnerabilities, and a group that covers it. */
  ghost predicate EntryFrom(e: VulnerabilityFlattened, source: SourceInfo, pkg: PackageVulns) {
    exists k :: 0 <= k < |pkg.vulnerabilities| &&
      e == VulnerabilityFlattened(source, pkg.pkg, pkg.depGroups, pkg.vulnerabilities[k], e.groupInfo)
      && e.groupInfo in pkg.groups && e.vulnerability.id in e.groupInfo.ids
  }

  lemma {:induction false} FlattenPackagesEntries(source: SourceInfo, pkgs: seq<PackageVulns>)
    requires forall j :: 0 <= j < |pkgs| ==> PackageCovered(pkgs[j])
    ensures forall e :: e in FlattenPackages(source, pkgs) ==> exists j :: 0 <= j < |pkgs| && EntryFrom(e, source, pkgs[j])
  {
    if pkgs != [] {
      var init := pkgs[..|pkgs| - 1];
      var last := pkgs[|pkgs| - 1];
      FlattenPackagesEntries(source, init);
      forall e | e in FlattenPackages(source, pkgs)
        ensures exists j :: 0 <= j < |pkgs| && EntryFrom(e, source, pkgs[j])
      {
        if e in FlattenPackages(source, init) {
          var j :| 0 <= j < |init| && EntryFrom(e, source, init[j]);
          assert pkgs[j] == init[j];
        } else {
          assert e in FlattenVulns(source, last);
          var k :| 0 <= k < |last.vulnerabilities| && FlattenVulns(source, last)[k] == e;
          assert EntryFrom(e, source, pkgs[|pkgs| - 1]);
        }
      }
    }
  }

  lemma {:induction false} FlattenEntries(results: seq<PackageSource>)
    requires SourcesCovered(results)
    ensures forall e :: e in FlattenSources(results) ==>
      exists i, j :: 0 <= i < |results| && 0 <= j < |results[i].packages| && EntryFrom(e, results[i].source, results[i].packages[j])
  {
    if results != [] {
      var init := results[..|results| - 1];
      var last := results[|results| - 1];
      FlattenEntries(init);
      FlattenPackagesEntries(last.source, last.packages);
      forall e | e in FlattenSources(results)
        ensures exists i, j :: 0 <= i < |results| && 0 <= j < |results[i].packages| && EntryFrom(e, results[i].source, results[i].packages[j])
      {
        if e in FlattenSources(init) {
          var i, j :| 0 <= i < |init| && 0 <= j < |init[i].packages| && EntryFrom(e, init[i].source, init[i].packages[j]);
          assert results[i] == init[i];
        } else {
          var j :| 0 <= j < |last.packages| && EntryFrom(e, last.source, last.packages[j]);
          assert results[|results| - 1] == last;
        }
      }
    }
  }

  // ---------------------------------------------------------------------------
  // Fixed versions

  /** The ecosystem part before the first ':' (strings.Split(eco, ":")[0]). */
  function EcosystemBase(eco: string): (r: string)
    ensures ':' !in r
    ensures ':' !in eco ==> r == eco
  {
    var c := Cut(eco, ":");
    if c.2 then
      assert ':' !in c.0 by {
        forall k | 0 <= k < |c.0|
          ensures c.0[k] != ':'
        {
          assert !OccursAt(c.0, ":", k);
          assert c.0[k..k + 1] == [c.0[k]];
        }
      }
      c.0
    else
      assert ':' !in eco by {
        forall k | 0 <= k < |eco|
          ensures eco[k] != ':'
        {
          assert !OccursAt(eco, ":", k);
          assert eco[k..k + 1] == [eco[k]];
        }
      }
      eco
  }

  /** The key after an event: truncated to the base ecosystem once a colon is seen. */
  function NextKey(key: Package): Package {
    if Contains(key.ecosystem, ":") then key.(ecosystem := EcosystemBase(key.ecosystem)) else key
  }

  /** The events of all ranges, in order. */
  function AllEvents(ranges: seq<Range>): seq<Event> {
    if ranges == [] then [] else AllEvents(ranges[..|ranges| - 1]) + ranges[|ranges| - 1].events
  }

  /** The number of events that carry a fixed version. */
  function FixedCount(events: seq<Event>): nat {
    if events == [] then 0
    else FixedCount(events[..|events| - 1]) + (if events[|events| - 1].fixed != "" then 1 else 0)
  }

  /** The key in use after `events`: truncated once the first fixed version has been appended. */
  function KeyAfter(key: Package, events: seq<Event>): Package {
    if FixedCount(events) > 0 then NextKey(key) else key
  }

  /** The appends one affected entry performs for `events`, in order: each
      fixed version goes to the current key and then to the (possibly
      truncated) next key. */
  function AppendsFrom(key: Package, events: seq<Event>): seq<(Package, string)> {
    if events == [] then []
    else
      var init := events[..|events| - 1];
      var ev := events[|events| - 1];
      AppendsFrom(key, init)
      + (if ev.fixed != "" then [(KeyAfter(key, init), ev.fixed), (NextKey(key), ev.fixed)] else [])
  }

  /** All appends FixedVersions performs, affected entry by affected entry. */
  function Appends(affected: seq<Affected>): seq<(Package, string)> {
    if affected == [] then []
    else
      var last := affected[|affected| - 1];
      Appends(affected[..|affected| - 1]) + AppendsFrom(last.pkg, AllEvents(last.ranges))
  }

  /** `output[k] = append(output[k], v)` */
  function AddFixed(m: map<Package, seq<string>>, k: Package, v: string): map<Package, seq<string>> {
    m[k := (if k in m then m[k] else []) + [v]]
  }

  /** The map `m` after the appends `xs`, in order. */
  function Extend(m: map<Package, seq<string>>, xs: seq<(Package, string)>): map<Package, seq<string>> {
    if xs == [] then m
    else AddFixed(Extend(m, xs[..|xs| - 1]), xs[|xs| - 1].0, xs[|xs| - 1].1)
  }

  /** The map the appends build from an empty map, one slice per key. */
  function Collect(xs: seq<(Package, string)>): map<Package, seq<string>> {
    Extend(map[], xs)
  }

  lemma ExtendSnoc(m: map<Package, seq<string>>, xs: seq<(Package, string)>, k: Package, v: string)
    ensures Extend(m, xs + [(k, v)]) == AddFixed(Extend(m, xs), k, v)
  {
    assert (xs + [(k, v)])[..|xs|] == xs;
  }

  lemma {:induction false} ExtendConcat(m: map<Package, seq<string>>, xs: seq<(Package, string)>, ys: seq<(Package, string)>)
    ensures Extend(m, xs + ys) == Extend(Extend(m, xs), ys)
    decreases |ys|
  {
    if ys == [] {
      assert xs + ys == xs;
    } else {
      var init := ys[..|ys| - 1];
      ExtendConcat(m, xs, init);
      assert (xs + ys)[..|xs + ys| - 1] == xs + init;
    }
  }

  /** NextKey is idempotent: a truncated ecosystem has no colon left. */
  lemma NextKeyIdempotent(key: Package)
    ensures NextKey(NextKey(key)) == NextKey(key)
  {
  }

  /** Vulnerability.FixedVersions */
  method FixedVersions(v: Vulnerability) returns (output: map<Package, seq<string>>)
    ensures output == Collect(Appends(v.affected))
  {
    output := map[];
    for i := 0 to |v.affected|
      invariant output == Collect(Appends(v.affected[..i]))
    {
      var a := v.affected[i];
      ghost var prev := Appends(v.affected[..i]);
      output := AppendAffected(output, a);
      ExtendConcat(map[], prev, AppendsFrom(a.pkg, AllEvents(a.ranges)));
      assert v.affected[..i + 1][..i] == v.affected[..i];
    }
    assert v.affected[..|v.affected|] == v.affected;
  }

  /** The ranges loop of FixedVersions for one affected entry. */
  method AppendAffected(output0: map<Package, seq<string>>, a: Affected) returns (output: map<Package, seq<string>>)
    ensures output == Extend(output0, AppendsFrom(a.pkg, AllEvents(a.ranges)))
  {
    output := output0;
    var packageKey := a.pkg;
    for r := 0 to |a.ranges|
      invariant packageKey == KeyAfter(a.pkg, AllEvents(a.ranges[..r]))
      invariant output == Extend(output0, AppendsFrom(a.pkg, AllEvents(a.ranges[..r])))
    {
      output, packageKey := AppendEvents(output0, a.pkg, AllEvents(a.ranges[..r]), output, packageKey, a.ranges[r].events);
      assert a.ranges[..r + 1][..r] == a.ranges[..r];
      assert AllEvents(a.ranges[..r + 1]) == AllEvents(a.ranges[..r]) + a.ranges[r].events;
    }
    assert a.ranges[..|a.ranges|] == a.ranges;
  }

  /** The events loop of FixedVersions: `key` is the affected entry's own key,
      `seen` the events of its earlier ranges. */
  method AppendEvents(ghost output0: map<Package, seq<string>>, ghost key: Package, ghost seen: seq<Event>,
                      outputIn: map<Package, seq<string>>, keyIn: Package, events: seq<Event>)
    returns (output: map<Package, seq<string>>, packageKey: Package)
    requires keyIn == KeyAfter(key, seen)
    requires outputIn == Extend(output0, AppendsFrom(key, seen))
    ensures packageKey == KeyAfter(key, seen + events)
    ensures output == Extend(output0, AppendsFrom(key, seen + events))
  {
    output, packageKey := outputIn, keyIn;
    assert seen + events[..0] == seen;
    for e := 0 to |events|
      invariant packageKey == KeyAfter(key, seen + events[..e])
      invariant output == Extend(output0, AppendsFrom(key, seen + events[..e]))
    {
      var ev := events[e];
      PrefixSnoc(seen, events, e);
      if ev.fixed != "" {
        FixedStep(output0, key, seen + events[..e], ev, output);
        output := AddFixed(output, packageKey, ev.fixed);
        ghost var keyBefore := packageKey;
        if Contains(packageKey.ecosystem, ":") {
          packageKey := packageKey.(ecosystem := EcosystemBase(packageKey.ecosystem));
        }
        assert packageKey == NextKey(keyBefore);
        output := AddFixed(output, packageKey, ev.fixed);
      } else {
        AppendsFromSnoc(key, seen + events[..e], ev);
        assert AppendsFrom(key, seen + events[..e] + [ev]) == AppendsFrom(key, seen + events[..e]);
      }
    }
    assert events[..|events|] == events;
  }

  lemma PrefixSnoc<T>(seen: seq<T>, xs: seq<T>, e: nat)
    requires e < |xs|
    ensures seen + xs[..e + 1] == (seen + xs[..e]) + [xs[e]]
  {
    assert xs[..e + 1] == xs[..e] + [xs[e]];
  }

  /** One event with a fixed version: the two appends extend the map by the
      next two entries of AppendsFrom, and leave the key truncated. */
  lemma FixedStep(output0: map<Package, seq<string>>, key: Package, consumed: seq<Event>, ev: Event,
                  m: map<Package, seq<string>>)
    requires ev.fixed != ""
    requires m == Extend(output0, AppendsFrom(key, consumed))
    ensures AddFixed(AddFixed(m, KeyAfter(key, consumed), ev.fixed), NextKey(KeyAfter(key, consumed)), ev.fixed)
         == Extend(output0, AppendsFrom(key, consumed + [ev]))
    ensures NextKey(KeyAfter(key, consumed)) == KeyAfter(key, consumed + [ev])
  {
    var prev := AppendsFrom(key, consumed);
    var k1 := KeyAfter(key, consumed);
    NextKeyIdempotent(key);
    assert NextKey(k1) == NextKey(key);
    AppendsFromSnoc(key, consumed, ev);
    ExtendSnoc(output0, prev, k1, ev.fixed);
    ExtendSnoc(output0, prev + [(k1, ev.fixed)], NextKey(key), ev.fixed);
    assert prev + [(k1, ev.fixed)] + [(NextKey(key), ev.fixed)] == prev + [(k1, ev.fixed), (NextKey(key), ev.fixed)];
  }

  lemma AppendsFromSnoc(key: Package, events: seq<Event>, ev: Event)
    ensures AppendsFrom(key, events + [ev]) == AppendsFrom(key, events)
      + (if ev.fixed != "" then [(KeyAfter(key, events), ev.fixed), (NextKey(key), ev.fixed)] else [])
    ensures KeyAfter(key, events + [ev]) == if ev.fixed != "" then NextKey(key) else KeyAfter(key, events)
  {
    assert (events + [ev])[..|events|] == events;
  }

  /** Each event with a fixed version appends exactly twice; the others append nothing. */
  lemma {:induction false} AppendsFromCount(key: Package, events: seq<Event>)
    ensures |AppendsFrom(key, events)| == 2 * FixedCount(events)
  {
    if events != [] {
      AppendsFromCount(key, events[..|events| - 1]);
    }
  }

  function AffectedFixedCount(affected: seq<Affected>): nat {
    if affected == [] then 0
    else AffectedFixedCount(affected[..|affected| - 1]) + FixedCount(AllEvents(affected[|affected| - 1].ranges))
  }

  lemma {:induction false} AppendsCount(affected: seq<Affected>)
    ensures |Appends(affected)| == 2 * AffectedFixedCount(affected)
  {
    if affected != [] {
      var last := affected[|affected| - 1];
      AppendsFromCount(last.pkg, AllEvents(last.ranges));
      AppendsCount(affected[..|affected| - 1]);
    }
  }

  /** The values the appends put under one key, in order. */
  function ValuesFor(xs: seq<(Package, string)>, k: Package): seq<string> {
    if xs == [] then []
    else ValuesFor(xs[..|xs| - 1], k) + (if xs[|xs| - 1].0 == k then [xs[|xs| - 1].1] else [])
  }

  /** Each key's slice is exactly the values appended under that key, in order. */
  lemma {:induction false} CollectValues(xs: seq<(Package, string)>, k: Package)
    ensures k in Collect(xs) <==> ValuesFor(xs, k) != []
    ensures k in Collect(xs) ==> Collect(xs)[k] == ValuesFor(xs, k)
  {
    if xs != [] {
      CollectValues(xs[..|xs| - 1], k);
    }
  }

  /** Within one affected entry, the first append goes to the entry's own key
      and every later one to the truncated key. */
  lemma {:induction false} AppendsFromTruncates(key: Package, events: seq<Event>)
    ensures forall idx :: 0 < idx < |AppendsFrom(key, events)| ==> AppendsFrom(key, events)[idx].0 == NextKey(key)
    ensures |AppendsFrom(key, events)| > 0 ==> AppendsFrom(key, events)[0].0 == key
  {
    if events != [] {
      var init := events[..|events| - 1];
      var ev := events[|events| - 1];
      AppendsFromTruncates(key, init);
      AppendsFromCount(key, init);
      var a := AppendsFrom(key, init);
      var tail: seq<(Package, string)> := if ev.fixed != "" then [(KeyAfter(key, init), ev.fixed), (NextKey(key), ev.fixed)] else [];
      assert AppendsFrom(key, events) == a + tail;
      if |a| > 0 {
        assert KeyAfter(key, init) == NextKey(key);
      } else {
        assert KeyAfter(key, init) == key;
      }
      forall idx | 0 < idx < |a + tail|
        ensures (a + tail)[idx].0 == NextKey(key)
      {
        if idx >= |a| {
          assert (a + tail)[idx] == tail[idx - |a|];
        }
      }
    }
  }
}
