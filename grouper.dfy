/** Grouping of the vulnerabilities found for one package by shared aliases
    (grouper/grouper.go). The pairwise merge is specified by the functions
    Step, Cols and Rows, which walk the same (i, j) pairs in the same order
    as the source's nested loops. */
module Grouper {
  import opened Common
  import Results

  datatype IDAliases = IDAliases(id: string, aliases: seq<string>)

  function Min(a: int, b: int): (r: int)
    ensures r <= a && r <= b
    ensures r == a || r == b
  {
    if a < b then a else b
  }

  /** The loop over the first record's aliases in hasAliasIntersection. */
  function SharesAlias(xs: seq<string>, ys: seq<string>): (r: bool)
    ensures r <==> exists a :: a in xs && a in ys
  {
    if xs == [] then false
    else xs[0] in ys || SharesAlias(xs[1..], ys)
  }

  /** Two records intersect when they share an alias or one names the other's id. */
  function HasAliasIntersection(v1: IDAliases, v2: IDAliases): (r: bool)
    ensures r <==> (exists a :: a in v1.aliases && a in v2.aliases)
                   || v2.id in v1.aliases || v1.id in v2.aliases
  {
    SharesAlias(v1.aliases, v2.aliases) || v2.id in v1.aliases || v1.id in v2.aliases
  }

  lemma HasAliasIntersectionSymmetric(v1: IDAliases, v2: IDAliases)
    ensures HasAliasIntersection(v1, v2) == HasAliasIntersection(v2, v1)
  {
    if SharesAlias(v1.aliases, v2.aliases) {
      var a :| a in v1.aliases && a in v2.aliases;
      assert a in v2.aliases && a in v1.aliases;
    }
  }

  // ---------------------------------------------------------------------------
  // The pairwise merge

  /** The body of the inner merge loop for the pair (i, j). */
  function Step(vulns: seq<IDAliases>, g: seq<int>, i: nat, j: nat): (r: seq<int>)
    requires |g| == |vulns| && i < j < |g|
    ensures |r| == |g|
  {
    if HasAliasIntersection(vulns[i], vulns[j]) then
      var m := Min(g[i], g[j]);
      g[i := m][j := m]
    else g
  }

  /** The inner loop of row i, from column j on. */
  function Cols(vulns: seq<IDAliases>, g: seq<int>, i: nat, j: nat): (r: seq<int>)
    requires |g| == |vulns| && i < j <= |g|
    ensures |r| == |g|
    decreases |g| - j
  {
    if j == |g| then g else Cols(vulns, Step(vulns, g, i, j), i, j + 1)
  }

  /** The outer loop, from row i on. */
  function Rows(vulns: seq<IDAliases>, g: seq<int>, i: nat): (r: seq<int>)
    requires |g| == |vulns| && i <= |g|
    ensures |r| == |g|
    decreases |g| - i
  {
    if i == |g| then g else Rows(vulns, Cols(vulns, g, i, i + 1), i + 1)
  }

  /** The group label of every record after the merge. */
  function MergedLabels(vulns: seq<IDAliases>): (r: seq<int>)
    ensures |r| == |vulns|
  {
    Rows(vulns, seq(|vulns|, k => k), 0)
  }

  /** Every label points at a record at or before its own. */
  ghost predicate Bounded(g: seq<int>) {
    forall k :: 0 <= k < |g| ==> 0 <= g[k] <= k
  }

  /** Labels never grow. */
  ghost predicate AtMost(g: seq<int>, h: seq<int>) {
    |g| == |h| && forall k :: 0 <= k < |g| ==> g[k] <= h[k]
  }

  lemma {:induction false} ColsProps(vulns: seq<IDAliases>, g: seq<int>, i: nat, j: nat)
    requires |g| == |vulns| && i < j <= |g| && Bounded(g)
    ensures Bounded(Cols(vulns, g, i, j)) && AtMost(Cols(vulns, g, i, j), g)
    decreases |g| - j
  {
    if j < |g| {
      ColsProps(vulns, Step(vulns, g, i, j), i, j + 1);
    }
  }

  lemma {:induction false} RowsProps(vulns: seq<IDAliases>, g: seq<int>, i: nat)
    requires |g| == |vulns| && i <= |g| && Bounded(g)
    ensures Bounded(Rows(vulns, g, i)) && AtMost(Rows(vulns, g, i), g)
    decreases |g| - i
  {
    if i < |g| {
      ColsProps(vulns, g, i, i + 1);
      RowsProps(vulns, Cols(vulns, g, i, i + 1), i + 1);
    }
  }

  /** Every label is the index of a record at or before the labelled one. */
  lemma MergedLabelsBounded(vulns: seq<IDAliases>)
    ensures forall k :: 0 <= k < |vulns| ==> 0 <= MergedLabels(vulns)[k] <= k
  {
    RowsProps(vulns, seq(|vulns|, k => k), 0);
  }

  lemma {:induction false} ColsReach(vulns: seq<IDAliases>, g: seq<int>, a: nat, j: nat, b: nat)
    requires |g| == |vulns| && a < j <= b < |g| && Bounded(g)
    requires HasAliasIntersection(vulns[a], vulns[b])
    ensures Cols(vulns, g, a, j)[b] <= a
    decreases |g| - j
  {
    var s := Step(vulns, g, a, j);
    ColsProps(vulns, s, a, j + 1);
    if j < b {
      ColsReach(vulns, s, a, j + 1, b);
    }
  }

  lemma {:induction false} RowsReach(vulns: seq<IDAliases>, g: seq<int>, i: nat, a: nat, b: nat)
    requires |g| == |vulns| && i <= a < b < |g| && Bounded(g)
    requires HasAliasIntersection(vulns[a], vulns[b])
    ensures Rows(vulns, g, i)[b] <= a
    decreases |g| - i
  {
    var c := Cols(vulns, g, i, i + 1);
    ColsProps(vulns, g, i, i + 1);
    if i < a {
      RowsReach(vulns, c, i + 1, a, b);
    } else {
      ColsReach(vulns, g, a, a + 1, b);
      RowsProps(vulns, c, i + 1);
    }
  }

  /** Of two intersecting records, the later one ends up labelled at or before the earlier. */
  lemma LinkedLabel(vulns: seq<IDAliases>, a: nat, b: nat)
    requires a < b < |vulns| && HasAliasIntersection(vulns[a], vulns[b])
    ensures MergedLabels(vulns)[b] <= a
  {
    RowsReach(vulns, seq(|vulns|, k => k), 0, a, b);
  }

  /** A record that intersects no other record is never touched. */
  ghost predicate Isolated(vulns: seq<IDAliases>, k: nat)
    requires k < |vulns|
  {
    forall m :: 0 <= m < |vulns| && m != k ==> !HasAliasIntersection(vulns[k], vulns[m])
  }

  lemma {:induction false} ColsKeep(vulns: seq<IDAliases>, g: seq<int>, i: nat, j: nat, k: nat)
    requires |g| == |vulns| && i < j <= |g| && k < |g| && Isolated(vulns, k)
    ensures Cols(vulns, g, i, j)[k] == g[k]
    decreases |g| - j
  {
    if j < |g| {
      if i == k || j == k {
        HasAliasIntersectionSymmetric(vulns[i], vulns[j]);
      }
      ColsKeep(vulns, Step(vulns, g, i, j), i, j + 1, k);
    }
  }

  lemma {:induction false} RowsKeep(vulns: seq<IDAliases>, g: seq<int>, i: nat, k: nat)
    requires |g| == |vulns| && i <= |g| && k < |g| && Isolated(vulns, k)
    ensures Rows(vulns, g, i)[k] == g[k]
    decreases |g| - i
  {
    if i < |g| {
      ColsKeep(vulns, g, i, i + 1, k);
      RowsKeep(vulns, Cols(vulns, g, i, i + 1), i + 1, k);
    }
  }

  /** A record with no intersection keeps its own index as its label. */
  lemma IsolatedKeepsLabel(vulns: seq<IDAliases>, k: nat)
    requires k < |vulns| && Isolated(vulns, k)
    ensures MergedLabels(vulns)[k] == k
  {
    RowsKeep(vulns, seq(|vulns|, k => k), 0, k);
  }

  // ---------------------------------------------------------------------------
  // Turning labels into groups

  /** The ids of the records labelled `key` among the first `upto`, in index order. */
  function IdsWith(vulns: seq<IDAliases>, labels: seq<int>, key: int, upto: nat): seq<string>
    requires upto <= |vulns| == |labels|
  {
    if upto == 0 then []
    else IdsWith(vulns, labels, key, upto - 1) + (if labels[upto - 1] == key then [vulns[upto - 1].id] else [])
  }

  /** The aliases of the records labelled `key` among the first `upto`, concatenated in index order. */
  function AliasesWith(vulns: seq<IDAliases>, labels: seq<int>, key: int, upto: nat): seq<string>
    requires upto <= |vulns| == |labels|
  {
    if upto == 0 then []
    else AliasesWith(vulns, labels, key, upto - 1) + (if labels[upto - 1] == key then vulns[upto - 1].aliases else [])
  }

  /** The distinct labels below `bound`, ascending: the sorted keys of the group maps. */
  function KeysBelow(labels: seq<int>, bound: nat): seq<int> {
    if bound == 0 then []
    else KeysBelow(labels, bound - 1) + (if bound - 1 in labels then [bound - 1] else [])
  }

  /** One result entry: sorted ids, and the sorted, de-duplicated union of ids and aliases. */
  function MakeGroup(ids: seq<string>, aliases: seq<string>): Results.GroupInfo {
    var sortedIds := SortStrings(ids);
    Results.GroupInfo(sortedIds, Compact(SortStrings(aliases + sortedIds)), "")
  }

  /** The groups for the given labels, in ascending key order. */
  function Assemble(vulns: seq<IDAliases>, labels: seq<int>): seq<Results.GroupInfo>
    requires |vulns| == |labels|
  {
    var keys := KeysBelow(labels, |labels|);
    seq(|keys|, t requires 0 <= t < |keys| =>
      MakeGroup(IdsWith(vulns, labels, keys[t], |vulns|), AliasesWith(vulns, labels, keys[t], |vulns|)))
  }

  /** Group: merge, collect ids and aliases per label, and emit one group per
      label in ascending label order. */
  method Group(vulns: seq<IDAliases>) returns (result: seq<Results.GroupInfo>)
    ensures result == Assemble(vulns, MergedLabels(vulns))
  {
    var n := |vulns|;
    var labels := MergeLabels(vulns);
    var extractedGroups, extractedAliases := Extract(vulns, labels);

    var sortedKeys: seq<int> := [];
    for k := 0 to n
      invariant sortedKeys == KeysBelow(labels, k)
    {
      if k in extractedGroups {
        sortedKeys := sortedKeys + [k];
      }
    }

    KeysBelowMembers(labels, n);
    ghost var all := Assemble(vulns, labels);
    assert |all| == |sortedKeys|;
    result := [];
    for t := 0 to |sortedKeys|
      invariant result == all[..t]
    {
      var key := sortedKeys[t];
      assert key in labels by {
        assert sortedKeys[t] in sortedKeys;
      }
      var ids := SortStrings(extractedGroups[key]);
      var aliases := Compact(SortStrings(extractedAliases[key] + ids));
      assert all[t] == MakeGroup(IdsWith(vulns, labels, key, n), AliasesWith(vulns, labels, key, n));
      assert all[t] == Results.GroupInfo(ids, aliases, "");
      TakeSnoc(all, t);
      result := result + [Results.GroupInfo(ids, aliases, "")];
    }
    assert all[..|sortedKeys|] == all;
  }

  /** The first two loops of Group: every record starts in its own group, then
      each intersecting pair (i, j), i < j, takes the smaller of their labels. */
  method MergeLabels(vulns: seq<IDAliases>) returns (labels: seq<int>)
    ensures labels == MergedLabels(vulns)
  {
    var n := |vulns|;
    var groups := new int[n];
    for i := 0 to n
      invariant forall k :: 0 <= k < i ==> groups[k] == k
    {
      groups[i] := i;
    }
    assert groups[..] == seq(n, k => k);
    ghost var target := MergedLabels(vulns);

    for i := 0 to n
      invariant Rows(vulns, groups[..], i) == target
    {
      MergeRow(vulns, groups, i);
    }
    labels := groups[..];
  }

  /** Row i of the second loop: each later record j intersecting record i
      gives both the smaller of their two labels. */
  method MergeRow(vulns: seq<IDAliases>, groups: array<int>, i: nat)
    requires groups.Length == |vulns| && i < |vulns|
    modifies groups
    ensures groups[..] == Cols(vulns, old(groups[..]), i, i + 1)
  {
    for j := i + 1 to groups.Length
      invariant Cols(vulns, groups[..], i, j) == Cols(vulns, old(groups[..]), i, i + 1)
    {
      ghost var before := groups[..];
      if HasAliasIntersection(vulns[i], vulns[j]) {
        groups[i] := Min(groups[i], groups[j]);
        groups[j] := groups[i];
      }
      assert groups[..] == Step(vulns, before, i, j);
    }
  }

  /** The third loop of Group: ids and aliases collected per label. */
  method Extract(vulns: seq<IDAliases>, labels: seq<int>)
    returns (extractedGroups: map<int, seq<string>>, extractedAliases: map<int, seq<string>>)
    requires |labels| == |vulns|
    ensures forall k :: k in extractedGroups <==> k in labels
    ensures forall k :: k in extractedAliases <==> k in labels
    ensures forall k :: k in extractedGroups ==> extractedGroups[k] == IdsWith(vulns, labels, k, |vulns|)
    ensures forall k :: k in extractedAliases ==> extractedAliases[k] == AliasesWith(vulns, labels, k, |vulns|)
  {
    extractedGroups, extractedAliases := map[], map[];
    for i := 0 to |labels|
      invariant forall k :: k in extractedGroups <==> k in labels[..i]
      invariant forall k :: k in extractedAliases <==> k in labels[..i]
      invariant forall k :: k in extractedGroups ==> extractedGroups[k] == IdsWith(vulns, labels, k, i)
      invariant forall k :: k in extractedAliases ==> extractedAliases[k] == AliasesWith(vulns, labels, k, i)
    {
      var gid := labels[i];
      assert labels[..i + 1] == labels[..i] + [gid];
      if gid !in extractedGroups {
        IdsWithAbsent(vulns, labels, gid, i);
      }
      extractedGroups := extractedGroups[gid := (if gid in extractedGroups then extractedGroups[gid] else []) + [vulns[i].id]];
      extractedAliases := extractedAliases[gid := (if gid in extractedAliases then extractedAliases[gid] else []) + vulns[i].aliases];
    }
    assert labels[..|labels|] == labels;
  }

  /** A key with no record among the first `upto` has no ids and no aliases yet. */
  lemma {:induction false} IdsWithAbsent(vulns: seq<IDAliases>, labels: seq<int>, key: int, upto: nat)
    requires upto <= |vulns| == |labels| && key !in labels[..upto]
    ensures IdsWith(vulns, labels, key, upto) == [] && AliasesWith(vulns, labels, key, upto) == []
  {
    if upto > 0 {
      assert labels[..upto - 1] == labels[..upto][..upto - 1];
      assert labels[..upto][upto - 1] == labels[upto - 1];
      IdsWithAbsent(vulns, labels, key, upto - 1);
    }
  }

  /** The keys are exactly the labels below the bound. */
  lemma {:induction false} KeysBelowMembers(labels: seq<int>, bound: nat)
    ensures forall x :: x in KeysBelow(labels, bound) <==> x in labels && 0 <= x < bound
  {
    if bound > 0 {
      KeysBelowMembers(labels, bound - 1);
    }
  }

  /** A key that labels some record among the first `upto` has at least one id. */
  lemma {:induction false} IdsWithPresent(vulns: seq<IDAliases>, labels: seq<int>, i: nat, upto: nat)
    requires i < upto <= |vulns| == |labels|
    ensures vulns[i].id in IdsWith(vulns, labels, labels[i], upto)
  {
    if i < upto - 1 {
      IdsWithPresent(vulns, labels, i, upto - 1);
    }
  }

  /** The keys ascend strictly and lie below the bound. */
  lemma {:induction false} KeysBelowAscending(labels: seq<int>, bound: nat)
    ensures |KeysBelow(labels, bound)| <= bound
    ensures forall x :: x in KeysBelow(labels, bound) ==> 0 <= x < bound
    ensures forall a, b :: 0 <= a < b < |KeysBelow(labels, bound)| ==> KeysBelow(labels, bound)[a] < KeysBelow(labels, bound)[b]
  {
    if bound > 0 {
      var prev := KeysBelow(labels, bound - 1);
      KeysBelowAscending(labels, bound - 1);
      var ks := KeysBelow(labels, bound);
      forall a, b | 0 <= a < b < |ks|
        ensures ks[a] < ks[b]
      {
        assert ks[a] == prev[a];
        if b < |prev| {
          assert ks[b] == prev[b];
        } else {
          assert prev[a] in prev;
        }
      }
    }
  }

  /** The label of each group Group returns, in result order. */
  function GroupKeys(vulns: seq<IDAliases>): seq<int> {
    KeysBelow(MergedLabels(vulns), |vulns|)
  }

  /** Group returns one group per distinct label, in ascending label order; each
      label is at or before the index of every record in its group; no more groups
      than records, and none at all exactly when there are no records. */
  lemma GroupKeysShape(vulns: seq<IDAliases>)
    ensures |Assemble(vulns, MergedLabels(vulns))| == |GroupKeys(vulns)| <= |vulns|
    ensures |GroupKeys(vulns)| == 0 <==> |vulns| == 0
    ensures forall a, b :: 0 <= a < b < |GroupKeys(vulns)| ==> GroupKeys(vulns)[a] < GroupKeys(vulns)[b]
    ensures forall i :: 0 <= i < |vulns| ==> MergedLabels(vulns)[i] in GroupKeys(vulns) && MergedLabels(vulns)[i] <= i
  {
    var labels := MergedLabels(vulns);
    MergedLabelsBounded(vulns);
    KeysBelowAscending(labels, |vulns|);
    KeysBelowMembers(labels, |vulns|);
    if |vulns| > 0 {
      assert labels[0] in GroupKeys(vulns);
    }
  }

  /** Each group holds the ids of the records carrying its label, sorted, and
      never none; its aliases are those ids and the records' aliases, sorted and
      without duplicates. */
  lemma GroupContents(vulns: seq<IDAliases>, t: nat)
    requires t < |GroupKeys(vulns)|
    ensures var g := Assemble(vulns, MergedLabels(vulns))[t];
            var key := GroupKeys(vulns)[t];
            && Sorted(g.ids) && |g.ids| > 0
            && multiset(g.ids) == multiset(IdsWith(vulns, MergedLabels(vulns), key, |vulns|))
            && StrictlySorted(g.aliases)
            && (forall x :: x in g.aliases <==> x in g.ids || x in AliasesWith(vulns, MergedLabels(vulns), key, |vulns|))
            && g.maxSeverity == ""
  {
    var labels := MergedLabels(vulns);
    var key := GroupKeys(vulns)[t];
    KeysBelowMembers(labels, |vulns|);
    assert key in KeysBelow(labels, |vulns|);
    var i :| 0 <= i < |labels| && labels[i] == key;
    IdsWithPresent(vulns, labels, i, |vulns|);
    var g := Assemble(vulns, labels)[t];
    assert vulns[i].id in multiset(g.ids);
    forall x ensures x in g.aliases <==> x in g.ids || x in AliasesWith(vulns, labels, key, |vulns|) {
      var all := AliasesWith(vulns, labels, key, |vulns|) + g.ids;
      assert x in all <==> x in multiset(SortStrings(all));
    }
  }

  /** Every record's id is in the group of its own label. */
  lemma GroupsCoverRecords(vulns: seq<IDAliases>, i: nat)
    requires i < |vulns|
    ensures exists t :: 0 <= t < |GroupKeys(vulns)| && GroupKeys(vulns)[t] == MergedLabels(vulns)[i]
                        && vulns[i].id in Assemble(vulns, MergedLabels(vulns))[t].ids
  {
    var labels := MergedLabels(vulns);
    GroupKeysShape(vulns);
    var keys := GroupKeys(vulns);
    var t :| 0 <= t < |keys| && keys[t] == labels[i];
    IdsWithPresent(vulns, labels, i, |vulns|);
    var ids := IdsWith(vulns, labels, labels[i], |vulns|);
    assert vulns[i].id in multiset(ids);
    assert vulns[i].id in multiset(Assemble(vulns, labels)[t].ids);
  }

  // ---------------------------------------------------------------------------
  // Every record lands in exactly one group

  /** The number of records among the first `upto` whose label is below `b`. */
  function CountBelow(labels: seq<int>, b: int, upto: nat): nat
    requires upto <= |labels|
  {
    if upto == 0 then 0 else CountBelow(labels, b, upto - 1) + (if labels[upto - 1] < b then 1 else 0)
  }

  /** The total number of ids over the given keys. */
  function SizeOver(vulns: seq<IDAliases>, labels: seq<int>, keys: seq<int>): nat
    requires |vulns| == |labels|
  {
    if keys == [] then 0
    else SizeOver(vulns, labels, keys[..|keys| - 1]) + |IdsWith(vulns, labels, keys[|keys| - 1], |vulns|)|
  }

  /** The total number of ids over the given groups. */
  function TotalIds(groups: seq<Results.GroupInfo>): nat {
    if groups == [] then 0 else TotalIds(groups[..|groups| - 1]) + |groups[|groups| - 1].ids|
  }

  lemma {:induction false} CountBelowSplit(vulns: seq<IDAliases>, labels: seq<int>, b: int, upto: nat)
    requires upto <= |vulns| == |labels|
    ensures CountBelow(labels, b + 1, upto) == CountBelow(labels, b, upto) + |IdsWith(vulns, labels, b, upto)|
  {
    if upto > 0 {
      CountBelowSplit(vulns, labels, b, upto - 1);
    }
  }

  lemma {:induction false} CountBelowAll(labels: seq<int>, b: int, upto: nat)
    requires upto <= |labels|
    requires forall k :: 0 <= k < |labels| ==> labels[k] < b
    ensures CountBelow(labels, b, upto) == upto
  {
    if upto > 0 {
      CountBelowAll(labels, b, upto - 1);
    }
  }

  lemma {:induction false} CountBelowNone(labels: seq<int>, upto: nat)
    requires upto <= |labels|
    requires forall k :: 0 <= k < |labels| ==> 0 <= labels[k]
    ensures CountBelow(labels, 0, upto) == 0
  {
    if upto > 0 {
      CountBelowNone(labels, upto - 1);
    }
  }

  lemma {:induction false} SizeOverKeys(vulns: seq<IDAliases>, labels: seq<int>, b: nat)
    requires |vulns| == |labels|
    requires forall k :: 0 <= k < |labels| ==> 0 <= labels[k]
    ensures SizeOver(vulns, labels, KeysBelow(labels, b)) == CountBelow(labels, b, |vulns|)
  {
    if b == 0 {
      CountBelowNone(labels, |vulns|);
    } else {
      var prev := KeysBelow(labels, b - 1);
      SizeOverKeys(vulns, labels, b - 1);
      CountBelowSplit(vulns, labels, b - 1, |vulns|);
      if b - 1 in labels {
        assert (prev + [b - 1])[..|prev|] == prev;
      } else {
        assert KeysBelow(labels, b) == prev;
        assert labels[..|vulns|] == labels;
        IdsWithAbsent(vulns, labels, b - 1, |vulns|);
      }
    }
  }

  lemma {:induction false} TotalIdsAssemble(vulns: seq<IDAliases>, labels: seq<int>, keys: seq<int>)
    requires |vulns| == |labels|
    ensures TotalIds(seq(|keys|, t requires 0 <= t < |keys| =>
              MakeGroup(IdsWith(vulns, labels, keys[t], |vulns|), AliasesWith(vulns, labels, keys[t], |vulns|))))
            == SizeOver(vulns, labels, keys)
  {
    var gs := seq(|keys|, t requires 0 <= t < |keys| =>
                MakeGroup(IdsWith(vulns, labels, keys[t], |vulns|), AliasesWith(vulns, labels, keys[t], |vulns|)));
    if keys != [] {
      var init := keys[..|keys| - 1];
      TotalIdsAssemble(vulns, labels, init);
      var gi := seq(|init|, t requires 0 <= t < |init| =>
                  MakeGroup(IdsWith(vulns, labels, init[t], |vulns|), AliasesWith(vulns, labels, init[t], |vulns|)));
      assert gs[..|gs| - 1] == gi;
    }
  }

  /** The groups partition the records: their id counts add up to the number of records. */
  lemma GroupsPartition(vulns: seq<IDAliases>)
    ensures TotalIds(Assemble(vulns, MergedLabels(vulns))) == |vulns|
  {
    var labels := MergedLabels(vulns);
    MergedLabelsBounded(vulns);
    TotalIdsAssemble(vulns, labels, KeysBelow(labels, |labels|));
    SizeOverKeys(vulns, labels, |labels|);
    CountBelowAll(labels, |labels|, |vulns|);
  }

  // ---------------------------------------------------------------------------
  // Examples

  /** Four records where A and D share "x", B and C share "y", C and D share "z". */
  function ChainExample(): seq<IDAliases> {
    [IDAliases("A", ["x"]), IDAliases("B", ["y"]), IDAliases("C", ["y", "z"]), IDAliases("D", ["x", "z"])]
  }

  /** The single pass does not merge transitively: B and C intersect, yet C is
      relabelled to A's group after B had already been visited, so B and C end
      up in different groups. */
  lemma MergeIsNotTransitive()
    ensures HasAliasIntersection(ChainExample()[1], ChainExample()[2])
    ensures MergedLabels(ChainExample()) == [0, 1, 0, 0]
  {
    var v := ChainExample();
    assert !HasAliasIntersection(v[0], v[1]) && !HasAliasIntersection(v[0], v[2]);
    assert HasAliasIntersection(v[0], v[3]);
    assert HasAliasIntersection(v[1], v[2]) && !HasAliasIntersection(v[1], v[3]);
    assert HasAliasIntersection(v[2], v[3]);
    var g0 := seq(4, k => k);
    assert g0 == [0, 1, 2, 3];
    var g1 := [0, 1, 2, 0];
    assert Step(v, g0, 0, 3) == g1;
    assert Cols(v, g1, 0, 4) == g1;
    assert Cols(v, g0, 0, 3) == g1;
    assert Step(v, g0, 0, 2) == g0;
    assert Cols(v, g0, 0, 2) == g1;
    assert Step(v, g0, 0, 1) == g0;
    assert Cols(v, g0, 0, 1) == g1;
    var g2 := [0, 1, 1, 0];
    assert Step(v, g1, 1, 2) == g2;
    assert Step(v, g2, 1, 3) == g2;
    assert Cols(v, g2, 1, 4) == g2;
    assert Cols(v, g2, 1, 3) == g2;
    assert Cols(v, g1, 1, 2) == g2;
    var g3 := [0, 1, 0, 0];
    assert Step(v, g2, 2, 3) == g3;
    assert Cols(v, g3, 2, 4) == g3;
    assert Cols(v, g2, 2, 3) == g3;
    assert Cols(v, g3, 3, 4) == g3;
    assert Rows(v, g3, 4) == g3;
    assert Rows(v, g3, 3) == g3;
    assert Rows(v, g2, 2) == g3;
    assert Rows(v, g1, 1) == g3;
    assert Rows(v, g0, 0) == g3;
  }

  function AdvisoryExample(): seq<IDAliases> {
    [IDAliases("GHSA-1", ["CVE-1"]), IDAliases("CVE-1", [])]
  }

  /** A GitHub advisory that names its CVE as an alias is merged with it. */
  lemma AdvisoryLabels()
    ensures MergedLabels(AdvisoryExample()) == [0, 0]
  {
    var v := AdvisoryExample();
    assert HasAliasIntersection(v[0], v[1]);
    assert seq(2, k => k) == [0, 1];
    assert Step(v, [0, 1], 0, 1) == [0, 0];
    assert Cols(v, [0, 0], 0, 2) == [0, 0];
    assert Cols(v, [0, 1], 0, 1) == [0, 0];
    assert Cols(v, [0, 0], 1, 2) == [0, 0];
    assert Rows(v, [0, 0], 2) == [0, 0];
    assert Rows(v, [0, 0], 1) == [0, 0];
  }

  /** ConvertVulnerabilityToIDAliases: one record per vulnerability, in order. */
  method ConvertVulnerabilityToIDAliases(c: seq<Results.Vulnerability>) returns (output: seq<IDAliases>)
    ensures |output| == |c|
    ensures forall i :: 0 <= i < |c| ==> output[i].id == c[i].id && output[i].aliases == c[i].aliases
  {
    output := [];
    for i := 0 to |c|
      invariant |output| == i
      invariant forall k :: 0 <= k < i ==> output[k].id == c[k].id && output[k].aliases == c[k].aliases
    {
      output := output + [IDAliases(c[i].id, c[i].aliases)];
    }
  }
}
