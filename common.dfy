/** Helpers shared by the whole model: failure-compatible results and the
    few functions of Go's `strings` package that the scanner relies on,
    stated over `seq<char>`, plus the byte-wise string order that Go's `<`
    and `sort.Strings` use. */
module Common {

  datatype Option<+T> = None | Some(value: T)

  /** An error return: Go's `(value, error)` pair where only one side matters. */
  datatype Result<+T> = Success(value: T) | Failure(error: string) {
    predicate IsFailure() { Failure? }
    function PropagateFailure<U>(): Result<U>
      requires Failure?
    {
      Failure(error)
    }
    function Extract(): T
      requires Success?
    {
      value
    }
  }

  // ---------------------------------------------------------------------------
  // Prefixes, suffixes and searching

  /** strings.HasPrefix */
  predicate HasPrefix(s: string, prefix: string) {
    |prefix| <= |s| && s[..|prefix|] == prefix
  }

  /** strings.HasSuffix */
  predicate HasSuffix(s: string, suffix: string) {
    |suffix| <= |s| && s[|s| - |suffix|..] == suffix
  }

  /** strings.TrimSuffix */
  function TrimSuffix(s: string, suffix: string): (r: string)
    ensures HasSuffix(s, suffix) ==> r + suffix == s
    ensures !HasSuffix(s, suffix) ==> r == s
  {
    if HasSuffix(s, suffix) then s[..|s| - |suffix|] else s
  }

  predicate OccursAt(s: string, sub: string, i: nat) {
    i + |sub| <= |s| && s[i..i + |sub|] == sub
  }

  /** The first occurrence of `sub` at or after `start`, or -1. */
  function IndexFrom(s: string, sub: string, start: nat): (r: int)
    ensures r == -1 || start <= r <= |s|
    ensures r == -1 ==> forall i :: start <= i ==> !OccursAt(s, sub, i)
    ensures r >= 0 ==> OccursAt(s, sub, r) && forall i :: start <= i < r ==> !OccursAt(s, sub, i)
    decreases |s| + 1 - start
  {
    if start + |sub| > |s| then -1
    else if OccursAt(s, sub, start) then start
    else IndexFrom(s, sub, start + 1)
  }

  /** strings.Index: the first position of `sub` in `s`, or -1 when it does not occur. */
  function Index(s: string, sub: string): (r: int)
    ensures r == -1 <==> forall i :: 0 <= i ==> !OccursAt(s, sub, i)
    ensures r >= 0 ==> r <= |s| && OccursAt(s, sub, r) && forall i :: 0 <= i < r ==> !OccursAt(s, sub, i)
  {
    IndexFrom(s, sub, 0)
  }

  /** strings.Contains */
  predicate Contains(s: string, sub: string) {
    Index(s, sub) >= 0
  }

  lemma ContainsAt(s: string, sub: string, i: nat)
    requires OccursAt(s, sub, i)
    ensures Contains(s, sub)
  {
  }

  /** A one-character string occurs exactly when the character does. */
  lemma ContainsChar(s: string, c: char)
    ensures Contains(s, [c]) <==> c in s
  {
    if c in s {
      var i :| 0 <= i < |s| && s[i] == c;
      assert OccursAt(s, [c], i);
    }
    if Contains(s, [c]) {
      var i := Index(s, [c]);
      assert s[i..i + 1] == [c];
      assert s[i] == c;
    }
  }

  /** strings.Cut: the text before and after the first `sep`, and whether it was found. */
  function Cut(s: string, sep: string): (r: (string, string, bool))
    ensures r.2 == Contains(s, sep)
    ensures r.2 ==> r.0 + sep + r.1 == s
    ensures r.2 && |sep| > 0 ==> !Contains(r.0, sep)
    ensures !r.2 ==> r.0 == s && r.1 == ""
  {
    var i := Index(s, sep);
    if i < 0 then (s, "", false)
    else
      assert s == s[..i] + sep + s[i + |sep|..] by {
        assert s[i..i + |sep|] == sep;
      }
      assert |sep| > 0 ==> !Contains(s[..i], sep) by {
        if |sep| > 0 { PrefixHasNoEarlierOccurrence(s, sep, i); }
      }
      (s[..i], s[i + |sep|..], true)
  }

  lemma PrefixHasNoEarlierOccurrence(s: string, sub: string, i: nat)
    requires i <= |s| && |sub| > 0
    requires forall k :: 0 <= k < i ==> !OccursAt(s, sub, k)
    ensures !Contains(s[..i], sub)
  {
    var p := s[..i];
    if Contains(p, sub) {
      var k := Index(p, sub);
      assert OccursAt(p, sub, k);
      assert k + |sub| <= i;
      assert p[k..k + |sub|] == s[k..k + |sub|];
      assert OccursAt(s, sub, k);
      assert false;
    }
  }

  /** strings.LastIndex for a one-character separator. */
  function LastIndexOf(s: string, c: char): (r: int)
    ensures -1 <= r < |s|
    ensures r >= 0 ==> s[r] == c
    ensures forall i :: r < i < |s| ==> s[i] != c
  {
    if |s| == 0 then -1
    else if s[|s| - 1] == c then |s| - 1
    else LastIndexOf(s[..|s| - 1], c)
  }

  lemma TakeSnoc<T>(s: seq<T>, t: nat)
    requires t < |s|
    ensures s[..t + 1] == s[..t] + [s[t]]
  {
  }

  // ---------------------------------------------------------------------------
  // White space and case

  /** unicode.IsSpace: the Unicode White_Space property. */
  predicate IsSpace(c: char) {
    c == '\t' || c == '\n' || c == '\U{000B}' || c == '\U{000C}' || c == '\r' || c == ' '
    || c == '\U{0085}' || c == '\U{00A0}' || c == '\U{1680}'
    || ('\U{2000}' <= c <= '\U{200A}')
    || c == '\U{2028}' || c == '\U{2029}' || c == '\U{202F}' || c == '\U{205F}' || c == '\U{3000}'
  }

  function TrimLeftSpace(s: string): (r: string)
    ensures |r| <= |s| && r == s[|s| - |r|..]
    ensures forall i :: 0 <= i < |s| - |r| ==> IsSpace(s[i])
    ensures r == [] || !IsSpace(r[0])
  {
    if |s| > 0 && IsSpace(s[0]) then TrimLeftSpace(s[1..]) else s
  }

  function TrimRightSpace(s: string): (r: string)
    ensures |r| <= |s| && r == s[..|r|]
    ensures forall i :: |r| <= i < |s| ==> IsSpace(s[i])
    ensures r == [] || !IsSpace(r[|r| - 1])
  {
    if |s| > 0 && IsSpace(s[|s| - 1]) then TrimRightSpace(s[..|s| - 1]) else s
  }

  /** strings.TrimSpace */
  function TrimSpace(s: string): (r: string)
    ensures |r| <= |s|
    ensures r == [] || (!IsSpace(r[0]) && !IsSpace(r[|r| - 1]))
  {
    TrimRightSpace(TrimLeftSpace(s))
  }

  predicate IsUpperAscii(c: char) { 'A' <= c <= 'Z' }

  function ToLowerChar(c: char): (r: char)
    ensures !IsUpperAscii(r)
    ensures !IsUpperAscii(c) ==> r == c
  {
    if IsUpperAscii(c) then (c as int + 32) as char else c
  }

  /** strings.ToLower, for the ASCII letters. */
  function ToLowerAscii(s: string): (r: string)
    ensures |r| == |s|
    ensures forall i :: 0 <= i < |s| ==> r[i] == ToLowerChar(s[i])
  {
    seq(|s|, i requires 0 <= i < |s| => ToLowerChar(s[i]))
  }

  /** strings.Join */
  function Join(parts: seq<string>, sep: string): (r: string)
    ensures |parts| == 0 ==> r == ""
    ensures |parts| == 1 ==> r == parts[0]
    ensures |parts| > 1 ==> r == parts[0] + sep + Join(parts[1..], sep)
  {
    if |parts| == 0 then ""
    else if |parts| == 1 then parts[0]
    else parts[0] + sep + Join(parts[1..], sep)
  }

  // ---------------------------------------------------------------------------
  // The order of Go's `<` on strings (code point order equals UTF-8 byte order)

  predicate Less(a: string, b: string)
    decreases |a|
  {
    |b| > 0 && (|a| == 0 || a[0] < b[0] || (a[0] == b[0] && Less(a[1..], b[1..])))
  }

  predicate LessEq(a: string, b: string) {
    a == b || Less(a, b)
  }

  lemma {:induction false} LessIrreflexive(a: string)
    ensures !Less(a, a)
    decreases |a|
  {
    if |a| > 0 {
      LessIrreflexive(a[1..]);
    }
  }

  lemma {:induction false} LessTransitive(a: string, b: string, c: string)
    requires Less(a, b) && Less(b, c)
    ensures Less(a, c)
    decreases |a|
  {
    if |a| > 0 && a[0] == b[0] && b[0] == c[0] {
      LessTransitive(a[1..], b[1..], c[1..]);
    }
  }

  lemma {:induction false} LessTotal(a: string, b: string)
    ensures a == b || Less(a, b) || Less(b, a)
    decreases |a|
  {
    if |a| > 0 && |b| > 0 && a[0] == b[0] {
      LessTotal(a[1..], b[1..]);
      if a[1..] == b[1..] {
        assert a == [a[0]] + a[1..] && b == [b[0]] + b[1..];
      }
    }
  }

  lemma LessAsymmetric(a: string, b: string)
    requires Less(a, b)
    ensures !Less(b, a) && a != b
  {
    if Less(b, a) {
      LessTransitive(a, b, a);
      LessIrreflexive(a);
    }
    if a == b {
      LessIrreflexive(a);
    }
  }

  lemma LessEqTransitive(a: string, b: string, c: string)
    requires LessEq(a, b) && LessEq(b, c)
    ensures LessEq(a, c)
  {
    if a != b && b != c {
      LessTransitive(a, b, c);
    }
  }

  // ---------------------------------------------------------------------------
  // sort.Strings and slices.Compact

  predicate Sorted(s: seq<string>) {
    forall i, j :: 0 <= i < j < |s| ==> LessEq(s[i], s[j])
  }

  predicate StrictlySorted(s: seq<string>) {
    forall i, j :: 0 <= i < j < |s| ==> Less(s[i], s[j])
  }

  function Insert(x: string, s: seq<string>): (r: seq<string>)
    requires Sorted(s)
    ensures Sorted(r)
    ensures multiset(r) == multiset(s) + multiset{x}
  {
    if s == [] then [x]
    else if LessEq(x, s[0]) then
      InsertFront(x, s);
      [x] + s
    else
      LessTotal(x, s[0]);
      var rest := Insert(x, s[1..]);
      InsertBehind(x, s, rest);
      [s[0]] + rest
  }

  lemma InsertFront(x: string, s: seq<string>)
    requires Sorted(s) && s != [] && LessEq(x, s[0])
    ensures Sorted([x] + s)
  {
    forall j | 0 <= j < |s| ensures LessEq(x, s[j]) {
      LessEqTransitive(x, s[0], s[j]);
    }
  }

  lemma InsertBehind(x: string, s: seq<string>, rest: seq<string>)
    requires Sorted(s) && s != [] && LessEq(s[0], x)
    requires Sorted(rest) && multiset(rest) == multiset(s[1..]) + multiset{x}
    ensures Sorted([s[0]] + rest)
    ensures multiset([s[0]] + rest) == multiset(s) + multiset{x}
  {
    assert s == [s[0]] + s[1..];
    forall y | y in rest ensures LessEq(s[0], y) {
      assert y in multiset(rest);
      assert y in multiset(s[1..]) || y == x;
    }
  }

  /** sort.Strings: an ascending permutation of its input. */
  function SortStrings(s: seq<string>): (r: seq<string>)
    ensures Sorted(r)
    ensures multiset(r) == multiset(s)
    ensures |r| == |s|
  {
    if s == [] then []
    else
      assert s == [s[0]] + s[1..];
      var r := Insert(s[0], SortStrings(s[1..]));
      assert |r| == |multiset(r)| == |s|;
      r
  }

  /** slices.Compact: drops every element equal to its predecessor. */
  function Compact(s: seq<string>): (r: seq<string>)
    ensures |r| <= |s|
    ensures forall x :: x in r <==> x in s
    ensures Sorted(s) ==> StrictlySorted(r)
  {
    if |s| <= 1 then
      s
    else if s[0] == s[1] then
      var r := Compact(s[1..]);
      assert forall x :: x in s <==> x in s[1..] by {
        assert s == [s[0]] + s[1..];
      }
      r
    else
      var r := Compact(s[1..]);
      assert s == [s[0]] + s[1..];
      assert Sorted(s) ==> StrictlySorted([s[0]] + r) by {
        if Sorted(s) {
          assert Less(s[0], s[1]);
          forall y | y in r ensures Less(s[0], y) {
            var k :| 1 <= k < |s| && s[k] == y;
            if k > 1 {
              assert LessEq(s[1], s[k]);
              if s[1] != s[k] {
                LessTransitive(s[0], s[1], s[k]);
              }
            }
          }
        }
      }
      [s[0]] + r
  }

  // ---------------------------------------------------------------------------
  // Slash-separated paths (path and path/filepath on Unix)

  function StripTrailingSlashes(p: string): (r: string)
    ensures |r| <= |p| && r == p[..|r|]
    ensures r == [] || r[|r| - 1] != '/'
  {
    if |p| > 0 && p[|p| - 1] == '/' then StripTrailingSlashes(p[..|p| - 1]) else p
  }

  /** filepath.Base: the last element, "." for an empty path and "/" for all slashes. */
  function Base(p: string): (r: string)
    ensures |r| > 0
    ensures r != "/" ==> '/' !in r
  {
    if p == "" then "."
    else
      var s := StripTrailingSlashes(p);
      if s == "" then "/" else s[LastIndexOf(s, '/') + 1..]
  }

  /** filepath.Ext: the suffix from the last '.' of the last element, or "". */
  function Ext(p: string): (r: string)
    ensures r == "" || (r[0] == '.' && HasSuffix(p, r) && '/' !in r)
  {
    var dot := LastIndexOf(p, '.');
    var slash := LastIndexOf(p, '/');
    if dot > slash then
      assert HasSuffix(p, p[dot..]);
      p[dot..]
    else ""
  }

  // ---------------------------------------------------------------------------
  // Go map iteration

  /** `ks` lists every key of `m`, each exactly once. */
  predicate EnumeratesKeys<K, V>(ks: seq<K>, m: map<K, V>) {
    && (forall i :: 0 <= i < |ks| ==> ks[i] in m)
    && (forall i, j :: 0 <= i < j < |ks| ==> ks[i] != ks[j])
    && (forall k :: k in m ==> k in ks)
  }

  /** The values `m` holds under the keys `ks`, in the keys' order. */
  function Lookup<K, V>(ks: seq<K>, m: map<K, V>): (vs: seq<V>)
    requires forall i :: 0 <= i < |ks| ==> ks[i] in m
    ensures |vs| == |ks|
    ensures forall i :: 0 <= i < |ks| ==> vs[i] == m[ks[i]]
  {
    if ks == [] then [] else Lookup(ks[..|ks| - 1], m) + [m[ks[|ks| - 1]]]
  }

  /** maps.Values: every value of the map once, in unspecified order; `ks`
      holds the key each value was read from. */
  method MapValues<K, V>(m: map<K, V>) returns (vs: seq<V>, ghost ks: seq<K>)
    ensures |vs| == |ks| == |m|
    ensures forall i :: 0 <= i < |ks| ==> ks[i] in m && vs[i] == m[ks[i]]
    ensures forall i, j :: 0 <= i < j < |ks| ==> ks[i] != ks[j]
    ensures forall k :: k in m ==> k in ks
    ensures EnumeratesKeys(ks, m) && vs == Lookup(ks, m)
  {
    vs, ks := [], [];
    var rest := m.Keys;
    while rest != {}
      invariant rest <= m.Keys
      invariant |vs| == |ks| && |ks| + |rest| == |m|
      invariant forall i :: 0 <= i < |ks| ==> ks[i] in m && ks[i] !in rest && vs[i] == m[ks[i]]
      invariant forall i, j :: 0 <= i < j < |ks| ==> ks[i] != ks[j]
      invariant forall k :: k in m ==> k in rest || k in ks
      decreases |rest|
    {
      var k :| k in rest;
      vs, ks := vs + [m[k]], ks + [k];
      rest := rest - {k};
    }
  }

  // ---------------------------------------------------------------------------
  // Filtering a slice by appending the kept items

  /** The items of `s` that `keep` accepts, in their order. */
  function Filter<T>(s: seq<T>, keep: T -> bool): seq<T> {
    if s == [] then []
    else
      var init := Filter(s[..|s| - 1], keep);
      if keep(s[|s| - 1]) then init + [s[|s| - 1]] else init
  }

  /** Exactly the accepted items survive, and no new one appears. */
  lemma {:induction false} FilterExactly<T>(s: seq<T>, keep: T -> bool)
    ensures forall x :: x in Filter(s, keep) <==> x in s && keep(x)
    ensures |Filter(s, keep)| <= |s|
  {
    if s != [] {
      var init := s[..|s| - 1];
      FilterExactly(init, keep);
      assert s == init + [s[|s| - 1]];
    }
  }

  /** Order is kept: filtering a concatenation filters each part. */
  lemma {:induction false} FilterAppend<T>(xs: seq<T>, ys: seq<T>, keep: T -> bool)
    ensures Filter(xs + ys, keep) == Filter(xs, keep) + Filter(ys, keep)
    decreases |ys|
  {
    if ys != [] {
      var init := ys[..|ys| - 1];
      FilterAppend(xs, init, keep);
      assert (xs + ys)[..|xs + ys| - 1] == xs + init;
    } else {
      assert xs + ys == xs;
    }
  }

  /** Filtering twice filters no more. */
  lemma {:induction false} FilterIdempotent<T>(s: seq<T>, keep: T -> bool)
    ensures Filter(Filter(s, keep), keep) == Filter(s, keep)
  {
    if s != [] {
      var init := s[..|s| - 1];
      var last := s[|s| - 1];
      FilterIdempotent(init, keep);
      if keep(last) {
        FilterAppend(Filter(init, keep), [last], keep);
        assert [last][..0] == [];
      }
    }
  }

  /** Every item of the filtered slice is accepted. */
  lemma FilterAccepted<T>(s: seq<T>, keep: T -> bool)
    ensures forall i :: 0 <= i < |Filter(s, keep)| ==> keep(Filter(s, keep)[i])
  {
    FilterExactly(s, keep);
    forall i | 0 <= i < |Filter(s, keep)|
      ensures keep(Filter(s, keep)[i])
    {
      assert Filter(s, keep)[i] in Filter(s, keep);
    }
  }
}
