/** The requirements.txt parser (gitParser/parse_requirements_txt.go): line
    scanning, backslash continuation, comment stripping, operator selection
    and PEP 503 name normalisation, collected into a map keyed by name@version. */
module Requirements {
  import opened Common
  import opened Models

  // ---------------------------------------------------------------------------
  // bufio.ScanLines

  function DropCR(s: string): (r: string)
    ensures r == s || (r + "\r" == s)
  {
    if |s| > 0 && s[|s| - 1] == '\r' then s[..|s| - 1] else s
  }

  function FirstNewline(s: string): (r: int)
    ensures -1 <= r < |s|
    ensures r >= 0 ==> s[r] == '\n'
    ensures forall k :: 0 <= k < |s| && (r < 0 || k < r) ==> s[k] != '\n'
  {
    if |s| == 0 then -1
    else if s[0] == '\n' then 0
    else
      var r := FirstNewline(s[1..]);
      if r < 0 then -1 else r + 1
  }

  /** The lines a bufio.Scanner yields: split at '\n', one trailing '\r'
      dropped from each, and no empty line after a final newline. */
  function Lines(content: string): (r: seq<string>)
    ensures forall i :: 0 <= i < |r| ==> '\n' !in r[i]
    decreases |content|
  {
    if content == [] then []
    else
      var i := FirstNewline(content);
      if i < 0 then [DropCR(content)]
      else [DropCR(content[..i])] + Lines(content[i + 1..])
  }

  /** The text whose lines are `ls`, each terminated by a newline. */
  function Unlines(ls: seq<string>): string {
    if ls == [] then "" else ls[0] + "\n" + Unlines(ls[1..])
  }

  /** Splitting the newline-terminated text of some lines gives the lines back,
      as long as no line holds a newline or ends in a carriage return. */
  lemma {:induction false} LinesUnlines(ls: seq<string>)
    requires forall i :: 0 <= i < |ls| ==> '\n' !in ls[i] && (ls[i] == [] || ls[i][|ls[i]| - 1] != '\r')
    ensures Lines(Unlines(ls)) == ls
  {
    if ls != [] {
      var c := Unlines(ls);
      var l := ls[0];
      assert c == l + "\n" + Unlines(ls[1..]);
      assert c[|l|] == '\n';
      assert forall k :: 0 <= k < |l| ==> c[k] == l[k];
      assert FirstNewline(c) == |l|;
      assert c[..|l|] == l;
      assert c[|l| + 1..] == Unlines(ls[1..]);
      LinesUnlines(ls[1..]);
    }
  }

  // ---------------------------------------------------------------------------
  // isLineContinuation: `([^\\]|^)(\\{2})*\\$`

  predicate AllBackslashes(s: string) {
    forall k :: 0 <= k < |s| ==> s[k] == '\\'
  }

  /** The regular expression matches when some run of backslashes reaching the
      end of the line, of odd length, starts at the line start or after a
      character that is not a backslash. */
  predicate IsLineContinuation(line: string) {
    exists p :: 0 <= p < |line| && (p == 0 || line[p - 1] != '\\')
                && AllBackslashes(line[p..]) && (|line| - p) % 2 == 1
  }

  /** The number of backslashes the line ends with. */
  function TrailingBackslashes(s: string): (r: nat)
    ensures r <= |s|
  {
    if |s| > 0 && s[|s| - 1] == '\\' then TrailingBackslashes(s[..|s| - 1]) + 1 else 0
  }

  lemma {:induction false} TrailingRun(s: string)
    ensures AllBackslashes(s[|s| - TrailingBackslashes(s)..])
    ensures TrailingBackslashes(s) < |s| ==> s[|s| - TrailingBackslashes(s) - 1] != '\\'
  {
    if |s| > 0 && s[|s| - 1] == '\\' {
      var init := s[..|s| - 1];
      TrailingRun(init);
      var t := TrailingBackslashes(init);
      assert s[|s| - (t + 1)..] == init[|init| - t..] + ['\\'];
    }
  }

  lemma {:induction false} TrailingExact(s: string, p: nat)
    requires p <= |s| && AllBackslashes(s[p..]) && (p == 0 || s[p - 1] != '\\')
    ensures TrailingBackslashes(s) == |s| - p
    decreases |s|
  {
    if p < |s| {
      var init := s[..|s| - 1];
      assert s[|s| - 1] == s[p..][|s| - 1 - p];
      assert init[p..] == s[p..][..|s| - 1 - p];
      assert p > 0 ==> init[p - 1] == s[p - 1];
      TrailingExact(init, p);
    }
  }

  /** The line continues exactly when it ends in an odd number of backslashes. */
  lemma LineContinuationOdd(line: string)
    ensures IsLineContinuation(line) <==> TrailingBackslashes(line) % 2 == 1
  {
    if IsLineContinuation(line) {
      var p :| 0 <= p < |line| && (p == 0 || line[p - 1] != '\\')
                && AllBackslashes(line[p..]) && (|line| - p) % 2 == 1;
      TrailingExact(line, p);
    }
    if TrailingBackslashes(line) % 2 == 1 {
      TrailingRun(line);
      var p := |line| - TrailingBackslashes(line);
      assert 0 <= p < |line| && (p == 0 || line[p - 1] != '\\') && AllBackslashes(line[p..]) && (|line| - p) % 2 == 1;
    }
  }

  lemma ContinuationEndsInBackslash(line: string)
    requires IsLineContinuation(line)
    ensures HasSuffix(line, "\\")
  {
    var p :| 0 <= p < |line| && (p == 0 || line[p - 1] != '\\')
              && AllBackslashes(line[p..]) && (|line| - p) % 2 == 1;
    assert line[|line| - 1] == line[p..][|line| - 1 - p];
    assert line[|line| - 1..] == "\\";
  }

  /** Stripping one backslash from a continued line leaves an even run, so a
      line with nothing appended never continues again. */
  lemma StripEndsContinuation(line: string)
    requires IsLineContinuation(line)
    ensures !IsLineContinuation(TrimSuffix(line, "\\"))
  {
    LineContinuationOdd(line);
    StripOneBackslash(line);
    LineContinuationOdd(TrimSuffix(line, "\\"));
  }

  lemma StripOneBackslash(line: string)
    requires TrailingBackslashes(line) > 0
    ensures TrailingBackslashes(TrimSuffix(line, "\\")) + 1 == TrailingBackslashes(line)
  {
    assert line[|line| - 1..] == "\\";
    assert TrimSuffix(line, "\\") == line[..|line| - 1];
  }

  // ---------------------------------------------------------------------------
  // removeComments: `(^|\s+)#.*$` replaced by "", then TrimSpace

  /** The `\s` class of the regular expression syntax: ASCII white space. */
  predicate IsRegexSpace(c: char) {
    c == '\t' || c == '\n' || c == '\U{000C}' || c == '\r' || c == ' '
  }

  /** A '#' that opens a comment: at the line start or after `\s`. */
  predicate CommentAt(line: string, h: nat)
    requires h < |line|
  {
    line[h] == '#' && (h == 0 || IsRegexSpace(line[h - 1]))
  }

  /** The first comment-opening '#' from `from` on, or -1. */
  function CommentStart(line: string, from: nat): (r: int)
    requires from <= |line|
    ensures r == -1 || from <= r < |line|
    ensures r >= 0 ==> CommentAt(line, r)
    ensures forall h :: from <= h < |line| && (r < 0 || h < r) ==> !CommentAt(line, h)
    decreases |line| - from
  {
    if from == |line| then -1
    else if CommentAt(line, from) then from
    else CommentStart(line, from + 1)
  }

  /** The start of the `\s` run that ends right before position h. */
  function SpaceRunStart(line: string, h: nat): (r: nat)
    requires h <= |line|
    ensures r <= h
    ensures forall k :: r <= k < h ==> IsRegexSpace(line[k])
    ensures r == 0 || !IsRegexSpace(line[r - 1])
  {
    if h > 0 && IsRegexSpace(line[h - 1]) then SpaceRunStart(line, h - 1) else h
  }

  /** The leftmost match starts at the space run before the first comment '#';
      it runs to the end of the line and is deleted; the rest is trimmed. */
  function RemoveComments(line: string): (r: string)
    ensures var h := CommentStart(line, 0); h >= 0 ==> |r| <= h
  {
    TrimSpace(CommentFree(line))
  }

  lemma TrimSpaceSlice(s: string) returns (a: nat, b: nat)
    ensures a <= b <= |s| && TrimSpace(s) == s[a..b]
  {
    var l := TrimLeftSpace(s);
    a := |s| - |l|;
    var r := TrimRightSpace(l);
    b := a + |r|;
    assert r == l[..|r|];
  }

  /** The text removeComments keeps before trimming: the line up to the space
      run in front of the first comment '#', or the whole line. */
  function CommentFree(line: string): (r: string)
    ensures HasPrefix(line, r)
    ensures forall p :: 0 <= p < |r| ==> !CommentAt(line, p)
  {
    var h := CommentStart(line, 0);
    if h < 0 then line else line[..SpaceRunStart(line, h)]
  }

  /** A '#' glued to a preceding non-space character survives; no comment
      opener survives except possibly at the trimmed start. */
  lemma RemoveCommentsNoOpener(line: string)
    ensures var r := RemoveComments(line);
            forall p :: 0 < p < |r| && r[p] == '#' ==> !IsRegexSpace(r[p - 1])
  {
    var cut := CommentFree(line);
    var a, b := TrimSpaceSlice(cut);
    var r := RemoveComments(line);
    assert r == cut[a..b];
    forall p | 0 < p < |r| && r[p] == '#'
      ensures !IsRegexSpace(r[p - 1])
    {
      assert r[p] == cut[a + p] == line[a + p];
      assert r[p - 1] == cut[a + p - 1] == line[a + p - 1];
      assert !CommentAt(line, a + p);
    }
  }

  /** Without a comment opener, removeComments only trims. */
  lemma RemoveCommentsNoComment(line: string)
    requires forall h :: 0 <= h < |line| ==> !CommentAt(line, h)
    ensures RemoveComments(line) == TrimSpace(line)
  {
  }

  /** A line that is only a comment (after leading spaces) is cut to nothing and skipped. */
  lemma CommentLineSkipped(line: string, h: nat)
    requires h < |line| && line[h] == '#'
    requires forall k :: 0 <= k < h ==> IsRegexSpace(line[k])
    ensures RemoveComments(line) == ""
    ensures IsNotRequirementLine(RemoveComments(line))
  {
    var c := CommentStart(line, 0);
    assert CommentAt(line, h) by {
      if h > 0 { assert IsRegexSpace(line[h - 1]); }
    }
    assert 0 <= c <= h;
    var s := SpaceRunStart(line, c);
    assert forall k :: 0 <= k < c ==> IsRegexSpace(line[k]);
    assert line[..0] == "";
  }

  // ---------------------------------------------------------------------------
  // isNotRequirementLine

  predicate IsNotRequirementLine(line: string) {
    line == ""
    || HasPrefix(line, "-")
    || HasPrefix(line, "https://")
    || HasPrefix(line, "http://")
    || HasPrefix(line, ".")
    || HasPrefix(line, "/")
  }

  // ---------------------------------------------------------------------------
  // normalizedRequirementName

  predicate IsSeparator(c: char) {
    c == '-' || c == '_' || c == '.'
  }

  function DropSeparators(s: string): (r: string)
    ensures |r| <= |s| && r == s[|s| - |r|..]
    ensures r == [] || !IsSeparator(r[0])
  {
    if |s| > 0 && IsSeparator(s[0]) then DropSeparators(s[1..]) else s
  }

  /** `[-_.]+` replaced by "-": every maximal separator run becomes one dash. */
  function CollapseSeparators(s: string): (r: string)
    ensures |s| > 0 && !IsSeparator(s[0]) ==> |r| > 0 && r[0] == s[0]
    decreases |s|
  {
    if s == [] then []
    else if IsSeparator(s[0]) then "-" + CollapseSeparators(DropSeparators(s))
    else [s[0]] + CollapseSeparators(s[1..])
  }

  predicate NoDoubleDash(s: string) {
    forall k :: 0 <= k < |s| - 1 ==> !(s[k] == '-' && s[k + 1] == '-')
  }

  /** A normalised name: no '_', '.' or '[', no "--", no ASCII capital. */
  predicate IsNormalized(s: string) {
    (forall k :: 0 <= k < |s| ==> s[k] != '_' && s[k] != '.' && s[k] != '[' && !IsUpperAscii(s[k]))
    && NoDoubleDash(s)
  }

  lemma {:induction false} CollapseShape(s: string)
    ensures var r := CollapseSeparators(s);
            (forall k :: 0 <= k < |r| ==> r[k] != '_' && r[k] != '.') && NoDoubleDash(r)
    decreases |s|
  {
    if s != [] {
      if IsSeparator(s[0]) {
        var d := DropSeparators(s);
        CollapseShape(d);
      } else {
        CollapseShape(s[1..]);
      }
    }
  }

  lemma {:induction false} CollapseIdentity(s: string)
    requires forall k :: 0 <= k < |s| ==> s[k] != '_' && s[k] != '.'
    requires NoDoubleDash(s)
    ensures CollapseSeparators(s) == s
    decreases |s|
  {
    if s != [] {
      if IsSeparator(s[0]) {
        assert DropSeparators(s) == s[1..] by {
          if |s| > 1 { assert !IsSeparator(s[1]); }
          assert DropSeparators(s) == DropSeparators(s[1..]);
        }
        CollapseIdentity(s[1..]);
        assert s == "-" + s[1..];
      } else {
        CollapseIdentity(s[1..]);
        assert s == [s[0]] + s[1..];
      }
    }
  }

  /** PEP 503 normalisation followed by dropping the extras syntax. */
  function NormalizedRequirementName(name: string): (r: string)
    ensures IsNormalized(r)
  {
    var collapsed := CollapseSeparators(name);
    var lowered := ToLowerAscii(collapsed);
    var r := Cut(lowered, "[").0;
    assert IsNormalized(r) by {
      CollapseShape(name);
      assert forall k :: 0 <= k < |lowered| ==> lowered[k] != '_' && lowered[k] != '.';
      assert NoDoubleDash(lowered);
      CutPrefix(lowered, "[");
      ContainsChar(r, '[');
    }
    r
  }

  lemma CutPrefix(s: string, sep: string)
    ensures HasPrefix(s, Cut(s, sep).0)
  {
    var c := Cut(s, sep);
    if c.2 {
      assert s == c.0 + sep + c.1;
      assert s[..|c.0|] == c.0;
    }
  }

  lemma ToLowerIdentity(s: string)
    requires forall k :: 0 <= k < |s| ==> !IsUpperAscii(s[k])
    ensures ToLowerAscii(s) == s
  {
  }

  /** Normalising a normalised name changes nothing. */
  lemma NormalizedIdempotent(name: string)
    ensures NormalizedRequirementName(NormalizedRequirementName(name)) == NormalizedRequirementName(name)
  {
    var n := NormalizedRequirementName(name);
    CollapseIdentity(n);
    ToLowerIdentity(n);
    ContainsChar(n, '[');
    assert !Contains(n, "[");
  }

  // ---------------------------------------------------------------------------
  // parseLine

  /** The operator parseLine settles on: each later check overwrites the earlier. */
  function Constraint(line: string): string {
    var c1 := if Contains(line, "==") then "==" else "";
    var c2 := if Contains(line, ">=") then ">=" else c1;
    var c3 := if Contains(line, "~=") then "~=" else c2;
    var c4 := if Contains(line, "!=") then "!=" else c3;
    c4
  }

  /** Priority: "!=" over "~=" over ">=" over "==". */
  lemma ConstraintPriority(line: string)
    ensures Contains(line, "!=") ==> Constraint(line) == "!="
    ensures !Contains(line, "!=") && Contains(line, "~=") ==> Constraint(line) == "~="
    ensures !Contains(line, "!=") && !Contains(line, "~=") && Contains(line, ">=") ==> Constraint(line) == ">="
    ensures !Contains(line, "!=") && !Contains(line, "~=") && !Contains(line, ">=") && Contains(line, "==") ==> Constraint(line) == "=="
    ensures Constraint(line) == "" <==> !Contains(line, "!=") && !Contains(line, "~=") && !Contains(line, ">=") && !Contains(line, "==")
    ensures Constraint(line) != "" ==> Contains(line, Constraint(line))
  {
  }

  const DefaultVersion := "0.0.0"

  function ParseLine(line: string): (d: PackageDetails)
    ensures d.ecosystem == PipEcosystem && d.compareAs == PipEcosystem && d.commit == "" && d.depGroups == []
    ensures IsNormalized(d.name)
  {
    var constraint := Constraint(line);
    var name := if constraint != "" then TrimSpace(Cut(line, constraint).0) else line;
    var version := if constraint != "" && constraint != "!=" then Cut(TrimSpace(Cut(line, constraint).1), " ").0 else DefaultVersion;
    PackageDetails(NormalizedRequirementName(name), version, "", PipEcosystem, PipEcosystem, [])
  }

  /** A line with no operator names a package by the whole line at version 0.0.0. */
  lemma ParseLineNoOperator(line: string)
    requires !Contains(line, "==") && !Contains(line, ">=") && !Contains(line, "~=") && !Contains(line, "!=")
    ensures ParseLine(line).name == NormalizedRequirementName(line)
    ensures ParseLine(line).version == DefaultVersion
  {
  }

  /** With an operator, the name is the trimmed text before its first occurrence;
      for "!=" the version stays 0.0.0, otherwise it is the trimmed text after
      the operator up to the first space. */
  lemma ParseLineWithOperator(line: string)
    requires Constraint(line) != ""
    ensures var c := Constraint(line);
            var before := Cut(line, c).0;
            var after := Cut(line, c).1;
            && before + c + after == line && !Contains(before, c)
            && ParseLine(line).name == NormalizedRequirementName(TrimSpace(before))
            && (c == "!=" ==> ParseLine(line).version == DefaultVersion)
            && (c != "!=" ==> HasPrefix(TrimSpace(after), ParseLine(line).version)
                              && !Contains(ParseLine(line).version, " "))
  {
    ConstraintPriority(line);
    var c := Constraint(line);
    if c != "!=" {
      CutPrefix(TrimSpace(Cut(line, c).1), " ");
    }
  }

  // ---------------------------------------------------------------------------
  // The group tag

  /** The dependency group tag of a requirements file: its base name without extension. */
  function GroupTag(path: string): string {
    TrimSuffix(Base(path), Ext(path))
  }

  // ---------------------------------------------------------------------------
  // ParseRequirementsTxt, specified over the scanned lines

  /** The continuation loop: the joined line and the lines left to scan. */
  function Continue(line: string, rest: seq<string>): (r: (string, seq<string>))
    ensures |r.1| <= |rest|
    decreases |rest|, |line|
  {
    if IsLineContinuation(line) then
      ContinuationEndsInBackslash(line);
      var t := TrimSuffix(line, "\\");
      if rest == [] then Continue(t, [])
      else Continue(t + rest[0], rest[1..])
    else (line, rest)
  }

  /** The joined line never continues, and the lines left are a suffix of those given. */
  lemma {:induction false} ContinueEnds(line: string, rest: seq<string>)
    ensures !IsLineContinuation(Continue(line, rest).0)
    ensures var r := Continue(line, rest).1; r == rest[|rest| - |r|..]
    decreases |rest|, |line|
  {
    if IsLineContinuation(line) {
      ContinuationEndsInBackslash(line);
      var t := TrimSuffix(line, "\\");
      if rest == [] {
        ContinueEnds(t, []);
      } else {
        ContinueEnds(t + rest[0], rest[1..]);
      }
    }
  }

  /** The logical lines: each scanned line with its continuations joined on. */
  function LogicalLines(lines: seq<string>): seq<string>
    decreases |lines|
  {
    if lines == [] then []
    else
      var c := Continue(lines[0], lines[1..]);
      [c.0] + LogicalLines(c.1)
  }

  /** The packages of the logical lines that survive comment removal and the filter. */
  function LineDetails(logical: seq<string>): seq<PackageDetails> {
    if logical == [] then []
    else LineDetails(logical[..|logical| - 1]) + LineEntry(logical[|logical| - 1])
  }

  /** The package of one logical line, if it is a requirement once comments are removed. */
  function LineEntry(line: string): (r: seq<PackageDetails>)
    ensures |r| <= 1
  {
    var l := RemoveComments(line);
    if IsNotRequirementLine(l) then [] else [ParseLine(l)]
  }

  function Key(d: PackageDetails): string {
    d.name + "@" + d.version
  }

  /** The map update of one detail: inserted if its key is new, then tagged with the group once. */
  function AddDetail(m: map<string, PackageDetails>, detail: PackageDetails, group: string): map<string, PackageDetails> {
    var key := Key(detail);
    var m1 := if key !in m then m[key := detail] else m;
    var d := m1[key];
    if group !in d.depGroups then m1[key := d.(depGroups := d.depGroups + [group])] else m1
  }

  /** The map `m` after the given details. */
  function Extend(m: map<string, PackageDetails>, details: seq<PackageDetails>, group: string): map<string, PackageDetails> {
    if details == [] then m
    else AddDetail(Extend(m, details[..|details| - 1], group), details[|details| - 1], group)
  }

  /** The packages map after the given details, starting empty. */
  function Build(details: seq<PackageDetails>, group: string): map<string, PackageDetails> {
    Extend(map[], details, group)
  }

  lemma {:induction false} ExtendAppend(m: map<string, PackageDetails>, a: seq<PackageDetails>, b: seq<PackageDetails>, group: string)
    ensures Extend(m, a + b, group) == Extend(Extend(m, a, group), b, group)
  {
    if b != [] {
      assert (a + b)[..|a + b| - 1] == a + b[..|b| - 1];
      ExtendAppend(m, a, b[..|b| - 1], group);
    } else {
      assert a + b == a;
    }
  }

  /** The first detail with the given key. */
  function FirstWithKey(details: seq<PackageDetails>, key: string): Option<PackageDetails> {
    if details == [] then None
    else if Key(details[0]) == key then Some(details[0])
    else FirstWithKey(details[1..], key)
  }

  lemma FirstWithKeySnoc(details: seq<PackageDetails>, d: PackageDetails, key: string)
    ensures FirstWithKey(details + [d], key) ==
      if FirstWithKey(details, key).Some? then FirstWithKey(details, key)
      else if Key(d) == key then Some(d) else None
  {
    if details != [] {
      assert (details + [d])[1..] == details[1..] + [d];
      FirstWithKeySnoc(details[1..], d, key);
    }
  }

  /** Each key holds the first detail with that key, tagged with the group exactly
      once; the keys are exactly the keys of the details. */
  lemma {:induction false} BuildFirstOccurrence(details: seq<PackageDetails>, group: string)
    requires forall i :: 0 <= i < |details| ==> details[i].depGroups == []
    ensures forall k :: k in Build(details, group) <==> FirstWithKey(details, k).Some?
    ensures forall k :: k in Build(details, group) ==>
              Build(details, group)[k] == FirstWithKey(details, k).value.(depGroups := [group])
    ensures forall k :: k in Build(details, group) ==> Key(Build(details, group)[k]) == k
  {
    if details != [] {
      var init := details[..|details| - 1];
      var d := details[|details| - 1];
      BuildFirstOccurrence(init, group);
      assert details == init + [d];
      forall k ensures FirstWithKey(details, k) ==
        if FirstWithKey(init, k).Some? then FirstWithKey(init, k)
        else if Key(d) == k then Some(d) else None
      {
        FirstWithKeySnoc(init, d, k);
      }
      forall k | FirstWithKey(init, k).Some?
        ensures Key(FirstWithKey(init, k).value) == k
      {
        FirstWithKeyMatches(init, k);
      }
    }
  }

  lemma FirstWithKeyMatches(details: seq<PackageDetails>, key: string)
    requires FirstWithKey(details, key).Some?
    ensures Key(FirstWithKey(details, key).value) == key
    ensures FirstWithKey(details, key).value in details
  {
  }

  /** `packages` lists the values of `m`, each once, in some order. */
  predicate ListsValues(packages: seq<PackageDetails>, m: map<string, PackageDetails>) {
    && |packages| == |m|
    && (forall i :: 0 <= i < |packages| ==> Key(packages[i]) in m && m[Key(packages[i])] == packages[i])
    && (forall i, j :: 0 <= i < j < |packages| ==> Key(packages[i]) != Key(packages[j]))
  }

  /** The packages map ParseRequirementsTxt builds for a file. */
  function ParsedRequirements(depFile: DepFile): map<string, PackageDetails> {
    Build(LineDetails(LogicalLines(Lines(depFile.content))), GroupTag(depFile.path))
  }

  /** ParseRequirementsTxt: the scanner loop filling the packages map, then the
      map's values in unspecified order. */
  method ParseRequirementsTxt(depFile: DepFile) returns (packages: seq<PackageDetails>)
    ensures ListsValues(packages, ParsedRequirements(depFile))
  {
    var lines := Lines(depFile.content);
    var group := TrimSuffix(Base(depFile.path), Ext(depFile.path));
    var m := ScanLines(lines, group);
    RequirementsParsed(LogicalLines(lines));
    BuildFirstOccurrence(LineDetails(LogicalLines(lines)), group);
    ghost var keys;
    packages, keys := MapValues(m);
  }

  /** The scanner loop over the lines of the file, filling the packages map. */
  method ScanLines(lines: seq<string>, group: string) returns (m: map<string, PackageDetails>)
    ensures m == Build(LineDetails(LogicalLines(lines)), group)
  {
    m := map[];
    ghost var done: seq<string> := [];
    var idx := 0;
    assert lines[0..] == lines && done + LogicalLines(lines) == LogicalLines(lines);
    while idx < |lines|
      invariant 0 <= idx <= |lines|
      invariant done + LogicalLines(lines[idx..]) == LogicalLines(lines)
      invariant m == Build(LineDetails(done), group)
      decreases |lines| - idx
    {
      idx, m, done := ScanLogicalLine(lines, group, idx, m, done);
    }
    assert lines[|lines|..] == [] && done + [] == done;
  }

  /** One turn of the scanner loop: the next logical line, joined and added. */
  method ScanLogicalLine(lines: seq<string>, group: string, idx: nat, m0: map<string, PackageDetails>, ghost done0: seq<string>)
    returns (next: nat, m: map<string, PackageDetails>, ghost done: seq<string>)
    requires idx < |lines|
    requires done0 + LogicalLines(lines[idx..]) == LogicalLines(lines)
    requires m0 == Build(LineDetails(done0), group)
    ensures idx < next <= |lines|
    ensures done + LogicalLines(lines[next..]) == LogicalLines(lines)
    ensures m == Build(LineDetails(done), group)
  {
    var line;
    line, next := JoinContinued(lines, idx);
    LogicalUnfold(lines, idx, next, line, done0);
    LineDetailsSnoc(done0, line);
    ExtendAppend(map[], LineDetails(done0), LineEntry(line), group);
    done := done0 + [line];
    m := AddLine(m0, line, group);
  }

  lemma LogicalUnfold(lines: seq<string>, idx: nat, next: nat, line: string, done: seq<string>)
    requires idx < next <= |lines|
    requires (line, lines[next..]) == Continue(lines[idx], lines[idx + 1..])
    requires done + LogicalLines(lines[idx..]) == LogicalLines(lines)
    ensures (done + [line]) + LogicalLines(lines[next..]) == LogicalLines(lines)
  {
    assert lines[idx..][1..] == lines[idx + 1..];
    assert LogicalLines(lines[idx..]) == [line] + LogicalLines(lines[next..]);
    assert (done + [line]) + LogicalLines(lines[next..]) == done + ([line] + LogicalLines(lines[next..]));
  }

  /** The inner loop of the scanner: while the line continues, drop its final
      backslash and append the next scanned line, if any. */
  method JoinContinued(lines: seq<string>, idx: nat) returns (line: string, next: nat)
    requires idx < |lines|
    ensures idx < next <= |lines|
    ensures (line, lines[next..]) == Continue(lines[idx], lines[idx + 1..])
  {
    line := lines[idx];
    next := idx + 1;
    ghost var target := Continue(line, lines[next..]);
    while IsLineContinuation(line)
      invariant idx < next <= |lines|
      invariant Continue(line, lines[next..]) == target
      decreases |lines| - next, |line|
    {
      ContinueStep(line, lines, next);
      line := TrimSuffix(line, "\\");
      if next < |lines| {
        line := line + lines[next];
        next := next + 1;
      }
    }
  }

  lemma ContinueStep(line: string, lines: seq<string>, next: nat)
    requires next <= |lines| && IsLineContinuation(line)
    ensures HasSuffix(line, "\\")
    ensures next < |lines| ==> Continue(line, lines[next..]) == Continue(TrimSuffix(line, "\\") + lines[next], lines[next + 1..])
    ensures next == |lines| ==> Continue(line, lines[next..]) == Continue(TrimSuffix(line, "\\"), lines[next..])
  {
    ContinuationEndsInBackslash(line);
    if next < |lines| {
      assert lines[next..][1..] == lines[next + 1..];
    }
  }

  /** One logical line: comments removed, skipped when it is not a requirement,
      otherwise parsed, inserted under its key if new, and tagged with the group. */
  method AddLine(m0: map<string, PackageDetails>, line0: string, group: string) returns (m: map<string, PackageDetails>)
    ensures m == Extend(m0, LineEntry(line0), group)
  {
    m := m0;
    var line := RemoveComments(line0);
    if IsNotRequirementLine(line) {
      return;
    }
    var detail := ParseLine(line);
    ExtendOne(m0, detail, group);
    m := AddPackage(m, detail, group);
  }

  /** The map update for one parsed package. */
  method AddPackage(m0: map<string, PackageDetails>, detail: PackageDetails, group: string) returns (m: map<string, PackageDetails>)
    ensures m == AddDetail(m0, detail, group)
  {
    m := m0;
    var key := detail.name + "@" + detail.version;
    if key !in m {
      m := m[key := detail];
    }
    var d := m[key];
    if group !in d.depGroups {
      d := d.(depGroups := d.depGroups + [group]);
      m := m[key := d];
    }
  }

  lemma ExtendOne(m: map<string, PackageDetails>, d: PackageDetails, group: string)
    ensures Extend(m, [d], group) == AddDetail(m, d, group)
  {
    assert [d][..0] == [];
  }

  lemma LineDetailsSnoc(logical: seq<string>, line: string)
    ensures LineDetails(logical + [line]) == LineDetails(logical) + LineEntry(line)
  {
    assert (logical + [line])[..|logical|] == logical;
  }

  lemma {:induction false} RequirementsParsed(logical: seq<string>)
    ensures forall i :: 0 <= i < |LineDetails(logical)| ==> LineDetails(logical)[i].depGroups == []
  {
    if logical != [] {
      RequirementsParsed(logical[..|logical| - 1]);
    }
  }

  /** Every package ParseRequirementsTxt returns carries exactly the file's group tag. */
  lemma RequirementsGroupTag(content: string, path: string, k: string)
    requires k in Build(LineDetails(LogicalLines(Lines(content))), GroupTag(path))
    ensures Build(LineDetails(LogicalLines(Lines(content))), GroupTag(path))[k].depGroups == [GroupTag(path)]
    ensures Build(LineDetails(LogicalLines(Lines(content))), GroupTag(path))[k].ecosystem == PipEcosystem
  {
    var details := LineDetails(LogicalLines(Lines(content)));
    RequirementsParsed(LogicalLines(Lines(content)));
    BuildFirstOccurrence(details, GroupTag(path));
    FirstWithKeyMatches(details, k);
    RequirementsEcosystem(LogicalLines(Lines(content)));
  }

  lemma {:induction false} RequirementsEcosystem(logical: seq<string>)
    ensures forall d :: d in LineDetails(logical) ==> d.ecosystem == PipEcosystem
  {
    if logical != [] {
      RequirementsEcosystem(logical[..|logical| - 1]);
    }
  }
}
