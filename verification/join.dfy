/** Joining scaffolds into superscaffolds: the joins file, the names of the
    new superscaffolds, the joining itself and the `join` command. */
module Join {
  import opened Wrappers
  import opened Seqs
  import opened Text
  import opened Agp
  import Flip
  import Remove

  // ---- the joins file ----

  /** One line of a joins file: the scaffolds to join, in order, each
      optionally signed `+` or `-`, and the name to give the result. */
  datatype JoinGroup = JoinGroup(scaffolds: seq<string>, name: Option<string>)

  datatype JoinsFileError =
    | BadSequenceNameError(badName: string)
    | ScaffoldUsedTwiceError(reused: set<string>)

  /** The text `BadSequenceNameError` shows. */
  function BadNameMessage(name: string): string
  {
    "Bad scaffold name: '" + name + "'. Only [a-zA-Z0-9._] allowed."
  }

  /** `[a-zA-Z0-9]`. */
  predicate IsAlnum(c: char)
  {
    'a' <= c <= 'z' || 'A' <= c <= 'Z' || '0' <= c <= '9'
  }

  /** `[a-zA-Z0-9.]`. */
  predicate IsNameChar(c: char)
  {
    IsAlnum(c) || c == '.'
  }

  /** `sequence_name_regex` matches the whole string. */
  predicate GoodSequenceName(s: string)
  {
    |s| >= 1 && forall i :: 0 <= i < |s| ==> IsNameChar(s[i])
  }

  /** The group one line of a joins file describes, or the bad name in its
      second column. */
  function GroupOfLine(line: string): (r: Result<JoinGroup, JoinsFileError>)
    ensures r.Err? <==> |Split(Strip(line), '\t')| > 1 && !GoodSequenceName(Split(Strip(line), '\t')[1])
    ensures r.Err? ==> r.error == BadSequenceNameError(Split(Strip(line), '\t')[1])
    ensures r.Ok? ==> |r.value.scaffolds| >= 1 && forall i :: 0 <= i < |r.value.scaffolds| ==> ',' !in r.value.scaffolds[i]
    ensures r.Ok? && r.value.name.Some? ==> GoodSequenceName(r.value.name.value)
  {
    var columns := Split(Strip(line), '\t');
    var scaffolds := Split(columns[0], ',');
    if |columns| > 1 then
      if GoodSequenceName(columns[1]) then Ok(JoinGroup(scaffolds, Some(columns[1])))
      else Err(BadSequenceNameError(columns[1]))
    else Ok(JoinGroup(scaffolds, None))
  }

  /** A group name holding `_` is refused, although the message of
      `BadSequenceNameError` lists `_` among the characters allowed. */
  lemma UnderscoreNameRefused(line: string, k: nat)
    requires |Split(Strip(line), '\t')| > 1
    requires k < |Split(Strip(line), '\t')[1]| && Split(Strip(line), '\t')[1][k] == '_'
    ensures GroupOfLine(line) == Err(BadSequenceNameError(Split(Strip(line), '\t')[1]))
  {
    assert !IsNameChar('_');
  }

  function GroupsOf(lines: seq<string>): (rs: seq<Result<JoinGroup, JoinsFileError>>)
    ensures |rs| == |lines| && forall i :: 0 <= i < |lines| ==> rs[i] == GroupOfLine(lines[i])
  {
    seq(|lines|, i requires 0 <= i < |lines| => GroupOfLine(lines[i]))
  }

  /** A scaffold entry without its orientation signs (`s.lstrip("+-")`). */
  function Unsigned(entry: string): string
  {
    LStrip(entry, {'+', '-'})
  }

  function UnsignedAll(entries: seq<string>): (names: seq<string>)
    ensures |names| == |entries| && forall i :: 0 <= i < |entries| ==> names[i] == Unsigned(entries[i])
  {
    seq(|entries|, i requires 0 <= i < |entries| => Unsigned(entries[i]))
  }

  /** Every scaffold of every group, unsigned, in file order. */
  function JoinedNames(joins: seq<JoinGroup>): seq<string>
  {
    if joins == [] then []
    else JoinedNames(joins[..|joins| - 1]) + UnsignedAll(Last(joins).scaffolds)
  }

  /** The names listed more than once. */
  function Reused(names: seq<string>): set<string>
  {
    set n | n in names && multiset(names)[n] > 1
  }

  predicate Distinct(names: seq<string>)
  {
    forall i, j :: 0 <= i < j < |names| ==> names[i] != names[j]
  }

  /** What `joins_type` makes of the lines of a joins file. */
  function ParseJoins(lines: seq<string>): Result<seq<JoinGroup>, JoinsFileError>
  {
    match Collect(GroupsOf(lines))
    case Err(e) => Err(e)
    case Ok(joins) =>
      var reused := Reused(JoinedNames(joins));
      if reused != {} then Err(ScaffoldUsedTwiceError(reused)) else Ok(joins)
  }

  lemma {:induction false} DistinctCount(names: seq<string>, n: string)
    requires Distinct(names)
    ensures multiset(names)[n] <= 1
  {
    if names != [] {
      var init := names[..|names| - 1];
      assert names == init + [Last(names)];
      DistinctCount(init, n);
      if Last(names) == n {
        forall i | 0 <= i < |init|
          ensures init[i] != n
        {
          assert names[i] != names[|names| - 1];
        }
      }
    }
  }

  lemma RepeatCount(names: seq<string>, i: nat, j: nat)
    requires i < j < |names| && names[i] == names[j]
    ensures multiset(names)[names[i]] >= 2
  {
    var n := names[i];
    assert names == names[..i] + [n] + names[i + 1..j] + [n] + names[j + 1..];
  }

  /** No name is reported as reused exactly when the names are distinct. */
  lemma ReusedNone(names: seq<string>)
    ensures Reused(names) == {} <==> Distinct(names)
  {
    if Distinct(names) {
      forall n | n in names
        ensures multiset(names)[n] <= 1
      {
        DistinctCount(names, n);
      }
    } else {
      var i, j :| 0 <= i < j < |names| && names[i] == names[j];
      RepeatCount(names, i, j);
      assert names[i] in Reused(names);
    }
  }

  /** Reading a joins file fails on the first line with a bad second
      column, reporting that column. */
  lemma ParseJoinsBadName(lines: seq<string>)
    ensures ParseJoins(lines).Err? && ParseJoins(lines).error.BadSequenceNameError? ==>
      exists k :: 0 <= k < |lines| && GroupOfLine(lines[k]) == Err(ParseJoins(lines).error)
        && forall i :: 0 <= i < k ==> GroupOfLine(lines[i]).Ok?
  {
    var rs := GroupsOf(lines);
    if Collect(rs).Err? {
      var k := CollectFirstError(rs);
    }
  }

  /** When every line is good, reading fails exactly when some unsigned
      scaffold name is listed twice, reporting every such name, and
      otherwise yields one group per line. */
  lemma ParseJoinsReused(lines: seq<string>)
    requires forall i :: 0 <= i < |lines| ==> GroupOfLine(lines[i]).Ok?
    ensures var joins := seq(|lines|, i requires 0 <= i < |lines| => GroupOfLine(lines[i]).value);
      && (ParseJoins(lines).Ok? <==> Distinct(JoinedNames(joins)))
      && (ParseJoins(lines).Ok? ==> ParseJoins(lines).value == joins)
      && (ParseJoins(lines).Err? ==> ParseJoins(lines).error == ScaffoldUsedTwiceError(Reused(JoinedNames(joins))))
  {
    var rs := GroupsOf(lines);
    CollectOk(rs);
    var joins := seq(|lines|, i requires 0 <= i < |lines| => GroupOfLine(lines[i]).value);
    assert Collect(rs).value == joins;
    ReusedNone(JoinedNames(joins));
  }

  /** How often each name occurs (`Counter`). */
  method CountNames(names: seq<string>) returns (counts: map<string, nat>)
    ensures forall n :: n in counts <==> n in names
    ensures forall n :: n in counts ==> counts[n] == multiset(names)[n]
  {
    counts := map[];
    for i := 0 to |names|
      invariant forall n :: n in counts <==> n in names[..i]
      invariant forall n :: n in counts ==> counts[n] == multiset(names[..i])[n]
    {
      var n := names[i];
      assert names[..i + 1] == names[..i] + [n];
      counts := counts[n := if n in counts then counts[n] + 1 else 1];
    }
    assert names[..|names|] == names;
  }

  /** `joins_type`, on the lines of the file. */
  method JoinsType(lines: seq<string>) returns (r: Result<seq<JoinGroup>, JoinsFileError>)
    ensures r == ParseJoins(lines)
  {
    var read := ReadGroups(lines);
    if read.Err? {
      return Err(read.error);
    }
    var joins := read.value;
    var reusedScaffolds := ReusedNames(JoinedNames(joins));
    if reusedScaffolds != {} {
      return Err(ScaffoldUsedTwiceError(reusedScaffolds));
    }
    return Ok(joins);
  }

  /** The names counted more than once. */
  method ReusedNames(names: seq<string>) returns (reused: set<string>)
    ensures reused == Reused(names)
  {
    var scaffoldCounts := CountNames(names);
    reused := set n | n in scaffoldCounts && scaffoldCounts[n] > 1;
  }

  /** The loop of `joins_type` over the lines: the groups in file order, or
      the first bad name. */
  method ReadGroups(lines: seq<string>) returns (r: Result<seq<JoinGroup>, JoinsFileError>)
    ensures r == Collect(GroupsOf(lines))
  {
    ghost var rs := GroupsOf(lines);
    var joins: seq<JoinGroup> := [];
    for i := 0 to |lines|
      invariant Collect(rs[..i]) == Ok(joins)
    {
      CollectStep(rs, i, joins);
      var group := ReadGroup(lines[i]);
      if group.Err? {
        return Err(group.error);
      }
      joins := joins + [group.value];
    }
    assert rs[..|lines|] == rs;
    return Ok(joins);
  }

  /** One line of a joins file: the scaffolds of its first column and the
      name in its second, when there is one. */
  method ReadGroup(line: string) returns (r: Result<JoinGroup, JoinsFileError>)
    ensures r == GroupOfLine(line)
  {
    var columns := Split(Strip(line), '\t');
    var joinGroup := JoinGroup(Split(columns[0], ','), None);
    if |columns| > 1 {
      if !GoodSequenceName(columns[1]) {
        return Err(BadSequenceNameError(columns[1]));
      }
      joinGroup := joinGroup.(name := Some(columns[1]));
    }
    return Ok(joinGroup);
  }

  // ---- superscaffold names ----

  /** The length of the longest run of `[a-zA-Z0-9]` starting at `i`. */
  function AlnumRun(s: string, i: nat): (n: nat)
    requires i <= |s|
    ensures i + n <= |s|
    ensures forall k :: i <= k < i + n ==> IsAlnum(s[k])
    ensures i + n == |s| || !IsAlnum(s[i + n])
    decreases |s| - i
  {
    if i < |s| && IsAlnum(s[i]) then 1 + AlnumRun(s, i + 1) else 0
  }

  /** The length of the longest run of `[a-zA-Z0-9.]` starting at `i`. */
  function NameRun(s: string, i: nat): (n: nat)
    requires i <= |s|
    ensures i + n <= |s|
    ensures forall k :: i <= k < i + n ==> IsNameChar(s[k])
    ensures i + n == |s| || !IsNameChar(s[i + n])
    decreases |s| - i
  {
    if i < |s| && IsNameChar(s[i]) then 1 + NameRun(s, i + 1) else 0
  }

  /** `scaffold_regex` tried at position `i`: both groups are greedy, and no
      shorter first group can help since it would be followed by `[a-zA-Z0-9]`
      rather than `_`. */
  function MatchAt(s: string, i: nat): Option<(string, string)>
    requires i <= |s|
  {
    var j := i + AlnumRun(s, i);
    if j > i && j + 1 < |s| && s[j] == '_' && IsNameChar(s[j + 1]) then
      Some((s[i..j], s[j + 1..j + 1 + NameRun(s, j + 1)]))
    else None
  }

  function SearchFrom(s: string, i: nat): Option<(string, string)>
    requires i <= |s|
    decreases |s| - i
  {
    if i == |s| then None
    else
      match MatchAt(s, i)
      case Some(m) => Some(m)
      case None => SearchFrom(s, i + 1)
  }

  /** `scaffold_regex.search`: the two groups of the leftmost match. */
  function ScaffoldSearch(s: string): Option<(string, string)>
  {
    SearchFrom(s, 0)
  }

  /** A match can cross `_` at `k + 1`. */
  predicate Underscored(s: string, k: int)
  {
    0 <= k && k + 2 < |s| && IsAlnum(s[k]) && s[k + 1] == '_' && IsNameChar(s[k + 2])
  }

  /** `t` occurs in `s` at `k`. */
  predicate OccursAt(s: string, k: int, t: string)
  {
    0 <= k && k + |t| <= |s| && s[k..k + |t|] == t
  }

  /** The groups of a match: a nonempty `[a-zA-Z0-9]` run, and a nonempty
      `[a-zA-Z0-9.]` run after an `_` that follows it in `s`. */
  ghost predicate MatchShape(s: string, i: nat, m: (string, string))
  {
    && |m.0| >= 1 && |m.1| >= 1
    && (forall k :: 0 <= k < |m.0| ==> IsAlnum(m.0[k]))
    && (forall k :: 0 <= k < |m.1| ==> IsNameChar(m.1[k]))
    && exists k :: i <= k && OccursAt(s, k, m.0 + "_" + m.1)
  }

  lemma MatchAtSpec(s: string, i: nat)
    requires i <= |s|
    ensures MatchAt(s, i).Some? ==> MatchShape(s, i, MatchAt(s, i).value) && Underscored(s, i + |MatchAt(s, i).value.0| - 1)
    ensures MatchAt(s, i).None? ==> !Underscored(s, i)
  {
    var j := i + AlnumRun(s, i);
    if MatchAt(s, i).Some? {
      var (prefix, suffix) := MatchAt(s, i).value;
      assert s[i..i + |prefix + "_" + suffix|] == prefix + "_" + suffix;
      assert OccursAt(s, i, prefix + "_" + suffix);
    }
    if Underscored(s, i) {
      assert AlnumRun(s, i + 1) == 0;
    }
  }

  lemma {:induction false} SearchFromNone(s: string, i: nat)
    requires i <= |s|
    ensures SearchFrom(s, i).None? <==> forall k :: i <= k < |s| ==> !Underscored(s, k)
    decreases |s| - i
  {
    if i < |s| {
      SearchFromNone(s, i + 1);
      MatchAtSpec(s, i);
    }
  }

  lemma {:induction false} SearchFromSome(s: string, i: nat)
    requires i <= |s|
    ensures SearchFrom(s, i).Some? ==> MatchShape(s, i, SearchFrom(s, i).value)
    decreases |s| - i
  {
    if i < |s| {
      MatchAtSpec(s, i);
      if MatchAt(s, i).None? {
        SearchFromSome(s, i + 1);
        if SearchFrom(s, i + 1).Some? {
          var m := SearchFrom(s, i + 1).value;
          var k :| i + 1 <= k && OccursAt(s, k, m.0 + "_" + m.1);
          assert i <= k;
        }
      }
    }
  }

  /** The search fails exactly when no `[a-zA-Z0-9]` is followed by `_` and
      then by `[a-zA-Z0-9.]`; a found prefix is a nonempty run of
      `[a-zA-Z0-9]` and a found suffix a nonempty run of `[a-zA-Z0-9.]`,
      joined by `_` somewhere in the name. */
  lemma ScaffoldSearchSpec(s: string)
    ensures ScaffoldSearch(s).None? <==> forall k :: 0 <= k < |s| ==> !Underscored(s, k)
    ensures ScaffoldSearch(s).Some? ==> MatchShape(s, 0, ScaffoldSearch(s).value)
  {
    SearchFromNone(s, 0);
    SearchFromSome(s, 0);
  }

  function Searches(names: seq<string>): (ms: seq<Option<(string, string)>>)
    ensures |ms| == |names| && forall i :: 0 <= i < |names| ==> ms[i] == ScaffoldSearch(names[i])
  {
    seq(|names|, i requires 0 <= i < |names| => ScaffoldSearch(names[i]))
  }

  /** Every name matches, all with the prefix of the first. */
  predicate SharedPrefix(names: seq<string>)
  {
    var ms := Searches(names);
    |names| >= 1 && (forall i :: 0 <= i < |ms| ==> ms[i].Some?)
    && forall i :: 0 <= i < |ms| ==> ms[i].value.0 == ms[0].value.0
  }

  /** `prefix_suffix1psuffix2p…`. */
  function PrefixedName(names: seq<string>): string
    requires SharedPrefix(names)
  {
    var ms := Searches(names);
    ms[0].value.0 + "_" + Join(seq(|ms|, i requires 0 <= i < |ms| => ms[i].value.1), 'p')
  }

  /** `make_superscaffold_name`. */
  function MakeSuperscaffoldName(names: seq<string>): string
    requires |names| >= 1
  {
    if SharedPrefix(names) then PrefixedName(names) else Join(names, 'p')
  }

  /** A name made without a shared prefix lists every subscaffold: cutting
      it at `p` gives the names back, when none of them holds a `p`. */
  lemma FallbackNameLists(names: seq<string>)
    requires |names| >= 1 && !SharedPrefix(names)
    requires forall i :: 0 <= i < |names| ==> 'p' !in names[i]
    ensures Split(MakeSuperscaffoldName(names), 'p') == names
  {
    SplitJoin(names, 'p');
  }

  /** The name `join_scaffolds` gives when it is given none. The names reach
      `make_superscaffold_name` as a generator that the regex search has
      used up, so without a shared prefix the name is empty. */
  function DerivedName(names: seq<string>): string
    requires |names| >= 1
  {
    if SharedPrefix(names) then PrefixedName(names) else Join([], 'p')
  }

  /** The superscaffold name `join_scaffolds` uses: the explicit one if
      there is one. */
  function SuperscaffoldName(names: seq<string>, name: Option<string>): (r: string)
    requires |names| >= 1 || name.Some?
    ensures name.Some? ==> r == name.value
    ensures name.None? && SharedPrefix(names) ==> r == MakeSuperscaffoldName(names)
    ensures name.None? && !SharedPrefix(names) ==> r == []
  {
    match name
    case Some(n) => n
    case None => DerivedName(names)
  }

  /** Without an explicit name and a shared prefix, `join_scaffolds` names the
      superscaffold differently from `make_superscaffold_name`. */
  lemma UsedUpNames(names: seq<string>)
    requires |names| >= 1 && !SharedPrefix(names) && Last(names) != []
    ensures SuperscaffoldName(names, None) != MakeSuperscaffoldName(names)
  {
    JoinLastChar(names, 'p');
  }

  /** A name `prefix_suffix` is found as exactly that prefix and suffix. */
  lemma SearchPrefixed(prefix: string, suffix: string)
    requires |prefix| >= 1 && forall k :: 0 <= k < |prefix| ==> IsAlnum(prefix[k])
    requires |suffix| >= 1 && forall k :: 0 <= k < |suffix| ==> IsNameChar(suffix[k])
    ensures ScaffoldSearch(prefix + "_" + suffix) == Some((prefix, suffix))
  {
    var s := prefix + "_" + suffix;
    var j := |prefix|;
    assert forall k :: 0 <= k < j ==> s[k] == prefix[k];
    assert s[j] == '_' && s[j + 1] == suffix[0];
    assert AlnumRun(s, 0) == j;
    assert forall k :: j + 1 <= k < |s| ==> s[k] == suffix[k - j - 1];
    assert NameRun(s, j + 1) == |suffix|;
    assert s[0..j] == prefix && s[j + 1..j + 1 + |suffix|] == suffix;
    assert MatchAt(s, 0) == Some((prefix, suffix));
  }

  /** A name without `_` has no match. */
  lemma SearchNoUnderscore(s: string)
    requires '_' !in s
    ensures ScaffoldSearch(s).None?
  {
    ScaffoldSearchSpec(s);
  }

  /** Names `prefix_suffix1`, `prefix_suffix2`, … with one prefix make
      `prefix_suffix1psuffix2p…`. */
  lemma PrefixedNames(prefix: string, suffixes: seq<string>, names: seq<string>)
    requires |prefix| >= 1 && forall k :: 0 <= k < |prefix| ==> IsAlnum(prefix[k])
    requires |suffixes| >= 1 && |names| == |suffixes|
    requires forall i :: 0 <= i < |suffixes| ==>
      |suffixes[i]| >= 1 && (forall k :: 0 <= k < |suffixes[i]| ==> IsNameChar(suffixes[i][k]))
    requires forall i :: 0 <= i < |names| ==> names[i] == prefix + "_" + suffixes[i]
    ensures MakeSuperscaffoldName(names) == prefix + "_" + Join(suffixes, 'p')
  {
    var ms := Searches(names);
    forall i | 0 <= i < |names|
      ensures ms[i] == Some((prefix, suffixes[i]))
    {
      SearchPrefixed(prefix, suffixes[i]);
    }
    assert SharedPrefix(names);
    assert seq(|ms|, i requires 0 <= i < |ms| => ms[i].value.1) == suffixes;
  }

  /** A name without `_` makes the superscaffold name all the names joined
      by `p`. */
  lemma UnmatchedName(names: seq<string>, k: nat)
    requires k < |names| && '_' !in names[k]
    ensures MakeSuperscaffoldName(names) == Join(names, 'p')
  {
    SearchNoUnderscore(names[k]);
    assert Searches(names)[k].None?;
  }

  /** Two names with different prefixes make the superscaffold name all the
      names joined by `p`. */
  lemma MixedPrefixes(names: seq<string>, i: nat, j: nat, p1: string, s1: string, p2: string, s2: string)
    requires i < |names| && j < |names| && p1 != p2
    requires |p1| >= 1 && forall k :: 0 <= k < |p1| ==> IsAlnum(p1[k])
    requires |p2| >= 1 && forall k :: 0 <= k < |p2| ==> IsAlnum(p2[k])
    requires |s1| >= 1 && forall k :: 0 <= k < |s1| ==> IsNameChar(s1[k])
    requires |s2| >= 1 && forall k :: 0 <= k < |s2| ==> IsNameChar(s2[k])
    requires names[i] == p1 + "_" + s1 && names[j] == p2 + "_" + s2
    ensures MakeSuperscaffoldName(names) == Join(names, 'p')
  {
    SearchPrefixed(p1, s1);
    SearchPrefixed(p2, s2);
    var ms := Searches(names);
    assert ms[i].value.0 != ms[j].value.0;
  }

  lemma JoinThree(parts: seq<string>, sep: char)
    requires |parts| == 3
    ensures Join(parts, sep) == parts[0] + [sep] + parts[1] + [sep] + parts[2]
  {
    var rest := parts[1..];
    assert rest[1..] == [parts[2]];
    assert Join(rest, sep) == parts[1] + [sep] + parts[2];
  }

  /** `make_superscaffold_name(["scaffold_3", "scaffold_4", "scaffold_5"])`
      is `"scaffold_3p4p5"`. */
  lemma SharedPrefixExample(names: seq<string>)
    requires names == ["scaffold_3", "scaffold_4", "scaffold_5"]
    ensures MakeSuperscaffoldName(names) == "scaffold_3p4p5"
  {
    var suffixes := ["3", "4", "5"];
    PrefixedNames("scaffold", suffixes, names);
    JoinThree(suffixes, 'p');
    SharedPrefixText("scaffold", suffixes[0], suffixes[1], suffixes[2]);
  }

  lemma SharedPrefixText(prefix: string, a: string, b: string, c: string)
    requires prefix == "scaffold" && a == "3" && b == "4" && c == "5"
    ensures prefix + "_" + (a + "p" + b + "p" + c) == "scaffold_3p4p5"
  {
    assert "3" + "p" == "3p" && "3p" + "4" == "3p4" && "3p4" + "p" == "3p4p" && "3p4p" + "5" == "3p4p5";
    assert "scaffold" + "_" == "scaffold_" && "scaffold_" + "3p4p5" == "scaffold_3p4p5";
  }

  /** `make_superscaffold_name(["contig2", "scaffold_4", "chr1"])` is
      `"contig2pscaffold_4pchr1"`: `contig2` does not match. */
  lemma UnmatchedNameExample(names: seq<string>)
    requires names == ["contig2", "scaffold_4", "chr1"]
    ensures MakeSuperscaffoldName(names) == "contig2pscaffold_4pchr1"
  {
    UnmatchedName(names, 0);
    JoinThree(names, 'p');
    UnmatchedNameText(names[0], names[1], names[2]);
  }

  lemma UnmatchedNameText(a: string, b: string, c: string)
    requires a == "contig2" && b == "scaffold_4" && c == "chr1"
    ensures a + "p" + b + "p" + c == "contig2pscaffold_4pchr1"
  {
    assert "contig2" + "p" == "contig2p";
    assert "contig2p" + "scaffold_4" == "contig2pscaffold_4";
    assert "contig2pscaffold_4" + "p" == "contig2pscaffold_4p";
    assert "contig2pscaffold_4p" + "chr1" == "contig2pscaffold_4pchr1";
  }

  /** `make_superscaffold_name(["scaffold_1", "contig_2", "scaffold_3"])` is
      `"scaffold_1pcontig_2pscaffold_3"`: the prefixes differ. */
  lemma MixedPrefixExample(names: seq<string>)
    requires names == ["scaffold_1", "contig_2", "scaffold_3"]
    ensures MakeSuperscaffoldName(names) == "scaffold_1pcontig_2pscaffold_3"
  {
    MixedPrefixes(names, 0, 1, "scaffold", "1", "contig", "2");
    JoinThree(names, 'p');
    MixedPrefixText(names[0], names[1], names[2]);
  }

  lemma MixedPrefixText(a: string, b: string, c: string)
    requires a == "scaffold_1" && b == "contig_2" && c == "scaffold_3"
    ensures a + "p" + b + "p" + c == "scaffold_1pcontig_2pscaffold_3"
  {
    assert "scaffold_1" + "p" == "scaffold_1p";
    assert "scaffold_1p" + "contig_2" == "scaffold_1pcontig_2";
    assert "scaffold_1pcontig_2" + "p" == "scaffold_1pcontig_2p";
    assert "scaffold_1pcontig_2p" + "scaffold_3" == "scaffold_1pcontig_2pscaffold_3";
  }

  // ---- joining scaffolds ----

  predicate AllNonEmpty(scaffolds: seq<seq<Row>>)
  {
    forall i :: 0 <= i < |scaffolds| ==> |scaffolds[i]| > 0
  }

  /** `join_scaffolds` part way: the rows written, the next part number and
      the end of the last row written. */
  datatype JoinState = JoinState(out: seq<Row>, counter: int, end: int)

  /** One scaffold of `join_scaffolds`: its rows placed after the rows
      written so far, then, unless it is the last, a gap of `gapSize`. */
  function JoinStep(st: JoinState, scaffold: seq<Row>, last: bool, name: string,
                    gapSize: int, gapType: string, gapEvidence: string): JoinState
    requires scaffold != []
  {
    var placed := Place(scaffold, name, st.counter, st.end);
    var counter := st.counter + |placed|;
    var end := Last(placed).objectEnd;
    if last then JoinState(st.out + placed, counter, end)
    else
      var gap := NewGapRow(name, end + 1, end + gapSize, counter, gapSize, gapType, evidence := gapEvidence);
      JoinState(st.out + placed + [gap], counter + 1, end + gapSize)
  }

  /** The state after the given scaffolds, the first of `total`: each is
      placed after the previous row, and all but the last of the `total` are
      followed by a new gap of `gapSize`. */
  function JoinFold(scaffolds: seq<seq<Row>>, total: nat, name: string,
                    gapSize: int, gapType: string, gapEvidence: string): JoinState
    requires AllNonEmpty(scaffolds)
  {
    if scaffolds == [] then JoinState([], 1, 0)
    else
      var st := JoinFold(scaffolds[..|scaffolds| - 1], total, name, gapSize, gapType, gapEvidence);
      JoinStep(st, Last(scaffolds), |scaffolds| >= total, name, gapSize, gapType, gapEvidence)
  }

  /** The object names of the scaffolds' first rows. */
  function FirstNames(scaffolds: seq<seq<Row>>): (names: seq<string>)
    requires AllNonEmpty(scaffolds)
    ensures |names| == |scaffolds| && forall i :: 0 <= i < |scaffolds| ==> names[i] == scaffolds[i][0].objectName
  {
    seq(|scaffolds|, i requires 0 <= i < |scaffolds| => scaffolds[i][0].objectName)
  }

  /** What `join_scaffolds` returns. */
  function Joined(scaffolds: seq<seq<Row>>, gapSize: int, gapType: string, gapEvidence: string,
                  name: Option<string>): seq<Row>
    requires AllNonEmpty(scaffolds) && (|scaffolds| >= 1 || name.Some?)
  {
    var superscaffoldName := SuperscaffoldName(FirstNames(scaffolds), name);
    JoinFold(scaffolds, |scaffolds|, superscaffoldName, gapSize, gapType, gapEvidence).out
  }

  function TotalRows(scaffolds: seq<seq<Row>>): nat
  {
    if scaffolds == [] then 0 else TotalRows(scaffolds[..|scaffolds| - 1]) + |Last(scaffolds)|
  }

  /** The sum of the scaffolds' last ends: their total length when each
      starts at 1. */
  function TotalSpan(scaffolds: seq<seq<Row>>): int
    requires AllNonEmpty(scaffolds)
  {
    if scaffolds == [] then 0 else TotalSpan(scaffolds[..|scaffolds| - 1]) + Last(Last(scaffolds)).objectEnd
  }

  /** How many gaps follow the first `n` of `total` scaffolds. */
  function Seams(n: nat, total: nat): nat
  {
    if n < total || n == 0 then n else n - 1
  }

  /** One scaffold adds its rows and, unless it is the last, one gap; the
      next part number moves on by as many. */
  lemma StepCount(st: JoinState, s: seq<Row>, last: bool, name: string,
                  gapSize: int, gapType: string, gapEvidence: string)
    requires s != []
    ensures |JoinStep(st, s, last, name, gapSize, gapType, gapEvidence).out| == |st.out| + |s| + (if last then 0 else 1)
    ensures JoinStep(st, s, last, name, gapSize, gapType, gapEvidence).counter == st.counter + |s| + (if last then 0 else 1)
  {
  }

  /** After any number of scaffolds there is one output row per input row
      and one per gap, and the next part number follows the last. */
  lemma {:induction false} JoinFoldCount(scaffolds: seq<seq<Row>>, total: nat, name: string,
                                         gapSize: int, gapType: string, gapEvidence: string)
    requires AllNonEmpty(scaffolds) && |scaffolds| <= total
    ensures |JoinFold(scaffolds, total, name, gapSize, gapType, gapEvidence).out|
      == JoinFold(scaffolds, total, name, gapSize, gapType, gapEvidence).counter - 1
      == TotalRows(scaffolds) + Seams(|scaffolds|, total)
  {
    if scaffolds != [] {
      var init := scaffolds[..|scaffolds| - 1];
      JoinFoldCount(init, total, name, gapSize, gapType, gapEvidence);
      var st := JoinFold(init, total, name, gapSize, gapType, gapEvidence);
      StepCount(st, Last(scaffolds), |scaffolds| >= total, name, gapSize, gapType, gapEvidence);
      assert Seams(|init|, total) == |init|;
    }
  }

  /** Rows numbered 1, 2, … that all carry the name `name`. */
  predicate Numbered(out: seq<Row>, name: string)
  {
    forall k :: 0 <= k < |out| ==> out[k].partNumber == k + 1 && out[k].objectName == name
  }

  /** A scaffold placed with the next part number keeps the rows numbered. */
  lemma StepParts(st: JoinState, s: seq<Row>, last: bool, name: string,
                  gapSize: int, gapType: string, gapEvidence: string)
    requires s != [] && Numbered(st.out, name) && st.counter == |st.out| + 1
    ensures Numbered(JoinStep(st, s, last, name, gapSize, gapType, gapEvidence).out, name)
  {
    var placed := Place(s, name, st.counter, st.end);
    var both := st.out + placed;
    forall k | 0 <= k < |both|
      ensures both[k].partNumber == k + 1 && both[k].objectName == name
    {
      if k >= |st.out| {
        assert both[k] == placed[k - |st.out|];
      }
    }
  }

  /** The output rows are numbered 1, 2, … and all carry the superscaffold
      name. */
  lemma {:induction false} JoinFoldParts(scaffolds: seq<seq<Row>>, total: nat, name: string,
                                         gapSize: int, gapType: string, gapEvidence: string)
    requires AllNonEmpty(scaffolds) && |scaffolds| <= total
    ensures Numbered(JoinFold(scaffolds, total, name, gapSize, gapType, gapEvidence).out, name)
  {
    if scaffolds != [] {
      var init := scaffolds[..|scaffolds| - 1];
      JoinFoldParts(init, total, name, gapSize, gapType, gapEvidence);
      JoinFoldCount(init, total, name, gapSize, gapType, gapEvidence);
      var st := JoinFold(init, total, name, gapSize, gapType, gapEvidence);
      StepParts(st, Last(scaffolds), |scaffolds| >= total, name, gapSize, gapType, gapEvidence);
    }
  }

  /** A scaffold moves the end on by its own length, and by `gapSize` more
      when a gap follows; the last row written ends there. */
  lemma StepEnd(st: JoinState, s: seq<Row>, last: bool, name: string,
                gapSize: int, gapType: string, gapEvidence: string)
    requires s != []
    ensures |JoinStep(st, s, last, name, gapSize, gapType, gapEvidence).out| > 0
    ensures Last(JoinStep(st, s, last, name, gapSize, gapType, gapEvidence).out).objectEnd
      == JoinStep(st, s, last, name, gapSize, gapType, gapEvidence).end
      == st.end + Last(s).objectEnd + (if last then 0 else gapSize)
  {
    var placed := Place(s, name, st.counter, st.end);
    assert Last(placed) == Moved(Last(s), name, st.counter + |s| - 1, st.end);
    assert Last(st.out + placed) == Last(placed);
  }

  /** The last row written ends where the state says: at the total length
      of the scaffolds plus that of the gaps. */
  lemma {:induction false} JoinFoldEnd(scaffolds: seq<seq<Row>>, total: nat, name: string,
                                       gapSize: int, gapType: string, gapEvidence: string)
    requires AllNonEmpty(scaffolds) && |scaffolds| <= total
    ensures JoinFold(scaffolds, total, name, gapSize, gapType, gapEvidence).end
      == TotalSpan(scaffolds) + Seams(|scaffolds|, total) * gapSize
    ensures scaffolds == [] ==> JoinFold(scaffolds, total, name, gapSize, gapType, gapEvidence) == JoinState([], 1, 0)
    ensures scaffolds != [] ==>
      && |JoinFold(scaffolds, total, name, gapSize, gapType, gapEvidence).out| > 0
      && Last(JoinFold(scaffolds, total, name, gapSize, gapType, gapEvidence).out).objectEnd
         == JoinFold(scaffolds, total, name, gapSize, gapType, gapEvidence).end
  {
    if scaffolds != [] {
      var init := scaffolds[..|scaffolds| - 1];
      JoinFoldEnd(init, total, name, gapSize, gapType, gapEvidence);
      var st := JoinFold(init, total, name, gapSize, gapType, gapEvidence);
      StepEnd(st, Last(scaffolds), |scaffolds| >= total, name, gapSize, gapType, gapEvidence);
      SeamsStep(|init|, total, gapSize);
    }
  }

  /** One more scaffold adds a gap's length unless it is the last. */
  lemma SeamsStep(n: nat, total: nat, gapSize: int)
    requires n < total
    ensures Seams(n + 1, total) * gapSize == Seams(n, total) * gapSize + (if n + 1 < total then gapSize else 0)
  {
    assert Seams(n, total) == n;
    if n + 1 < total {
      assert (n + 1) * gapSize == n * gapSize + gapSize;
    }
  }

  /** Rows that follow one another from `start` with no hole or overlap. */
  predicate Tiled(rows: seq<Row>, start: int)
  {
    (|rows| > 0 ==> rows[0].objectBeg == start)
    && forall k :: 0 <= k < |rows| - 1 ==> rows[k + 1].objectBeg == rows[k].objectEnd + 1
  }

  lemma TiledConcat(a: seq<Row>, b: seq<Row>, start: int)
    requires Tiled(a, start) && Tiled(b, if a == [] then start else Last(a).objectEnd + 1)
    ensures Tiled(a + b, start)
  {
    var ab := a + b;
    forall k | 0 <= k < |ab| - 1
      ensures ab[k + 1].objectBeg == ab[k].objectEnd + 1
    {
      if k + 1 < |a| {
      } else if k + 1 == |a| {
        assert ab[k] == Last(a) && ab[k + 1] == b[0];
      } else {
        assert ab[k] == b[k - |a|] && ab[k + 1] == b[k + 1 - |a|];
      }
    }
  }

  lemma PlaceTiled(rows: seq<Row>, name: string, counter: int, offset: int)
    requires Tiled(rows, 1)
    ensures Tiled(Place(rows, name, counter, offset), offset + 1)
  {
  }

  /** A tiled scaffold placed right after tiled rows keeps them tiled. */
  lemma StepTiled(st: JoinState, s: seq<Row>, last: bool, name: string,
                  gapSize: int, gapType: string, gapEvidence: string)
    requires s != [] && Tiled(s, 1) && Tiled(st.out, 1)
    requires if st.out == [] then st.end == 0 else Last(st.out).objectEnd == st.end
    ensures Tiled(JoinStep(st, s, last, name, gapSize, gapType, gapEvidence).out, 1)
  {
    var placed := Place(s, name, st.counter, st.end);
    PlaceTiled(s, name, st.counter, st.end);
    TiledConcat(st.out, placed, 1);
    if !last {
      var end := Last(placed).objectEnd;
      var gap := NewGapRow(name, end + 1, end + gapSize, st.counter + |placed|, gapSize, gapType, evidence := gapEvidence);
      assert Last(st.out + placed) == Last(placed);
      TiledConcat(st.out + placed, [gap], 1);
    }
  }

  /** When every scaffold runs from position 1 with no hole or overlap, so
      does the superscaffold. */
  lemma {:induction false} JoinFoldTiled(scaffolds: seq<seq<Row>>, total: nat, name: string,
                                         gapSize: int, gapType: string, gapEvidence: string)
    requires AllNonEmpty(scaffolds) && |scaffolds| <= total
    requires forall i :: 0 <= i < |scaffolds| ==> Tiled(scaffolds[i], 1)
    ensures Tiled(JoinFold(scaffolds, total, name, gapSize, gapType, gapEvidence).out, 1)
  {
    if scaffolds != [] {
      var init := scaffolds[..|scaffolds| - 1];
      JoinFoldTiled(init, total, name, gapSize, gapType, gapEvidence);
      JoinFoldEnd(init, total, name, gapSize, gapType, gapEvidence);
      var st := JoinFold(init, total, name, gapSize, gapType, gapEvidence);
      StepTiled(st, Last(scaffolds), |scaffolds| >= total, name, gapSize, gapType, gapEvidence);
    }
  }

  /** The rows written end with a gap of `gapSize` numbered after every row
      before it and placed right after the row before it. */
  predicate GapClosed(out: seq<Row>, name: string, gapSize: int, gapType: string, gapEvidence: string)
  {
    && |out| >= 2
    && Last(out) == NewGapRow(name, out[|out| - 2].objectEnd + 1, out[|out| - 2].objectEnd + gapSize,
                              |out|, gapSize, gapType, evidence := gapEvidence)
  }

  /** A scaffold that is not the last is closed by a gap. */
  lemma StepGap(st: JoinState, s: seq<Row>, name: string,
                gapSize: int, gapType: string, gapEvidence: string)
    requires s != [] && |st.out| == st.counter - 1
    ensures GapClosed(JoinStep(st, s, false, name, gapSize, gapType, gapEvidence).out, name, gapSize, gapType, gapEvidence)
  {
    var placed := Place(s, name, st.counter, st.end);
    var out := st.out + placed;
    assert (out + [NewGapRow(name, Last(placed).objectEnd + 1, Last(placed).objectEnd + gapSize, st.counter + |placed|, gapSize, gapType, evidence := gapEvidence)])[|out| - 1] == Last(placed);
  }

  /** After every scaffold but the last of the `total`, a gap of `gapSize`
      closes the rows written, right after the row before it. */
  lemma JoinFoldGapAfter(scaffolds: seq<seq<Row>>, total: nat, name: string,
                         gapSize: int, gapType: string, gapEvidence: string)
    requires AllNonEmpty(scaffolds) && 1 <= |scaffolds| < total
    ensures GapClosed(JoinFold(scaffolds, total, name, gapSize, gapType, gapEvidence).out, name, gapSize, gapType, gapEvidence)
  {
    var init := scaffolds[..|scaffolds| - 1];
    JoinFoldCount(init, total, name, gapSize, gapType, gapEvidence);
    var st := JoinFold(init, total, name, gapSize, gapType, gapEvidence);
    assert JoinFold(scaffolds, total, name, gapSize, gapType, gapEvidence)
      == JoinStep(st, Last(scaffolds), false, name, gapSize, gapType, gapEvidence);
    StepGap(st, Last(scaffolds), name, gapSize, gapType, gapEvidence);
  }

  /** No gap follows the last scaffold: its last row, moved, closes the
      superscaffold. */
  lemma JoinFoldNoGapAtEnd(scaffolds: seq<seq<Row>>, name: string,
                           gapSize: int, gapType: string, gapEvidence: string)
    requires AllNonEmpty(scaffolds) && 1 <= |scaffolds|
    ensures var out := JoinFold(scaffolds, |scaffolds|, name, gapSize, gapType, gapEvidence).out;
      |out| >= 1 && SameContent(Last(out), Last(Last(scaffolds)))
  {
    var init := scaffolds[..|scaffolds| - 1];
    var st := JoinFold(init, |scaffolds|, name, gapSize, gapType, gapEvidence);
    var placed := Place(Last(scaffolds), name, st.counter, st.end);
    assert Last(st.out + placed) == Last(placed);
  }

  /** `join_scaffolds` numbers its output 1, 2, …, names every row after the
      superscaffold (the explicit name when there is one), writes one row
      per input row plus one gap between each two scaffolds, and ends at the
      total length of the scaffolds plus that of the gaps. */
  lemma JoinedShape(scaffolds: seq<seq<Row>>, gapSize: int, gapType: string, gapEvidence: string,
                    name: Option<string>)
    requires AllNonEmpty(scaffolds) && |scaffolds| >= 1
    ensures var out := Joined(scaffolds, gapSize, gapType, gapEvidence, name);
      && |out| == TotalRows(scaffolds) + |scaffolds| - 1
      && (forall k :: 0 <= k < |out| ==> out[k].partNumber == k + 1)
      && (forall k :: 0 <= k < |out| ==> out[k].objectName == SuperscaffoldName(FirstNames(scaffolds), name))
      && (name.Some? ==> forall k :: 0 <= k < |out| ==> out[k].objectName == name.value)
      && Last(out).objectEnd == TotalSpan(scaffolds) + (|scaffolds| - 1) * gapSize
  {
    var n := SuperscaffoldName(FirstNames(scaffolds), name);
    JoinFoldCount(scaffolds, |scaffolds|, n, gapSize, gapType, gapEvidence);
    JoinFoldParts(scaffolds, |scaffolds|, n, gapSize, gapType, gapEvidence);
    JoinFoldEnd(scaffolds, |scaffolds|, n, gapSize, gapType, gapEvidence);
  }

  /** When every scaffold runs from position 1 with no hole or overlap, so
      does the superscaffold, from 1 to the total length. */
  lemma JoinedTiled(scaffolds: seq<seq<Row>>, gapSize: int, gapType: string, gapEvidence: string,
                    name: Option<string>)
    requires AllNonEmpty(scaffolds) && |scaffolds| >= 1
    requires forall i :: 0 <= i < |scaffolds| ==> Tiled(scaffolds[i], 1)
    ensures Tiled(Joined(scaffolds, gapSize, gapType, gapEvidence, name), 1)
  {
    var n := SuperscaffoldName(FirstNames(scaffolds), name);
    JoinFoldTiled(scaffolds, |scaffolds|, n, gapSize, gapType, gapEvidence);
  }

  /** One more scaffold: the state after it is one step from the state
      before it. */
  lemma JoinFoldSnoc(scaffolds: seq<seq<Row>>, i: nat, total: nat, name: string,
                     gapSize: int, gapType: string, gapEvidence: string)
    requires AllNonEmpty(scaffolds) && i < |scaffolds|
    ensures AllNonEmpty(scaffolds[..i]) && AllNonEmpty(scaffolds[..i + 1]) && scaffolds[i] != []
    ensures JoinFold(scaffolds[..i + 1], total, name, gapSize, gapType, gapEvidence)
      == JoinStep(JoinFold(scaffolds[..i], total, name, gapSize, gapType, gapEvidence), scaffolds[i],
                  i + 1 >= total, name, gapSize, gapType, gapEvidence)
  {
    assert scaffolds[..i + 1][..i] == scaffolds[..i];
    assert Last(scaffolds[..i + 1]) == scaffolds[i];
  }

  /** The inner loop of `join_scaffolds`: the rows of one scaffold renamed,
      numbered on from `counter` and shifted by `offset`. */
  method PlaceRows(thisScaffoldRows: seq<Row>, superscaffoldName: string, counter: int, offset: int)
    returns (placed: seq<Row>)
    ensures placed == Place(thisScaffoldRows, superscaffoldName, counter, offset)
  {
    placed := [];
    var componentNumberCounter := counter;
    for j := 0 to |thisScaffoldRows|
      invariant placed == Place(thisScaffoldRows[..j], superscaffoldName, counter, offset)
      invariant componentNumberCounter == counter + j
    {
      var row := thisScaffoldRows[j];
      row := row.(objectName := superscaffoldName, partNumber := componentNumberCounter);
      componentNumberCounter := componentNumberCounter + 1;
      row := row.(objectBeg := row.objectBeg + offset, objectEnd := row.objectEnd + offset);
      assert row == Moved(thisScaffoldRows[j], superscaffoldName, counter + j, offset);
      assert Place(thisScaffoldRows[..j + 1], superscaffoldName, counter, offset)
        == Place(thisScaffoldRows[..j], superscaffoldName, counter, offset) + [row];
      placed := placed + [row];
    }
    assert thisScaffoldRows[..|thisScaffoldRows|] == thisScaffoldRows;
  }

  /** `join_scaffolds`. */
  method JoinScaffolds(superscaffoldRows: seq<seq<Row>>, gapSize: int, gapType: string,
                       gapEvidence: string, name: Option<string>) returns (outrows: seq<Row>)
    requires AllNonEmpty(superscaffoldRows) && (|superscaffoldRows| >= 1 || name.Some?)
    ensures outrows == Joined(superscaffoldRows, gapSize, gapType, gapEvidence, name)
  {
    var superscaffoldName := SuperscaffoldName(FirstNames(superscaffoldRows), name);
    var componentNumberCounter := 1;
    var endOfPreviousScaffold := 0;
    outrows := [];
    ghost var total := |superscaffoldRows|;
    for i := 0 to |superscaffoldRows|
      invariant JoinFold(superscaffoldRows[..i], total, superscaffoldName, gapSize, gapType, gapEvidence)
        == JoinState(outrows, componentNumberCounter, endOfPreviousScaffold)
    {
      JoinFoldSnoc(superscaffoldRows, i, total, superscaffoldName, gapSize, gapType, gapEvidence);
      outrows, componentNumberCounter, endOfPreviousScaffold :=
        JoinOne(superscaffoldRows[i], i < |superscaffoldRows| - 1, superscaffoldName, gapSize, gapType, gapEvidence,
                outrows, componentNumberCounter, endOfPreviousScaffold);
    }
    assert superscaffoldRows[..|superscaffoldRows|] == superscaffoldRows;
  }

  /** One pass of the outer loop of `join_scaffolds`: the scaffold's rows
      placed, and a gap after them when more scaffolds follow. */
  method JoinOne(thisScaffoldRows: seq<Row>, gapFollows: bool, superscaffoldName: string,
                 gapSize: int, gapType: string, gapEvidence: string,
                 outrows: seq<Row>, componentNumberCounter: int, endOfPreviousScaffold: int)
    returns (outrows': seq<Row>, componentNumberCounter': int, endOfPreviousScaffold': int)
    requires thisScaffoldRows != []
    ensures JoinState(outrows', componentNumberCounter', endOfPreviousScaffold')
      == JoinStep(JoinState(outrows, componentNumberCounter, endOfPreviousScaffold), thisScaffoldRows,
                  !gapFollows, superscaffoldName, gapSize, gapType, gapEvidence)
  {
    var placed := PlaceRows(thisScaffoldRows, superscaffoldName, componentNumberCounter, endOfPreviousScaffold);
    outrows' := outrows + placed;
    componentNumberCounter' := componentNumberCounter + |thisScaffoldRows|;
    assert Last(outrows') == Last(placed);
    endOfPreviousScaffold' := Last(outrows').objectEnd;
    if gapFollows {
      var gap := NewGapRow(superscaffoldName, endOfPreviousScaffold' + 1,
                           endOfPreviousScaffold' + gapSize, componentNumberCounter',
                           gapSize, gapType, evidence := gapEvidence);
      outrows' := outrows' + [gap];
      componentNumberCounter' := componentNumberCounter' + 1;
      assert Last(outrows') == gap;
      endOfPreviousScaffold' := Last(outrows').objectEnd;
    }
  }

  // ---- the join command ----

  datatype JoinRunError =
    | ScaffoldNotFoundError(scaffold: string)
    | KeyError(key: string)

  /** The first of `names` that has no rows. */
  function FirstMissing(names: seq<string>, lines: seq<AgpLine>): Option<string>
  {
    if names == [] then None
    else if RowsOf(lines, names[0]) == [] then Some(names[0])
    else FirstMissing(names[1..], lines)
  }

  lemma {:induction false} FirstMissingNone(names: seq<string>, lines: seq<AgpLine>)
    ensures FirstMissing(names, lines).None? <==> forall k :: 0 <= k < |names| ==> RowsOf(lines, names[k]) != []
  {
    if names != [] {
      FirstMissingNone(names[1..], lines);
      assert forall k :: 1 <= k < |names| ==> names[k] == names[1..][k - 1];
    }
  }

  /** The name reported missing is the first with no rows. */
  lemma {:induction false} FirstMissingIndex(names: seq<string>, lines: seq<AgpLine>) returns (k: nat)
    requires FirstMissing(names, lines).Some?
    ensures k < |names| && names[k] == FirstMissing(names, lines).value && RowsOf(lines, names[k]) == []
    ensures forall i :: 0 <= i < k ==> RowsOf(lines, names[i]) != []
  {
    if RowsOf(lines, names[0]) == [] {
      k := 0;
    } else {
      var j := FirstMissingIndex(names[1..], lines);
      k := j + 1;
      assert forall i :: 1 <= i < k ==> names[i] == names[1..][i - 1];
    }
  }

  /** The name a group entry is looked up by: `-S` by `S` with its leading
      `-`s stripped, anything else with its leading `+`s stripped. */
  function EntryKey(entry: string): string
  {
    if |entry| > 0 && entry[0] == '-' then LStrip(entry, {'-'}) else LStrip(entry, {'+'})
  }

  /** Every registered name has rows. */
  predicate AllFound(lines: seq<AgpLine>, keys: set<string>)
  {
    forall n :: n in keys ==> RowsOf(lines, n) != []
  }

  /** The rows a group entry stands for: `-S` is `S` reverse-complemented,
      `+S` and `S` are `S` as it is; a key that was never registered raises
      `KeyError`. */
  function EntryRows(entry: string, lines: seq<AgpLine>, keys: set<string>): (r: Result<seq<Row>, JoinRunError>)
    requires AllFound(lines, keys)
    ensures r.Err? <==> EntryKey(entry) !in keys
    ensures r.Err? ==> r.error == KeyError(EntryKey(entry))
    ensures r.Ok? ==> |r.value| == |RowsOf(lines, EntryKey(entry))| > 0
  {
    var key := EntryKey(entry);
    if key !in keys then Err(KeyError(key))
    else if |entry| > 0 && entry[0] == '-' then Ok(Flip.Reversed(RowsOf(lines, key)))
    else Ok(RowsOf(lines, key))
  }

  /** An entry with at most one sign is looked up by its unsigned name. */
  lemma OneSignKey(entry: string)
    requires |entry| <= 1 || entry[0] !in {'+', '-'} || entry[1] !in {'+', '-'}
    ensures EntryKey(entry) == Unsigned(entry)
  {
    if |entry| >= 2 && entry[0] in {'+', '-'} {
      assert entry[1..][0] == entry[1];
    }
  }

  /** The rows of every entry of a group, or the first lookup that fails. */
  function GroupRows(group: JoinGroup, lines: seq<AgpLine>, keys: set<string>): Result<seq<seq<Row>>, JoinRunError>
    requires AllFound(lines, keys)
  {
    Collect(seq(|group.scaffolds|, i requires 0 <= i < |group.scaffolds| => EntryRows(group.scaffolds[i], lines, keys)))
  }

  lemma GroupRowsOk(group: JoinGroup, lines: seq<AgpLine>, keys: set<string>)
    requires AllFound(lines, keys) && GroupRows(group, lines, keys).Ok?
    ensures |GroupRows(group, lines, keys).value| == |group.scaffolds|
    ensures AllNonEmpty(GroupRows(group, lines, keys).value)
  {
    CollectOk(seq(|group.scaffolds|, i requires 0 <= i < |group.scaffolds| => EntryRows(group.scaffolds[i], lines, keys)));
  }

  predicate NonEmptyGroups(joins: seq<JoinGroup>)
  {
    forall i :: 0 <= i < |joins| ==> |joins[i].scaffolds| >= 1
  }

  /** What the loop over the join groups prints, and the `KeyError` that
      stops it, if any. */
  function JoinAll(joins: seq<JoinGroup>, lines: seq<AgpLine>, keys: set<string>,
                   gapSize: int, gapType: string): Emitted<AgpLine, JoinRunError>
    requires AllFound(lines, keys) && NonEmptyGroups(joins)
  {
    if joins == [] then Emitted([], None)
    else
      var prev := JoinAll(joins[..|joins| - 1], lines, keys, gapSize, gapType);
      if prev.failure.Some? then prev
      else
        var group := Last(joins);
        match GroupRows(group, lines, keys)
        case Err(e) => Emitted(prev.lines, Some(e))
        case Ok(scaffoldRows) =>
          GroupRowsOk(group, lines, keys);
          Emitted(prev.lines + AsLines(Joined(scaffoldRows, gapSize, gapType, "na", group.name)), None)
  }

  lemma {:induction false} JoinAllSticks(joins: seq<JoinGroup>, n: nat, lines: seq<AgpLine>, keys: set<string>,
                                         gapSize: int, gapType: string)
    requires AllFound(lines, keys) && NonEmptyGroups(joins) && n <= |joins|
    requires JoinAll(joins[..n], lines, keys, gapSize, gapType).failure.Some?
    ensures JoinAll(joins, lines, keys, gapSize, gapType) == JoinAll(joins[..n], lines, keys, gapSize, gapType)
    decreases |joins| - n
  {
    if n < |joins| {
      assert joins[..n + 1][..n] == joins[..n];
      JoinAllSticks(joins, n + 1, lines, keys, gapSize, gapType);
    } else {
      assert joins[..n] == joins;
    }
  }

  /** A `KeyError` names the key of some entry that was never registered. */
  lemma {:induction false} JoinAllKeyError(joins: seq<JoinGroup>, lines: seq<AgpLine>, keys: set<string>,
                                           gapSize: int, gapType: string)
    requires AllFound(lines, keys) && NonEmptyGroups(joins)
    ensures var f := JoinAll(joins, lines, keys, gapSize, gapType).failure;
      f.Some? ==>
        (&& f.value.KeyError? && f.value.key !in keys
         && exists g, e :: g in joins && e in g.scaffolds && EntryKey(e) == f.value.key)
  {
    if joins != [] {
      var init := joins[..|joins| - 1];
      JoinAllKeyError(init, lines, keys, gapSize, gapType);
      var prev := JoinAll(init, lines, keys, gapSize, gapType);
      var group := Last(joins);
      var rs := seq(|group.scaffolds|, i requires 0 <= i < |group.scaffolds| => EntryRows(group.scaffolds[i], lines, keys));
      if prev.failure.None? && Collect(rs).Err? {
        var k := CollectFirstError(rs);
        assert group in joins && group.scaffolds[k] in group.scaffolds;
      }
    }
  }

  /** Registered names whose every entry has at most one sign are always
      found, so no `KeyError` is raised. */
  lemma {:induction false} JoinAllNoKeyError(joins: seq<JoinGroup>, lines: seq<AgpLine>,
                                             gapSize: int, gapType: string)
    requires AllFound(lines, Keys(joins)) && NonEmptyGroups(joins)
    requires forall g, e :: g in joins && e in g.scaffolds ==>
      |e| <= 1 || e[0] !in {'+', '-'} || e[1] !in {'+', '-'}
    ensures JoinAll(joins, lines, Keys(joins), gapSize, gapType).failure.None?
  {
    var keys := Keys(joins);
    JoinAllKeyError(joins, lines, keys, gapSize, gapType);
    var f := JoinAll(joins, lines, keys, gapSize, gapType).failure;
    if f.Some? {
      var g, e :| g in joins && e in g.scaffolds && EntryKey(e) == f.value.key;
      OneSignKey(e);
      JoinedNamesHas(joins, g, e);
    }
  }

  /** The names `run` registers. */
  function Keys(joins: seq<JoinGroup>): set<string>
  {
    set n | n in JoinedNames(joins)
  }

  lemma {:induction false} JoinedNamesHas(joins: seq<JoinGroup>, g: JoinGroup, e: string)
    requires g in joins && e in g.scaffolds
    ensures Unsigned(e) in JoinedNames(joins)
  {
    var init := joins[..|joins| - 1];
    var i :| 0 <= i < |g.scaffolds| && g.scaffolds[i] == e;
    if g == Last(joins) {
      assert UnsignedAll(g.scaffolds)[i] == Unsigned(e);
    } else {
      assert g in init by {
        var j :| 0 <= j < |joins| && joins[j] == g;
        assert j < |joins| - 1 && init[j] == g;
      }
      JoinedNamesHas(init, g, e);
    }
  }

  /** Everything `run` prints, and the error it raises, if any. The rows of
      registered scaffolds are held back and every other line is echoed; a
      registered scaffold with no rows stops the run; then each group is
      joined and printed in turn, with `join_scaffolds`' default gap
      evidence (`gap_evidence` is not passed on). */
  function JoinRun(joins: seq<JoinGroup>, lines: seq<AgpLine>, gapSize: int, gapType: string,
                   gapEvidence: string): Emitted<AgpLine, JoinRunError>
    requires NonEmptyGroups(joins)
  {
    var names := JoinedNames(joins);
    var keys := Keys(joins);
    var passed := Remove.Kept(keys, lines);
    match FirstMissing(names, lines)
    case Some(n) => Emitted(passed, Some(ScaffoldNotFoundError(n)))
    case None =>
      FirstMissingNone(names, lines);
      var joined := JoinAll(joins, lines, keys, gapSize, gapType);
      Emitted(passed + joined.lines, joined.failure)
  }

  /** `run` always first echoes the comments and the rows of scaffolds that
      are not joined, in file order; it reports a missing scaffold exactly
      when some registered name has no row, naming the first such one in
      file order; otherwise any error is a `KeyError`. */
  lemma JoinRunSpec(joins: seq<JoinGroup>, lines: seq<AgpLine>, gapSize: int, gapType: string,
                    gapEvidence: string)
    requires NonEmptyGroups(joins)
    ensures var out := JoinRun(joins, lines, gapSize, gapType, gapEvidence);
      && Remove.Kept(Keys(joins), lines) <= out.lines
      && ((exists n :: n in JoinedNames(joins) && RowsOf(lines, n) == []) <==>
            out.failure.Some? && out.failure.value.ScaffoldNotFoundError?)
      && (out.failure.Some? && out.failure.value.ScaffoldNotFoundError? ==>
            FirstMissing(JoinedNames(joins), lines) == Some(out.failure.value.scaffold)
            && out.lines == Remove.Kept(Keys(joins), lines))
      && (out.failure.Some? && out.failure.value.KeyError? ==> out.failure.value.key !in Keys(joins))
  {
    var names := JoinedNames(joins);
    FirstMissingNone(names, lines);
    if FirstMissing(names, lines).None? {
      JoinAllKeyError(joins, lines, Keys(joins), gapSize, gapType);
    }
  }

  /** `run` does not pass `gap_evidence` on to `join_scaffolds`: whatever
      evidence is asked for, the output is the one for `join_scaffolds`'
      own default, `na`. */
  lemma JoinRunIgnoresEvidence(joins: seq<JoinGroup>, lines: seq<AgpLine>, gapSize: int, gapType: string,
                               gapEvidence: string)
    requires NonEmptyGroups(joins)
    ensures JoinRun(joins, lines, gapSize, gapType, gapEvidence) == JoinRun(joins, lines, gapSize, gapType, "na")
  {
  }

  /** The rows `run` groups under each registered name, and the lines it
      echoes. */
  method Sort(names: seq<string>, agp: seq<AgpLine>) returns (scaffoldsToJoin: map<string, seq<Row>>, printed: seq<AgpLine>)
    ensures forall n :: n in scaffoldsToJoin <==> n in names
    ensures forall n :: n in scaffoldsToJoin ==> scaffoldsToJoin[n] == RowsOf(agp, n)
    ensures printed == Remove.Kept((set n | n in names), agp)
  {
    scaffoldsToJoin := map[];
    for i := 0 to |names|
      invariant forall n :: n in scaffoldsToJoin <==> n in names[..i]
      invariant forall n :: n in scaffoldsToJoin ==> scaffoldsToJoin[n] == []
    {
      assert names[..i + 1] == names[..i] + [names[i]];
      scaffoldsToJoin := scaffoldsToJoin[names[i] := []];
    }
    assert names[..|names|] == names;
    ghost var keys := set n | n in names;
    printed := [];
    for i := 0 to |agp|
      invariant forall n :: n in scaffoldsToJoin <==> n in keys
      invariant forall n :: n in scaffoldsToJoin ==> scaffoldsToJoin[n] == RowsOf(agp[..i], n)
      invariant printed == Remove.Kept(keys, agp[..i])
    {
      assert agp[..i + 1][..i] == agp[..i];
      var row := agp[i];
      if row.RowLine? && row.row.objectName in scaffoldsToJoin {
        scaffoldsToJoin := scaffoldsToJoin[row.row.objectName := scaffoldsToJoin[row.row.objectName] + [row.row]];
      } else {
        printed := printed + [row];
      }
    }
    assert agp[..|agp|] == agp;
  }

  /** The rows of each entry of one group, as `run` gathers them. */
  method GatherGroup(joinGroup: JoinGroup, scaffoldsToJoin: map<string, seq<Row>>,
                     ghost lines: seq<AgpLine>, ghost keys: set<string>)
    returns (r: Result<seq<seq<Row>>, JoinRunError>)
    requires AllFound(lines, keys)
    requires forall n :: n in scaffoldsToJoin <==> n in keys
    requires forall n :: n in scaffoldsToJoin ==> scaffoldsToJoin[n] == RowsOf(lines, n)
    ensures r == GroupRows(joinGroup, lines, keys)
  {
    ghost var rs := seq(|joinGroup.scaffolds|, i requires 0 <= i < |joinGroup.scaffolds| =>
                          EntryRows(joinGroup.scaffolds[i], lines, keys));
    var scaffoldRows: seq<seq<Row>> := [];
    for i := 0 to |joinGroup.scaffolds|
      invariant Collect(rs[..i]) == Ok(scaffoldRows)
    {
      CollectStep(rs, i, scaffoldRows);
      var scaffoldName := joinGroup.scaffolds[i];
      if |scaffoldName| > 0 && scaffoldName[0] == '-' {
        var key := LStrip(scaffoldName, {'-'});
        if key !in scaffoldsToJoin {
          return Err(KeyError(key));
        }
        var reversed := Flip.ReverseRows(scaffoldsToJoin[key]);
        scaffoldRows := scaffoldRows + [reversed];
      } else {
        var key := LStrip(scaffoldName, {'+'});
        if key !in scaffoldsToJoin {
          return Err(KeyError(key));
        }
        scaffoldRows := scaffoldRows + [scaffoldsToJoin[key]];
      }
    }
    assert rs[..|joinGroup.scaffolds|] == rs;
    return Ok(scaffoldRows);
  }

  /** The check that every registered scaffold has rows: the first name
      in file order whose rows are empty. */
  method CheckFound(names: seq<string>, scaffoldsToJoin: map<string, seq<Row>>, ghost agp: seq<AgpLine>)
    returns (missing: Option<string>)
    requires forall n :: n in scaffoldsToJoin <==> n in names
    requires forall n :: n in scaffoldsToJoin ==> scaffoldsToJoin[n] == RowsOf(agp, n)
    ensures missing == FirstMissing(names, agp)
  {
    for i := 0 to |names|
      invariant FirstMissing(names, agp) == FirstMissing(names[i..], agp)
    {
      if scaffoldsToJoin[names[i]] == [] {
        return Some(names[i]);
      }
      assert names[i..][1..] == names[i + 1..];
    }
    assert names[|names|..] == [];
    return None;
  }

  /** `run`, given the groups read from a joins file (non-empty, and with no
      scaffold named twice). */
  method Run(joinsList: seq<JoinGroup>, agp: seq<AgpLine>, gapSize: int, gapType: string,
             gapEvidence: string) returns (out: Emitted<AgpLine, JoinRunError>)
    requires NonEmptyGroups(joinsList) && Distinct(JoinedNames(joinsList))
    ensures out == JoinRun(joinsList, agp, gapSize, gapType, gapEvidence)
  {
    var names := JoinedNames(joinsList);
    ghost var keys := Keys(joinsList);
    var scaffoldsToJoin, printed := Sort(names, agp);

    var missing := CheckFound(names, scaffoldsToJoin, agp);
    if missing.Some? {
      return Emitted(printed, Some(ScaffoldNotFoundError(missing.value)));
    }
    FirstMissingNone(names, agp);
    assert AllFound(agp, keys);

    var joinedLines: seq<AgpLine> := [];
    for i := 0 to |joinsList|
      invariant JoinAll(joinsList[..i], agp, keys, gapSize, gapType) == Emitted(joinedLines, None)
    {
      assert joinsList[..i + 1][..i] == joinsList[..i];
      var joinGroup := joinsList[i];
      var scaffoldRows := GatherGroup(joinGroup, scaffoldsToJoin, agp, keys);
      if scaffoldRows.Err? {
        JoinAllSticks(joinsList, i + 1, agp, keys, gapSize, gapType);
        return Emitted(printed + joinedLines, Some(scaffoldRows.error));
      }
      GroupRowsOk(joinGroup, agp, keys);
      var rows := JoinScaffolds(scaffoldRows.value, gapSize, gapType, "na", joinGroup.name);
      joinedLines := joinedLines + AsLines(rows);
    }
    assert joinsList[..|joinsList|] == joinsList;
    return Emitted(printed + joinedLines, None);
  }
}
