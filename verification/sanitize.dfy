/** Grouping the rows of an AGP file into scaffolds (runs of consecutive
    rows of one object), and the clean-up that NCBI submission needs: a
    scaffold of one row is oriented `+`, and every component becomes a
    contig of its own, named `contig_1`, `contig_2`, … */
module Sanitize {
  import opened Wrappers
  import opened Text
  import opened Seqs
  import opened Agp
  import opened Fasta

  /** Rows that all belong to the object of the first. */
  predicate OneObject(g: seq<Row>)
  {
    forall k :: 0 <= k < |g| ==> g[k].objectName == g[0].objectName
  }

  /** The maximal runs of consecutive rows of one object, in order. */
  function Runs(rows: seq<Row>): seq<seq<Row>>
  {
    if rows == [] then []
    else
      var prev, r := Runs(rows[..|rows| - 1]), rows[|rows| - 1];
      if prev != [] && Last(prev)[0].objectName == r.objectName then
        prev[..|prev| - 1] + [Last(prev) + [r]]
      else
        prev + [[r]]
  }

  /** Putting the runs back together gives the rows; no run is empty, each
      has one object, and neighbouring runs have different objects. */
  lemma RunsSpec(rows: seq<Row>)
    ensures Flatten(Runs(rows)) == rows
    ensures |Runs(rows)| == 0 <==> rows == []
    ensures forall k :: 0 <= k < |Runs(rows)| ==> Runs(rows)[k] != [] && OneObject(Runs(rows)[k])
    ensures forall k :: 0 <= k < |Runs(rows)| - 1 ==> Runs(rows)[k][0].objectName != Runs(rows)[k + 1][0].objectName
    ensures rows != [] ==> Last(Last(Runs(rows))) == Last(rows)
  {
    RunsFlatten(rows);
    RunsShape(rows);
  }

  lemma {:induction false} RunsFlatten(rows: seq<Row>)
    ensures Flatten(Runs(rows)) == rows
    decreases |rows|
  {
    if rows != [] {
      var init, r := rows[..|rows| - 1], Last(rows);
      var prev: seq<seq<Row>> := Runs(init);
      RunsFlatten(init);
      assert init + [r] == rows;
      if prev != [] && Last(prev)[0].objectName == r.objectName {
        var n := |prev| - 1;
        assert Runs(rows) == prev[..n] + [prev[n] + [r]];
        assert prev == prev[..n] + [prev[n]];
        FlattenAppend(prev[..n], prev[n]);
        FlattenAppend(prev[..n], prev[n] + [r]);
      } else {
        assert Runs(rows) == prev + [[r]];
        FlattenAppend(prev, [r]);
      }
    }
  }

  lemma {:induction false} RunsShape(rows: seq<Row>)
    ensures RunShaped(Runs(rows))
    ensures |Runs(rows)| == 0 <==> rows == []
    ensures rows != [] ==> Last(Last(Runs(rows))) == Last(rows)
    decreases |rows|
  {
    if rows != [] {
      var init, r := rows[..|rows| - 1], Last(rows);
      var prev: seq<seq<Row>> := Runs(init);
      RunsShape(init);
      if prev != [] && Last(prev)[0].objectName == r.objectName {
        var n := |prev| - 1;
        assert Runs(rows) == prev[..n] + [prev[n] + [r]];
        RunsMerge(prev, r);
      } else {
        assert Runs(rows) == prev + [[r]];
        RunsNew(prev, r);
      }
    }
  }

  /** A row of the last run's object extends that run. */
  lemma RunsMerge(prev: seq<seq<Row>>, r: Row)
    requires RunShaped(prev) && prev != [] && Last(prev)[0].objectName == r.objectName
    ensures var n := |prev| - 1;
      var runs := prev[..n] + [prev[n] + [r]];
      RunShaped(runs) && Last(Last(runs)) == r
  {
    var n := |prev| - 1;
    var runs := prev[..n] + [prev[n] + [r]];
    assert forall k :: 0 <= k < n ==> runs[k] == prev[k];
    assert runs[n] == prev[n] + [r] && runs[n][0] == prev[n][0];
    forall k | 0 <= k < |runs[n]|
      ensures runs[n][k].objectName == runs[n][0].objectName
    {
      if k < |prev[n]| { assert runs[n][k] == prev[n][k]; }
    }
  }

  /** A row of another object starts a new run. */
  lemma RunsNew(prev: seq<seq<Row>>, r: Row)
    requires RunShaped(prev) && (prev == [] || Last(prev)[0].objectName != r.objectName)
    ensures RunShaped(prev + [[r]])
  {
    var runs := prev + [[r]];
    assert forall k :: 0 <= k < |prev| ==> runs[k] == prev[k];
  }

  /** What `divide_into_scaffolds` yields: the runs, or one empty group when
      there are no rows. */
  function Divide(rows: seq<Row>): (groups: seq<seq<Row>>)
    ensures |groups| >= 1
  {
    if rows == [] then [[]] else Runs(rows)
  }

  /** The state of `divide_into_scaffolds` after the first `i` rows: the
      runs of those rows are the closed groups and the open one. */
  predicate Divided(rows: seq<Row>, i: nat, groups: seq<seq<Row>>, current: Option<string>, currentRows: seq<Row>)
    requires i <= |rows|
  {
    if i == 0 then groups == [] && currentRows == [] && current == None
    else && Runs(rows[..i]) == groups + [currentRows]
         && currentRows != []
         && current == Some(currentRows[0].objectName)
  }

  /** `divide_into_scaffolds`. */
  method DivideIntoScaffolds(rows: seq<Row>) returns (groups: seq<seq<Row>>)
    ensures groups == Divide(rows)
  {
    var currentScaffold: Option<string> := None;
    var currentScaffoldRows: seq<Row> := [];
    groups := [];
    for i := 0 to |rows|
      invariant Divided(rows, i, groups, currentScaffold, currentScaffoldRows)
    {
      groups, currentScaffold, currentScaffoldRows := DivideRow(rows, i, groups, currentScaffold, currentScaffoldRows);
    }
    if |rows| > 0 {
      assert rows[..|rows|] == rows;
    }
    groups := groups + [currentScaffoldRows];
  }

  /** One row of `divide_into_scaffolds`: a new object closes the open group. */
  method DivideRow(rows: seq<Row>, i: nat, groups: seq<seq<Row>>, currentScaffold: Option<string>, currentScaffoldRows: seq<Row>)
    returns (groups': seq<seq<Row>>, currentScaffold': Option<string>, currentScaffoldRows': seq<Row>)
    requires i < |rows| && Divided(rows, i, groups, currentScaffold, currentScaffoldRows)
    ensures Divided(rows, i + 1, groups', currentScaffold', currentScaffoldRows')
  {
    var row := rows[i];
    RunsExtend(rows, i);
    if i > 0 {
      LastOfRuns(groups, currentScaffoldRows);
    } else {
      assert rows[..0] == [];
    }
    groups', currentScaffold', currentScaffoldRows' := groups, currentScaffold, currentScaffoldRows;
    if currentScaffold' != Some(row.objectName) {
      if currentScaffoldRows' != [] {
        groups' := groups' + [currentScaffoldRows'];
      }
      currentScaffold' := Some(row.objectName);
      currentScaffoldRows' := [];
      assert Runs(rows[..i + 1]) == groups' + [[row]] && currentScaffoldRows' + [row] == [row];
    } else {
      assert Runs(rows[..i + 1]) == groups' + [currentScaffoldRows' + [row]];
      assert (currentScaffoldRows' + [row])[0] == currentScaffoldRows'[0];
    }
    currentScaffoldRows' := currentScaffoldRows' + [row];
  }

  /** `Runs` on one more row. */
  lemma RunsExtend(rows: seq<Row>, i: nat)
    requires i < |rows|
    ensures var prev := Runs(rows[..i]);
      Runs(rows[..i + 1])
        == if prev != [] && Last(prev)[0].objectName == rows[i].objectName then prev[..|prev| - 1] + [Last(prev) + [rows[i]]]
           else prev + [[rows[i]]]
  {
    assert rows[..i + 1][..i] == rows[..i] && Last(rows[..i + 1]) == rows[i];
  }

  lemma LastOfRuns(groups: seq<seq<Row>>, current: seq<Row>)
    ensures var gs := groups + [current]; gs != [] && Last(gs) == current && gs[..|gs| - 1] == groups
  {
  }

  // ---- run ----

  /** A scaffold of a single component is oriented `+`; any other scaffold
      is left as it is. (On a lone gap the source sets an attribute that no
      gap row ever shows.) */
  function ForceSingle(scaffold: seq<Row>): seq<Row>
  {
    if |scaffold| == 1 && scaffold[0].Component? then [scaffold[0].(orientation := "+")] else scaffold
  }

  function ForceAll(scaffolds: seq<seq<Row>>): seq<seq<Row>>
  {
    if scaffolds == [] then [] else [ForceSingle(scaffolds[0])] + ForceAll(scaffolds[1..])
  }

  /** Row `i` is the only row of its scaffold: its neighbours, where there
      are any, belong to other objects. */
  predicate Lone(rows: seq<Row>, i: int)
    requires 0 <= i < |rows|
  {
    && (i == 0 || rows[i - 1].objectName != rows[i].objectName)
    && (i == |rows| - 1 || rows[i + 1].objectName != rows[i].objectName)
  }

  /** Row `i` after the orientation rule: `+` on a lone component. */
  function ForcedRow(rows: seq<Row>, i: int): Row
    requires 0 <= i < |rows|
  {
    if Lone(rows, i) && rows[i].Component? then rows[i].(orientation := "+") else rows[i]
  }

  /** Scaffolds as `divide_into_scaffolds` makes them. */
  predicate RunShaped(gs: seq<seq<Row>>)
  {
    && (forall k :: 0 <= k < |gs| ==> gs[k] != [] && OneObject(gs[k]))
    && (forall k :: 0 <= k < |gs| - 1 ==> gs[k][0].objectName != gs[k + 1][0].objectName)
  }

  lemma {:induction false} ForceAllSpec(gs: seq<seq<Row>>)
    requires RunShaped(gs)
    ensures |Flatten(ForceAll(gs))| == |Flatten(gs)|
    ensures forall i :: 0 <= i < |Flatten(gs)| ==> Flatten(ForceAll(gs))[i] == ForcedRow(Flatten(gs), i)
  {
    if gs != [] {
      var g, rest := gs[0], gs[1..];
      ForceAllSpec(rest);
      var a, fa := Flatten(rest), Flatten(ForceAll(rest));
      assert Flatten(gs) == g + a;
      assert ForceAll(gs)[1..] == ForceAll(rest);
      assert Flatten(ForceAll(gs)) == ForceSingle(g) + fa;
      var all := g + a;
      NextObject(gs);
      forall i | 0 <= i < |all|
        ensures (ForceSingle(g) + fa)[i] == ForcedRow(all, i)
      {
        if i < |g| {
          ForcedInHead(g, a, i);
        } else {
          ForcedInTail(g, a, i - |g|);
        }
      }
    }
  }

  /** The rows after the first scaffold start with another object. */
  lemma NextObject(gs: seq<seq<Row>>)
    requires gs != [] && RunShaped(gs)
    ensures Flatten(gs[1..]) != [] ==> Flatten(gs[1..])[0].objectName != gs[0][0].objectName
  {
    var rest := gs[1..];
    if rest != [] {
      assert Flatten(rest) == rest[0] + Flatten(rest[1..]);
      assert rest[0] == gs[1];
    }
  }

  /** Within the first scaffold only a lone component is forced. */
  lemma ForcedInHead(g: seq<Row>, a: seq<Row>, i: nat)
    requires i < |g| && OneObject(g)
    requires a != [] ==> a[0].objectName != g[0].objectName
    ensures ForceSingle(g)[i] == ForcedRow(g + a, i)
  {
    var all := g + a;
    assert all[i] == g[i];
    assert i > 0 ==> all[i - 1].objectName == all[i].objectName;
    assert i + 1 < |g| ==> all[i + 1].objectName == all[i].objectName;
    assert i + 1 == |g| && a != [] ==> all[i + 1] == a[0];
    assert Lone(all, i) <==> i == 0 && |g| == 1;
  }

  /** Past the first scaffold, the orientation rule sees the same neighbours. */
  lemma ForcedInTail(g: seq<Row>, a: seq<Row>, j: nat)
    requires j < |a| && g != [] && OneObject(g)
    requires a[0].objectName != g[0].objectName
    ensures ForcedRow(g + a, |g| + j) == ForcedRow(a, j)
  {
    var all, i := g + a, |g| + j;
    assert all[i] == a[j];
    assert j > 0 ==> all[i - 1] == a[j - 1];
    assert j == 0 ==> all[i - 1] == g[|g| - 1];
    assert j + 1 < |a| ==> all[i + 1] == a[j + 1];
    assert Lone(all, i) <==> Lone(a, j);
  }

  /** The rows `run` goes on to rewrite are the input rows with the lone
      components oriented `+`. */
  lemma ForcedSpec(rows: seq<Row>)
    ensures |Flatten(ForceAll(Divide(rows)))| == |rows|
    ensures forall i :: 0 <= i < |rows| ==> Flatten(ForceAll(Divide(rows)))[i] == ForcedRow(rows, i)
  {
    if rows == [] {
      assert ForceAll([[]]) == [[]];
      FlattenSingle<Row>([]);
    } else {
      RunsSpec(rows);
      ForceAllSpec(Runs(rows));
    }
  }

  /** Every component row names a contig the FASTA store holds. */
  predicate ContigsKnown(rows: seq<Row>, contigs: map<string, string>)
  {
    forall i :: 0 <= i < |rows| && rows[i].Component? ==> rows[i].componentId in contigs
  }

  /** The bases a component row uses: positions `component_beg` to
      `component_end` (1-based, inclusive) of its contig. */
  function ContigPart(r: Row, contigs: map<string, string>): string
    requires r.Component? && r.componentId in contigs
  {
    PySlice(contigs[r.componentId], r.componentBeg - 1, r.componentEnd)
  }

  /** The name of the `n`-th new contig. */
  function ContigName(n: int): string
  {
    "contig_" + IntToString(n)
  }

  /** The number of component rows. */
  function Components(rows: seq<Row>): nat
  {
    if rows == [] then 0 else Bump(rows[0]) + Components(rows[1..])
  }

  /** 1 for a component row, which uses up a new contig number; 0 for a gap. */
  function Bump(r: Row): nat
  {
    if r.Component? then 1 else 0
  }

  /** The row `run` writes for `r`: a gap as it is; a component renamed to
      contig number `n`, starting at 1 and ending at the length of its bases. */
  function SanitizedRow(r: Row, n: int, contigs: map<string, string>): Row
    requires r.Component? ==> r.componentId in contigs
  {
    if r.Gap? then r
    else r.(componentId := ContigName(n), componentBeg := 1, componentEnd := |ContigPart(r, contigs)|)
  }

  /** What `run` writes for one row: the row, and for a component the FASTA
      record of the bases it used, under its new contig name. */
  function SanitizeRow(r: Row, counter: int, contigs: map<string, string>): (seq<Row>, seq<string>)
    requires r.Component? ==> r.componentId in contigs
  {
    if r.Gap? then ([r], [])
    else ([SanitizedRow(r, counter, contigs)], FastaLines(ContigName(counter), ContigPart(r, contigs)))
  }

  /** The AGP rows and FASTA lines `run` writes for `rows`, whose first
      component becomes contig number `counter`. */
  function SanitizeRows(rows: seq<Row>, counter: int, contigs: map<string, string>): (out: (seq<Row>, seq<string>))
    requires ContigsKnown(rows, contigs)
    ensures |out.0| == |rows|
  {
    if rows == [] then ([], [])
    else
      var head := SanitizeRow(rows[0], counter, contigs);
      Glue(head.0, head.1, SanitizeRows(rows[1..], counter + Bump(rows[0]), contigs))
  }

  /** Every scaffold's component rows name contigs the FASTA store holds. */
  predicate ScaffoldsKnown(gs: seq<seq<Row>>, contigs: map<string, string>)
  {
    forall k :: 0 <= k < |gs| ==> ContigsKnown(gs[k], contigs)
  }

  /** The output for a list of scaffolds, scaffold by scaffold, numbering
      the new contigs from `counter`. */
  function SanitizeAll(gs: seq<seq<Row>>, counter: int, contigs: map<string, string>): (seq<Row>, seq<string>)
    requires ScaffoldsKnown(gs, contigs)
  {
    if gs == [] then ([], [])
    else
      ForceSingleKnown(gs[0], contigs);
      var s := ForceSingle(gs[0]);
      var head := SanitizeRows(s, counter, contigs);
      Glue(head.0, head.1, SanitizeAll(gs[1..], counter + Components(s), contigs))
  }

  /** What `run` writes: the AGP rows and the FASTA lines of the new contigs. */
  function Sanitized(rows: seq<Row>, contigs: map<string, string>): (seq<Row>, seq<string>)
    requires ContigsKnown(rows, contigs)
  {
    DivideKnown(rows, contigs);
    SanitizeAll(Divide(rows), 1, contigs)
  }

  lemma ForceSingleKnown(g: seq<Row>, contigs: map<string, string>)
    requires ContigsKnown(g, contigs)
    ensures ContigsKnown(ForceSingle(g), contigs)
  {
  }

  lemma DivideKnown(rows: seq<Row>, contigs: map<string, string>)
    requires ContigsKnown(rows, contigs)
    ensures ScaffoldsKnown(Divide(rows), contigs)
  {
    if rows != [] {
      RunsSpec(rows);
      FlattenKnown(Runs(rows), contigs);
    }
  }

  lemma {:induction false} FlattenKnown(gs: seq<seq<Row>>, contigs: map<string, string>)
    requires ContigsKnown(Flatten(gs), contigs)
    ensures ScaffoldsKnown(gs, contigs)
    decreases |gs|
  {
    if gs != [] {
      ContigsKnownConcat(gs[0], Flatten(gs[1..]), contigs);
      FlattenKnown(gs[1..], contigs);
      assert forall k :: 1 <= k < |gs| ==> gs[k] == gs[1..][k - 1];
    }
  }

  lemma ContigsKnownJoin(a: seq<Row>, b: seq<Row>, contigs: map<string, string>)
    requires ContigsKnown(a, contigs) && ContigsKnown(b, contigs)
    ensures ContigsKnown(a + b, contigs)
  {
    forall i | 0 <= i < |a + b| && (a + b)[i].Component?
      ensures (a + b)[i].componentId in contigs
    {
      if i < |a| { assert (a + b)[i] == a[i]; } else { assert (a + b)[i] == b[i - |a|]; }
    }
  }

  lemma ScaffoldsKnownTail(gs: seq<seq<Row>>, contigs: map<string, string>)
    requires gs != [] && ScaffoldsKnown(gs, contigs)
    ensures ContigsKnown(gs[0], contigs) && ScaffoldsKnown(gs[1..], contigs)
  {
    assert forall k :: 0 <= k < |gs| - 1 ==> gs[1..][k] == gs[k + 1];
  }

  lemma SanitizeAllCons(gs: seq<seq<Row>>, counter: int, contigs: map<string, string>)
    requires gs != [] && ScaffoldsKnown(gs, contigs)
    ensures ContigsKnown(ForceSingle(gs[0]), contigs) && ScaffoldsKnown(gs[1..], contigs)
    ensures SanitizeAll(gs, counter, contigs)
      == Glue(SanitizeRows(ForceSingle(gs[0]), counter, contigs).0,
              SanitizeRows(ForceSingle(gs[0]), counter, contigs).1,
              SanitizeAll(gs[1..], counter + Components(ForceSingle(gs[0])), contigs))
  {
    ScaffoldsKnownTail(gs, contigs);
    ForceSingleKnown(gs[0], contigs);
  }

  lemma {:induction false} ForceAllKnown(gs: seq<seq<Row>>, contigs: map<string, string>)
    requires ScaffoldsKnown(gs, contigs)
    ensures ContigsKnown(Flatten(ForceAll(gs)), contigs)
    decreases |gs|
  {
    if gs != [] {
      var s, rest := ForceSingle(gs[0]), ForceAll(gs[1..]);
      ForceSingleKnown(gs[0], contigs);
      ScaffoldsKnownTail(gs, contigs);
      ForceAllKnown(gs[1..], contigs);
      assert ForceAll(gs) == [s] + rest;
      FlattenCons(s, rest);
      ContigsKnownJoin(s, Flatten(rest), contigs);
    } else {
      assert Flatten(ForceAll(gs)) == [];
    }
  }

  /** Scaffold by scaffold is the same as all the forced rows at once. */
  lemma {:induction false} SanitizeAllFlat(gs: seq<seq<Row>>, counter: int, contigs: map<string, string>)
    requires ScaffoldsKnown(gs, contigs)
    ensures ContigsKnown(Flatten(ForceAll(gs)), contigs)
    ensures SanitizeAll(gs, counter, contigs) == SanitizeRows(Flatten(ForceAll(gs)), counter, contigs)
    decreases |gs|
  {
    ForceAllKnown(gs, contigs);
    if gs != [] {
      var s, rest := ForceSingle(gs[0]), ForceAll(gs[1..]);
      ForceSingleKnown(gs[0], contigs);
      ScaffoldsKnownTail(gs, contigs);
      SanitizeAllFlat(gs[1..], counter + Components(s), contigs);
      SanitizeAllCons(gs, counter, contigs);
      assert ForceAll(gs) == [s] + rest;
      FlattenCons(s, rest);
      FlatStep(s, Flatten(rest), counter, contigs);
    }
  }

  lemma FlatStep(s: seq<Row>, flat: seq<Row>, counter: int, contigs: map<string, string>)
    requires ContigsKnown(s, contigs) && ContigsKnown(flat, contigs)
    ensures ContigsKnown(s + flat, contigs)
    ensures SanitizeRows(s + flat, counter, contigs)
      == Glue(SanitizeRows(s, counter, contigs).0, SanitizeRows(s, counter, contigs).1,
              SanitizeRows(flat, counter + Components(s), contigs))
  {
    ContigsKnownJoin(s, flat, contigs);
    SanitizeRowsConcat(s, flat, counter, contigs);
  }

  /** Row `i` of `run`'s AGP output is row `i` of the input, oriented `+`
      when it is a lone component, and renamed to contig number 1 + the
      number of components before it. */
  lemma SanitizedSpec(rows: seq<Row>, contigs: map<string, string>)
    requires ContigsKnown(rows, contigs)
    ensures |Sanitized(rows, contigs).0| == |rows|
    ensures forall i :: 0 <= i < |rows| ==>
      Sanitized(rows, contigs).0[i] == SanitizedRow(ForcedRow(rows, i), 1 + Components(rows[..i]), contigs)
  {
    DivideKnown(rows, contigs);
    SanitizeAllFlat(Divide(rows), 1, contigs);
    ForcedSpec(rows);
    forall i | 0 <= i < |rows|
      ensures Sanitized(rows, contigs).0[i] == SanitizedRow(ForcedRow(rows, i), 1 + Components(rows[..i]), contigs)
    {
      SanitizedAt(rows, contigs, i);
    }
  }

  lemma SanitizedAt(rows: seq<Row>, contigs: map<string, string>, i: nat)
    requires ContigsKnown(rows, contigs) && i < |rows|
    ensures |Sanitized(rows, contigs).0| == |rows|
    ensures Sanitized(rows, contigs).0[i] == SanitizedRow(ForcedRow(rows, i), 1 + Components(rows[..i]), contigs)
  {
    DivideKnown(rows, contigs);
    SanitizeAllFlat(Divide(rows), 1, contigs);
    ForcedSpec(rows);
    var forced := Flatten(ForceAll(Divide(rows)));
    SanitizeRowsSpec(forced, 1, contigs);
    SanitizeRowsAt(forced, 1, contigs, i);
    ComponentsAlike(forced[..i], rows[..i]);
  }

  /** Rows that are components at the same places count the same. */
  lemma {:induction false} ComponentsAlike(a: seq<Row>, b: seq<Row>)
    requires |a| == |b| && forall j :: 0 <= j < |a| ==> a[j].Component? == b[j].Component?
    ensures Components(a) == Components(b)
    decreases |a|
  {
    if a != [] {
      ComponentsAlike(a[1..], b[1..]);
    }
  }

  /** Row `i` of the sanitized output: a gap is unchanged; a component names
      the next new contig, starts at 1 and ends at the length of the bases
      it used. The output has one row per input row. */
  lemma SanitizeRowsSpec(rows: seq<Row>, counter: int, contigs: map<string, string>)
    requires ContigsKnown(rows, contigs)
    ensures var out := SanitizeRows(rows, counter, contigs).0;
      && |out| == |rows|
      && forall i :: 0 <= i < |rows| ==> out[i] == SanitizedRow(rows[i], counter + Components(rows[..i]), contigs)
  {
    forall i | 0 <= i < |rows|
      ensures SanitizeRows(rows, counter, contigs).0[i] == SanitizedRow(rows[i], counter + Components(rows[..i]), contigs)
    {
      SanitizeRowsAt(rows, counter, contigs, i);
    }
  }

  /** Row `i` of the output, from the rows before it and the rows from it on. */
  lemma SanitizeRowsAt(rows: seq<Row>, counter: int, contigs: map<string, string>, i: nat)
    requires ContigsKnown(rows, contigs) && i < |rows|
    ensures SanitizeRows(rows, counter, contigs).0[i] == SanitizedRow(rows[i], counter + Components(rows[..i]), contigs)
  {
    var a, b := rows[..i], rows[i..];
    assert a + b == rows && b[0] == rows[i];
    SanitizeRowsSeam(a, b, counter, contigs);
  }

  /** The first row after a seam is rewritten with the count of the
      components before it. */
  lemma SanitizeRowsSeam(a: seq<Row>, b: seq<Row>, counter: int, contigs: map<string, string>)
    requires b != [] && ContigsKnown(a + b, contigs)
    ensures b[0].Component? ==> b[0].componentId in contigs
    ensures SanitizeRows(a + b, counter, contigs).0[|a|] == SanitizedRow(b[0], counter + Components(a), contigs)
  {
    var c := counter + Components(a);
    SanitizeRowsConcat(a, b, counter, contigs);
    SanitizedRowsHead(b, c, contigs);
    var x, y := SanitizeRows(a, counter, contigs).0, SanitizeRows(b, c, contigs).0;
    assert (x + y)[|a|] == y[0];
  }

  /** A component row whose span lies within its contig uses exactly
      `component_end - component_beg + 1` bases, starting at base
      `component_beg`. */
  lemma ContigPartSpec(r: Row, contigs: map<string, string>)
    requires r.Component? && r.componentId in contigs
    requires 1 <= r.componentBeg <= r.componentEnd <= |contigs[r.componentId]|
    ensures ContigPart(r, contigs) == contigs[r.componentId][r.componentBeg - 1..r.componentEnd]
    ensures |ContigPart(r, contigs)| == r.componentEnd - r.componentBeg + 1
  {
    PySliceForward(contigs[r.componentId], r.componentBeg - 1, r.componentEnd);
  }

  /** A component row whose span lies within its contig is rewritten to
      span `1` to `component_end - component_beg + 1` of its new contig. */
  lemma SanitizedSpan(rows: seq<Row>, contigs: map<string, string>, i: nat)
    requires ContigsKnown(rows, contigs) && i < |rows| && rows[i].Component?
    requires 1 <= rows[i].componentBeg <= rows[i].componentEnd <= |contigs[rows[i].componentId]|
    ensures |Sanitized(rows, contigs).0| == |rows|
    ensures Sanitized(rows, contigs).0[i].Component?
    ensures Sanitized(rows, contigs).0[i].componentId == ContigName(1 + Components(rows[..i]))
    ensures Sanitized(rows, contigs).0[i].componentBeg == 1
    ensures Sanitized(rows, contigs).0[i].componentEnd == rows[i].componentEnd - rows[i].componentBeg + 1
  {
    SanitizedAt(rows, contigs, i);
    ContigPartSpec(rows[i], contigs);
  }

  /** The FASTA lines of the contig a row becomes, numbered `n`: none for a gap. */
  function ContigLines(r: Row, n: int, contigs: map<string, string>): seq<string>
    requires r.Component? ==> r.componentId in contigs
  {
    if r.Gap? then [] else FastaLines(ContigName(n), ContigPart(r, contigs))
  }

  /** Row by row, the FASTA lines of the contig each row becomes, when the
      first component becomes contig number `counter`. */
  function ContigLinesPerRow(rows: seq<Row>, counter: int, contigs: map<string, string>): seq<seq<string>>
    requires ContigsKnown(rows, contigs)
  {
    seq(|rows|, i requires 0 <= i < |rows| => ContigLines(rows[i], counter + Components(rows[..i]), contigs))
  }

  /** The FASTA lines `run` writes are, for each component row `i` in input
      order, the record of contig number 1 + the number of components
      before it, holding the bases that row used; gaps write nothing. */
  lemma SanitizedFasta(rows: seq<Row>, contigs: map<string, string>)
    requires ContigsKnown(rows, contigs)
    ensures Sanitized(rows, contigs).1 == Flatten(ContigLinesPerRow(rows, 1, contigs))
  {
    DivideKnown(rows, contigs);
    SanitizeAllFlat(Divide(rows), 1, contigs);
    ForcedSpec(rows);
    var forced := Flatten(ForceAll(Divide(rows)));
    SanitizeRowsFasta(forced, 1, contigs);
    ContigLinesAlike(forced, rows, 1, contigs);
  }

  /** Rows that differ at most in orientation give the same FASTA lines. */
  lemma ContigLinesAlike(a: seq<Row>, b: seq<Row>, counter: int, contigs: map<string, string>)
    requires ContigsKnown(a, contigs) && ContigsKnown(b, contigs) && |a| == |b|
    requires forall j :: 0 <= j < |a| ==> a[j] == b[j] || (b[j].Component? && a[j] == b[j].(orientation := "+"))
    ensures ContigLinesPerRow(a, counter, contigs) == ContigLinesPerRow(b, counter, contigs)
  {
    var x, y := ContigLinesPerRow(a, counter, contigs), ContigLinesPerRow(b, counter, contigs);
    forall i | 0 <= i < |a|
      ensures x[i] == y[i]
    {
      ContigLinesReoriented(a, b, counter, contigs, i);
    }
  }

  lemma ContigLinesReoriented(a: seq<Row>, b: seq<Row>, counter: int, contigs: map<string, string>, i: nat)
    requires ContigsKnown(a, contigs) && ContigsKnown(b, contigs) && |a| == |b| && i < |a|
    requires forall j :: 0 <= j < |a| ==> a[j] == b[j] || (b[j].Component? && a[j] == b[j].(orientation := "+"))
    ensures ContigLinesPerRow(a, counter, contigs)[i] == ContigLinesPerRow(b, counter, contigs)[i]
  {
    ComponentsReoriented(a, b, i);
    ContigLinesOriented(a[i], b[i], counter + Components(b[..i]), contigs);
  }

  lemma ComponentsReoriented(a: seq<Row>, b: seq<Row>, i: nat)
    requires |a| == |b| && i <= |a|
    requires forall j :: 0 <= j < |a| ==> a[j] == b[j] || (b[j].Component? && a[j] == b[j].(orientation := "+"))
    ensures Components(a[..i]) == Components(b[..i])
  {
    ComponentsAlike(a[..i], b[..i]);
  }

  lemma ContigLinesOriented(x: Row, y: Row, n: int, contigs: map<string, string>)
    requires y.Component? ==> y.componentId in contigs
    requires x == y || (y.Component? && x == y.(orientation := "+"))
    ensures x.Component? ==> x.componentId in contigs
    ensures ContigLines(x, n, contigs) == ContigLines(y, n, contigs)
  {
  }

  /** `SanitizeRows` writes, row by row, the FASTA lines of the contig each
      row becomes. */
  lemma {:induction false} SanitizeRowsFasta(rows: seq<Row>, counter: int, contigs: map<string, string>)
    requires ContigsKnown(rows, contigs)
    ensures SanitizeRows(rows, counter, contigs).1 == Flatten(ContigLinesPerRow(rows, counter, contigs))
    decreases |rows|
  {
    if rows != [] {
      SanitizeRowsHead(rows, counter, contigs);
      var next := counter + Bump(rows[0]);
      SanitizeRowsFasta(rows[1..], next, contigs);
      ContigLinesHead(rows, counter, contigs);
      FlattenCons(ContigLines(rows[0], counter, contigs), ContigLinesPerRow(rows[1..], next, contigs));
    }
  }

  lemma ContigLinesHead(rows: seq<Row>, counter: int, contigs: map<string, string>)
    requires rows != [] && ContigsKnown(rows, contigs)
    ensures ContigsKnown(rows[1..], contigs)
    ensures ContigLinesPerRow(rows, counter, contigs)
      == [ContigLines(rows[0], counter, contigs)] + ContigLinesPerRow(rows[1..], counter + Bump(rows[0]), contigs)
  {
    ContigsKnownTail(rows, contigs);
    var tail := ContigLinesPerRow(rows[1..], counter + Bump(rows[0]), contigs);
    forall i | 1 <= i < |rows|
      ensures ContigLinesPerRow(rows, counter, contigs)[i] == tail[i - 1]
    {
      assert rows[..i][1..] == rows[1..][..i - 1];
      assert Components(rows[..i]) == Bump(rows[0]) + Components(rows[1..][..i - 1]);
    }
    assert rows[..0] == [];
  }

  lemma SanitizedRowsHead(rows: seq<Row>, counter: int, contigs: map<string, string>)
    requires rows != [] && ContigsKnown(rows, contigs)
    ensures ContigsKnown(rows[1..], contigs)
    ensures SanitizeRows(rows, counter, contigs).0
      == [SanitizedRow(rows[0], counter, contigs)] + SanitizeRows(rows[1..], counter + Bump(rows[0]), contigs).0
  {
    SanitizeRowsHead(rows, counter, contigs);
  }

  lemma ComponentsPrefix(rows: seq<Row>, i: nat)
    requires 1 <= i <= |rows|
    ensures Components(rows[..i]) == Bump(rows[0]) + Components(rows[1..][..i - 1])
  {
    assert rows[..i][0] == rows[0] && rows[..i][1..] == rows[1..][..i - 1];
  }

  /** Sanitizing two stretches of rows one after the other: the second
      numbers its contigs on from where the first stopped. */
  lemma {:induction false} SanitizeRowsConcat(a: seq<Row>, b: seq<Row>, counter: int, contigs: map<string, string>)
    requires ContigsKnown(a + b, contigs)
    ensures ContigsKnown(a, contigs) && ContigsKnown(b, contigs)
    ensures SanitizeRows(a + b, counter, contigs)
            == Glue(SanitizeRows(a, counter, contigs).0, SanitizeRows(a, counter, contigs).1,
                    SanitizeRows(b, counter + Components(a), contigs))
    decreases |a|
  {
    ContigsKnownConcat(a, b, contigs);
    if a == [] {
      assert a + b == b;
      var r := SanitizeRows(b, counter, contigs);
      assert [] + r.0 == r.0 && [] + r.1 == r.1;
    } else {
      var next := counter + Bump(a[0]);
      var head := SanitizeRow(a[0], counter, contigs);
      assert (a + b)[0] == a[0] && (a + b)[1..] == a[1..] + b;
      assert SanitizeRows(a + b, counter, contigs) == Glue(head.0, head.1, SanitizeRows(a[1..] + b, next, contigs));
      SanitizeRowsConcat(a[1..], b, next, contigs);
      var x, y := SanitizeRows(a[1..], next, contigs), SanitizeRows(b, next + Components(a[1..]), contigs);
      GlueStep(head.0, head.1, x.0, x.1, y);
    }
  }

  lemma ContigsKnownConcat(a: seq<Row>, b: seq<Row>, contigs: map<string, string>)
    requires ContigsKnown(a + b, contigs)
    ensures ContigsKnown(a, contigs) && ContigsKnown(b, contigs)
    ensures a != [] ==> ContigsKnown(a[1..] + b, contigs)
  {
    assert forall i :: 0 <= i < |a| ==> (a + b)[i] == a[i];
    assert forall i :: 0 <= i < |b| ==> (a + b)[|a| + i] == b[i];
    if a != [] {
      assert a[1..] + b == (a + b)[1..];
      ContigsKnownTail(a + b, contigs);
    }
  }

  /** The loop of `run` over the rows of one scaffold. */
  method SanitizeScaffold(scaffoldRows: seq<Row>, counter: int, contigs: map<string, string>)
    returns (agpOut: seq<Row>, contigsOut: seq<string>, nextCounter: int)
    requires ContigsKnown(scaffoldRows, contigs)
    ensures (agpOut, contigsOut) == SanitizeRows(scaffoldRows, counter, contigs)
    ensures nextCounter == counter + Components(scaffoldRows)
  {
    var contigCounter := counter;
    agpOut, contigsOut := [], [];
    assert scaffoldRows[..0] == [];
    for k := 0 to |scaffoldRows|
      invariant ContigsKnown(scaffoldRows[..k], contigs)
      invariant (agpOut, contigsOut) == SanitizeRows(scaffoldRows[..k], counter, contigs)
      invariant contigCounter == counter + Components(scaffoldRows[..k])
    {
      SanitizeRowsSnoc(scaffoldRows, k, counter, contigs);
      var row, lines, next := SanitizeOne(scaffoldRows[k], contigCounter, contigs);
      agpOut, contigsOut, contigCounter := agpOut + [row], contigsOut + lines, next;
    }
    assert scaffoldRows[..|scaffoldRows|] == scaffoldRows;
    nextCounter := contigCounter;
  }

  /** `SanitizeRows` on a prefix one row longer. */
  lemma SanitizeRowsSnoc(rows: seq<Row>, k: nat, counter: int, contigs: map<string, string>)
    requires k < |rows| && ContigsKnown(rows, contigs)
    ensures ContigsKnown(rows[..k + 1], contigs) && ContigsKnown(rows[..k], contigs)
    ensures var c := counter + Components(rows[..k]);
      var prefix, row := SanitizeRows(rows[..k], counter, contigs), SanitizeRow(rows[k], c, contigs);
      && SanitizeRows(rows[..k + 1], counter, contigs) == (prefix.0 + row.0, prefix.1 + row.1)
      && counter + Components(rows[..k + 1]) == c + Bump(rows[k])
  {
    var a, r := rows[..k], rows[k];
    assert a + [r] == rows[..k + 1];
    assert forall i :: 0 <= i < k + 1 ==> rows[..k + 1][i] == rows[i];
    SanitizeRowsConcat(a, [r], counter, contigs);
    var c := counter + Components(a);
    SanitizeRowsHead([r], c, contigs);
    assert [r][1..] == [];
    var row := SanitizeRow(r, c, contigs);
    assert SanitizeRows([r], c, contigs) == (row.0 + [], row.1 + []);
    assert row.0 + [] == row.0 && row.1 + [] == row.1;
    ComponentsConcat(a, [r]);
  }

  lemma {:induction false} ComponentsConcat(a: seq<Row>, b: seq<Row>)
    ensures Components(a + b) == Components(a) + Components(b)
    decreases |a|
  {
    if a == [] {
      assert a + b == b;
    } else {
      ComponentsConcat(a[1..], b);
      assert (a + b)[0] == a[0] && (a + b)[1..] == a[1..] + b;
    }
  }

  /** The body of `run`'s loop over the rows of a scaffold. */
  method SanitizeOne(row: Row, counter: int, contigs: map<string, string>)
    returns (rowOut: Row, lines: seq<string>, next: int)
    requires row.Component? ==> row.componentId in contigs
    ensures ([rowOut], lines) == SanitizeRow(row, counter, contigs)
    ensures next == counter + Bump(row)
  {
    rowOut, lines, next := row, [], counter;
    if !row.Gap? {
      var part := PySlice(contigs[row.componentId], row.componentBeg - 1, row.componentEnd);
      var newContigName := "contig_" + IntToString(counter);
      lines := PrintFasta(newContigName, part);
      next := counter + 1;
      rowOut := row.(componentId := newContigName, componentBeg := 1, componentEnd := |part|);
    }
  }

  /** `run`, with the FASTA store given as a map from contig name to bases;
      returns the AGP rows and the FASTA lines it writes. */
  method Run(rows: seq<Row>, contigs: map<string, string>) returns (agpOut: seq<Row>, contigsOut: seq<string>)
    requires ContigsKnown(rows, contigs)
    ensures (agpOut, contigsOut) == Sanitized(rows, contigs)
  {
    var scaffolds := DivideIntoScaffolds(rows);
    DivideKnown(rows, contigs);
    agpOut, contigsOut := SanitizeScaffolds(scaffolds, contigs);
  }

  /** The loop of `run` over the scaffolds, numbering contigs from 1. */
  method SanitizeScaffolds(scaffolds: seq<seq<Row>>, contigs: map<string, string>)
    returns (agpOut: seq<Row>, contigsOut: seq<string>)
    requires ScaffoldsKnown(scaffolds, contigs)
    ensures (agpOut, contigsOut) == SanitizeAll(scaffolds, 1, contigs)
  {
    var contigCounter := 1;
    agpOut, contigsOut := [], [];
    assert scaffolds[0..] == scaffolds;
    ghost var all := SanitizeAll(scaffolds, 1, contigs);
    assert Glue([], [], all) == all by {
      assert [] + all.0 == all.0 && [] + all.1 == all.1;
    }
    for g := 0 to |scaffolds|
      invariant ScaffoldsKnown(scaffolds[g..], contigs)
      invariant all == Glue(agpOut, contigsOut, SanitizeAll(scaffolds[g..], contigCounter, contigs))
    {
      var rowsOut, linesOut, next := SanitizeNext(scaffolds, g, contigCounter, contigs);
      GlueStep(agpOut, contigsOut, rowsOut, linesOut, SanitizeAll(scaffolds[g + 1..], next, contigs));
      agpOut, contigsOut, contigCounter := agpOut + rowsOut, contigsOut + linesOut, next;
    }
    assert scaffolds[|scaffolds|..] == [];
    assert agpOut + [] == agpOut && contigsOut + [] == contigsOut;
  }

  /** One scaffold of `run`'s loop: a lone component is forced to `+`,
      then its rows are rewritten. */
  method SanitizeNext(scaffolds: seq<seq<Row>>, g: nat, counter: int, contigs: map<string, string>)
    returns (rowsOut: seq<Row>, linesOut: seq<string>, next: int)
    requires g < |scaffolds| && ScaffoldsKnown(scaffolds[g..], contigs)
    ensures ScaffoldsKnown(scaffolds[g + 1..], contigs)
    ensures SanitizeAll(scaffolds[g..], counter, contigs)
      == Glue(rowsOut, linesOut, SanitizeAll(scaffolds[g + 1..], next, contigs))
  {
    var scaffoldRows := scaffolds[g];
    if |scaffoldRows| == 1 && !scaffoldRows[0].Gap? {
      scaffoldRows := [scaffoldRows[0].(orientation := "+")];
    }
    assert scaffoldRows == ForceSingle(scaffolds[g]);
    ScaffoldStep(scaffolds, g, counter, contigs);
    rowsOut, linesOut, next := SanitizeScaffold(scaffoldRows, counter, contigs);
  }

  /** The output for the scaffolds from `g` on: scaffold `g`'s, then the rest. */
  lemma ScaffoldStep(scaffolds: seq<seq<Row>>, g: nat, counter: int, contigs: map<string, string>)
    requires g < |scaffolds| && ScaffoldsKnown(scaffolds[g..], contigs)
    ensures ContigsKnown(ForceSingle(scaffolds[g]), contigs)
    ensures ScaffoldsKnown(scaffolds[g + 1..], contigs)
    ensures SanitizeAll(scaffolds[g..], counter, contigs)
      == Glue(SanitizeRows(ForceSingle(scaffolds[g]), counter, contigs).0,
              SanitizeRows(ForceSingle(scaffolds[g]), counter, contigs).1,
              SanitizeAll(scaffolds[g + 1..], counter + Components(ForceSingle(scaffolds[g])), contigs))
  {
    assert scaffolds[g..][0] == scaffolds[g] && scaffolds[g..][1..] == scaffolds[g + 1..];
    ForceSingleKnown(scaffolds[g], contigs);
  }

  /** Output written so far followed by the output still to come. */
  function Glue(rows: seq<Row>, lines: seq<string>, rest: (seq<Row>, seq<string>)): (seq<Row>, seq<string>)
  {
    (rows + rest.0, lines + rest.1)
  }

  lemma GlueStep(rows: seq<Row>, lines: seq<string>, r: seq<Row>, l: seq<string>, rest: (seq<Row>, seq<string>))
    ensures Glue(rows, lines, (r + rest.0, l + rest.1)) == Glue(rows + r, lines + l, rest)
  {
    assert rows + (r + rest.0) == (rows + r) + rest.0;
    assert lines + (l + rest.1) == (lines + l) + rest.1;
  }

  /** `SanitizeRows` on a non-empty stretch: the first row, then the rest. */
  lemma SanitizeRowsHead(rows: seq<Row>, counter: int, contigs: map<string, string>)
    requires rows != [] && ContigsKnown(rows, contigs)
    ensures ContigsKnown(rows[1..], contigs)
    ensures var head := SanitizeRow(rows[0], counter, contigs);
      SanitizeRows(rows, counter, contigs)
        == Glue(head.0, head.1, SanitizeRows(rows[1..], counter + Bump(rows[0]), contigs))
    ensures Components(rows) == Bump(rows[0]) + Components(rows[1..])
  {
    ContigsKnownTail(rows, contigs);
  }

  lemma ContigsKnownTail(rows: seq<Row>, contigs: map<string, string>)
    requires rows != [] && ContigsKnown(rows, contigs)
    ensures ContigsKnown(rows[1..], contigs)
  {
    assert forall i :: 0 <= i < |rows| - 1 ==> rows[1..][i] == rows[i + 1];
  }
}
