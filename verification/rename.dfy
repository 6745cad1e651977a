/** Renaming AGP objects, and reversing them on request, from a table of
    old name, new name and orientation. */
module Rename {
  import opened Wrappers
  import opened Seqs
  import opened Text
  import opened Agp
  import Flip
  import Remove

  // ---- the renaming file ----

  datatype FormatProblem = NotEnoughColumns | BadOrientation

  /** `FormatError`, with the 1-based number of the offending line. */
  datatype FormatError = FormatError(lineNumber: nat, problem: FormatProblem)

  /** The text `FormatError` carries. */
  function FormatMessage(e: FormatError): string
  {
    match e.problem
    case NotEnoughColumns => "Line " + NatToString(e.lineNumber) + " of renaming file doesn't have enough columns."
    case BadOrientation => "Line " + NatToString(e.lineNumber) + ": orientation column can only contain + or -"
  }

  /** What a name maps to: the new name and the orientation. */
  datatype Renaming = Renaming(newName: string, orientation: string)

  /** One line of the renaming file, numbered from 0: two columns give
      orientation `+`; with three or more the third must be `+` or `-`;
      fewer than two is an error. */
  function RenamingLine(line: string, i: nat): Result<(string, Renaming), FormatError>
  {
    var fields := Fields(line);
    if |fields| < 2 then Err(FormatError(i + 1, NotEnoughColumns))
    else if |fields| == 2 then Ok((fields[0], Renaming(fields[1], "+")))
    else if fields[2] != "+" && fields[2] != "-" then Err(FormatError(i + 1, BadOrientation))
    else Ok((fields[0], Renaming(fields[1], fields[2])))
  }

  /** A line is rejected exactly when it has fewer than two columns or a
      third column other than `+` and `-`; an accepted line maps its first
      column to its second, with orientation `+` when there is no third. */
  lemma RenamingLineSpec(line: string, i: nat)
    ensures var r := RenamingLine(line, i); var f := Fields(line);
      && (r.Err? <==> |f| < 2 || (|f| >= 3 && f[2] != "+" && f[2] != "-"))
      && (r.Err? ==> r.error == FormatError(i + 1, if |f| < 2 then NotEnoughColumns else BadOrientation))
      && (r.Ok? ==>
            && r.value.0 == f[0] && r.value.1.newName == f[1]
            && r.value.1.orientation == (if |f| == 2 then "+" else f[2])
            && (r.value.1.orientation == "+" || r.value.1.orientation == "-"))
  {
  }

  /** A line without a tab, blank lines included, is not skipped: it has a
      single column and is reported, with its line number. */
  lemma TablessLineRefused(line: string, i: nat)
    requires '\t' !in Strip(line)
    ensures RenamingLine(line, i) == Err(FormatError(i + 1, NotEnoughColumns))
  {
    SplitNoSep(Strip(line), '\t');
  }

  /** Each line of the file, read on its own. */
  function RenamingLines(lines: seq<string>): (rs: seq<Result<(string, Renaming), FormatError>>)
    ensures |rs| == |lines| && forall k :: 0 <= k < |lines| ==> rs[k] == RenamingLine(lines[k], k)
  {
    seq(|lines|, k requires 0 <= k < |lines| => RenamingLine(lines[k], k))
  }

  /** The dictionary the pairs fill, a later pair for a name replacing an
      earlier one. */
  function MapOf(pairs: seq<(string, Renaming)>): map<string, Renaming>
  {
    if pairs == [] then map[] else MapOf(pairs[..|pairs| - 1])[Last(pairs).0 := Last(pairs).1]
  }

  /** `renaming_file_type` over the lines of the file: the first bad line
      stops it; otherwise each line maps its first column. */
  function RenamingMap(lines: seq<string>): Result<map<string, Renaming>, FormatError>
  {
    match Collect(RenamingLines(lines))
    case Ok(pairs) => Ok(MapOf(pairs))
    case Err(e) => Err(e)
  }

  /** The first column of a line. */
  function OldName(line: string): string
  {
    Fields(line)[0]
  }

  /** The file is rejected exactly when some line is bad. */
  lemma RenamingMapError(lines: seq<string>)
    ensures RenamingMap(lines).Err? <==> exists k :: 0 <= k < |lines| && RenamingLine(lines[k], k).Err?
  {
    var rs := RenamingLines(lines);
    assert RenamingMap(lines).Err? <==> Collect(rs).Err?;
    CollectOk(rs);
    if Collect(rs).Err? {
      var k :| 0 <= k < |rs| && rs[k].Err?;
      assert RenamingLine(lines[k], k).Err?;
    } else {
      forall j | 0 <= j < |lines| ensures RenamingLine(lines[j], j).Ok? {
        assert rs[j].Ok?;
      }
    }
  }

  /** A rejected file reports the number of its first bad line. */
  lemma {:induction false} RenamingMapFirstError(lines: seq<string>, e: FormatError)
    requires RenamingMap(lines) == Err(e)
    ensures var n := e.lineNumber;
      && 1 <= n <= |lines|
      && RenamingLine(lines[n - 1], n - 1) == Err(e)
      && forall k :: 0 <= k < n - 1 ==> RenamingLine(lines[k], k).Ok?
  {
    assert Collect(RenamingLines(lines)) == Err(e);
    FirstErrorLine(lines, e);
  }

  lemma {:induction false} FirstErrorLine(lines: seq<string>, e: FormatError)
    requires Collect(RenamingLines(lines)) == Err(e)
    ensures var n := e.lineNumber;
      && 1 <= n <= |lines|
      && RenamingLine(lines[n - 1], n - 1) == Err(e)
      && forall k :: 0 <= k < n - 1 ==> RenamingLine(lines[k], k).Ok?
  {
    var k := FirstBadLine(lines, e);
    assert RenamingLine(lines[k], k).error.lineNumber == k + 1 by {
      RenamingLinesNumbered(lines, k);
    }
  }

  /** The first line that does not read. */
  lemma {:induction false} FirstBadLine(lines: seq<string>, e: FormatError) returns (k: nat)
    requires Collect(RenamingLines(lines)) == Err(e)
    ensures k < |lines| && RenamingLine(lines[k], k) == Err(e)
    ensures forall j :: 0 <= j < k ==> RenamingLine(lines[j], j).Ok?
  {
    var rs := RenamingLines(lines);
    k := CollectFirstError(rs);
    assert rs[k] == RenamingLine(lines[k], k);
    forall j | 0 <= j < k ensures RenamingLine(lines[j], j).Ok? {
      assert rs[j].Ok?;
    }
  }

  /** Each line of the file is read with its own number. */
  lemma RenamingLinesNumbered(lines: seq<string>, k: nat)
    requires k < |lines|
    ensures RenamingLines(lines)[k] == RenamingLine(lines[k], k)
    ensures RenamingLine(lines[k], k).Err? ==> RenamingLine(lines[k], k).error.lineNumber == k + 1
  {
  }

  /** A name is a key exactly when some pair names it, and then maps to the
      last such pair's value. */
  lemma {:induction false} MapOfKeys(pairs: seq<(string, Renaming)>, name: string)
    ensures name in MapOf(pairs) <==> exists k :: 0 <= k < |pairs| && pairs[k].0 == name
    ensures name in MapOf(pairs) ==>
      exists k :: 0 <= k < |pairs| && pairs[k] == (name, MapOf(pairs)[name])
                  && forall j :: k < j < |pairs| ==> pairs[j].0 != name
  {
    if pairs != [] {
      var init := pairs[..|pairs| - 1];
      MapOfKeys(init, name);
      assert forall k :: 0 <= k < |init| ==> pairs[k] == init[k];
      if Last(pairs).0 == name {
        assert pairs[|pairs| - 1] == (name, MapOf(pairs)[name]);
      } else if name in MapOf(pairs) {
        var k :| 0 <= k < |init| && init[k] == (name, MapOf(init)[name])
                 && forall j :: k < j < |init| ==> init[j].0 != name;
        assert pairs[k] == (name, MapOf(pairs)[name]);
        assert forall j :: k < j < |pairs| ==> pairs[j].0 != name;
      }
    }
  }

  /** An accepted file maps the first column of every line, and nothing
      else, to a new name and an orientation `+` or `-`; a name listed on
      several lines takes what the last of them says. */
  lemma {:induction false} RenamingMapKeys(lines: seq<string>, m: map<string, Renaming>)
    requires RenamingMap(lines) == Ok(m)
    ensures forall name :: name in m <==> exists k :: 0 <= k < |lines| && OldName(lines[k]) == name
    ensures forall name :: name in m ==> m[name].orientation == "+" || m[name].orientation == "-"
    ensures forall name :: name in m ==>
      exists k :: 0 <= k < |lines| && RenamingLine(lines[k], k) == Ok((name, m[name]))
                  && forall j :: k < j < |lines| ==> OldName(lines[j]) != name
  {
    var pairs := Collect(RenamingLines(lines)).value;
    assert Collect(RenamingLines(lines)) == Ok(pairs) && m == MapOf(pairs);
    PairsOfLines(lines, pairs);
    forall name
      ensures name in m <==> exists k :: 0 <= k < |lines| && OldName(lines[k]) == name
      ensures name in m ==> m[name].orientation == "+" || m[name].orientation == "-"
      ensures name in m ==>
        exists k :: 0 <= k < |lines| && RenamingLine(lines[k], k) == Ok((name, m[name]))
                    && forall j :: k < j < |lines| ==> OldName(lines[j]) != name
    {
      PairsKey(lines, pairs, name);
    }
  }

  /** The pairs of an accepted file, one per line. */
  lemma {:induction false} PairsOfLines(lines: seq<string>, pairs: seq<(string, Renaming)>)
    requires Collect(RenamingLines(lines)) == Ok(pairs)
    ensures |pairs| == |lines| && forall k :: 0 <= k < |lines| ==> RenamingLine(lines[k], k) == Ok(pairs[k])
  {
    CollectOk(RenamingLines(lines));
  }

  /** One name of the dictionary built from the lines' pairs. */
  lemma {:induction false} PairsKey(lines: seq<string>, pairs: seq<(string, Renaming)>, name: string)
    requires |pairs| == |lines| && forall k :: 0 <= k < |lines| ==> RenamingLine(lines[k], k) == Ok(pairs[k])
    ensures name in MapOf(pairs) <==> exists k :: 0 <= k < |lines| && OldName(lines[k]) == name
    ensures name in MapOf(pairs) ==> MapOf(pairs)[name].orientation == "+" || MapOf(pairs)[name].orientation == "-"
    ensures name in MapOf(pairs) ==>
      exists k :: 0 <= k < |lines| && RenamingLine(lines[k], k) == Ok((name, MapOf(pairs)[name]))
                  && forall j :: k < j < |lines| ==> OldName(lines[j]) != name
  {
    MapOfKeys(pairs, name);
    if name in MapOf(pairs) {
      var k :| 0 <= k < |pairs| && pairs[k] == (name, MapOf(pairs)[name])
               && forall j :: k < j < |pairs| ==> pairs[j].0 != name;
      PairOfLine(lines[k], k);
      forall j | k < j < |lines| ensures OldName(lines[j]) != name {
        PairOfLine(lines[j], j);
      }
    }
    if exists k :: 0 <= k < |lines| && OldName(lines[k]) == name {
      var k :| 0 <= k < |lines| && OldName(lines[k]) == name;
      PairOfLine(lines[k], k);
      assert pairs[k].0 == name;
    }
  }

  /** What an accepted line contributes. */
  lemma PairOfLine(line: string, i: nat)
    ensures RenamingLine(line, i).Ok? ==>
      RenamingLine(line, i).value.0 == OldName(line)
      && (RenamingLine(line, i).value.1.orientation == "+" || RenamingLine(line, i).value.1.orientation == "-")
  {
  }

  /** `renaming_file_type`'s loop. */
  method ParseRenamingFile(lines: seq<string>) returns (r: Result<map<string, Renaming>, FormatError>)
    ensures r == RenamingMap(lines)
  {
    ghost var rs := RenamingLines(lines);
    ghost var pairs: seq<(string, Renaming)> := [];
    var renamingDict: map<string, Renaming> := map[];
    for i := 0 to |lines|
      invariant Collect(rs[..i]) == Ok(pairs) && renamingDict == MapOf(pairs)
    {
      var fields := Fields(lines[i]);
      assert rs[i] == RenamingLine(lines[i], i);
      if |fields| < 2 {
        assert rs[i] == Err(FormatError(i + 1, NotEnoughColumns));
        CollectStep(rs, i, pairs);
        return Err(FormatError(i + 1, NotEnoughColumns));
      }
      if |fields| == 2 {
        renamingDict := renamingDict[fields[0] := Renaming(fields[1], "+")];
      } else if |fields| >= 3 {
        if fields[2] != "+" && fields[2] != "-" {
          assert rs[i] == Err(FormatError(i + 1, BadOrientation));
          CollectStep(rs, i, pairs);
          return Err(FormatError(i + 1, BadOrientation));
        }
        renamingDict := renamingDict[fields[0] := Renaming(fields[1], fields[2])];
      }
      assert rs[i].Ok? && renamingDict == MapOf(pairs)[rs[i].value.0 := rs[i].value.1];
      CollectStep(rs, i, pairs);
      pairs := pairs + [rs[i].value];
    }
    assert rs[..|lines|] == rs;
    return Ok(renamingDict);
  }

  // ---- rename_rows ----

  /** The rows of one object under a new name, reversed when the
      orientation is `-`. */
  function Renamed(rows: seq<Row>, newName: string, orientation: string): (out: seq<Row>)
    requires orientation == "-" ==> |rows| > 0
    ensures |out| == |rows|
    ensures forall k :: 0 <= k < |out| ==> out[k].objectName == newName
  {
    var named := seq(|rows|, k requires 0 <= k < |rows| => Moved(rows[k], newName, rows[k].partNumber, 0));
    if orientation == "-" then Flip.ReversedRows(named); Flip.Reversed(named) else named
  }

  /** Any orientation but `-` keeps every row where it was, changing only
      its object name; `-` gives the reversal of the renamed rows. */
  lemma RenamedSpec(rows: seq<Row>, newName: string, orientation: string)
    requires orientation == "-" ==> |rows| > 0
    ensures orientation != "-" ==> forall k :: 0 <= k < |rows| ==>
      && Renamed(rows, newName, orientation)[k] == Moved(rows[k], newName, rows[k].partNumber, 0)
      && SameContent(Renamed(rows, newName, orientation)[k], rows[k])
    ensures orientation == "-" ==>
      Renamed(rows, newName, orientation) == Flip.Reversed(Renamed(rows, newName, "+"))
  {
  }

  /** Renaming with `-` twice gives the rows renamed in their own
      orientation. */
  lemma RenamedTwice(rows: seq<Row>, newName: string)
    requires |rows| > 0
    ensures Renamed(Renamed(rows, newName, "-"), newName, "-") == Renamed(rows, newName, "+")
  {
    var named := Renamed(rows, newName, "+");
    var once := Renamed(rows, newName, "-");
    assert Renamed(once, newName, "+") == once;
    Flip.ReversedTwice(named);
  }

  /** `rename_rows`. */
  method RenameRows(rowsToRename: seq<Row>, newName: string, orientation: string) returns (out: seq<Row>)
    requires orientation == "-" ==> |rowsToRename| > 0
    ensures out == Renamed(rowsToRename, newName, orientation)
  {
    var newRows: seq<Row> := [];
    for i := 0 to |rowsToRename|
      invariant newRows == Renamed(rowsToRename[..i], newName, "+")
    {
      var row := Moved(rowsToRename[i], newName, rowsToRename[i].partNumber, 0);
      newRows := newRows + [row];
    }
    assert rowsToRename[..|rowsToRename|] == rowsToRename;
    if orientation == "-" {
      out := Flip.ReverseRows(newRows);
      return;
    }
    return newRows;
  }

  // ---- run ----

  datatype RenameError = ScaffoldNotFoundError(names: set<string>)

  /** `run` part way: what has been printed, the buffered rows of the object
      being renamed, that object, and the objects already renamed. */
  datatype RenameState = RenameState(printed: seq<AgpLine>, buffer: seq<Row>, current: string, renamed: set<string>)

  /** What the loop keeps true: buffered rows all belong to the current
      object, which is in the map. */
  predicate Buffering(st: RenameState, m: map<string, Renaming>)
  {
    st.buffer != [] ==> st.current in m && forall k :: 0 <= k < |st.buffer| ==> st.buffer[k].objectName == st.current
  }

  /** The buffered object, renamed and printed. */
  function Flush(st: RenameState, m: map<string, Renaming>): (st': RenameState)
    requires Buffering(st, m) && st.buffer != []
    ensures st'.buffer == [] && st'.renamed == st.renamed + {st.current}
    ensures |st'.printed| == |st.printed| + |st.buffer|
  {
    var rows := Renamed(st.buffer, m[st.current].newName, m[st.current].orientation);
    RenameState(st.printed + AsLines(rows), [], st.current, st.renamed + {st.current})
  }

  /** One input line. */
  function Step(st: RenameState, line: AgpLine, m: map<string, Renaming>): (st': RenameState)
    requires Buffering(st, m)
    ensures Buffering(st', m)
  {
    match line
    case Comment(_) => st.(printed := st.printed + [line])
    case RowLine(row) =>
      var flush := st.buffer != [] && st.current != row.objectName;
      var st1 := if flush then Flush(st, m) else st;
      if row.objectName in m then
        RenameState(st1.printed, st1.buffer + [row], row.objectName, st1.renamed)
      else
        RenameState(st1.printed + [line], st1.buffer, if flush then "none" else st1.current, st1.renamed)
  }

  function RenameFold(lines: seq<AgpLine>, m: map<string, Renaming>): (st: RenameState)
    ensures Buffering(st, m)
  {
    if lines == [] then RenameState([], [], "none", {})
    else Step(RenameFold(lines[..|lines| - 1], m), Last(lines), m)
  }

  /** The input does not end on a comment while rows are buffered; `run`
      looks up the last line's object at the end, which a comment lacks. */
  predicate EndsOnRow(lines: seq<AgpLine>, m: map<string, Renaming>)
  {
    RenameFold(lines, m).buffer != [] ==> lines != [] && Last(lines).RowLine?
  }

  /** While rows are buffered, the last line, if a row, is of the buffered
      object. */
  lemma RenameFoldLast(lines: seq<AgpLine>, m: map<string, Renaming>)
    requires RenameFold(lines, m).buffer != [] && lines != [] && Last(lines).RowLine?
    ensures Last(lines).row.objectName == RenameFold(lines, m).current
  {
  }

  /** Everything `run` prints, and the error it raises, if any. */
  function RenamingRun(m: map<string, Renaming>, lines: seq<AgpLine>): Emitted<AgpLine, RenameError>
    requires EndsOnRow(lines, m)
  {
    var st := RenameFold(lines, m);
    var st' := if st.buffer != [] then
        RenameFoldLast(lines, m);
        var r := m[Last(lines).row.objectName];
        RenameState(st.printed + AsLines(Renamed(st.buffer, r.newName, r.orientation)), [], st.current,
                    st.renamed + {st.current})
      else st;
    var remaining := m.Keys - st'.renamed;
    Emitted(st'.printed, if remaining != {} then Some(ScaffoldNotFoundError(remaining)) else None)
  }

  /** What the loop keeps true about the lines so far: each has been printed
      or is buffered, and the objects renamed or buffered are exactly the
      mapped objects seen. */
  lemma {:induction false} RenameFoldCounts(lines: seq<AgpLine>, m: map<string, Renaming>)
    ensures var st := RenameFold(lines, m);
      && |st.printed| + |st.buffer| == |lines|
      && st.renamed + (if st.buffer != [] then {st.current} else {}) == m.Keys * Remove.Objects(lines)
  {
    if lines != [] {
      var init := lines[..|lines| - 1];
      RenameFoldCounts(init, m);
      var l := Last(lines);
      assert Remove.Objects(lines) == Remove.Objects(init) + (if l.RowLine? then {l.row.objectName} else {}) by {
        assert forall i :: 0 <= i < |init| ==> lines[i] == init[i];
        assert lines[|lines| - 1] == l;
      }
    }
  }

  /** Every line comes out once: a comment or a row of an object not in the
      map as it is, a row of a mapped object renamed; so the output is as
      long as the input. */
  lemma RenamingLength(m: map<string, Renaming>, lines: seq<AgpLine>)
    requires EndsOnRow(lines, m)
    ensures |RenamingRun(m, lines).lines| == |lines|
  {
    RenameFoldCounts(lines, m);
  }

  /** The error names exactly the names in the map that no row belongs to,
      and is raised exactly when there is one. */
  lemma RenamingNotFound(m: map<string, Renaming>, lines: seq<AgpLine>)
    requires EndsOnRow(lines, m)
    ensures var remaining := m.Keys - Remove.Objects(lines);
      && (RenamingRun(m, lines).failure.None? <==> remaining == {})
      && (remaining != {} ==> RenamingRun(m, lines).failure == Some(ScaffoldNotFoundError(remaining)))
  {
    RenameFoldCounts(lines, m);
    var st := RenameFold(lines, m);
    var renamed := if st.buffer != [] then st.renamed + {st.current} else st.renamed;
    assert renamed == m.Keys * Remove.Objects(lines);
    assert m.Keys - renamed == m.Keys - Remove.Objects(lines);
  }

  /** When no row belongs to a mapped object, every line is printed as it is. */
  lemma {:induction false} RenamingUntouched(m: map<string, Renaming>, lines: seq<AgpLine>)
    requires forall k :: 0 <= k < |lines| && lines[k].RowLine? ==> lines[k].row.objectName !in m
    ensures RenameFold(lines, m).buffer == [] && RenameFold(lines, m).printed == lines
  {
    if lines != [] {
      var init := lines[..|lines| - 1];
      RenamingUntouched(m, init);
      var st, l := RenameFold(init, m), Last(lines);
      assert l == lines[|lines| - 1];
      match l
      case Comment(_) =>
      case RowLine(row) =>
        assert Step(st, l, m) == RenameState(st.printed + [l], [], st.current, st.renamed);
      assert lines == init + [l];
    }
  }

  /** What one line does: a comment is printed at once, even while rows are
      buffered; a row of a mapped object first flushes the buffer if it holds
      another object, then joins it; any other row flushes the buffer if it
      holds rows, then is printed as it is. */
  lemma StepSpec(st: RenameState, line: AgpLine, m: map<string, Renaming>)
    requires Buffering(st, m)
    ensures line.Comment? ==> Step(st, line, m) == st.(printed := st.printed + [line])
    ensures line.RowLine? && line.row.objectName in m ==>
      var flushed := st.buffer != [] && st.current != line.row.objectName;
      var before := if flushed then Flush(st, m).printed else st.printed;
      && Step(st, line, m).printed == before
      && Step(st, line, m).buffer == (if flushed then [] else st.buffer) + [line.row]
      && Step(st, line, m).current == line.row.objectName
    ensures line.RowLine? && line.row.objectName !in m ==>
      var before := if st.buffer != [] then Flush(st, m).printed else st.printed;
      && Step(st, line, m).printed == before + [line]
      && Step(st, line, m).buffer == []
    ensures st.buffer != [] && (line.RowLine? && line.row.objectName != st.current) ==>
      var rows := Renamed(st.buffer, m[st.current].newName, m[st.current].orientation);
      Step(st, line, m).printed[..|st.printed| + |st.buffer|] == st.printed + AsLines(rows)
  {
  }

  /** `run`. */
  method Run(renamingMap: map<string, Renaming>, agpRows: seq<AgpLine>) returns (out: Emitted<AgpLine, RenameError>)
    requires EndsOnRow(agpRows, renamingMap)
    ensures out == RenamingRun(renamingMap, agpRows)
  {
    var printed: seq<AgpLine> := [];
    var rowsToRename: seq<Row> := [];
    var currentObject := "none";
    var renamedObjects: set<string> := {};
    for i := 0 to |agpRows|
      invariant RenameFold(agpRows[..i], renamingMap) == RenameState(printed, rowsToRename, currentObject, renamedObjects)
    {
      assert agpRows[..i + 1][..i] == agpRows[..i];
      var line := agpRows[i];
      if line.Comment? {
        printed := printed + [line];
      } else if line.row.objectName in renamingMap {
        var row := line.row;
        if rowsToRename != [] && currentObject != row.objectName {
          var renaming := renamingMap[currentObject];
          var renamedRows := RenameRows(rowsToRename, renaming.newName, renaming.orientation);
          printed := printed + AsLines(renamedRows);
          rowsToRename := [];
          renamedObjects := renamedObjects + {currentObject};
        }
        currentObject := row.objectName;
        rowsToRename := rowsToRename + [row];
      } else {
        var row := line.row;
        if rowsToRename != [] && currentObject != row.objectName {
          var renaming := renamingMap[currentObject];
          var renamedRows := RenameRows(rowsToRename, renaming.newName, renaming.orientation);
          printed := printed + AsLines(renamedRows);
          rowsToRename := [];
          renamedObjects := renamedObjects + {currentObject};
          currentObject := "none";
        }
        printed := printed + [line];
      }
    }
    assert agpRows[..|agpRows|] == agpRows;

    if rowsToRename != [] {
      RenameFoldLast(agpRows, renamingMap);
      var renaming := renamingMap[agpRows[|agpRows| - 1].row.objectName];
      var renamedRows := RenameRows(rowsToRename, renaming.newName, renaming.orientation);
      printed := printed + AsLines(renamedRows);
      renamedObjects := renamedObjects + {currentObject};
    }

    var remainingObjects := renamingMap.Keys - renamedObjects;
    if remainingObjects != {} {
      return Emitted(printed, Some(ScaffoldNotFoundError(remainingObjects)));
    }
    return Emitted(printed, None);
  }
}
