/** The AGP row model: one tab-separated line of nine columns, of which the
    first five (object, object_beg, object_end, part_number, component_type)
    are common and the last four depend on whether the row is a gap
    (component_type N or U) or a component. */
module Agp {
  import opened Wrappers
  import opened Text
  import opened Seqs

  /** One non-comment line of an AGP file. The constructor is the value
      of Python's `is_gap`. */
  datatype Row =
    | Gap(objectName: string, objectBeg: int, objectEnd: int, partNumber: int, componentType: string,
          gapLength: int, gapType: string, linkage: string, linkageEvidence: string)
    | Component(objectName: string, objectBeg: int, objectEnd: int, partNumber: int, componentType: string,
                componentId: string, componentBeg: int, componentEnd: int, orientation: string)
  {
    /** `AgpRow.contains`: the position lies within the row's object span. */
    predicate Contains(position: int)
    {
      objectBeg <= position <= objectEnd
    }
  }

  /** What `read` yields: a comment line (kept as its stripped text) or a row. */
  datatype AgpLine = Comment(text: string) | RowLine(row: Row)

  /** `AgpFormatError`, carrying the offending line as it was read. */
  datatype AgpFormatError = AgpFormatError(line: string)

  predicate IsGapType(componentType: string)
  {
    componentType == "N" || componentType == "U"
  }

  /** The fields of a line as `AgpRow.__init__` sees them. */
  function Fields(line: string): seq<string>
  {
    Split(Strip(line), '\t')
  }

  /** Every column that `AgpRow.__init__` converts with `int` is an integer:
      columns 1-3, then column 5 on a gap, columns 6 and 7 on a component. */
  predicate IntColumnsParse(f: seq<string>)
    requires |f| >= 9
  {
    && ParseInt(f[1]).Some? && ParseInt(f[2]).Some? && ParseInt(f[3]).Some?
    && if IsGapType(f[4]) then ParseInt(f[5]).Some?
       else ParseInt(f[6]).Some? && ParseInt(f[7]).Some?
  }

  /** The row whose fields are the first nine columns of `f`. */
  function RowOfFields(f: seq<string>): (r: Row)
    requires |f| >= 9 && IntColumnsParse(f)
    ensures r.Gap? <==> IsGapType(r.componentType)
    ensures r.objectName == f[0] && r.componentType == f[4]
  {
    var b, e, p := ParseInt(f[1]).value, ParseInt(f[2]).value, ParseInt(f[3]).value;
    if IsGapType(f[4]) then
      Gap(f[0], b, e, p, f[4], ParseInt(f[5]).value, f[6], f[7], f[8])
    else
      Component(f[0], b, e, p, f[4], f[5], ParseInt(f[6]).value, ParseInt(f[7]).value, f[8])
  }

  /** `AgpRow.__init__`: parse one line; columns past the ninth are ignored. */
  function Parse(line: string): Result<Row, AgpFormatError>
  {
    var f := Fields(line);
    if |f| < 9 || !IntColumnsParse(f) then Err(AgpFormatError(line))
    else Ok(RowOfFields(f))
  }

  /** A line parses exactly when it has nine columns and the integer columns
      hold integers; the row's kind follows its component type, and a failure
      carries the line. */
  lemma ParseSpec(line: string)
    ensures Parse(line).Err? ==> Parse(line).error == AgpFormatError(line)
    ensures Parse(line).Ok? <==> |Fields(line)| >= 9 && IntColumnsParse(Fields(line))
    ensures Parse(line).Ok? ==> (Parse(line).value.Gap? <==> IsGapType(Parse(line).value.componentType))
    ensures Parse(line).Ok? ==>
      Parse(line).value.objectName == Fields(line)[0] && Parse(line).value.componentType == Fields(line)[4]
  {
  }

  /** The nine columns of a row, as `AgpRow.__str__` writes them. */
  function Columns(r: Row): (cols: seq<string>)
    ensures |cols| == 9
  {
    match r
    case Gap(o, b, e, p, t, g, gt, l, ev) =>
      [o, IntToString(b), IntToString(e), IntToString(p), t, IntToString(g), gt, l, ev]
    case Component(o, b, e, p, t, id, cb, ce, or) =>
      [o, IntToString(b), IntToString(e), IntToString(p), t, id, IntToString(cb), IntToString(ce), or]
  }

  /** `AgpRow.__str__`. */
  function Serialise(r: Row): string
  {
    Join(Columns(r), '\t')
  }

  /** A row that `__str__` writes in a form `__init__` reads back: the variant
      agrees with the component type, no field holds a tab, and the line has
      no whitespace at either end for `strip` to remove. */
  predicate Serialisable(r: Row)
  {
    var cols := Columns(r);
    && (r.Gap? <==> IsGapType(r.componentType))
    && (forall i :: 0 <= i < 9 ==> '\t' !in cols[i])
    && cols[0] != [] && !IsSpace(cols[0][0])
    && cols[8] != [] && !IsSpace(Last(cols[8]))
  }

  lemma SerialiseTrimmed(r: Row)
    requires Serialisable(r)
    ensures Trimmed(Serialise(r))
  {
    var cols := Columns(r);
    JoinLastChar(cols, '\t');
    assert Serialise(r) == cols[0] + ['\t'] + Join(cols[1..], '\t');
  }

  /** Serialising a row and parsing the line gives the same row back. */
  lemma ParseSerialise(r: Row)
    requires Serialisable(r)
    ensures Parse(Serialise(r)) == Ok(r)
  {
    FieldsOfSerialise(r);
    ColumnsParse(r);
  }

  lemma FieldsOfSerialise(r: Row)
    requires Serialisable(r)
    ensures Fields(Serialise(r)) == Columns(r)
  {
    var line := Serialise(r);
    SerialiseTrimmed(r);
    assert Strip(line) == line;
    SplitJoin(Columns(r), '\t');
  }

  /** Every integer column of a row reads back as the integer. */
  lemma ColumnsParse(r: Row)
    requires r.Gap? <==> IsGapType(r.componentType)
    ensures IntColumnsParse(Columns(r)) && RowOfFields(Columns(r)) == r
  {
    var f := Columns(r);
    assert f[0] == r.objectName && f[4] == r.componentType;
    assert f[1] == IntToString(r.objectBeg) && f[2] == IntToString(r.objectEnd) && f[3] == IntToString(r.partNumber);
    if r.Gap? {
      assert f[5] == IntToString(r.gapLength);
      assert f[6] == r.gapType && f[7] == r.linkage && f[8] == r.linkageEvidence;
      ParseIntToString(r.gapLength);
    } else {
      assert f[6] == IntToString(r.componentBeg) && f[7] == IntToString(r.componentEnd);
      assert f[5] == r.componentId && f[8] == r.orientation;
      ParseIntToString(r.componentBeg);
      ParseIntToString(r.componentEnd);
    }
    ParseIntToString(r.objectBeg);
    ParseIntToString(r.objectEnd);
    ParseIntToString(r.partNumber);
  }

  /** A line with exactly nine columns, no outer whitespace and every integer
      column written as `str` writes it is reproduced by parsing and then
      serialising. */
  lemma SerialiseParse(line: string)
    requires Trimmed(line)
    requires |Fields(line)| == 9
    requires CanonicalNumeral(Fields(line)[1]) && CanonicalNumeral(Fields(line)[2])
    requires CanonicalNumeral(Fields(line)[3])
    requires IsGapType(Fields(line)[4]) ==> CanonicalNumeral(Fields(line)[5])
    requires !IsGapType(Fields(line)[4]) ==> CanonicalNumeral(Fields(line)[6]) && CanonicalNumeral(Fields(line)[7])
    ensures Parse(line).Ok? && Serialise(Parse(line).value) == line
  {
    var f := Fields(line);
    assert Strip(line) == line;
    assert f == Split(line, '\t');
    assert IntColumnsParse(f);
    ColumnsOfFields(f);
    JoinSplit(line, '\t');
  }

  lemma ColumnsOfFields(f: seq<string>)
    requires |f| == 9
    requires CanonicalNumeral(f[1]) && CanonicalNumeral(f[2]) && CanonicalNumeral(f[3])
    requires IsGapType(f[4]) ==> CanonicalNumeral(f[5])
    requires !IsGapType(f[4]) ==> CanonicalNumeral(f[6]) && CanonicalNumeral(f[7])
    ensures IntColumnsParse(f) && Columns(RowOfFields(f)) == f
  {
    var b, e, p := ParseInt(f[1]).value, ParseInt(f[2]).value, ParseInt(f[3]).value;
    if IsGapType(f[4]) {
      var g := ParseInt(f[5]).value;
      assert RowOfFields(f) == Gap(f[0], b, e, p, f[4], g, f[6], f[7], f[8]);
      ColumnsOfRow(f, Gap(f[0], b, e, p, f[4], g, f[6], f[7], f[8]));
    } else {
      var cb, ce := ParseInt(f[6]).value, ParseInt(f[7]).value;
      assert RowOfFields(f) == Component(f[0], b, e, p, f[4], f[5], cb, ce, f[8]);
      ColumnsOfRow(f, Component(f[0], b, e, p, f[4], f[5], cb, ce, f[8]));
    }
  }

  lemma ColumnsOfRow(f: seq<string>, r: Row)
    requires |f| == 9
    requires r.objectName == f[0] && r.componentType == f[4]
    requires IntToString(r.objectBeg) == f[1] && IntToString(r.objectEnd) == f[2]
    requires IntToString(r.partNumber) == f[3]
    requires r.Gap? ==> IntToString(r.gapLength) == f[5] && r.gapType == f[6]
                        && r.linkage == f[7] && r.linkageEvidence == f[8]
    requires r.Component? ==> r.componentId == f[5] && IntToString(r.componentBeg) == f[6]
                              && IntToString(r.componentEnd) == f[7] && r.orientation == f[8]
    ensures Columns(r) == f
  {
  }

  /** `AgpRow.__eq__`: rows of different kinds differ; rows of one kind are
      equal when their nine fields are. */
  function RowEquals(a: Row, b: Row): (eq: bool)
    ensures eq <==> a == b
  {
    if a.Gap? != b.Gap? then false
    else
      var common :=
        a.objectName == b.objectName && a.objectBeg == b.objectBeg && a.objectEnd == b.objectEnd
        && a.partNumber == b.partNumber && a.componentType == b.componentType;
      if a.Gap? then
        common && a.gapLength == b.gapLength && a.gapType == b.gapType
        && a.linkage == b.linkage && a.linkageEvidence == b.linkageEvidence
      else
        common && a.componentId == b.componentId && a.componentBeg == b.componentBeg
        && a.componentEnd == b.componentEnd && a.orientation == b.orientation
  }

  /** Rows laid end to end along an object, as a well-formed AGP file lays
      them: each spans at least one base and begins one past the end of
      the row before it. */
  predicate Tiled(rows: seq<Row>)
  {
    && (forall k :: 0 <= k < |rows| ==> rows[k].objectBeg <= rows[k].objectEnd)
    && (forall k :: 0 < k < |rows| ==> rows[k].objectBeg == rows[k - 1].objectEnd + 1)
  }

  /** In tiled rows every row ends before any later row begins. */
  lemma {:induction false} TiledOrdered(rows: seq<Row>, i: nat, j: nat)
    requires Tiled(rows) && i < j < |rows|
    ensures rows[i].objectEnd < rows[j].objectBeg
    decreases j - i
  {
    if i + 1 < j {
      TiledOrdered(rows, i, j - 1);
    }
  }

  /** `contains` over tiled rows: a position between the first row's
      beginning and the last row's end lies in some row, and in no more
      than one. */
  lemma {:induction false} TiledContains(rows: seq<Row>, p: int)
    requires Tiled(rows) && rows != []
    ensures rows[0].objectBeg <= p <= Last(rows).objectEnd <==> exists k :: 0 <= k < |rows| && rows[k].Contains(p)
    ensures forall i, j :: 0 <= i < j < |rows| && rows[i].Contains(p) ==> !rows[j].Contains(p)
  {
    forall i, j | 0 <= i < j < |rows| && rows[i].Contains(p)
      ensures !rows[j].Contains(p)
    {
      TiledOrdered(rows, i, j);
    }
    forall k | 0 <= k < |rows| && rows[k].Contains(p)
      ensures rows[0].objectBeg <= p <= Last(rows).objectEnd
    {
      if 0 < k { TiledOrdered(rows, 0, k); }
      if k < |rows| - 1 { TiledOrdered(rows, k, |rows| - 1); }
    }
    if |rows| > 1 && rows[0].objectBeg <= p <= Last(rows).objectEnd {
      var init := rows[..|rows| - 1];
      assert Tiled(init);
      if p <= Last(init).objectEnd {
        TiledContains(init, p);
        var k :| 0 <= k < |init| && init[k].Contains(p);
        assert rows[k].Contains(p);
      } else {
        assert Last(rows).Contains(p);
      }
    }
  }

  /** `GapRow`: a gap of type N with the source's default length, gap type,
      linkage and evidence. */
  function NewGapRow(name: string, beginning: int, end: int, partNumber: int,
                     length: int := 500, gapType: string := "scaffold",
                     linkage: string := "yes", evidence: string := "paired-end"): (r: Row)
    ensures r.Gap? && IsGapType(r.componentType)
    ensures r.objectName == name && r.objectBeg == beginning && r.objectEnd == end && r.partNumber == partNumber
    ensures r.gapLength == length && r.gapType == gapType && r.linkage == linkage && r.linkageEvidence == evidence
  {
    Gap(name, beginning, end, partNumber, "N", length, gapType, linkage, evidence)
  }

  /** The defaults of `GapRow` as they appear on a written line. */
  lemma GapRowDefaults(name: string, beginning: int, end: int, partNumber: int)
    ensures Columns(NewGapRow(name, beginning, end, partNumber))[4..] == ["N", "500", "scaffold", "yes", "paired-end"]
  {
    assert IntToString(500) == "500" by {
      assert NatToString(500) == NatToString(50) + "0";
      assert NatToString(50) == NatToString(5) + "0";
    }
  }

  // ---- reading a file ----

  /** What printing an item of `read` writes: a comment's text, or the row
      as `__str__` writes it. */
  function LineText(l: AgpLine): string
  {
    match l
    case Comment(t) => t
    case RowLine(r) => Serialise(r)
  }

  /** Two rows that describe the same gap or the same stretch of a
      component, wherever they sit: the same kind and type, the same gap
      fields, or the same component id and range. */
  predicate SameSource(a: Row, b: Row)
  {
    && a.Gap? == b.Gap? && a.componentType == b.componentType
    && (a.Gap? ==> a.gapLength == b.gapLength && a.gapType == b.gapType
                   && a.linkage == b.linkage && a.linkageEvidence == b.linkageEvidence)
    && (a.Component? ==> a.componentId == b.componentId && a.componentBeg == b.componentBeg
                         && a.componentEnd == b.componentEnd)
  }

  /** The same, with a component keeping its orientation. */
  predicate SameContent(a: Row, b: Row)
  {
    SameSource(a, b) && (a.Component? ==> a.orientation == b.orientation)
  }

  /** One row moved into object `name` as part `part`, shifted along
      by `offset`. */
  function Moved(r: Row, name: string, part: int, offset: int): (m: Row)
    ensures m.objectName == name && m.partNumber == part
    ensures m.objectBeg == r.objectBeg + offset && m.objectEnd == r.objectEnd + offset
    ensures SameContent(m, r)
  {
    r.(objectName := name, partNumber := part, objectBeg := r.objectBeg + offset, objectEnd := r.objectEnd + offset)
  }

  /** The row with only its part number changed. */
  function Renumbered(r: Row, part: int): (m: Row)
    ensures m.partNumber == part && m.objectName == r.objectName
    ensures m.objectBeg == r.objectBeg && m.objectEnd == r.objectEnd
    ensures SameContent(m, r)
  {
    Moved(r, r.objectName, part, 0)
  }

  /** The rows of one scaffold as they sit in object `name`: numbered
      on from `counter` and shifted along by `offset`. */
  function Place(rows: seq<Row>, name: string, counter: int, offset: int): (placed: seq<Row>)
    ensures |placed| == |rows|
    ensures forall k :: 0 <= k < |rows| ==> placed[k] == Moved(rows[k], name, counter + k, offset)
  {
    seq(|rows|, k requires 0 <= k < |rows| => Moved(rows[k], name, counter + k, offset))
  }

  /** The rows of object `key`, in file order. */
  function RowsOf(lines: seq<AgpLine>, key: string): seq<Row>
  {
    if lines == [] then []
    else
      var l := Last(lines);
      RowsOf(lines[..|lines| - 1], key) + (if l.RowLine? && l.row.objectName == key then [l.row] else [])
  }

  /** An object has no rows exactly when no row of the file names it. */
  lemma {:induction false} RowsOfNone(lines: seq<AgpLine>, key: string)
    ensures RowsOf(lines, key) == [] <==>
      forall i :: 0 <= i < |lines| && lines[i].RowLine? ==> lines[i].row.objectName != key
  {
    if lines != [] {
      var init := lines[..|lines| - 1];
      RowsOfNone(init, key);
      assert forall i :: 0 <= i < |init| ==> init[i] == lines[i];
    }
  }

  /** Rows as the items a file yields for them. */
  function AsLines(rows: seq<Row>): (lines: seq<AgpLine>)
    ensures |lines| == |rows| && forall k :: 0 <= k < |rows| ==> lines[k] == RowLine(rows[k])
  {
    seq(|rows|, k requires 0 <= k < |rows| => RowLine(rows[k]))
  }

  /** What `read` yields for one line. */
  function ReadLine(line: string): Result<AgpLine, AgpFormatError>
  {
    if |line| > 0 && line[0] == '#' then Ok(Comment(Strip(line)))
    else
      match Parse(line)
      case Ok(r) => Ok(RowLine(r))
      case Err(e) => Err(e)
  }

  /** All lines read in order; the first bad line stops the reading. */
  function ReadAll(lines: seq<string>): Result<seq<AgpLine>, AgpFormatError>
  {
    Collect(ReadEach(lines))
  }

  function ReadEach(lines: seq<string>): (rs: seq<Result<AgpLine, AgpFormatError>>)
    ensures |rs| == |lines| && forall i :: 0 <= i < |lines| ==> rs[i] == ReadLine(lines[i])
  {
    seq(|lines|, i requires 0 <= i < |lines| => ReadLine(lines[i]))
  }

  /** Reading succeeds exactly when every line reads, and then yields one
      item per line, in order; a failed reading reports the first line that
      does not read. */
  lemma ReadAllSpec(lines: seq<string>)
    ensures ReadAll(lines).Ok? <==> forall i :: 0 <= i < |lines| ==> ReadLine(lines[i]).Ok?
    ensures ReadAll(lines).Ok? ==>
      |ReadAll(lines).value| == |lines| &&
      forall i :: 0 <= i < |lines| ==> ReadAll(lines).value[i] == ReadLine(lines[i]).value
    ensures ReadAll(lines).Err? ==>
      exists k :: 0 <= k < |lines| && ReadAll(lines).error == AgpFormatError(lines[k])
                  && forall i :: 0 <= i < k ==> ReadLine(lines[i]).Ok?
  {
    var rs := ReadEach(lines);
    CollectOk(rs);
    if Collect(rs).Err? {
      var k := CollectFirstError(rs);
      ReadLineError(lines[k]);
      assert 0 <= k < |lines| && ReadAll(lines).error == AgpFormatError(lines[k]);
    }
  }

  lemma ReadLineError(line: string)
    requires ReadLine(line).Err?
    ensures ReadLine(line).error == AgpFormatError(line)
  {
  }

  /** `read`, on the lines of a file already in memory. */
  method Read(lines: seq<string>) returns (r: Result<seq<AgpLine>, AgpFormatError>)
    ensures r == ReadAll(lines)
  {
    ghost var rs := ReadEach(lines);
    var out: seq<AgpLine> := [];
    var i := 0;
    while i < |lines|
      invariant 0 <= i <= |lines|
      invariant Collect(rs[..i]) == Ok(out)
    {
      CollectStep(rs, i, out);
      if |lines[i]| > 0 && lines[i][0] == '#' {
        assert rs[i] == Ok(Comment(Strip(lines[i])));
        out := out + [Comment(Strip(lines[i]))];
      } else {
        var parsed := Parse(lines[i]);
        if parsed.Err? {
          assert rs[i] == Err(parsed.error);
          return Err(parsed.error);
        }
        assert rs[i] == Ok(RowLine(parsed.value));
        out := out + [RowLine(parsed.value)];
      }
      i := i + 1;
    }
    assert rs[..i] == rs;
    return Ok(out);
  }
}
