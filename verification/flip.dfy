/** Reverse-complementing runs of AGP rows, and the range flip that applies
    it to the rows a list of BED ranges selects. */
module Flip {
  import opened Wrappers
  import opened Seqs
  import opened Agp
  import opened Bed

  /** The orientation a component gets when it is reversed: `+` and `-`
      swap, any other marker stays. */
  function SwapOrientation(o: string): (r: string)
    ensures o == "+" ==> r == "-"
    ensures o == "-" ==> r == "+"
    ensures o != "+" && o != "-" ==> r == o
  {
    if o == "+" then "-" else if o == "-" then "+" else o
  }

  /** Row `r` of a run whose span is `[f, l]` and whose parts run from `p1`
      to `pn`, as it is after the run is reversed. */
  function Mirror(r: Row, f: int, l: int, p1: int, pn: int): (m: Row)
    ensures SameSource(m, r) && m.objectName == r.objectName
    ensures m.objectBeg == f + l - r.objectEnd && m.objectEnd == f + l - r.objectBeg
    ensures m.partNumber == p1 + pn - r.partNumber
    ensures m.Component? ==> m.orientation == SwapOrientation(r.orientation)
  {
    var m := r.(objectBeg := f + l - r.objectEnd, objectEnd := f + l - r.objectBeg,
                partNumber := p1 + pn - r.partNumber);
    if m.Component? then m.(orientation := SwapOrientation(m.orientation)) else m
  }

  /** What `reverse_rows` returns: the rows in reverse order, each mirrored
      about the run's first begin and last end. */
  function Reversed(rows: seq<Row>): (rev: seq<Row>)
    requires |rows| > 0
    ensures |rev| == |rows|
    ensures forall j :: 0 <= j < |rows| ==>
      rev[j] == Mirror(rows[|rows| - 1 - j], rows[0].objectBeg, Last(rows).objectEnd,
                       rows[0].partNumber, Last(rows).partNumber)
  {
    var f, l := rows[0].objectBeg, Last(rows).objectEnd;
    var p1, pn := rows[0].partNumber, Last(rows).partNumber;
    seq(|rows|, j requires 0 <= j < |rows| => Mirror(rows[|rows| - 1 - j], f, l, p1, pn))
  }

  /** Row `j` of the reversal is row `n-1-j` of the input with its span
      `[b, e]` mirrored to `[F+L-e, F+L-b]`, its part `p` to `P1+Pn-p` and,
      on a component, `+` and `-` swapped; nothing else changes. */
  lemma ReversedRows(rows: seq<Row>)
    requires |rows| > 0
    ensures var rev, n := Reversed(rows), |rows|;
      var f, l, p1, pn := rows[0].objectBeg, Last(rows).objectEnd, rows[0].partNumber, Last(rows).partNumber;
      forall j :: 0 <= j < n ==>
        && SameSource(rev[j], rows[n - 1 - j]) && rev[j].objectName == rows[n - 1 - j].objectName
        && rev[j].objectBeg == f + l - rows[n - 1 - j].objectEnd
        && rev[j].objectEnd == f + l - rows[n - 1 - j].objectBeg
        && rev[j].partNumber == p1 + pn - rows[n - 1 - j].partNumber
        && (rev[j].Component? ==> rev[j].orientation == SwapOrientation(rows[n - 1 - j].orientation))
  {
  }

  /** Reversal keeps the run's first begin, last end, first part and last
      part. */
  lemma ReversedEnds(rows: seq<Row>)
    requires |rows| > 0
    ensures Reversed(rows)[0].objectBeg == rows[0].objectBeg
    ensures Last(Reversed(rows)).objectEnd == Last(rows).objectEnd
    ensures Reversed(rows)[0].partNumber == rows[0].partNumber
    ensures Last(Reversed(rows)).partNumber == Last(rows).partNumber
  {
  }

  /** Reversing twice gives back every row, in the original order. */
  lemma ReversedTwice(rows: seq<Row>)
    requires |rows| > 0
    ensures Reversed(Reversed(rows)) == rows
  {
    var rev := Reversed(rows);
    ReversedEnds(rows);
    var n := |rows|;
    forall j | 0 <= j < n
      ensures Reversed(rev)[j] == rows[j]
    {
      var r := rows[j];
      if r.Component? {
        assert SwapOrientation(SwapOrientation(r.orientation)) == r.orientation;
      }
    }
  }

  /** `reverse_rows`. */
  method ReverseRows(rows: seq<Row>) returns (reversedRows: seq<Row>)
    requires |rows| > 0
    ensures reversedRows == Reversed(rows)
  {
    var firstPartNumber, lastPartNumber := rows[0].partNumber, rows[|rows| - 1].partNumber;
    var firstPartStart, lastPartEnd := rows[0].objectBeg, rows[|rows| - 1].objectEnd;
    reversedRows := [];
    var i := |rows|;
    while i > 0
      invariant 0 <= i <= |rows|
      invariant |reversedRows| == |rows| - i
      invariant forall j :: 0 <= j < |reversedRows| ==>
        reversedRows[j] == Mirror(rows[|rows| - 1 - j], firstPartStart, lastPartEnd, firstPartNumber, lastPartNumber)
    {
      i := i - 1;
      var row := rows[i];
      var newStart := firstPartStart + lastPartEnd - row.objectEnd;
      var newEnd := firstPartStart + lastPartEnd - row.objectBeg;
      row := row.(objectBeg := newStart, objectEnd := newEnd);
      row := row.(partNumber := firstPartNumber + lastPartNumber - row.partNumber);
      if !row.Gap? {
        if row.orientation == "+" {
          row := row.(orientation := "-");
        } else if row.orientation == "-" {
          row := row.(orientation := "+");
        }
      }
      reversedRows := reversedRows + [row];
    }
  }

  // ---- flipping ranges ----

  /** A row (not a comment) of the range's sequence. */
  predicate OnObject(l: AgpLine, b: BedRange)
  {
    l.RowLine? && l.row.objectName == b.chrom
  }

  /** A range without coordinates takes the whole sequence; otherwise a row
      must lie within `[start, end]`. */
  predicate InRange(r: Row, b: BedRange)
    requires b.start.Some? ==> b.end.Some?
  {
    b.start.None? || (r.objectBeg >= b.start.value && r.objectEnd <= b.end.value)
  }

  /** A row of the sequence that `flip` selects. */
  predicate Chosen(l: AgpLine, b: BedRange)
    requires b.start.Some? ==> b.end.Some?
  {
    OnObject(l, b) && InRange(l.row, b)
  }

  /** A row of the sequence that is not within the range but holds its start
      or its end: the range cuts through it. */
  predicate Cut(l: AgpLine, b: BedRange)
    requires b.start.Some? ==> b.end.Some?
  {
    OnObject(l, b) && !InRange(l.row, b) && (l.row.Contains(b.start.value) || l.row.Contains(b.end.value))
  }

  /** The `(index, row)` pairs `flip` collects for one range, in order. */
  function Selection(lines: seq<AgpLine>, b: BedRange): (sel: seq<(nat, Row)>)
    requires b.start.Some? ==> b.end.Some?
    ensures forall k :: 0 <= k < |sel| ==>
      sel[k].0 < |lines| && lines[sel[k].0] == RowLine(sel[k].1) && Chosen(lines[sel[k].0], b)
    ensures forall k, m :: 0 <= k < m < |sel| ==> sel[k].0 < sel[m].0
  {
    if lines == [] then []
    else
      var init := lines[..|lines| - 1];
      var i := |lines| - 1;
      assert forall j :: 0 <= j < i ==> lines[j] == init[j];
      Selection(init, b) + (if Chosen(lines[i], b) then [(i, lines[i].row)] else [])
  }

  function Indices(sel: seq<(nat, Row)>): (idx: seq<nat>)
    ensures |idx| == |sel| && forall k :: 0 <= k < |sel| ==> idx[k] == sel[k].0
  {
    seq(|sel|, k requires 0 <= k < |sel| => sel[k].0)
  }

  /** Every row of the sequence within the range is selected. */
  lemma {:induction false} SelectionComplete(lines: seq<AgpLine>, b: BedRange)
    requires b.start.Some? ==> b.end.Some?
    ensures forall i :: 0 <= i < |lines| && Chosen(lines[i], b) ==> i in Indices(Selection(lines, b))
  {
    if lines != [] {
      var init := lines[..|lines| - 1];
      SelectionComplete(init, b);
      var sel, prev := Selection(lines, b), Selection(init, b);
      assert sel[..|prev|] == prev;
      forall i | 0 <= i < |lines| && Chosen(lines[i], b)
        ensures i in Indices(sel)
      {
        if i < |init| {
          assert lines[i] == init[i];
          var k :| 0 <= k < |prev| && Indices(prev)[k] == i;
          assert Indices(sel)[k] == i;
        } else {
          assert Indices(sel)[|sel| - 1] == i;
        }
      }
    }
  }

  function RowsOf(sel: seq<(nat, Row)>): (rows: seq<Row>)
    ensures |rows| == |sel| && forall k :: 0 <= k < |sel| ==> rows[k] == sel[k].1
  {
    seq(|sel|, k requires 0 <= k < |sel| => sel[k].1)
  }

  /** `lines` with `rows[k]` written at index `idx[k]`, in order. */
  function WriteBack(lines: seq<AgpLine>, idx: seq<nat>, rows: seq<Row>): (out: seq<AgpLine>)
    requires |idx| == |rows| && forall k :: 0 <= k < |idx| ==> idx[k] < |lines|
    ensures |out| == |lines|
  {
    if idx == [] then lines
    else
      var n := |idx| - 1;
      WriteBack(lines, idx[..n], rows[..n])[idx[n] := RowLine(rows[n])]
  }

  /** With distinct increasing indices, every written index holds its row
      and every other index keeps its line. */
  lemma {:induction false} WriteBackSpec(lines: seq<AgpLine>, idx: seq<nat>, rows: seq<Row>)
    requires |idx| == |rows| && forall k :: 0 <= k < |idx| ==> idx[k] < |lines|
    requires forall k, m :: 0 <= k < m < |idx| ==> idx[k] < idx[m]
    ensures forall k :: 0 <= k < |idx| ==> WriteBack(lines, idx, rows)[idx[k]] == RowLine(rows[k])
    ensures forall i :: 0 <= i < |lines| && i !in idx ==> WriteBack(lines, idx, rows)[i] == lines[i]
  {
    if idx != [] {
      var n := |idx| - 1;
      WriteBackSpec(lines, idx[..n], rows[..n]);
      forall i | 0 <= i < |lines| && i !in idx
        ensures WriteBack(lines, idx, rows)[i] == lines[i]
      {
        assert i !in idx[..n];
      }
    }
  }

  datatype FlipError = BadRangeError(badRange: BedRange) | EmptyRangeError(emptyRange: BedRange)

  /** The text of a flip error. */
  function ErrorMessage(e: FlipError): string
  {
    match e
    case BadRangeError(b) => BadRangeMessage(b)
    case EmptyRangeError(b) => EmptyRangeMessage(b)
  }

  /** What one range does to the rows: fail if it cuts a row, fail if it
      selects nothing, else reverse the selected rows in place. */
  function FlipOne(lines: seq<AgpLine>, b: BedRange): Result<seq<AgpLine>, FlipError>
    requires b.start.Some? ==> b.end.Some?
  {
    if exists i :: 0 <= i < |lines| && Cut(lines[i], b) then Err(BadRangeError(b))
    else
      var sel := Selection(lines, b);
      if sel == [] then Err(EmptyRangeError(b))
      else Ok(WriteBack(lines, Indices(sel), Reversed(RowsOf(sel))))
  }

  /** A range fails as cut exactly when some row of its sequence straddles
      it, and as empty exactly when, failing that, it selects no row. */
  lemma FlipOneErrors(lines: seq<AgpLine>, b: BedRange)
    requires b.start.Some? ==> b.end.Some?
    ensures FlipOne(lines, b) == Err(BadRangeError(b)) <==> exists i :: 0 <= i < |lines| && Cut(lines[i], b)
    ensures FlipOne(lines, b) == Err(EmptyRangeError(b)) <==>
      (forall i :: 0 <= i < |lines| ==> !Cut(lines[i], b) && !Chosen(lines[i], b))
  {
    var sel := Selection(lines, b);
    SelectionComplete(lines, b);
    if sel != [] {
      assert Chosen(lines[sel[0].0], b);
    }
  }

  /** A successful flip keeps every unselected line where it was and puts
      the reversal of the selected rows back at the selected indices. */
  lemma FlipOneOk(lines: seq<AgpLine>, b: BedRange)
    requires b.start.Some? ==> b.end.Some?
    requires FlipOne(lines, b).Ok?
    ensures var out, sel := FlipOne(lines, b).value, Selection(lines, b);
      && |out| == |lines| && |sel| > 0
      && (forall i :: 0 <= i < |lines| && !Chosen(lines[i], b) ==> out[i] == lines[i])
      && (forall k :: 0 <= k < |sel| ==> out[sel[k].0] == RowLine(Reversed(RowsOf(sel))[k]))
  {
    var sel := Selection(lines, b);
    var rev := Reversed(RowsOf(sel));
    assert FlipOne(lines, b) == Ok(WriteBack(lines, Indices(sel), rev));
    WriteBackSelection(lines, sel, rev, b);
  }

  /** Writing rows back at the indices of a selection changes the selected
      lines only. */
  lemma WriteBackSelection(lines: seq<AgpLine>, sel: seq<(nat, Row)>, rows: seq<Row>, b: BedRange)
    requires b.start.Some? ==> b.end.Some?
    requires |rows| == |sel|
    requires forall k :: 0 <= k < |sel| ==> sel[k].0 < |lines| && Chosen(lines[sel[k].0], b)
    requires forall k, m :: 0 <= k < m < |sel| ==> sel[k].0 < sel[m].0
    ensures var out := WriteBack(lines, Indices(sel), rows);
      && (forall i :: 0 <= i < |lines| && !Chosen(lines[i], b) ==> out[i] == lines[i])
      && (forall k :: 0 <= k < |sel| ==> out[sel[k].0] == RowLine(rows[k]))
  {
    var idx := Indices(sel);
    WriteBackSpec(lines, idx, rows);
    var out := WriteBack(lines, idx, rows);
    forall i | 0 <= i < |lines| && !Chosen(lines[i], b) ensures out[i] == lines[i] {
      Unwritten(lines, sel, b, i);
    }
    forall k | 0 <= k < |sel| ensures out[sel[k].0] == RowLine(rows[k]) {
      assert idx[k] == sel[k].0;
    }
  }

  /** A line the range does not choose is not among the selected indices. */
  lemma Unwritten(lines: seq<AgpLine>, sel: seq<(nat, Row)>, b: BedRange, i: nat)
    requires b.start.Some? ==> b.end.Some?
    requires forall k :: 0 <= k < |sel| ==> sel[k].0 < |lines| && Chosen(lines[sel[k].0], b)
    requires i < |lines| && !Chosen(lines[i], b)
    ensures i !in Indices(sel)
  {
  }

  /** No range of the list has a start without an end. */
  predicate WellFormedRanges(ranges: seq<BedRange>)
  {
    forall j :: 0 <= j < |ranges| ==> ranges[j].start.Some? ==> ranges[j].end.Some?
  }

  /** `flip`: the ranges applied one after the other; the first failure
      stops it. */
  function FlipAll(lines: seq<AgpLine>, ranges: seq<BedRange>): Result<seq<AgpLine>, FlipError>
    requires WellFormedRanges(ranges)
    decreases |ranges|
  {
    if ranges == [] then Ok(lines)
    else
      match FlipOne(lines, ranges[0])
      case Err(e) => Err(e)
      case Ok(next) => FlipAll(next, ranges[1..])
  }

  /** The collecting loop of `flip` for one range: the selected pairs, or
      the error when a row is cut by the range. */
  method SelectRows(lines: seq<AgpLine>, b: BedRange) returns (r: Result<seq<(nat, Row)>, FlipError>)
    requires b.start.Some? ==> b.end.Some?
    ensures r.Ok? <==> forall i :: 0 <= i < |lines| ==> !Cut(lines[i], b)
    ensures r.Ok? ==> r.value == Selection(lines, b)
    ensures r.Err? ==> r.error == BadRangeError(b)
  {
    var rowsToReverse: seq<(nat, Row)> := [];
    for i := 0 to |lines|
      invariant rowsToReverse == Selection(lines[..i], b)
      invariant forall j :: 0 <= j < i ==> !Cut(lines[j], b)
    {
      assert lines[..i + 1][..i] == lines[..i];
      var line := lines[i];
      if line.RowLine? && line.row.objectName == b.chrom {
        var row := line.row;
        if b.start.None? {
          rowsToReverse := rowsToReverse + [(i, row)];
        } else if row.objectBeg >= b.start.value && row.objectEnd <= b.end.value {
          rowsToReverse := rowsToReverse + [(i, row)];
        } else if row.Contains(b.start.value) || row.Contains(b.end.value) {
          assert Cut(lines[i], b);
          return Err(BadRangeError(b));
        }
      }
    }
    assert lines[..|lines|] == lines;
    return Ok(rowsToReverse);
  }

  /** The write-back loop of `flip`: `rows[k]` replaces the line at
      `indices[k]`. */
  method WriteRows(lines: seq<AgpLine>, indices: seq<nat>, rows: seq<Row>) returns (out: seq<AgpLine>)
    requires |indices| == |rows| && forall k :: 0 <= k < |indices| ==> indices[k] < |lines|
    ensures out == WriteBack(lines, indices, rows)
  {
    out := lines;
    for k := 0 to |indices|
      invariant |out| == |lines|
      invariant out == WriteBack(lines, indices[..k], rows[..k])
    {
      assert indices[..k + 1][..k] == indices[..k];
      assert rows[..k + 1][..k] == rows[..k];
      out := out[indices[k] := RowLine(rows[k])];
    }
    assert indices[..|indices|] == indices;
    assert rows[..|rows|] == rows;
  }

  /** The `flip` step for one range. */
  method FlipRange(lines: seq<AgpLine>, b: BedRange) returns (r: Result<seq<AgpLine>, FlipError>)
    requires b.start.Some? ==> b.end.Some?
    ensures r == FlipOne(lines, b)
  {
    var selected := SelectRows(lines, b);
    if selected.Err? {
      return Err(selected.error);
    }
    var rowsToReverse := selected.value;
    if |rowsToReverse| == 0 {
      return Err(EmptyRangeError(b));
    }
    var indices, rows := Indices(rowsToReverse), RowsOf(rowsToReverse);
    var reversedRows := ReverseRows(rows);
    var out := WriteRows(lines, indices, reversedRows);
    return Ok(out);
  }

  /** `flip`. */
  method Flip(lines: seq<AgpLine>, ranges: seq<BedRange>) returns (r: Result<seq<AgpLine>, FlipError>)
    requires WellFormedRanges(ranges)
    ensures r == FlipAll(lines, ranges)
  {
    var agpRows := lines;
    for j := 0 to |ranges|
      invariant FlipAll(lines, ranges) == FlipAll(agpRows, ranges[j..])
    {
      assert ranges[j..][1..] == ranges[j + 1..];
      var step := FlipRange(agpRows, ranges[j]);
      if step.Err? {
        return Err(step.error);
      }
      agpRows := step.value;
    }
    return Ok(agpRows);
  }
}
