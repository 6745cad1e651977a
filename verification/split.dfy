/** Splitting scaffolds into sub-scaffolds at breakpoints: a breakpoint
    inside a gap drops the gap and starts a new sub-scaffold; a breakpoint
    inside a component cuts the component in two. Every sub-scaffold of
    scaffold `S` is renamed `S.1`, `S.2`, … and renumbered from position 1
    and part 1. */
module Split {
  import opened Wrappers
  import opened Text
  import opened Seqs
  import opened Agp
  import Sanitize

  // ---- making a standalone scaffold ----

  /** One row moved to scaffold `name`, shifted back by the given offsets. */
  function Shift(r: Row, name: string, positionOffset: int, partNumberOffset: int): Row
  {
    r.(objectName := name, objectBeg := r.objectBeg - positionOffset,
       objectEnd := r.objectEnd - positionOffset, partNumber := r.partNumber - partNumberOffset)
  }

  /** `unoffset_rows`: the rows renamed to `name` and shifted so that the
      first row starts at position 1 with part number 1. */
  function Unoffset(name: string, rows: seq<Row>): (out: seq<Row>)
    requires |rows| > 0
    ensures |out| == |rows|
  {
    seq(|rows|, k requires 0 <= k < |rows| =>
      Shift(rows[k], name, rows[0].objectBeg - 1, rows[0].partNumber - 1))
  }

  /** The unoffset rows form a scaffold of their own: all named `name`,
      the first at position 1 and part 1, every row keeping its length, its
      distance from the first row (in positions and in parts) and its content. */
  lemma UnoffsetStandalone(name: string, rows: seq<Row>)
    requires |rows| > 0
    ensures Unoffset(name, rows)[0].objectBeg == 1 && Unoffset(name, rows)[0].partNumber == 1
    ensures forall k :: 0 <= k < |rows| ==>
      var u := Unoffset(name, rows)[k];
      && u.objectName == name
      && u.objectEnd - u.objectBeg == rows[k].objectEnd - rows[k].objectBeg
      && u.objectBeg - 1 == rows[k].objectBeg - rows[0].objectBeg
      && u.partNumber - 1 == rows[k].partNumber - rows[0].partNumber
      && SameContent(u, rows[k])
  {
  }

  method UnoffsetRows(newScaffoldName: string, rows: seq<Row>) returns (outRows: seq<Row>)
    requires |rows| > 0
    ensures outRows == Unoffset(newScaffoldName, rows)
  {
    var positionOffset := rows[0].objectBeg - 1;
    var partNumberOffset := rows[0].partNumber - 1;
    outRows := [];
    for i := 0 to |rows|
      invariant outRows == Unoffset(newScaffoldName, rows)[..i]
    {
      outRows := outRows + [Shift(rows[i], newScaffoldName, positionOffset, partNumberOffset)];
    }
  }

  /** The name `convert_rows` gives sub-scaffold `counter` of the rows' scaffold. */
  function SubscaffoldName(rows: seq<Row>, counter: int): (name: string)
    requires |rows| > 0
    ensures name == rows[0].objectName + "." + IntToString(counter)
  {
    rows[0].objectName + "." + IntToString(counter)
  }

  /** `convert_rows`. */
  function Convert(rows: seq<Row>, counter: int): (out: seq<Row>)
    requires |rows| > 0
    ensures |out| == |rows|
    ensures forall k :: 0 <= k < |out| ==> out[k].objectName == SubscaffoldName(rows, counter)
  {
    Unoffset(SubscaffoldName(rows, counter), rows)
  }

  method ConvertRows(rows: seq<Row>, subscaffoldCounter: int) returns (newRows: seq<Row>)
    requires |rows| > 0
    ensures newRows == Convert(rows, subscaffoldCounter)
  {
    var newScaffoldName := rows[0].objectName + "." + IntToString(subscaffoldCounter);
    newRows := UnoffsetRows(newScaffoldName, rows);
  }

  // ---- cutting one component ----

  /** Piece `k` of a component cut after each of `bps` in turn (positions
      in object coordinates): it runs from just after breakpoint `k - 1`
      (or the row's start) to breakpoint `k` (or the row's end), its part
      number is `k` more than the row's, and its component coordinates
      advance from the row's component start by the same amount as its
      object coordinates do from the row's start, whatever the orientation. */
  function PieceAt(row: Row, bps: seq<int>, k: nat): (p: Row)
    requires row.Component? && k <= |bps|
    ensures p.Component?
  {
    var beg := if k == 0 then row.objectBeg else bps[k - 1] + 1;
    var end := if k == |bps| then row.objectEnd else bps[k];
    Component(row.objectName, beg, end, row.partNumber + k, row.componentType, row.componentId,
              row.componentBeg + (beg - row.objectBeg),
              if k == |bps| then row.componentEnd else row.componentBeg + (end - row.objectBeg),
              row.orientation)
  }

  /** The pieces of `split_contig`, one more than there are breakpoints. */
  function Pieces(row: Row, bps: seq<int>): (ps: seq<Row>)
    requires row.Component?
    ensures |ps| == |bps| + 1
  {
    seq(|bps| + 1, k requires 0 <= k <= |bps| => PieceAt(row, bps, k))
  }

  /** The pieces tile the row: the first starts where the row starts, each
      next one starts one past where the previous one ends (in object and
      in component coordinates), the last ends where the row ends, every
      piece but the last is as long in the component as in the object, and
      the last is too when the row was; part numbers count up from the
      row's and nothing else changes. */
  lemma PiecesTile(row: Row, bps: seq<int>)
    requires row.Component?
    ensures var ps := Pieces(row, bps);
      && ps[0].objectBeg == row.objectBeg && ps[0].componentBeg == row.componentBeg
      && Last(ps).objectEnd == row.objectEnd && Last(ps).componentEnd == row.componentEnd
      && (row.componentEnd - row.componentBeg == row.objectEnd - row.objectBeg ==>
            Last(ps).componentEnd - Last(ps).componentBeg == Last(ps).objectEnd - Last(ps).objectBeg)
    ensures var ps := Pieces(row, bps);
      forall k :: 0 <= k < |bps| ==>
        && ps[k].objectEnd == bps[k]
        && ps[k + 1].objectBeg == ps[k].objectEnd + 1
        && ps[k + 1].componentBeg == ps[k].componentEnd + 1
        && ps[k].componentEnd - ps[k].componentBeg == ps[k].objectEnd - ps[k].objectBeg
    ensures var ps := Pieces(row, bps);
      forall k :: 0 <= k < |ps| ==>
        && ps[k].Component?
        && ps[k].partNumber == row.partNumber + k
        && ps[k].objectName == row.objectName && ps[k].componentType == row.componentType
        && ps[k].componentId == row.componentId && ps[k].orientation == row.orientation
  {
    var ps := Pieces(row, bps);
    assert ps[0] == PieceAt(row, bps, 0);
    assert Last(ps) == PieceAt(row, bps, |bps|);
    forall k | 0 <= k < |bps|
      ensures && ps[k].objectEnd == bps[k]
        && ps[k + 1].objectBeg == ps[k].objectEnd + 1
        && ps[k + 1].componentBeg == ps[k].componentEnd + 1
        && ps[k].componentEnd - ps[k].componentBeg == ps[k].objectEnd - ps[k].objectBeg
    {
      assert ps[k] == PieceAt(row, bps, k) && ps[k + 1] == PieceAt(row, bps, k + 1);
    }
  }

  /** `split_contig` never reads the orientation: a row in any other
      orientation is cut into the same pieces, each in that orientation. */
  lemma PiecesIgnoreOrientation(row: Row, bps: seq<int>, o: string)
    requires row.Component?
    ensures |Pieces(row.(orientation := o), bps)| == |Pieces(row, bps)|
    ensures forall k :: 0 <= k <= |bps| ==>
      && Pieces(row, bps)[k].Component?
      && Pieces(row.(orientation := o), bps)[k] == Pieces(row, bps)[k].(orientation := o)
  {
    forall k | 0 <= k <= |bps|
      ensures && Pieces(row, bps)[k].Component?
        && Pieces(row.(orientation := o), bps)[k] == Pieces(row, bps)[k].(orientation := o)
    {
      assert Pieces(row, bps)[k] == PieceAt(row, bps, k);
      assert Pieces(row.(orientation := o), bps)[k] == PieceAt(row.(orientation := o), bps, k);
    }
  }

  /** The left part of a piece cut at `b`: it ends at `b`, in the component
      as many positions after its component start as `b` is after its start. */
  function CutLeft(p: Row, b: int): (left: Row)
    requires p.Component?
    ensures left.Component?
  {
    Component(p.objectName, p.objectBeg, b, p.partNumber, p.componentType, p.componentId,
              p.componentBeg, p.componentBeg + (b - p.objectBeg), p.orientation)
  }

  /** The right part of a piece cut at `b`: it starts one past the left part
      in object and component coordinates and has the next part number. */
  function CutRight(p: Row, b: int): (right: Row)
    requires p.Component?
    ensures right.Component?
  {
    Component(p.objectName, b + 1, p.objectEnd, p.partNumber + 1, p.componentType, p.componentId,
              CutLeft(p, b).componentEnd + 1, p.componentEnd, p.orientation)
  }

  /** One more breakpoint cuts the last piece in two and leaves the others. */
  lemma PiecesStep(row: Row, bps: seq<int>, b: int)
    requires row.Component?
    ensures var ps := Pieces(row, bps);
      Pieces(row, bps + [b]) == ps[..|bps|] + [CutLeft(Last(ps), b), CutRight(Last(ps), b)]
  {
    var ps, qs := Pieces(row, bps), Pieces(row, bps + [b]);
    forall k | 0 <= k < |bps|
      ensures qs[k] == ps[k]
    {
      assert (bps + [b])[k] == bps[k];
      assert k > 0 ==> (bps + [b])[k - 1] == bps[k - 1];
    }
  }

  /** `split_contig`: cut the row at each breakpoint in increasing order. */
  method SplitContig(contigRow: Row, breakpoints: seq<int>) returns (rows: seq<Row>)
    requires contigRow.Component?
    ensures rows == Pieces(contigRow, SortInts(breakpoints))
  {
    var bps := SortInts(breakpoints);
    rows := [contigRow];
    assert bps[..0] == [];
    for i := 0 to |bps|
      invariant rows == Pieces(contigRow, bps[..i])
    {
      var breakpoint := bps[i];
      var lastPart := rows[|rows| - 1];
      rows := rows[..|rows| - 1];
      var leftPart := CutLeft(lastPart, breakpoint);
      var rightPart := CutRight(lastPart, breakpoint);
      rows := rows + [leftPart, rightPart];
      PiecesStep(contigRow, bps[..i], breakpoint);
      assert bps[..i + 1] == bps[..i] + [breakpoint];
    }
    assert bps[..|bps|] == bps;
  }

  // ---- splitting one scaffold ----

  /** `filter(row.contains, breakpoints)`: the breakpoints inside the row, in order. */
  function Hits(row: Row, bps: seq<int>): (hs: seq<int>)
    ensures forall k :: 0 <= k < |hs| ==> hs[k] in bps && row.Contains(hs[k])
    ensures forall b :: b in bps && row.Contains(b) ==> b in hs
  {
    if bps == [] then []
    else Hits(row, bps[..|bps| - 1]) + (if row.Contains(Last(bps)) then [Last(bps)] else [])
  }

  /** A gap with a breakpoint in it: `split_scaffold` drops it and closes
      the sub-scaffold before it. */
  predicate HitGap(row: Row, bps: seq<int>)
  {
    row.Gap? && Hits(row, bps) != []
  }

  /** What `split_scaffold` holds between rows: the rows written so far,
      the rows of the open sub-scaffold, and the number of that sub-scaffold. */
  datatype SplitState = SplitState(out: seq<Row>, current: seq<Row>, counter: int)

  /** The middle pieces of a cut component, each a sub-scaffold of its own,
      numbered from `counter`. */
  function ConvertEach(ps: seq<Row>, counter: int): (out: seq<Row>)
    ensures |out| == |ps|
  {
    if ps == [] then []
    else ConvertEach(ps[..|ps| - 1], counter) + Convert([Last(ps)], counter + |ps| - 1)
  }

  /** One row of `split_scaffold`; None when the code would convert an
      empty sub-scaffold (a hit gap with no rows before it since the last
      cut), where Python raises IndexError. */
  function Step(st: SplitState, row: Row, bps: seq<int>): Option<SplitState>
  {
    var hits := Hits(row, bps);
    if hits == [] then Some(st.(current := st.current + [row]))
    else if row.Gap? then
      if st.current == [] then None
      else Some(SplitState(st.out + Convert(st.current, st.counter), [], st.counter + 1))
    else
      var pieces := Pieces(row, SortInts(hits));
      var middle := pieces[1..|pieces| - 1];
      Some(SplitState(st.out + Convert(st.current + [pieces[0]], st.counter)
                        + ConvertEach(middle, st.counter + 1),
                      [Last(pieces)], st.counter + 1 + |middle|))
  }

  function ScaffoldFold(rows: seq<Row>, bps: seq<int>): Option<SplitState>
  {
    if rows == [] then Some(SplitState([], [], 1))
    else
      match ScaffoldFold(rows[..|rows| - 1], bps)
      case None => None
      case Some(st) => Step(st, Last(rows), bps)
  }

  /** `split_scaffold`: the rows of every sub-scaffold, in order; None where
      Python raises IndexError. */
  function SplitScaffoldSpec(rows: seq<Row>, bps: seq<int>): Option<seq<Row>>
  {
    match ScaffoldFold(rows, bps)
    case None => None
    case Some(st) => if st.current == [] then None else Some(st.out + Convert(st.current, st.counter))
  }

  lemma {:induction false} ScaffoldFoldSticks(rows: seq<Row>, bps: seq<int>, n: nat)
    requires n <= |rows| && ScaffoldFold(rows[..n], bps).None?
    ensures ScaffoldFold(rows, bps).None?
    decreases |rows| - n
  {
    if n < |rows| {
      assert rows[..n + 1][..n] == rows[..n];
      ScaffoldFoldSticks(rows, bps, n + 1);
    } else {
      assert rows[..n] == rows;
    }
  }

  /** The rows that split cleanly: none leaves an empty sub-scaffold behind. */
  predicate Breakable(rows: seq<Row>, bps: seq<int>)
  {
    && rows != []
    && !HitGap(rows[0], bps)
    && forall k :: 0 <= k < |rows| - 1 ==> !(HitGap(rows[k], bps) && HitGap(rows[k + 1], bps))
  }

  lemma {:induction false} ScaffoldFoldShape(rows: seq<Row>, bps: seq<int>)
    ensures ScaffoldFold(rows, bps).Some? <==> rows == [] || Breakable(rows, bps)
    ensures ScaffoldFold(rows, bps).Some? ==>
      (ScaffoldFold(rows, bps).value.current == [] <==> rows == [] || HitGap(Last(rows), bps))
    decreases |rows|
  {
    if rows != [] {
      var init, r := rows[..|rows| - 1], Last(rows);
      ScaffoldFoldShape(init, bps);
      BreakableStep(rows, bps);
      var p := ScaffoldFold(init, bps);
      assert ScaffoldFold(rows, bps) == if p.None? then None else Step(p.value, r, bps);
      if p.Some? {
        StepShape(p.value, r, bps);
      }
    }
  }

  /** Whether one step fails, and whether it leaves the open sub-scaffold empty. */
  lemma StepShape(st: SplitState, row: Row, bps: seq<int>)
    ensures Step(st, row, bps).None? <==> HitGap(row, bps) && st.current == []
    ensures Step(st, row, bps).Some? ==> (Step(st, row, bps).value.current == [] <==> HitGap(row, bps))
  {
  }

  /** `Breakable` on a longer scaffold, in terms of its rows but the last. */
  lemma BreakableStep(rows: seq<Row>, bps: seq<int>)
    requires rows != []
    ensures var init := rows[..|rows| - 1];
      Breakable(rows, bps) <==>
        if init == [] then !HitGap(rows[0], bps)
        else Breakable(init, bps) && !(HitGap(Last(init), bps) && HitGap(Last(rows), bps))
  {
    var init := rows[..|rows| - 1];
    assert forall k :: 0 <= k < |init| ==> init[k] == rows[k];
    if init != [] {
      assert Last(init) == rows[|rows| - 2];
    }
  }

  /** `split_scaffold` succeeds exactly when no breakpoint falls in the
      first or the last row when that row is a gap, and no two neighbouring
      gaps both hold one. */
  lemma SplitScaffoldSucceeds(rows: seq<Row>, bps: seq<int>)
    ensures SplitScaffoldSpec(rows, bps).Some? <==>
      Breakable(rows, bps) && !HitGap(Last(rows), bps)
  {
    ScaffoldFoldShape(rows, bps);
  }

  /** How many cuts a row makes: none without a breakpoint, one for a gap
      however many breakpoints it holds, one per breakpoint in a component. */
  function CutsOf(row: Row, bps: seq<int>): nat
  {
    if Hits(row, bps) == [] then 0 else if row.Gap? then 1 else |Hits(row, bps)|
  }

  /** How many rows a row becomes: itself, nothing (a hit gap), or its pieces. */
  function YieldOf(row: Row, bps: seq<int>): nat
  {
    if Hits(row, bps) == [] then 1 else if row.Gap? then 0 else |Hits(row, bps)| + 1
  }

  function TotalCuts(rows: seq<Row>, bps: seq<int>): nat
  {
    if rows == [] then 0 else TotalCuts(rows[..|rows| - 1], bps) + CutsOf(Last(rows), bps)
  }

  function TotalYield(rows: seq<Row>, bps: seq<int>): nat
  {
    if rows == [] then 0 else TotalYield(rows[..|rows| - 1], bps) + YieldOf(Last(rows), bps)
  }

  lemma {:induction false} ScaffoldFoldCounts(rows: seq<Row>, bps: seq<int>)
    ensures ScaffoldFold(rows, bps).Some? ==>
      && ScaffoldFold(rows, bps).value.counter == 1 + TotalCuts(rows, bps)
      && |ScaffoldFold(rows, bps).value.out| + |ScaffoldFold(rows, bps).value.current| == TotalYield(rows, bps)
  {
    if rows != [] {
      ScaffoldFoldCounts(rows[..|rows| - 1], bps);
    }
  }

  /** A successful split makes one more sub-scaffold than there are cuts
      (so `len(breakpoints) + 1` when every breakpoint cuts a different
      place), and keeps every row except the hit gaps, with each cut
      component replaced by its pieces. */
  lemma SplitScaffoldCounts(rows: seq<Row>, bps: seq<int>)
    requires SplitScaffoldSpec(rows, bps).Some?
    ensures ScaffoldFold(rows, bps).value.counter == 1 + TotalCuts(rows, bps)
    ensures |SplitScaffoldSpec(rows, bps).value| == TotalYield(rows, bps)
  {
    ScaffoldFoldCounts(rows, bps);
  }

  /** With no breakpoint inside any row, the scaffold is only renamed `S.1`
      and renumbered. */
  lemma SplitWithoutHits(rows: seq<Row>, bps: seq<int>)
    requires forall k :: 0 <= k < |rows| ==> Hits(rows[k], bps) == []
    ensures ScaffoldFold(rows, bps) == Some(SplitState([], rows, 1))
    ensures rows != [] ==> SplitScaffoldSpec(rows, bps) == Some(Convert(rows, 1))
  {
    FoldWithoutHits(rows, bps);
    if rows != [] {
      assert [] + Convert(rows, 1) == Convert(rows, 1);
    }
  }

  lemma {:induction false} FoldWithoutHits(rows: seq<Row>, bps: seq<int>)
    requires forall k :: 0 <= k < |rows| ==> Hits(rows[k], bps) == []
    ensures ScaffoldFold(rows, bps) == Some(SplitState([], rows, 1))
    decreases |rows|
  {
    if rows != [] {
      var init, r := rows[..|rows| - 1], Last(rows);
      FoldWithoutHits(init, bps);
      StepKeep(SplitState([], init, 1), r, bps);
      assert ScaffoldFold(rows, bps) == Step(SplitState([], init, 1), r, bps);
      assert init + [r] == rows;
    }
  }

  // ---- the sub-scaffolds, as lists of rows ----

  /** What one row of a scaffold leaves for the sub-scaffolds: itself when
      no breakpoint falls in it, nothing for a gap with one, and its pieces
      for a component with some. */
  function Yielded(row: Row, bps: seq<int>): seq<Row>
  {
    var hits := Hits(row, bps);
    if hits == [] then [row] else if row.Gap? then [] else Pieces(row, SortInts(hits))
  }

  /** What is left of the rows of a scaffold, in input order. */
  function AllYielded(rows: seq<Row>, bps: seq<int>): seq<Row>
  {
    if rows == [] then [] else AllYielded(rows[..|rows| - 1], bps) + Yielded(Last(rows), bps)
  }

  /** The sub-scaffolds closed so far and the open one, before renaming. */
  datatype Grouping = Grouping(closed: seq<seq<Row>>, open: seq<Row>)

  /** Each row a list of its own. */
  function Singles(ps: seq<Row>): (gs: seq<seq<Row>>)
    ensures |gs| == |ps| && NoneEmpty(gs)
  {
    if ps == [] then [] else Singles(ps[..|ps| - 1]) + [[Last(ps)]]
  }

  /** `Step` without the renaming: which sub-scaffold each row joins. */
  function GroupStep(g: Grouping, row: Row, bps: seq<int>): Grouping
  {
    var hits := Hits(row, bps);
    if hits == [] then Grouping(g.closed, g.open + [row])
    else if row.Gap? then Grouping(g.closed + [g.open], [])
    else
      var pieces := Pieces(row, SortInts(hits));
      Grouping(g.closed + [g.open + [pieces[0]]] + Singles(pieces[1..|pieces| - 1]), [Last(pieces)])
  }

  function GroupFold(rows: seq<Row>, bps: seq<int>): Grouping
  {
    if rows == [] then Grouping([], [])
    else GroupStep(GroupFold(rows[..|rows| - 1], bps), Last(rows), bps)
  }

  /** The rows of each sub-scaffold of `split_scaffold`, in order, before
      `convert_rows` renames and renumbers them. */
  function Subscaffolds(rows: seq<Row>, bps: seq<int>): seq<seq<Row>>
  {
    GroupFold(rows, bps).closed + [GroupFold(rows, bps).open]
  }

  predicate NoneEmpty(gs: seq<seq<Row>>)
  {
    forall k :: 0 <= k < |gs| ==> gs[k] != []
  }

  /** Each list converted as sub-scaffold number `first + k`. */
  function Numbered(gs: seq<seq<Row>>, first: int): seq<seq<Row>>
    requires NoneEmpty(gs)
  {
    seq(|gs|, k requires 0 <= k < |gs| => Convert(gs[k], first + k))
  }

  /** The sub-scaffolds hold every row without a breakpoint and every piece
      of a cut component, in input order, and nothing else; there is one
      more of them than there are cuts. */
  lemma SubscaffoldsCover(rows: seq<Row>, bps: seq<int>)
    ensures Flatten(Subscaffolds(rows, bps)) == AllYielded(rows, bps)
    ensures |Subscaffolds(rows, bps)| == 1 + TotalCuts(rows, bps)
  {
    GroupFoldCover(rows, bps);
    FlattenAppend(GroupFold(rows, bps).closed, GroupFold(rows, bps).open);
  }

  lemma {:induction false} GroupFoldCover(rows: seq<Row>, bps: seq<int>)
    ensures Flatten(GroupFold(rows, bps).closed) + GroupFold(rows, bps).open == AllYielded(rows, bps)
    ensures |GroupFold(rows, bps).closed| == TotalCuts(rows, bps)
    decreases |rows|
  {
    if rows != [] {
      var init := rows[..|rows| - 1];
      GroupFoldCover(init, bps);
      GroupStepCover(GroupFold(init, bps), Last(rows), bps);
    }
  }

  /** One row adds what it leaves to the rows grouped so far, and as many
      sub-scaffolds as it makes cuts. */
  lemma GroupStepCover(g: Grouping, row: Row, bps: seq<int>)
    ensures var g' := GroupStep(g, row, bps);
      Flatten(g'.closed) + g'.open == Flatten(g.closed) + g.open + Yielded(row, bps)
    ensures |GroupStep(g, row, bps).closed| == |g.closed| + CutsOf(row, bps)
  {
    var hits := Hits(row, bps);
    if hits == [] {
    } else if row.Gap? {
      FlattenAppend(g.closed, g.open);
    } else {
      CutCover(g.closed, g.open, Pieces(row, SortInts(hits)));
    }
  }

  /** A cut component's first piece closes the open sub-scaffold, its middle
      pieces stand alone and its last piece opens the next one. */
  lemma CutCover(closed: seq<seq<Row>>, open: seq<Row>, pieces: seq<Row>)
    requires |pieces| >= 2
    ensures var c := closed + [open + [pieces[0]]] + Singles(pieces[1..|pieces| - 1]);
      && Flatten(c) + [Last(pieces)] == Flatten(closed) + open + pieces
      && |c| == |closed| + |pieces| - 1
  {
    var middle, first := pieces[1..|pieces| - 1], closed + [open + [pieces[0]]];
    FlattenConcat(first, Singles(middle));
    FlattenAppend(closed, open + [pieces[0]]);
    FlattenSingles(middle);
    var f := Flatten(closed);
    assert Flatten(first + Singles(middle)) == f + (open + [pieces[0]]) + middle;
    assert pieces == [pieces[0]] + middle + [Last(pieces)];
    assert f + (open + [pieces[0]]) + middle + [Last(pieces)] == f + open + pieces;
  }

  lemma {:induction false} FlattenSingles(ps: seq<Row>)
    ensures Flatten(Singles(ps)) == ps
    decreases |ps|
  {
    if ps != [] {
      var init := ps[..|ps| - 1];
      FlattenSingles(init);
      FlattenAppend(Singles(init), [Last(ps)]);
      assert init + [Last(ps)] == ps;
    }
  }

  /** Numbering two lists of sub-scaffolds in turn. */
  lemma NumberedConcat(a: seq<seq<Row>>, b: seq<seq<Row>>, first: int)
    requires NoneEmpty(a) && NoneEmpty(b)
    ensures NoneEmpty(a + b)
    ensures Numbered(a + b, first) == Numbered(a, first) + Numbered(b, first + |a|)
  {
    var l, r := Numbered(a + b, first), Numbered(a, first) + Numbered(b, first + |a|);
    forall k | 0 <= k < |a + b|
      ensures l[k] == r[k]
    {
      if k < |a| {
        assert (a + b)[k] == a[k];
      } else {
        assert (a + b)[k] == b[k - |a|];
      }
    }
  }

  /** Numbering one more sub-scaffold appends its conversion. */
  lemma NumberedSnoc(gs: seq<seq<Row>>, x: seq<Row>, first: int)
    requires NoneEmpty(gs) && x != []
    ensures NoneEmpty(gs + [x])
    ensures Flatten(Numbered(gs + [x], first)) == Flatten(Numbered(gs, first)) + Convert(x, first + |gs|)
  {
    NumberedConcat(gs, [x], first);
    assert Numbered([x], first + |gs|) == [Convert(x, first + |gs|)];
    FlattenAppend(Numbered(gs, first), Convert(x, first + |gs|));
  }

  /** A cut component closes one sub-scaffold and adds one per middle piece. */
  lemma NumberedCut(closed: seq<seq<Row>>, x: seq<Row>, middle: seq<Row>)
    requires NoneEmpty(closed) && x != []
    ensures NoneEmpty(closed + [x] + Singles(middle))
    ensures Flatten(Numbered(closed + [x] + Singles(middle), 1))
      == Flatten(Numbered(closed, 1)) + Convert(x, 1 + |closed|) + ConvertEach(middle, 2 + |closed|)
  {
    NumberedSnoc(closed, x, 1);
    ConvertEachNumbered(middle, 2 + |closed|);
    NumberedConcat(closed + [x], Singles(middle), 1);
    FlattenConcat(Numbered(closed + [x], 1), Numbered(Singles(middle), 2 + |closed|));
  }

  /** The middle pieces, converted one by one, are their single-row
      sub-scaffolds numbered in turn. */
  lemma {:induction false} ConvertEachNumbered(ps: seq<Row>, first: int)
    ensures ConvertEach(ps, first) == Flatten(Numbered(Singles(ps), first))
    decreases |ps|
  {
    if ps != [] {
      var init := ps[..|ps| - 1];
      ConvertEachNumbered(init, first);
      NumberedSnoc(Singles(init), [Last(ps)], first);
    }
  }

  /** A sub-scaffold closed empty stays in the grouping. */
  lemma GroupStepKeepsClosed(g: Grouping, row: Row, bps: seq<int>)
    ensures GroupStep(g, row, bps).closed[..|g.closed|] == g.closed
  {
    var hits := Hits(row, bps);
    if hits != [] && row.Component? {
      var pieces := Pieces(row, SortInts(hits));
      var c := g.closed + [g.open + [pieces[0]]];
      assert (c + Singles(pieces[1..|pieces| - 1]))[..|g.closed|] == c[..|g.closed|];
    }
  }

  /** One step of `split_scaffold` is one step of the grouping, renamed. */
  lemma StepIsGroupStep(g: Grouping, row: Row, bps: seq<int>)
    requires NoneEmpty(g.closed)
    ensures var st := SplitState(Flatten(Numbered(g.closed, 1)), g.open, 1 + |g.closed|);
      var g' := GroupStep(g, row, bps);
      && (Step(st, row, bps).Some? <==> NoneEmpty(g'.closed))
      && (Step(st, row, bps).Some? ==>
            Step(st, row, bps).value == SplitState(Flatten(Numbered(g'.closed, 1)), g'.open, 1 + |g'.closed|))
  {
    if Hits(row, bps) == [] {
    } else if row.Gap? {
      GapStepIsGroupStep(g, row, bps);
    } else {
      CutStepIsGroupStep(g, row, bps);
    }
  }

  lemma GapStepIsGroupStep(g: Grouping, row: Row, bps: seq<int>)
    requires NoneEmpty(g.closed) && Hits(row, bps) != [] && row.Gap?
    ensures var st := SplitState(Flatten(Numbered(g.closed, 1)), g.open, 1 + |g.closed|);
      var g' := GroupStep(g, row, bps);
      && (Step(st, row, bps).Some? <==> NoneEmpty(g'.closed))
      && (Step(st, row, bps).Some? ==>
            Step(st, row, bps).value == SplitState(Flatten(Numbered(g'.closed, 1)), g'.open, 1 + |g'.closed|))
  {
    if g.open == [] {
      assert (g.closed + [g.open])[|g.closed|] == [];
    } else {
      NumberedSnoc(g.closed, g.open, 1);
    }
  }

  lemma CutStepIsGroupStep(g: Grouping, row: Row, bps: seq<int>)
    requires NoneEmpty(g.closed) && Hits(row, bps) != [] && row.Component?
    ensures var st := SplitState(Flatten(Numbered(g.closed, 1)), g.open, 1 + |g.closed|);
      var g' := GroupStep(g, row, bps);
      && (Step(st, row, bps).Some? <==> NoneEmpty(g'.closed))
      && (Step(st, row, bps).Some? ==>
            Step(st, row, bps).value == SplitState(Flatten(Numbered(g'.closed, 1)), g'.open, 1 + |g'.closed|))
  {
    var pieces := Pieces(row, SortInts(Hits(row, bps)));
    NumberedCut(g.closed, g.open + [pieces[0]], pieces[1..|pieces| - 1]);
  }

  /** `split_scaffold`'s state is the grouping renamed: the rows written are
      the closed sub-scaffolds converted as numbers 1, 2, …, the open rows
      are the open sub-scaffold and the counter is its number; the loop
      fails exactly when it would close an empty sub-scaffold. */
  lemma {:induction false} FoldIsGrouping(rows: seq<Row>, bps: seq<int>)
    ensures ScaffoldFold(rows, bps).Some? <==> NoneEmpty(GroupFold(rows, bps).closed)
    ensures var g := GroupFold(rows, bps);
      ScaffoldFold(rows, bps).Some? ==>
        ScaffoldFold(rows, bps).value == SplitState(Flatten(Numbered(g.closed, 1)), g.open, 1 + |g.closed|)
    decreases |rows|
  {
    if rows != [] {
      var init := rows[..|rows| - 1];
      FoldIsGrouping(init, bps);
      var g := GroupFold(init, bps);
      if NoneEmpty(g.closed) {
        StepIsGroupStep(g, Last(rows), bps);
      } else {
        GroupStepKeepsClosed(g, Last(rows), bps);
        var k :| 0 <= k < |g.closed| && g.closed[k] == [];
        assert GroupStep(g, Last(rows), bps).closed[k] == [];
      }
    }
  }

  /** `split_scaffold` raises IndexError exactly when one of its
      sub-scaffolds would be empty; otherwise it writes sub-scaffold 1, then
      2, and so on, each converted by `convert_rows` with its own number. */
  lemma SplitScaffoldBlocks(rows: seq<Row>, bps: seq<int>)
    ensures SplitScaffoldSpec(rows, bps).Some? <==> NoneEmpty(Subscaffolds(rows, bps))
    ensures SplitScaffoldSpec(rows, bps).Some? ==>
      SplitScaffoldSpec(rows, bps).value == Flatten(Numbered(Subscaffolds(rows, bps), 1))
  {
    FoldIsGrouping(rows, bps);
    var g := GroupFold(rows, bps);
    var gs := Subscaffolds(rows, bps);
    assert gs[|g.closed|] == g.open;
    if NoneEmpty(g.closed) && g.open != [] {
      NumberedSnoc(g.closed, g.open, 1);
    } else if NoneEmpty(g.closed) {
      assert gs[|g.closed|] == [];
    } else {
      var k :| 0 <= k < |g.closed| && g.closed[k] == [];
      assert gs[k] == [];
    }
  }

  lemma {:induction false} YieldedNamed(rows: seq<Row>, bps: seq<int>, name: string)
    requires forall k :: 0 <= k < |rows| ==> rows[k].objectName == name
    ensures forall j :: 0 <= j < |AllYielded(rows, bps)| ==> AllYielded(rows, bps)[j].objectName == name
    decreases |rows|
  {
    if rows != [] {
      var init, row := rows[..|rows| - 1], Last(rows);
      YieldedNamed(init, bps, name);
      var hits := Hits(row, bps);
      if hits != [] && row.Component? {
        PiecesTile(row, SortInts(hits));
      }
      var a, y := AllYielded(init, bps), Yielded(row, bps);
      assert forall j :: 0 <= j < |y| ==> y[j].objectName == name;
      assert AllYielded(rows, bps) == a + y;
    }
  }

  /** The sub-scaffolds of a scaffold `S` split cleanly: sub-scaffold `k`
      (from 1, in output order) is named `S.k` throughout and starts at
      position 1 with part 1; each of its rows keeps its length, its content
      and its distance from the first row. */
  lemma SubscaffoldsNamed(rows: seq<Row>, bps: seq<int>, name: string)
    requires NoneEmpty(Subscaffolds(rows, bps))
    requires forall k :: 0 <= k < |rows| ==> rows[k].objectName == name
    ensures var gs: seq<seq<Row>> := Subscaffolds(rows, bps);
      forall k :: 0 <= k < |gs| ==>
        var b: seq<Row> := Convert(gs[k], k + 1);
        && b[0].objectBeg == 1 && b[0].partNumber == 1
        && forall j :: 0 <= j < |b| ==>
             && b[j].objectName == name + "." + IntToString(k + 1)
             && b[j].objectEnd - b[j].objectBeg == gs[k][j].objectEnd - gs[k][j].objectBeg
             && b[j].objectBeg - 1 == gs[k][j].objectBeg - gs[k][0].objectBeg
             && b[j].partNumber - 1 == gs[k][j].partNumber - gs[k][0].partNumber
             && SameContent(b[j], gs[k][j])
  {
    var gs: seq<seq<Row>> := Subscaffolds(rows, bps);
    SubscaffoldsCover(rows, bps);
    YieldedNamed(rows, bps, name);
    forall k: int | 0 <= k < |gs|
      ensures gs[k][0].objectName == name
    {
      InFlatten(gs, k, gs[k][0]);
    }
    forall k: int | 0 <= k < |gs|
      ensures var b: seq<Row> := Convert(gs[k], k + 1);
        && b[0].objectBeg == 1 && b[0].partNumber == 1
        && forall j :: 0 <= j < |b| ==>
             && b[j].objectName == name + "." + IntToString(k + 1)
             && b[j].objectEnd - b[j].objectBeg == gs[k][j].objectEnd - gs[k][j].objectBeg
             && b[j].objectBeg - 1 == gs[k][j].objectBeg - gs[k][0].objectBeg
             && b[j].partNumber - 1 == gs[k][j].partNumber - gs[k][0].partNumber
             && SameContent(b[j], gs[k][j])
    {
      UnoffsetStandalone(SubscaffoldName(gs[k], k + 1), gs[k]);
    }
  }

  method SplitScaffold(scaffoldRows: seq<Row>, breakpoints: seq<int>) returns (r: Option<seq<Row>>)
    ensures r == SplitScaffoldSpec(scaffoldRows, breakpoints)
  {
    var outRows: seq<Row> := [];
    var rowsThisSubscaffold: seq<Row> := [];
    var subscaffoldCounter := 1;
    assert scaffoldRows[..0] == [];
    for i := 0 to |scaffoldRows|
      invariant ScaffoldFold(scaffoldRows[..i], breakpoints)
        == Some(SplitState(outRows, rowsThisSubscaffold, subscaffoldCounter))
    {
      var row := scaffoldRows[i];
      ghost var before := SplitState(outRows, rowsThisSubscaffold, subscaffoldCounter);
      assert ScaffoldFold(scaffoldRows[..i + 1], breakpoints) == Step(before, row, breakpoints) by {
        assert scaffoldRows[..i + 1][..i] == scaffoldRows[..i] && Last(scaffoldRows[..i + 1]) == row;
      }
      var ok;
      ok, outRows, rowsThisSubscaffold, subscaffoldCounter :=
        SplitRow(outRows, rowsThisSubscaffold, subscaffoldCounter, row, breakpoints);
      if !ok {
        ScaffoldFoldSticks(scaffoldRows, breakpoints, i + 1);
        return None;
      }
    }
    assert scaffoldRows[..|scaffoldRows|] == scaffoldRows;
    if rowsThisSubscaffold == [] {
      return None;
    }
    var lastRows := ConvertRows(rowsThisSubscaffold, subscaffoldCounter);
    return Some(outRows + lastRows);
  }

  /** The body of `split_scaffold`'s loop for one row; `ok` is false
      where Python raises IndexError. */
  method SplitRow(outRows: seq<Row>, rowsThisSubscaffold: seq<Row>, subscaffoldCounter: int,
                  row: Row, breakpoints: seq<int>)
    returns (ok: bool, outRows': seq<Row>, rowsThisSubscaffold': seq<Row>, subscaffoldCounter': int)
    ensures var p := Step(SplitState(outRows, rowsThisSubscaffold, subscaffoldCounter), row, breakpoints);
      if ok then p == Some(SplitState(outRows', rowsThisSubscaffold', subscaffoldCounter')) else p.None?
  {
    ghost var st := SplitState(outRows, rowsThisSubscaffold, subscaffoldCounter);
    outRows', rowsThisSubscaffold', subscaffoldCounter' := outRows, rowsThisSubscaffold, subscaffoldCounter;
    ok := true;
    var hits := Hits(row, breakpoints);
    if hits != [] {
      if row.Gap? {
        StepGap(st, row, breakpoints);
        if rowsThisSubscaffold == [] {
          ok := false;
          return;
        }
        var converted := ConvertRows(rowsThisSubscaffold, subscaffoldCounter);
        outRows' := outRows + converted;
        rowsThisSubscaffold' := [];
        subscaffoldCounter' := subscaffoldCounter + 1;
      } else {
        StepCut(st, row, breakpoints);
        outRows', rowsThisSubscaffold', subscaffoldCounter' :=
          CutComponent(outRows, rowsThisSubscaffold, subscaffoldCounter, row, hits);
      }
    } else {
      StepKeep(st, row, breakpoints);
      rowsThisSubscaffold' := rowsThisSubscaffold + [row];
    }
  }

  /** The component branch of `split_scaffold`: the first piece closes the
      open sub-scaffold, each middle piece is a sub-scaffold of its own and
      the last piece opens the next one. */
  method CutComponent(outRows: seq<Row>, rowsThisSubscaffold: seq<Row>, subscaffoldCounter: int,
                      row: Row, hits: seq<int>)
    returns (outRows': seq<Row>, rowsThisSubscaffold': seq<Row>, subscaffoldCounter': int)
    requires row.Component? && hits != []
    ensures var pieces := Pieces(row, SortInts(hits));
      var middle := pieces[1..|pieces| - 1];
      && outRows' == outRows + Convert(rowsThisSubscaffold + [pieces[0]], subscaffoldCounter)
                     + ConvertEach(middle, subscaffoldCounter + 1)
      && rowsThisSubscaffold' == [Last(pieces)]
      && subscaffoldCounter' == subscaffoldCounter + 1 + |middle|
  {
    var contigRows := SplitContig(row, hits);
    var closed := ConvertRows(rowsThisSubscaffold + [contigRows[0]], subscaffoldCounter);
    var middle := contigRows[1..|contigRows| - 1];
    var separate := ConvertMiddle(middle, subscaffoldCounter + 1);
    outRows' := outRows + closed + separate;
    rowsThisSubscaffold' := [contigRows[|contigRows| - 1]];
    subscaffoldCounter' := subscaffoldCounter + 1 + |middle|;
  }

  /** The loop of `split_scaffold` over the middle pieces of a cut
      component: each becomes a sub-scaffold of its own. */
  method ConvertMiddle(middle: seq<Row>, first: int) returns (outRows: seq<Row>)
    ensures outRows == ConvertEach(middle, first)
  {
    outRows := [];
    var subscaffoldCounter := first;
    assert middle[..0] == [];
    for j := 0 to |middle|
      invariant outRows == ConvertEach(middle[..j], first)
      invariant subscaffoldCounter == first + j
    {
      var single := ConvertRows([middle[j]], subscaffoldCounter);
      ConvertEachStep(middle, first, j);
      outRows := outRows + single;
      subscaffoldCounter := subscaffoldCounter + 1;
    }
    assert middle[..|middle|] == middle;
  }

  /** One more middle piece is one more sub-scaffold. */
  lemma ConvertEachStep(ps: seq<Row>, counter: int, j: nat)
    requires j < |ps|
    ensures ConvertEach(ps[..j + 1], counter) == ConvertEach(ps[..j], counter) + Convert([ps[j]], counter + j)
  {
    assert ps[..j + 1][..j] == ps[..j] && Last(ps[..j + 1]) == ps[j];
  }

  // ---- the cases of the unit tests, as the code computes them ----

  lemma ConvertSingle(p: Row, counter: int)
    ensures Convert([p], counter) == [Shift(p, p.objectName + "." + IntToString(counter), p.objectBeg - 1, p.partNumber - 1)]
  {
  }

  /** A scaffold of one component with one breakpoint inside it becomes
      two sub-scaffolds: the part up to the breakpoint and the rest. */
  lemma CutOnce(row: Row, b: int)
    requires row.Component? && row.Contains(b)
    ensures SplitScaffoldSpec([row], [b])
         == Some(Convert([CutLeft(row, b)], 1) + Convert([CutRight(row, b)], 2))
  {
    var none: seq<Row> := [];
    var start := SplitState(none, none, 1);
    assert ScaffoldFold(none, [b]) == Some(start);
    FoldCutOnce(none, row, b, start);
    assert none + [row] == [row] && none + [CutLeft(row, b)] == [CutLeft(row, b)];
    var c1 := Convert([CutLeft(row, b)], 1);
    assert ScaffoldFold([row], [b]) == Some(SplitState(none + c1, [CutRight(row, b)], 2));
    assert none + c1 == c1;
  }

  /** A forward contig cut at 300 becomes two sub-scaffolds of one piece
      each; the test's expectation agrees. */
  lemma ForwardContigCut()
    ensures SplitScaffoldSpec([Component("scfd1", 1, 1000, 1, "W", "ctg1", 1, 1000, "+")], [300])
      == Some([Component("scfd1.1", 1, 300, 1, "W", "ctg1", 1, 300, "+"),
               Component("scfd1.2", 1, 700, 1, "W", "ctg1", 301, 1000, "+")])
  {
    var row := Component("scfd1", 1, 1000, 1, "W", "ctg1", 1, 1000, "+");
    CutOnce(row, 300);
    ConvertSingle(CutLeft(row, 300), 1);
    ConvertSingle(CutRight(row, 300), 2);
    assert IntToString(1) == "1" && IntToString(2) == "2";
    assert "scfd1" + "." + "1" == "scfd1.1" && "scfd1" + "." + "2" == "scfd1.2";
    assert Convert([CutLeft(row, 300)], 1) == [Component("scfd1.1", 1, 300, 1, "W", "ctg1", 1, 300, "+")];
    assert Convert([CutRight(row, 300)], 2) == [Component("scfd1.2", 1, 700, 1, "W", "ctg1", 301, 1000, "+")];
    assert [Component("scfd1.1", 1, 300, 1, "W", "ctg1", 1, 300, "+")] + [Component("scfd1.2", 1, 700, 1, "W", "ctg1", 301, 1000, "+")]
        == [Component("scfd1.1", 1, 300, 1, "W", "ctg1", 1, 300, "+"), Component("scfd1.2", 1, 700, 1, "W", "ctg1", 301, 1000, "+")];
  }

  /** A contig in reverse orientation is cut in the same component
      coordinates as a forward one: its first 300 positions keep component
      positions 1-300, where the unit test expects 701-1000 (the end of a
      reversed contig comes first). */
  lemma ReverseContigCut()
    ensures SplitScaffoldSpec([Component("scfd2", 1, 1000, 1, "W", "ctg2", 1, 1000, "-")], [300])
      == Some([Component("scfd2.1", 1, 300, 1, "W", "ctg2", 1, 300, "-"),
               Component("scfd2.2", 1, 700, 1, "W", "ctg2", 301, 1000, "-")])
  {
    var row := Component("scfd2", 1, 1000, 1, "W", "ctg2", 1, 1000, "-");
    CutOnce(row, 300);
    ConvertSingle(CutLeft(row, 300), 1);
    ConvertSingle(CutRight(row, 300), 2);
    assert IntToString(1) == "1" && IntToString(2) == "2";
    assert "scfd2" + "." + "1" == "scfd2.1" && "scfd2" + "." + "2" == "scfd2.2";
    assert Convert([CutLeft(row, 300)], 1) == [Component("scfd2.1", 1, 300, 1, "W", "ctg2", 1, 300, "-")];
    assert Convert([CutRight(row, 300)], 2) == [Component("scfd2.2", 1, 700, 1, "W", "ctg2", 301, 1000, "-")];
    assert [Component("scfd2.1", 1, 300, 1, "W", "ctg2", 1, 300, "-")] + [Component("scfd2.2", 1, 700, 1, "W", "ctg2", 301, 1000, "-")]
        == [Component("scfd2.1", 1, 300, 1, "W", "ctg2", 1, 300, "-"), Component("scfd2.2", 1, 700, 1, "W", "ctg2", 301, 1000, "-")];
  }

  lemma ConvertComponent(p: Row, counter: int)
    requires p.Component?
    ensures Convert([p], counter)
      == [Component(p.objectName + "." + IntToString(counter), 1, p.objectEnd - p.objectBeg + 1, 1,
                    p.componentType, p.componentId, p.componentBeg, p.componentEnd, p.orientation)]
  {
    ConvertSingle(p, counter);
  }

  lemma SubscaffoldNames(name: string)
    ensures name + "." + IntToString(1) == name + ".1"
    ensures name + "." + IntToString(2) == name + ".2"
    ensures name + "." + IntToString(3) == name + ".3"
  {
    assert IntToString(1) == "1" && IntToString(2) == "2" && IntToString(3) == "3";
  }

  lemma ConvertPair(p: Row, q: Row, counter: int)
    ensures var name := p.objectName + "." + IntToString(counter);
      Convert([p, q], counter) == [Shift(p, name, p.objectBeg - 1, p.partNumber - 1),
                                   Shift(q, name, p.objectBeg - 1, p.partNumber - 1)]
  {
  }

  /** Two breakpoints inside the row, in increasing order, are its hits,
      already sorted. */
  lemma HitsBoth(row: Row, b1: int, b2: int)
    requires row.Contains(b1) && row.Contains(b2) && b1 <= b2
    ensures Hits(row, [b1, b2]) == [b1, b2] && SortInts([b1, b2]) == [b1, b2]
  {
    HitsTwo(row, b1, b2);
    SortTwo(b1, b2);
  }

  lemma HitsTwo(row: Row, b1: int, b2: int)
    requires row.Contains(b1) && row.Contains(b2)
    ensures Hits(row, [b1, b2]) == [b1, b2]
  {
    assert Hits(row, [b1]) == [b1] by {
      assert [b1][..0] == [];
    }
    assert [b1, b2][..1] == [b1] && Last([b1, b2]) == b2;
  }

  lemma SortTwo(b1: int, b2: int)
    requires b1 <= b2
    ensures SortInts([b1, b2]) == [b1, b2]
  {
    assert SortInts([b2]) == [b2] by {
      assert [b2][1..] == [];
    }
    assert [b1, b2][1..] == [b2];
    assert Insert(b1, [b2]) == [b1, b2];
  }

  /** A scaffold that starts with a cut component: its first piece is
      sub-scaffold 1, its middle pieces the next ones, its last piece opens
      the one after. */
  lemma CutFirst(row: Row, bps: seq<int>)
    requires row.Component? && Hits(row, bps) != []
    ensures var pieces := Pieces(row, SortInts(Hits(row, bps)));
      var middle := pieces[1..|pieces| - 1];
      ScaffoldFold([row], bps)
        == Some(SplitState(Convert([pieces[0]], 1) + ConvertEach(middle, 2), [Last(pieces)], 2 + |middle|))
  {
    FoldFirst(row, bps);
    StepCutFirst(row, bps);
  }

  /** The fold over a single row is the first step. */
  lemma FoldFirst(row: Row, bps: seq<int>)
    ensures ScaffoldFold([row], bps) == Step(SplitState([], [], 1), row, bps)
  {
    assert [row][..0] == [];
  }

  lemma StepCutFirst(row: Row, bps: seq<int>)
    requires row.Component? && Hits(row, bps) != []
    ensures var pieces := Pieces(row, SortInts(Hits(row, bps)));
      var middle := pieces[1..|pieces| - 1];
      Step(SplitState([], [], 1), row, bps)
        == Some(SplitState(Convert([pieces[0]], 1) + ConvertEach(middle, 2), [Last(pieces)], 2 + |middle|))
  {
    var none: seq<Row> := [];
    var pieces := Pieces(row, SortInts(Hits(row, bps)));
    var rest := Convert([pieces[0]], 1) + ConvertEach(pieces[1..|pieces| - 1], 2);
    assert none + [pieces[0]] == [pieces[0]];
    assert none + Convert([pieces[0]], 1) + ConvertEach(pieces[1..|pieces| - 1], 2) == rest;
    StepCut(SplitState(none, none, 1), row, bps);
  }

  /** A single middle piece is one sub-scaffold. */
  lemma ConvertEachOne(p: Row, counter: int)
    ensures ConvertEach([p], counter) == Convert([p], counter)
  {
    assert [p][..0] == [] && Last([p]) == p;
  }

  /** A scaffold of one component with two increasing breakpoints inside
      it becomes three sub-scaffolds, the middle piece one of its own. */
  lemma CutTwice(row: Row, b1: int, b2: int)
    requires row.Component? && row.Contains(b1) && row.Contains(b2) && b1 <= b2
    ensures var ps := Pieces(row, [b1, b2]);
      SplitScaffoldSpec([row], [b1, b2])
        == Some(Convert([ps[0]], 1) + Convert([ps[1]], 2) + Convert([ps[2]], 3))
  {
    var bps := [b1, b2];
    var ps := Pieces(row, bps);
    assert Pieces(row, SortInts(Hits(row, bps))) == ps by {
      HitsBoth(row, b1, b2);
    }
    assert ps[1..|ps| - 1] == [ps[1]] && Last(ps) == ps[2];
    ConvertEachOne(ps[1], 2);
    CutFirst(row, bps);
    assert ScaffoldFold([row], bps) == Some(SplitState(Convert([ps[0]], 1) + Convert([ps[1]], 2), [ps[2]], 3));
  }

  /** Two breakpoints in one contig: the middle piece is a sub-scaffold of
      its own; the test's expectation agrees. */
  lemma ContigCutTwice(row: Row)
    requires row == Component("scfd3", 1, 1000, 1, "W", "ctg3", 1, 1000, "+")
    ensures SplitScaffoldSpec([row], [300, 500])
      == Some([Component("scfd3.1", 1, 300, 1, "W", "ctg3", 1, 300, "+"),
               Component("scfd3.2", 1, 200, 1, "W", "ctg3", 301, 500, "+"),
               Component("scfd3.3", 1, 500, 1, "W", "ctg3", 501, 1000, "+")])
  {
    CutTwice(row, 300, 500);
    ContigPiecesTwice(row);
    ContigPiecesConverted();
    var q1 := Component("scfd3.1", 1, 300, 1, "W", "ctg3", 1, 300, "+");
    var q2 := Component("scfd3.2", 1, 200, 1, "W", "ctg3", 301, 500, "+");
    var q3 := Component("scfd3.3", 1, 500, 1, "W", "ctg3", 501, 1000, "+");
    assert [q1] + [q2] + [q3] == [q1, q2, q3];
  }

  lemma ContigPiecesTwice(row: Row)
    requires row == Component("scfd3", 1, 1000, 1, "W", "ctg3", 1, 1000, "+")
    ensures Pieces(row, [300, 500])
      == [Component("scfd3", 1, 300, 1, "W", "ctg3", 1, 300, "+"),
          Component("scfd3", 301, 500, 2, "W", "ctg3", 301, 500, "+"),
          Component("scfd3", 501, 1000, 3, "W", "ctg3", 501, 1000, "+")]
  {
    var ps := Pieces(row, [300, 500]);
    assert ps[0] == Component("scfd3", 1, 300, 1, "W", "ctg3", 1, 300, "+");
    assert ps[1] == Component("scfd3", 301, 500, 2, "W", "ctg3", 301, 500, "+");
    assert ps[2] == Component("scfd3", 501, 1000, 3, "W", "ctg3", 501, 1000, "+");
  }

  lemma ContigPiecesConverted()
    ensures Convert([Component("scfd3", 1, 300, 1, "W", "ctg3", 1, 300, "+")], 1)
      == [Component("scfd3.1", 1, 300, 1, "W", "ctg3", 1, 300, "+")]
    ensures Convert([Component("scfd3", 301, 500, 2, "W", "ctg3", 301, 500, "+")], 2)
      == [Component("scfd3.2", 1, 200, 1, "W", "ctg3", 301, 500, "+")]
    ensures Convert([Component("scfd3", 501, 1000, 3, "W", "ctg3", 501, 1000, "+")], 3)
      == [Component("scfd3.3", 1, 500, 1, "W", "ctg3", 501, 1000, "+")]
  {
    ConvertComponent(Component("scfd3", 1, 300, 1, "W", "ctg3", 1, 300, "+"), 1);
    ConvertComponent(Component("scfd3", 301, 500, 2, "W", "ctg3", 301, 500, "+"), 2);
    ConvertComponent(Component("scfd3", 501, 1000, 3, "W", "ctg3", 501, 1000, "+"), 3);
    SubscaffoldNames("scfd3");
    assert "scfd3" + ".1" == "scfd3.1" && "scfd3" + ".2" == "scfd3.2" && "scfd3" + ".3" == "scfd3.3";
  }

  /** A breakpoint inside the middle one of three rows closes the first
      sub-scaffold with the first row and the left part, and opens the
      second with the right part and the third row. */
  lemma CutMiddle(r1: Row, r2: Row, r3: Row, b: int)
    requires !r1.Contains(b) && r2.Component? && r2.Contains(b) && !r3.Contains(b)
    ensures SplitScaffoldSpec([r1, r2, r3], [b])
         == Some(Convert([r1, CutLeft(r2, b)], 1) + Convert([CutRight(r2, b), r3], 2))
  {
    MiddleThree(r1, r2, r3, b);
    SpecOfFold([r1, r2, r3], [b], SplitState(Convert([r1, CutLeft(r2, b)], 1), [CutRight(r2, b), r3], 2));
  }

  lemma MiddleTwo(r1: Row, r2: Row, b: int)
    requires !r1.Contains(b) && r2.Component? && r2.Contains(b)
    ensures ScaffoldFold([r1, r2], [b]) == Some(SplitState(Convert([r1, CutLeft(r2, b)], 1), [CutRight(r2, b)], 2))
  {
    var none: seq<Row> := [];
    var left := CutLeft(r2, b);
    assert [r1] + [r2] == [r1, r2] && [r1] + [left] == [r1, left];
    assert none + Convert([r1, left], 1) == Convert([r1, left], 1);
    NoHit(r1, b);
    FoldOneKept(r1, [b]);
    FoldCutOnce([r1], r2, b, SplitState(none, [r1], 1));
  }

  lemma MiddleThree(r1: Row, r2: Row, r3: Row, b: int)
    requires !r1.Contains(b) && r2.Component? && r2.Contains(b) && !r3.Contains(b)
    ensures ScaffoldFold([r1, r2, r3], [b])
         == Some(SplitState(Convert([r1, CutLeft(r2, b)], 1), [CutRight(r2, b), r3], 2))
  {
    var s2 := SplitState(Convert([r1, CutLeft(r2, b)], 1), [CutRight(r2, b)], 2);
    assert [r1, r2] + [r3] == [r1, r2, r3] && [CutRight(r2, b)] + [r3] == [CutRight(r2, b), r3];
    NoHit(r3, b);
    MiddleTwo(r1, r2, b);
    FoldKeep([r1, r2], r3, [b], s2);
  }

  /** A breakpoint outside the row is no hit. */
  lemma NoHit(row: Row, b: int)
    requires !row.Contains(b)
    ensures Hits(row, [b]) == []
  {
    assert [b][..0] == [];
  }

  /** A first row without breakpoints opens sub-scaffold 1. */
  lemma FoldOneKept(row: Row, bps: seq<int>)
    requires Hits(row, bps) == []
    ensures ScaffoldFold([row], bps) == Some(SplitState([], [row], 1))
  {
    var none: seq<Row> := [];
    FoldFirst(row, bps);
    StepKeep(SplitState(none, none, 1), row, bps);
    assert none + [row] == [row];
  }

  /** A fold that ends with an open sub-scaffold gives the result of
      `split_scaffold`. */
  lemma SpecOfFold(rows: seq<Row>, bps: seq<int>, st: SplitState)
    requires ScaffoldFold(rows, bps) == Some(st) && st.current != []
    ensures SplitScaffoldSpec(rows, bps) == Some(st.out + Convert(st.current, st.counter))
  {
  }

  /** The fold over one more row is the step on the fold so far. */
  lemma FoldAppend(rows: seq<Row>, row: Row, bps: seq<int>, st: SplitState)
    requires ScaffoldFold(rows, bps) == Some(st)
    ensures ScaffoldFold(rows + [row], bps) == Step(st, row, bps)
  {
    assert (rows + [row])[..|rows|] == rows && Last(rows + [row]) == row;
  }

  /** A row without breakpoints joins the open sub-scaffold. */
  lemma StepKeep(st: SplitState, row: Row, bps: seq<int>)
    requires Hits(row, bps) == []
    ensures Step(st, row, bps) == Some(SplitState(st.out, st.current + [row], st.counter))
  {
  }

  /** A gap with a breakpoint in it is dropped and closes the open
      sub-scaffold, which is written under the current number before the
      number advances; with nothing open the step fails, where Python
      raises IndexError. */
  lemma StepGap(st: SplitState, row: Row, bps: seq<int>)
    requires row.Gap? && Hits(row, bps) != []
    ensures Step(st, row, bps)
      == if st.current == [] then None else Some(SplitState(st.out + Convert(st.current, st.counter), [], st.counter + 1))
  {
  }

  /** A component with breakpoints inside: its first piece closes the open
      sub-scaffold, each middle piece is a sub-scaffold of its own and the
      last piece opens the next one. */
  lemma StepCut(st: SplitState, row: Row, bps: seq<int>)
    requires row.Component? && Hits(row, bps) != []
    ensures var pieces := Pieces(row, SortInts(Hits(row, bps)));
      var middle := pieces[1..|pieces| - 1];
      Step(st, row, bps)
        == Some(SplitState(st.out + Convert(st.current + [pieces[0]], st.counter)
                             + ConvertEach(middle, st.counter + 1),
                           [Last(pieces)], st.counter + 1 + |middle|))
  {
  }

  /** One breakpoint inside the row is its only hit. */
  lemma OneHit(row: Row, b: int)
    requires row.Contains(b)
    ensures Hits(row, [b]) == [b] && SortInts([b]) == [b]
  {
    assert [b][..0] == [];
    assert [b][1..] == [];
  }

  /** One breakpoint cuts a component in two. */
  lemma PiecesOne(row: Row, b: int)
    requires row.Component?
    ensures Pieces(row, [b]) == [CutLeft(row, b), CutRight(row, b)]
  {
    var ps := Pieces(row, [b]);
    assert ps[0] == PieceAt(row, [b], 0) && ps[1] == PieceAt(row, [b], 1);
  }

  /** A row without breakpoints joins the open sub-scaffold. */
  lemma FoldKeep(rows: seq<Row>, row: Row, bps: seq<int>, st: SplitState)
    requires ScaffoldFold(rows, bps) == Some(st) && Hits(row, bps) == []
    ensures ScaffoldFold(rows + [row], bps) == Some(SplitState(st.out, st.current + [row], st.counter))
  {
    FoldAppend(rows, row, bps, st);
    StepKeep(st, row, bps);
  }

  /** A component with one breakpoint inside closes the open sub-scaffold
      with its left part and opens the next with its right part. */
  lemma FoldCutOnce(rows: seq<Row>, row: Row, b: int, st: SplitState)
    requires ScaffoldFold(rows, [b]) == Some(st) && row.Component? && row.Contains(b)
    ensures ScaffoldFold(rows + [row], [b])
         == Some(SplitState(st.out + Convert(st.current + [CutLeft(row, b)], st.counter),
                            [CutRight(row, b)], st.counter + 1))
  {
    var pieces := Pieces(row, SortInts(Hits(row, [b])));
    assert pieces == [CutLeft(row, b), CutRight(row, b)] by {
      OneHit(row, b);
      PiecesOne(row, b);
    }
    var middle := pieces[1..|pieces| - 1];
    var closed := st.out + Convert(st.current + [CutLeft(row, b)], st.counter);
    assert middle == [] && ConvertEach(middle, st.counter + 1) == [];
    assert closed + ConvertEach(middle, st.counter + 1) == closed;
    FoldAppend(rows, row, [b], st);
    StepCut(st, row, [b]);
  }

  /** A cut in the middle of a three-contig scaffold: the second
      sub-scaffold starts with the tail of the cut contig (part 3 before
      renumbering) followed by the next contig (also part 3), so both come
      out as part 1, where the unit test expects parts 1 and 2. */
  lemma RepeatedPartNumber(r1: Row, r2: Row, r3: Row)
    requires r1 == Component("scfd3", 1, 1000, 1, "W", "ctg3", 1, 1000, "+")
    requires r2 == Component("scfd3", 1001, 2000, 2, "W", "ctg4", 1, 1000, "-")
    requires r3 == Component("scfd3", 2001, 4000, 3, "W", "ctg5", 1, 2000, "+")
    ensures SplitScaffoldSpec([r1, r2, r3], [1300])
      == Some([Component("scfd3.1", 1, 1000, 1, "W", "ctg3", 1, 1000, "+"),
               Component("scfd3.1", 1001, 1300, 2, "W", "ctg4", 1, 300, "-"),
               Component("scfd3.2", 1, 700, 1, "W", "ctg4", 301, 1000, "-"),
               Component("scfd3.2", 701, 2700, 1, "W", "ctg5", 1, 2000, "+")])
  {
    CutMiddle(r1, r2, r3, 1300);
    var left, right := CutLeft(r2, 1300), CutRight(r2, 1300);
    var q1 := Component("scfd3.1", 1, 1000, 1, "W", "ctg3", 1, 1000, "+");
    var q2 := Component("scfd3.1", 1001, 1300, 2, "W", "ctg4", 1, 300, "-");
    var q3 := Component("scfd3.2", 1, 700, 1, "W", "ctg4", 301, 1000, "-");
    var q4 := Component("scfd3.2", 701, 2700, 1, "W", "ctg5", 1, 2000, "+");
    assert left == Component("scfd3", 1001, 1300, 2, "W", "ctg4", 1, 300, "-");
    assert right == Component("scfd3", 1301, 2000, 3, "W", "ctg4", 301, 1000, "-");
    ConvertPair(r1, left, 1);
    ConvertPair(right, r3, 2);
    SubscaffoldNames("scfd3");
    assert "scfd3" + ".1" == "scfd3.1" && "scfd3" + ".2" == "scfd3.2";
    assert Convert([r1, left], 1) == [q1, q2];
    assert Convert([right, r3], 2) == [q3, q4];
    assert [q1, q2] + [q3, q4] == [q1, q2, q3, q4];
  }

  // ---- the command ----

  /** Python's IndexError: a sub-scaffold with no rows, or a file with no rows. */
  datatype IndexError = IndexError

  /** What `run` holds between lines: the lines already printed and the
      rows of the scaffold being read; or the lines printed before an error. */
  datatype RunState = Running(printed: seq<AgpLine>, buffer: seq<Row>) | Failed(printed: seq<AgpLine>)

  /** What `run` prints for one finished scaffold: split when the scaffold
      has breakpoints, as it is otherwise. */
  function Flush(buffer: seq<Row>, breakpoints: map<string, seq<int>>): Option<seq<Row>>
    requires buffer != []
  {
    if buffer[0].objectName in breakpoints then SplitScaffoldSpec(buffer, breakpoints[buffer[0].objectName])
    else Some(buffer)
  }

  function RunStep(st: RunState, line: AgpLine, breakpoints: map<string, seq<int>>): RunState
  {
    match st
    case Failed(_) => st
    case Running(printed, buffer) =>
      match line
      case Comment(_) => Running(printed + [line], buffer)
      case RowLine(row) =>
        if buffer != [] && buffer[0].objectName != row.objectName then
          match Flush(buffer, breakpoints)
          case None => Failed(printed)
          case Some(rows) => Running(printed + AsLines(rows), [row])
        else Running(printed, buffer + [row])
  }

  function RunFold(lines: seq<AgpLine>, breakpoints: map<string, seq<int>>): RunState
  {
    if lines == [] then Running([], [])
    else RunStep(RunFold(lines[..|lines| - 1], breakpoints), Last(lines), breakpoints)
  }

  /** `run`: comments are printed as soon as they are read, each scaffold
      once its last row has been read. */
  function Splitting(breakpoints: map<string, seq<int>>, lines: seq<AgpLine>): Emitted<AgpLine, IndexError>
  {
    match RunFold(lines, breakpoints)
    case Failed(printed) => Emitted(printed, Some(IndexError))
    case Running(printed, buffer) =>
      if buffer == [] then Emitted(printed, Some(IndexError))
      else
        match Flush(buffer, breakpoints)
        case None => Emitted(printed, Some(IndexError))
        case Some(rows) => Emitted(printed + AsLines(rows), None)
  }

  lemma {:induction false} RunFoldSticks(lines: seq<AgpLine>, breakpoints: map<string, seq<int>>, n: nat, printed: seq<AgpLine>)
    requires n <= |lines| && RunFold(lines[..n], breakpoints) == Failed(printed)
    ensures RunFold(lines, breakpoints) == Failed(printed)
    decreases |lines| - n
  {
    if n < |lines| {
      assert lines[..n + 1][..n] == lines[..n];
      RunFoldSticks(lines, breakpoints, n + 1, printed);
    } else {
      assert lines[..n] == lines;
    }
  }

  method Run(breakpoints: map<string, seq<int>>, agp: seq<AgpLine>) returns (out: Emitted<AgpLine, IndexError>)
    ensures out == Splitting(breakpoints, agp)
  {
    var printed: seq<AgpLine> := [];
    var rowsThisScaffold: seq<Row> := [];
    assert agp[..0] == [];
    for i := 0 to |agp|
      invariant RunFold(agp[..i], breakpoints) == Running(printed, rowsThisScaffold)
    {
      assert agp[..i + 1][..i] == agp[..i] && Last(agp[..i + 1]) == agp[i];
      match agp[i]
      case Comment(_) =>
        printed := printed + [agp[i]];
      case RowLine(row) =>
        if rowsThisScaffold != [] && rowsThisScaffold[0].objectName != row.objectName {
          var split := Some(rowsThisScaffold);
          if rowsThisScaffold[0].objectName in breakpoints {
            split := SplitScaffold(rowsThisScaffold, breakpoints[rowsThisScaffold[0].objectName]);
          }
          if split.None? {
            RunFoldSticks(agp, breakpoints, i + 1, printed);
            return Emitted(printed, Some(IndexError));
          }
          printed := printed + AsLines(split.value);
          rowsThisScaffold := [];
        }
        rowsThisScaffold := rowsThisScaffold + [row];
    }
    assert agp[..|agp|] == agp;
    if rowsThisScaffold == [] {
      return Emitted(printed, Some(IndexError));
    }
    var split := Some(rowsThisScaffold);
    if rowsThisScaffold[0].objectName in breakpoints {
      split := SplitScaffold(rowsThisScaffold, breakpoints[rowsThisScaffold[0].objectName]);
    }
    if split.None? {
      return Emitted(printed, Some(IndexError));
    }
    return Emitted(printed + AsLines(split.value), None);
  }

  // ---- properties of the command ----

  /** The rows among some lines, in order. */
  function RowsIn(lines: seq<AgpLine>): seq<Row>
  {
    if lines == [] then []
    else RowsIn(lines[..|lines| - 1]) + (if Last(lines).RowLine? then [Last(lines).row] else [])
  }

  /** The comments among some lines, in order. */
  function CommentsIn(lines: seq<AgpLine>): seq<string>
  {
    if lines == [] then []
    else CommentsIn(lines[..|lines| - 1]) + (if Last(lines).Comment? then [Last(lines).text] else [])
  }

  lemma FilterConcat(a: seq<AgpLine>, b: seq<AgpLine>)
    ensures RowsIn(a + b) == RowsIn(a) + RowsIn(b)
    ensures CommentsIn(a + b) == CommentsIn(a) + CommentsIn(b)
  {
    RowsConcat(a, b);
    CommentsConcat(a, b);
  }

  lemma {:induction false} RowsConcat(a: seq<AgpLine>, b: seq<AgpLine>)
    ensures RowsIn(a + b) == RowsIn(a) + RowsIn(b)
    decreases |b|
  {
    if b == [] {
      assert a + b == a;
    } else {
      var init, l := b[..|b| - 1], Last(b);
      var x := if l.RowLine? then [l.row] else [];
      RowsConcat(a, init);
      assert RowsIn(b) == RowsIn(init) + x;
      assert (a + b)[..|a + b| - 1] == a + init && Last(a + b) == l;
      assert RowsIn(a + b) == RowsIn(a + init) + x;
    }
  }

  lemma {:induction false} CommentsConcat(a: seq<AgpLine>, b: seq<AgpLine>)
    ensures CommentsIn(a + b) == CommentsIn(a) + CommentsIn(b)
    decreases |b|
  {
    if b == [] {
      assert a + b == a;
    } else {
      var init, l := b[..|b| - 1], Last(b);
      var x := if l.Comment? then [l.text] else [];
      CommentsConcat(a, init);
      assert CommentsIn(b) == CommentsIn(init) + x;
      assert (a + b)[..|a + b| - 1] == a + init && Last(a + b) == l;
      assert CommentsIn(a + b) == CommentsIn(a + init) + x;
    }
  }

  lemma {:induction false} FilterAsLines(rows: seq<Row>)
    ensures RowsIn(AsLines(rows)) == rows && CommentsIn(AsLines(rows)) == []
  {
    if rows != [] {
      var init := rows[..|rows| - 1];
      FilterAsLines(init);
      assert AsLines(rows)[..|rows| - 1] == AsLines(init);
    }
  }

  /** Without breakpoints for any of the file's scaffolds, the run holds
      back only the rows of the scaffold being read. */
  predicate Holding(st: RunState, lines: seq<AgpLine>, breakpoints: map<string, seq<int>>)
  {
    && st.Running?
    && RowsIn(st.printed) + st.buffer == RowsIn(lines)
    && CommentsIn(st.printed) == CommentsIn(lines)
    && (st.buffer == [] <==> RowsIn(lines) == [])
    && forall k :: 0 <= k < |st.buffer| ==> st.buffer[k].objectName !in breakpoints
  }

  lemma FilterStep(init: seq<AgpLine>, l: AgpLine)
    ensures RowsIn(init + [l]) == RowsIn(init) + (if l.RowLine? then [l.row] else [])
    ensures CommentsIn(init + [l]) == CommentsIn(init) + (if l.Comment? then [l.text] else [])
  {
    assert (init + [l])[..|init|] == init;
  }

  lemma HoldingStep(st: RunState, init: seq<AgpLine>, l: AgpLine, breakpoints: map<string, seq<int>>)
    requires Holding(st, init, breakpoints)
    requires l.RowLine? ==> l.row.objectName !in breakpoints
    ensures Holding(RunStep(st, l, breakpoints), init + [l], breakpoints)
  {
    match l
    case Comment(t) =>
      assert RunStep(st, l, breakpoints) == Running(st.printed + [l], st.buffer);
      HoldingComment(st, init, l, breakpoints);
    case RowLine(row) =>
      if st.buffer != [] && st.buffer[0].objectName != row.objectName {
        assert Flush(st.buffer, breakpoints) == Some(st.buffer);
        assert RunStep(st, l, breakpoints) == Running(st.printed + AsLines(st.buffer), [row]);
        HoldingFlush(st, init, row, breakpoints);
      } else {
        assert RunStep(st, l, breakpoints) == Running(st.printed, st.buffer + [row]);
        HoldingAppend(st, init, row, breakpoints);
      }
  }

  lemma HoldingComment(st: RunState, init: seq<AgpLine>, l: AgpLine, breakpoints: map<string, seq<int>>)
    requires Holding(st, init, breakpoints) && l.Comment?
    ensures Holding(Running(st.printed + [l], st.buffer), init + [l], breakpoints)
  {
    FilterStep(init, l);
    FilterStep(st.printed, l);
  }

  lemma HoldingAppend(st: RunState, init: seq<AgpLine>, row: Row, breakpoints: map<string, seq<int>>)
    requires Holding(st, init, breakpoints)
    requires row.objectName !in breakpoints
    ensures Holding(Running(st.printed, st.buffer + [row]), init + [RowLine(row)], breakpoints)
  {
    FilterStep(init, RowLine(row));
    assert RowsIn(st.printed) + (st.buffer + [row]) == (RowsIn(st.printed) + st.buffer) + [row];
  }

  lemma HoldingFlush(st: RunState, init: seq<AgpLine>, row: Row, breakpoints: map<string, seq<int>>)
    requires Holding(st, init, breakpoints) && st.buffer != []
    requires row.objectName !in breakpoints
    ensures Holding(Running(st.printed + AsLines(st.buffer), [row]), init + [RowLine(row)], breakpoints)
  {
    FilterStep(init, RowLine(row));
    FilterConcat(st.printed, AsLines(st.buffer));
    FilterAsLines(st.buffer);
  }

  lemma {:induction false} RunFoldUntouched(lines: seq<AgpLine>, breakpoints: map<string, seq<int>>)
    requires forall k :: 0 <= k < |lines| && lines[k].RowLine? ==> lines[k].row.objectName !in breakpoints
    ensures Holding(RunFold(lines, breakpoints), lines, breakpoints)
  {
    if lines != [] {
      var init, l := lines[..|lines| - 1], lines[|lines| - 1];
      RunFoldUntouched(init, breakpoints);
      HoldingStep(RunFold(init, breakpoints), init, l, breakpoints);
      assert init + [l] == lines;
    }
  }

  /** A file none of whose scaffolds has breakpoints comes out with the same
      rows and the same comments (comments may move ahead of the rows of the
      scaffold they interrupt); only a file without rows fails. */
  lemma RunUntouched(lines: seq<AgpLine>, breakpoints: map<string, seq<int>>)
    requires forall k :: 0 <= k < |lines| && lines[k].RowLine? ==> lines[k].row.objectName !in breakpoints
    ensures Splitting(breakpoints, lines).failure.None? <==> RowsIn(lines) != []
    ensures Splitting(breakpoints, lines).failure.None? ==>
      RowsIn(Splitting(breakpoints, lines).lines) == RowsIn(lines)
    ensures CommentsIn(Splitting(breakpoints, lines).lines) == CommentsIn(lines)
  {
    RunFoldUntouched(lines, breakpoints);
    var st := RunFold(lines, breakpoints);
    assert st.Running?;
    if st.buffer != [] {
      assert st.buffer[0].objectName !in breakpoints;
      assert Flush(st.buffer, breakpoints) == Some(st.buffer);
      assert Splitting(breakpoints, lines) == Emitted(st.printed + AsLines(st.buffer), None);
      FilterConcat(st.printed, AsLines(st.buffer));
      FilterAsLines(st.buffer);
    } else {
      assert Splitting(breakpoints, lines) == Emitted(st.printed, Some(IndexError));
    }
  }

  // ---- the command, scaffold by scaffold ----

  /** Every scaffold of a list that has breakpoints splits. */
  predicate SplitsCleanly(runs: seq<seq<Row>>, breakpoints: map<string, seq<int>>)
  {
    NoneEmpty(runs) && forall k :: 0 <= k < |runs| ==> Flush(runs[k], breakpoints).Some?
  }

  /** What `run` prints for each scaffold of a list that splits cleanly. */
  function Outputs(runs: seq<seq<Row>>, breakpoints: map<string, seq<int>>): seq<seq<Row>>
    requires SplitsCleanly(runs, breakpoints)
  {
    seq(|runs|, k requires 0 <= k < |runs| => Flush(runs[k], breakpoints).value)
  }

  /** What `run` prints for a list of scaffolds, one after another; None
      from the first that fails to split. */
  function FlushAll(runs: seq<seq<Row>>, breakpoints: map<string, seq<int>>): Option<seq<Row>>
    requires NoneEmpty(runs)
  {
    if runs == [] then Some([])
    else
      match FlushAll(runs[..|runs| - 1], breakpoints)
      case None => None
      case Some(rows) =>
        match Flush(Last(runs), breakpoints)
        case None => None
        case Some(more) => Some(rows + more)
  }

  /** Printing scaffold by scaffold succeeds exactly when each one splits,
      and prints their outputs in order. */
  lemma {:induction false} FlushAllSpec(runs: seq<seq<Row>>, breakpoints: map<string, seq<int>>)
    requires NoneEmpty(runs)
    ensures FlushAll(runs, breakpoints).Some? <==> SplitsCleanly(runs, breakpoints)
    ensures FlushAll(runs, breakpoints).Some? ==>
      FlushAll(runs, breakpoints).value == Flatten(Outputs(runs, breakpoints))
    decreases |runs|
  {
    if runs != [] {
      var init := runs[..|runs| - 1];
      FlushAllSpec(init, breakpoints);
      CleanlySnoc(runs, breakpoints);
      if SplitsCleanly(runs, breakpoints) {
        OutputsSnoc(runs, breakpoints);
      }
    }
  }

  /** A list splits cleanly when all its scaffolds but the last do and the
      last does. */
  lemma CleanlySnoc(runs: seq<seq<Row>>, breakpoints: map<string, seq<int>>)
    requires NoneEmpty(runs) && runs != []
    ensures NoneEmpty(runs[..|runs| - 1])
    ensures SplitsCleanly(runs, breakpoints) <==>
      SplitsCleanly(runs[..|runs| - 1], breakpoints) && Flush(Last(runs), breakpoints).Some?
  {
    var init := runs[..|runs| - 1];
    assert forall k :: 0 <= k < |init| ==> init[k] == runs[k];
    if !SplitsCleanly(runs, breakpoints) {
      var k :| 0 <= k < |runs| && Flush(runs[k], breakpoints).None?;
      assert k < |init| ==> init[k] == runs[k];
    }
  }

  lemma OutputsSnoc(runs: seq<seq<Row>>, breakpoints: map<string, seq<int>>)
    requires SplitsCleanly(runs, breakpoints) && runs != []
    ensures SplitsCleanly(runs[..|runs| - 1], breakpoints)
    ensures Flatten(Outputs(runs, breakpoints))
      == Flatten(Outputs(runs[..|runs| - 1], breakpoints)) + Flush(Last(runs), breakpoints).value
  {
    var init := runs[..|runs| - 1];
    assert forall k :: 0 <= k < |init| ==> init[k] == runs[k];
    var more := Flush(Last(runs), breakpoints).value;
    assert Outputs(runs, breakpoints) == Outputs(init, breakpoints) + [more];
    FlattenAppend(Outputs(init, breakpoints), more);
  }

  /** One more row starts a new scaffold or extends the last one. */
  lemma RunsSnoc(rows: seq<Row>, r: Row)
    ensures var rs := Sanitize.Runs(rows);
      Sanitize.Runs(rows + [r])
        == if rs != [] && Last(rs)[0].objectName == r.objectName then rs[..|rs| - 1] + [Last(rs) + [r]]
           else rs + [[r]]
  {
    assert (rows + [r])[..|rows|] == rows && Last(rows + [r]) == r;
  }

  /** The scaffolds of the rows read, all but the one still being read. */
  function Finished(runs: seq<seq<Row>>): seq<seq<Row>>
  {
    if runs == [] then [] else runs[..|runs| - 1]
  }

  /** What `run` has done after reading `lines`: every comment read is
      printed; the scaffolds finished so far are printed one after another,
      split where they have breakpoints, unless one of them failed; the rows
      of the scaffold being read are held back. */
  predicate Tracks(st: RunState, lines: seq<AgpLine>, breakpoints: map<string, seq<int>>)
  {
    var runs: seq<seq<Row>> := Sanitize.Runs(RowsIn(lines));
    && Sanitize.RunShaped(runs)
    && NoneEmpty(Finished(runs))
    && match st
       case Failed(_) => FlushAll(Finished(runs), breakpoints).None?
       case Running(printed, buffer) =>
         && FlushAll(Finished(runs), breakpoints) == Some(RowsIn(printed))
         && CommentsIn(printed) == CommentsIn(lines)
         && buffer == (if runs == [] then [] else Last(runs))
  }

  lemma TracksComment(st: RunState, init: seq<AgpLine>, l: AgpLine, breakpoints: map<string, seq<int>>)
    requires Tracks(st, init, breakpoints) && l.Comment?
    ensures Tracks(RunStep(st, l, breakpoints), init + [l], breakpoints)
  {
    FilterStep(init, l);
    assert RowsIn(init + [l]) == RowsIn(init);
    if st.Running? {
      FilterStep(st.printed, l);
      assert RowsIn(st.printed + [l]) == RowsIn(st.printed);
    }
  }

  /** One more row either extends the scaffold being read or finishes it
      and starts another. */
  lemma FinishedSnoc(rows: seq<Row>, row: Row)
    ensures var runs, runs' := Sanitize.Runs(rows), Sanitize.Runs(rows + [row]);
      && Sanitize.RunShaped(runs') && runs' != [] && NoneEmpty(Finished(runs'))
      && (runs != [] && Last(runs)[0].objectName == row.objectName ==>
            Finished(runs') == Finished(runs) && Last(runs') == Last(runs) + [row])
      && (!(runs != [] && Last(runs)[0].objectName == row.objectName) ==>
            Finished(runs') == runs && Last(runs') == [row])
  {
    RunsSnoc(rows, row);
    Sanitize.RunsShape(rows + [row]);
    var runs': seq<seq<Row>> := Sanitize.Runs(rows + [row]);
    assert forall k :: 0 <= k < |Finished(runs')| ==> Finished(runs')[k] == runs'[k];
  }

  lemma TracksRow(st: RunState, init: seq<AgpLine>, row: Row, breakpoints: map<string, seq<int>>)
    requires Tracks(st, init, breakpoints)
    ensures Tracks(RunStep(st, RowLine(row), breakpoints), init + [RowLine(row)], breakpoints)
  {
    match st
    case Failed(_) =>
      TracksFailedRow(st, init, row, breakpoints);
    case Running(printed, buffer) =>
      if buffer != [] && buffer[0].objectName != row.objectName {
        match Flush(buffer, breakpoints)
        case None =>
          TracksFlushFails(st, init, row, breakpoints);
        case Some(more) =>
          TracksFlush(st, init, row, more, breakpoints);
      } else {
        TracksAppend(st, init, row, breakpoints);
      }
  }

  lemma TracksFailedRow(st: RunState, init: seq<AgpLine>, row: Row, breakpoints: map<string, seq<int>>)
    requires Tracks(st, init, breakpoints) && st.Failed?
    ensures Tracks(st, init + [RowLine(row)], breakpoints)
  {
    var runs: seq<seq<Row>> := Sanitize.Runs(RowsIn(init));
    FilterStep(init, RowLine(row));
    FinishedSnoc(RowsIn(init), row);
    if runs != [] {
      assert runs == Finished(runs) + [Last(runs)];
    }
  }

  lemma TracksFlushFails(st: RunState, init: seq<AgpLine>, row: Row, breakpoints: map<string, seq<int>>)
    requires Tracks(st, init, breakpoints) && st.Running?
    requires st.buffer != [] && st.buffer[0].objectName != row.objectName
    requires Flush(st.buffer, breakpoints).None?
    ensures Tracks(Failed(st.printed), init + [RowLine(row)], breakpoints)
  {
    var runs: seq<seq<Row>> := Sanitize.Runs(RowsIn(init));
    FilterStep(init, RowLine(row));
    FinishedSnoc(RowsIn(init), row);
    assert runs == Finished(runs) + [Last(runs)];
  }

  lemma TracksFlush(st: RunState, init: seq<AgpLine>, row: Row, more: seq<Row>, breakpoints: map<string, seq<int>>)
    requires Tracks(st, init, breakpoints) && st.Running?
    requires st.buffer != [] && st.buffer[0].objectName != row.objectName
    requires Flush(st.buffer, breakpoints) == Some(more)
    ensures Tracks(Running(st.printed + AsLines(more), [row]), init + [RowLine(row)], breakpoints)
  {
    var runs: seq<seq<Row>> := Sanitize.Runs(RowsIn(init));
    FilterStep(init, RowLine(row));
    FinishedSnoc(RowsIn(init), row);
    assert Finished(Sanitize.Runs(RowsIn(init + [RowLine(row)]))) == runs;
    FlushAllFinish(runs, RowsIn(st.printed), more, breakpoints);
    FilterConcat(st.printed, AsLines(more));
    FilterAsLines(more);
    assert RowsIn(st.printed + AsLines(more)) == RowsIn(st.printed) + more;
    assert CommentsIn(st.printed + AsLines(more)) == CommentsIn(st.printed);
  }

  /** Finishing one more scaffold that splits prints its rows after the rest. */
  lemma FlushAllFinish(runs: seq<seq<Row>>, printed: seq<Row>, more: seq<Row>, breakpoints: map<string, seq<int>>)
    requires NoneEmpty(runs) && runs != []
    requires FlushAll(Finished(runs), breakpoints) == Some(printed)
    requires Flush(Last(runs), breakpoints) == Some(more)
    ensures FlushAll(runs, breakpoints) == Some(printed + more)
  {
    assert Finished(runs) == runs[..|runs| - 1];
  }

  lemma TracksAppend(st: RunState, init: seq<AgpLine>, row: Row, breakpoints: map<string, seq<int>>)
    requires Tracks(st, init, breakpoints) && st.Running?
    requires st.buffer == [] || st.buffer[0].objectName == row.objectName
    ensures Tracks(Running(st.printed, st.buffer + [row]), init + [RowLine(row)], breakpoints)
  {
    FilterStep(init, RowLine(row));
    var runs := Sanitize.Runs(RowsIn(init));
    FinishedSnoc(RowsIn(init), row);
    if runs == [] {
      TracksFirstRow(st, init, row, breakpoints);
    } else {
      assert Last(runs) == runs[|runs| - 1] && runs[|runs| - 1] != [];
    }
  }

  /** The first row of a file opens its first scaffold. */
  lemma TracksFirstRow(st: RunState, init: seq<AgpLine>, row: Row, breakpoints: map<string, seq<int>>)
    requires Tracks(st, init, breakpoints) && st.Running? && Sanitize.Runs(RowsIn(init)) == []
    ensures Tracks(Running(st.printed, st.buffer + [row]), init + [RowLine(row)], breakpoints)
  {
    FilterStep(init, RowLine(row));
    FinishedSnoc(RowsIn(init), row);
    assert st.buffer + [row] == [row];
    assert Finished([]) == [];
  }

  /** The invariant of `run`'s loop, line by line. */
  lemma {:induction false} RunFoldTracks(lines: seq<AgpLine>, breakpoints: map<string, seq<int>>)
    ensures Tracks(RunFold(lines, breakpoints), lines, breakpoints)
    decreases |lines|
  {
    if lines == [] {
      Sanitize.RunsShape([]);
    } else {
      var init, l := lines[..|lines| - 1], Last(lines);
      RunFoldTracks(init, breakpoints);
      assert init + [l] == lines;
      if l.Comment? {
        TracksComment(RunFold(init, breakpoints), init, l, breakpoints);
      } else {
        TracksRow(RunFold(init, breakpoints), init, l.row, breakpoints);
      }
    }
  }

  /** `run` prints every comment and the file's scaffolds one after
      another, each split when it has breakpoints and exactly as it was
      otherwise, whatever happens to the others; it raises IndexError
      exactly when the file has no rows or a scaffold with breakpoints does
      not split. */
  lemma RunScaffolds(lines: seq<AgpLine>, breakpoints: map<string, seq<int>>)
    ensures var runs := Sanitize.Runs(RowsIn(lines));
      Splitting(breakpoints, lines).failure.None? <==> runs != [] && SplitsCleanly(runs, breakpoints)
    ensures var runs := Sanitize.Runs(RowsIn(lines));
      Splitting(breakpoints, lines).failure.None? ==>
        && SplitsCleanly(runs, breakpoints)
        && RowsIn(Splitting(breakpoints, lines).lines) == Flatten(Outputs(runs, breakpoints))
        && CommentsIn(Splitting(breakpoints, lines).lines) == CommentsIn(lines)
        && forall k :: 0 <= k < |runs| ==>
             Outputs(runs, breakpoints)[k]
               == if runs[k][0].objectName in breakpoints
                  then SplitScaffoldSpec(runs[k], breakpoints[runs[k][0].objectName]).value
                  else runs[k]
  {
    RunFoldTracks(lines, breakpoints);
    var runs: seq<seq<Row>> := Sanitize.Runs(RowsIn(lines));
    Sanitize.RunsShape(RowsIn(lines));
    FlushAllSpec(Finished(runs), breakpoints);
    if runs != [] {
      assert Finished(runs) == runs[..|runs| - 1];
      FlushAllSpec(runs, breakpoints);
    }
    match RunFold(lines, breakpoints)
    case Failed(printed) =>
    case Running(printed, buffer) =>
      if buffer != [] {
        match Flush(buffer, breakpoints)
        case None =>
        case Some(more) =>
          FilterConcat(printed, AsLines(more));
          FilterAsLines(more);
      }
  }
}
