/** Moving BED intervals from contig coordinates to scaffold coordinates,
    through the placement of each contig that an AGP file gives. */
module Transform {
  import opened Wrappers
  import opened Seqs
  import opened Agp
  import opened Bed

  datatype TransformError = NoSuchContigError(contigName: string)

  /** The text `NoSuchContigError` shows. */
  function NoSuchContigMessage(contigName: string): string
  {
    "Cannot find contig called \"" + contigName + "\" in AGP"
  }

  /** Where a contig sits: the scaffold, the span it covers there and its
      orientation. */
  datatype Placement = Placement(scaffold: string, start: int, end: int, orientation: string)

  function PlacementOf(r: Row): (p: Placement)
    requires r.Component?
    ensures p.scaffold == r.objectName && p.start == r.objectBeg && p.end == r.objectEnd
    ensures p.orientation == r.orientation
  {
    Placement(r.objectName, r.objectBeg, r.objectEnd, r.orientation)
  }

  /** Line `k` is a component row for contig `id`. */
  predicate PlacesAt(lines: seq<AgpLine>, k: int, id: string)
    requires 0 <= k < |lines|
  {
    lines[k].RowLine? && lines[k].row.Component? && lines[k].row.componentId == id
  }

  /** `contig_to_scaffold`: every component row, by component id; a later
      row for the same id replaces an earlier one. */
  function ContigIndex(lines: seq<AgpLine>): map<string, Placement>
  {
    if lines == [] then map[]
    else
      var index := ContigIndex(lines[..|lines| - 1]);
      var l := Last(lines);
      if l.RowLine? && l.row.Component? then index[l.row.componentId := PlacementOf(l.row)] else index
  }

  /** A contig is in the index exactly when some component row names it. */
  lemma {:induction false} ContigIndexHas(lines: seq<AgpLine>, id: string)
    ensures id in ContigIndex(lines) <==> exists k :: 0 <= k < |lines| && PlacesAt(lines, k, id)
  {
    if lines != [] {
      var init := lines[..|lines| - 1];
      ContigIndexHas(init, id);
      if PlacesAt(lines, |lines| - 1, id) {
        assert id in ContigIndex(lines);
      } else {
        assert id in ContigIndex(lines) <==> id in ContigIndex(init);
        assert forall k :: 0 <= k < |init| ==> (PlacesAt(lines, k, id) <==> PlacesAt(init, k, id));
      }
    }
  }

  /** The placement kept for a contig is that of the last row naming it. */
  lemma {:induction false} ContigIndexLast(lines: seq<AgpLine>, k: nat, id: string)
    requires k < |lines| && PlacesAt(lines, k, id)
    requires forall j :: k < j < |lines| ==> !PlacesAt(lines, j, id)
    ensures id in ContigIndex(lines) && ContigIndex(lines)[id] == PlacementOf(lines[k].row)
  {
    var init := lines[..|lines| - 1];
    if k < |init| {
      forall j | k < j < |init|
        ensures !PlacesAt(init, j, id)
      {
        assert !PlacesAt(lines, j, id);
      }
      ContigIndexLast(init, k, id);
      assert !PlacesAt(lines, |lines| - 1, id);
    }
  }

  /** `+` and `-` swap; any other strand, or none, stays. */
  function FlipStrand(strand: Option<string>): (s: Option<string>)
    ensures strand == Some("+") ==> s == Some("-")
    ensures strand == Some("-") ==> s == Some("+")
    ensures strand != Some("+") && strand != Some("-") ==> s == strand
  {
    if strand == Some("-") then Some("+") else if strand == Some("+") then Some("-") else strand
  }

  /** One record moved onto the scaffold its contig sits in: a contig in
      orientation `-` reads backwards from the end of its span and its strand
      flips; any other orientation shifts both ends by the start of the span
      less one. */
  function Transformed(b: BedRange, p: Placement): (t: BedRange)
    requires b.start.Some? && b.end.Some?
    ensures t.start.Some? && t.end.Some?
    ensures t.chrom == p.scaffold
    ensures t.name == b.name && t.score == b.score && t.extraFields == b.extraFields
    ensures p.orientation == "-" ==> t.strand == FlipStrand(b.strand)
    ensures p.orientation != "-" ==> t.strand == b.strand
  {
    var s, e := b.start.value, b.end.value;
    if p.orientation == "-" then
      b.(chrom := p.scaffold, start := Some(p.end - e + 1), end := Some(p.end - s + 1), strand := FlipStrand(b.strand))
    else
      b.(chrom := p.scaffold, start := Some(s + p.start - 1), end := Some(e + p.start - 1))
  }

  /** The interval keeps its length either way. */
  lemma TransformedLength(b: BedRange, p: Placement)
    requires b.start.Some? && b.end.Some?
    ensures Transformed(b, p).end.value - Transformed(b, p).start.value == b.end.value - b.start.value
  {
  }

  /** An interval within the first `n` bases of a contig placed on a span of
      `n` bases lands within that span, whichever the orientation. */
  lemma TransformedWithin(b: BedRange, p: Placement)
    requires b.start.Some? && b.end.Some?
    requires 1 <= b.start.value <= b.end.value <= p.end - p.start + 1
    ensures p.start <= Transformed(b, p).start.value <= Transformed(b, p).end.value <= p.end
  {
  }

  /** Orientation `-` is the mirror image of `+` within the span: each end
      lies as far from one end of the span as the other end would from the
      other. */
  lemma TransformedMirror(b: BedRange, p: Placement)
    requires b.start.Some? && b.end.Some? && p.orientation == "-"
    ensures var forward := Transformed(b, p.(orientation := "+"));
      && Transformed(b, p).start.value - p.start == p.end - forward.end.value
      && p.end - Transformed(b, p).end.value == forward.start.value - p.start
  {
  }

  /** Flipping the strand twice gives it back. */
  lemma FlipStrandTwice(strand: Option<string>)
    ensures FlipStrand(FlipStrand(strand)) == strand
  {
  }

  /** Every record the loop reaches before a missing contig has both
      coordinates; a record without them makes the arithmetic fail. */
  predicate CoordinatesWhereUsed(bs: seq<BedRange>, index: map<string, Placement>)
  {
    forall k :: 0 <= k < |bs| && (forall j :: 0 <= j <= k ==> bs[j].chrom in index) ==>
      bs[k].start.Some? && bs[k].end.Some?
  }

  lemma CoordinatesPrefix(bs: seq<BedRange>, n: nat, index: map<string, Placement>)
    requires n <= |bs| && CoordinatesWhereUsed(bs, index)
    ensures CoordinatesWhereUsed(bs[..n], index)
  {
    forall k | 0 <= k < n && (forall j :: 0 <= j <= k ==> bs[..n][j].chrom in index)
      ensures bs[..n][k].start.Some? && bs[..n][k].end.Some?
    {
      assert forall j :: 0 <= j <= k ==> bs[..n][j] == bs[j];
    }
  }

  /** The loop over the records: each record whose contig is placed is
      moved; the first record whose contig is not stops it. */
  function TransformAll(bs: seq<BedRange>, index: map<string, Placement>): (out: Emitted<BedRange, TransformError>)
    requires CoordinatesWhereUsed(bs, index)
    ensures out.failure.None? ==> |out.lines| == |bs| && forall k :: 0 <= k < |bs| ==> bs[k].chrom in index
  {
    if bs == [] then Emitted([], None)
    else
      var init := bs[..|bs| - 1];
      CoordinatesPrefix(bs, |bs| - 1, index);
      var prev := TransformAll(init, index);
      var b := Last(bs);
      assert forall j :: 0 <= j < |init| ==> init[j] == bs[j];
      if prev.failure.Some? then prev
      else if b.chrom !in index then Emitted(prev.lines, Some(NoSuchContigError(b.chrom)))
      else Emitted(prev.lines + [Transformed(b, index[b.chrom])], None)
  }

  /** Without a missing contig every record is moved, in order; otherwise
      the records before the first missing one are moved and the error names
      that record's contig. */
  lemma {:induction false} TransformAllSpec(bs: seq<BedRange>, index: map<string, Placement>)
    requires CoordinatesWhereUsed(bs, index)
    ensures var out := TransformAll(bs, index);
      && (out.failure.None? <==> forall k :: 0 <= k < |bs| ==> bs[k].chrom in index)
      && (out.failure.Some? ==>
            var n := |out.lines|;
            && n < |bs| && bs[n].chrom !in index
            && (forall j :: 0 <= j < n ==> bs[j].chrom in index)
            && out.failure == Some(NoSuchContigError(bs[n].chrom)))
      && forall j :: 0 <= j < |out.lines| ==>
           bs[j].chrom in index && bs[j].start.Some? && bs[j].end.Some?
           && out.lines[j] == Transformed(bs[j], index[bs[j].chrom])
  {
    if bs != [] {
      var init := bs[..|bs| - 1];
      CoordinatesPrefix(bs, |bs| - 1, index);
      TransformAllSpec(init, index);
      assert forall j :: 0 <= j < |init| ==> bs[j] == init[j];
    }
  }

  /** Everything `run` prints, and the error it raises, if any. */
  function Transforming(bedIn: seq<BedRange>, agpIn: seq<AgpLine>): Emitted<BedRange, TransformError>
    requires CoordinatesWhereUsed(bedIn, ContigIndex(agpIn))
  {
    TransformAll(bedIn, ContigIndex(agpIn))
  }

  /** The loop that builds `contig_to_scaffold`. */
  method IndexContigs(agpIn: seq<AgpLine>) returns (contigToScaffold: map<string, Placement>)
    ensures contigToScaffold == ContigIndex(agpIn)
  {
    contigToScaffold := map[];
    for i := 0 to |agpIn|
      invariant contigToScaffold == ContigIndex(agpIn[..i])
    {
      assert agpIn[..i + 1][..i] == agpIn[..i];
      var line := agpIn[i];
      if line.RowLine? && !line.row.Gap? {
        var row := line.row;
        contigToScaffold := contigToScaffold[row.componentId := Placement(row.objectName, row.objectBeg, row.objectEnd, row.orientation)];
      }
    }
    assert agpIn[..|agpIn|] == agpIn;
  }

  /** The body of `run`'s loop for a record whose contig is placed. */
  method MoveRecord(bedRow: BedRange, placement: Placement) returns (moved: BedRange)
    requires bedRow.start.Some? && bedRow.end.Some?
    ensures moved == Transformed(bedRow, placement)
  {
    var scaffold, start, end, orient := placement.scaffold, placement.start, placement.end, placement.orientation;
    moved := bedRow.(chrom := scaffold);
    if orient == "-" {
      var tmpEnd := end - bedRow.start.value + 1;
      var tmpStart := end - bedRow.end.value + 1;
      moved := moved.(start := Some(tmpStart), end := Some(tmpEnd));
      if moved.strand == Some("-") {
        moved := moved.(strand := Some("+"));
      } else if moved.strand == Some("+") {
        moved := moved.(strand := Some("-"));
      }
    } else {
      moved := moved.(start := Some(bedRow.start.value + start - 1), end := Some(bedRow.end.value + start - 1));
    }
  }

  /** `run`. */
  method Run(bedIn: seq<BedRange>, agpIn: seq<AgpLine>) returns (out: Emitted<BedRange, TransformError>)
    requires CoordinatesWhereUsed(bedIn, ContigIndex(agpIn))
    ensures out == Transforming(bedIn, agpIn)
  {
    var contigToScaffold := IndexContigs(agpIn);
    var printed: seq<BedRange> := [];
    for i := 0 to |bedIn|
      invariant CoordinatesWhereUsed(bedIn[..i], contigToScaffold)
      invariant TransformAll(bedIn[..i], contigToScaffold) == Emitted(printed, None)
    {
      CoordinatesPrefix(bedIn, i + 1, contigToScaffold);
      var bedRow := bedIn[i];
      if bedRow.chrom !in contigToScaffold {
        TransformAllStop(bedIn, i, contigToScaffold, printed);
        return Emitted(printed, Some(NoSuchContigError(bedRow.chrom)));
      }
      TransformAllStep(bedIn, i, contigToScaffold, printed);
      bedRow := MoveRecord(bedRow, contigToScaffold[bedRow.chrom]);
      printed := printed + [bedRow];
    }
    assert bedIn[..|bedIn|] == bedIn;
    return Emitted(printed, None);
  }

  /** A record whose contig is not placed stops the loop. */
  lemma TransformAllStop(bs: seq<BedRange>, n: nat, index: map<string, Placement>, printed: seq<BedRange>)
    requires n < |bs| && CoordinatesWhereUsed(bs, index) && bs[n].chrom !in index
    requires CoordinatesWhereUsed(bs[..n], index) && TransformAll(bs[..n], index) == Emitted(printed, None)
    ensures TransformAll(bs, index) == Emitted(printed, Some(NoSuchContigError(bs[n].chrom)))
  {
    assert bs[..n + 1][..n] == bs[..n];
    CoordinatesPrefix(bs, n + 1, index);
    TransformAllSticks(bs, n + 1, index);
  }

  /** One more record whose contig is placed. */
  lemma TransformAllStep(bs: seq<BedRange>, n: nat, index: map<string, Placement>, printed: seq<BedRange>)
    requires n < |bs| && CoordinatesWhereUsed(bs[..n + 1], index) && bs[n].chrom in index
    requires CoordinatesWhereUsed(bs[..n], index) && TransformAll(bs[..n], index) == Emitted(printed, None)
    ensures bs[n].start.Some? && bs[n].end.Some?
    ensures TransformAll(bs[..n + 1], index) == Emitted(printed + [Transformed(bs[n], index[bs[n].chrom])], None)
  {
    var s := bs[..n + 1];
    assert s[..n] == bs[..n];
    assert Last(s) == bs[n];
    assert forall j :: 0 <= j <= n ==> s[j].chrom in index by {
      forall j | 0 <= j <= n ensures s[j].chrom in index {
        if j < n {
          assert s[j] == bs[..n][j];
        }
      }
    }
    assert s[n].start.Some? && s[n].end.Some?;
  }

  /** Once the loop has stopped, the later records change nothing. */
  lemma {:induction false} TransformAllSticks(bs: seq<BedRange>, n: nat, index: map<string, Placement>)
    requires n <= |bs| && CoordinatesWhereUsed(bs, index)
    requires CoordinatesWhereUsed(bs[..n], index) && TransformAll(bs[..n], index).failure.Some?
    ensures TransformAll(bs, index) == TransformAll(bs[..n], index)
    decreases |bs| - n
  {
    if n < |bs| {
      assert bs[..n + 1][..n] == bs[..n];
      CoordinatesPrefix(bs, n + 1, index);
      TransformAllSticks(bs, n + 1, index);
    } else {
      assert bs[..n] == bs;
    }
  }
}
