/** Cutting a contig's sequence at breakpoints. */
module BreakContigs {
  import opened Text
  import opened Seqs

  /** A piece of a broken contig: its id and its bases. */
  datatype Piece = Piece(id: string, bases: string)

  /** The id of piece `i` (counted from 1) of contig `id`. */
  function PieceId(id: string, i: nat): string
  {
    id + "_" + NatToString(i)
  }

  /** The pieces cut from `s` from index `previous` on, at the (sorted)
      breakpoints `bps`; the first of them is piece number `i`. */
  function PiecesFrom(id: string, s: string, bps: seq<int>, previous: int, i: nat): (ps: seq<Piece>)
    ensures |ps| == |bps| + 1
    ensures forall k :: 0 <= k < |ps| ==> ps[k].id == PieceId(id, k + i)
    decreases |bps|
  {
    if bps == [] then [Piece(PieceId(id, i), PySlice(s, previous, |s|))]
    else [Piece(PieceId(id, i), PySlice(s, previous, bps[0]))] + PiecesFrom(id, s, bps[1..], bps[0], i + 1)
  }

  /** What `break_contig` yields for a contig with sequence `s`. */
  function Pieces(id: string, s: string, breakpoints: seq<int>): seq<Piece>
  {
    PiecesFrom(id, s, SortInts(breakpoints), 0, 1)
  }

  /** The bases of each piece, in order. */
  function Bases(ps: seq<Piece>): seq<string>
  {
    if ps == [] then [] else [ps[0].bases] + Bases(ps[1..])
  }

  /** Piece `k` holds the bases between cut `k` and cut `k+1`, where the
      cuts are 0, the sorted breakpoints and the length of the sequence;
      its id is the contig id with suffix `k+1`. */
  lemma Cover(id: string, s: string, breakpoints: seq<int>)
    ensures var ps, cuts := Pieces(id, s, breakpoints), [0] + SortInts(breakpoints) + [|s|];
      && |ps| == |breakpoints| + 1
      && (forall k :: 0 <= k < |ps| ==> ps[k].id == PieceId(id, k + 1))
      && (forall k :: 0 <= k < |ps| ==> ps[k].bases == PySlice(s, cuts[k], cuts[k + 1]))
  {
    var bps := SortInts(breakpoints);
    assert |bps| == |breakpoints|;
    CoverFrom(id, s, bps, 0, 1);
  }

  lemma {:induction false} CoverFrom(id: string, s: string, bps: seq<int>, previous: int, i: nat)
    ensures var ps, cuts := PiecesFrom(id, s, bps, previous, i), [previous] + bps + [|s|];
      forall k :: 0 <= k < |ps| ==> ps[k].bases == PySlice(s, cuts[k], cuts[k + 1])
    decreases |bps|
  {
    if bps != [] {
      CoverFrom(id, s, bps[1..], bps[0], i + 1);
      var cuts := [previous] + bps + [|s|];
      assert cuts[1..] == [bps[0]] + bps[1..] + [|s|];
    }
  }

  /** The bases of the pieces cut from index `previous` on. */
  function SlicesFrom(s: string, bps: seq<int>, previous: int): seq<string>
    decreases |bps|
  {
    if bps == [] then [PySlice(s, previous, |s|)]
    else [PySlice(s, previous, bps[0])] + SlicesFrom(s, bps[1..], bps[0])
  }

  lemma {:induction false} BasesOfPieces(id: string, s: string, bps: seq<int>, previous: int, i: nat)
    ensures Bases(PiecesFrom(id, s, bps, previous, i)) == SlicesFrom(s, bps, previous)
    decreases |bps|
  {
    if bps != [] {
      BasesOfPieces(id, s, bps[1..], bps[0], i + 1);
      var ps := PiecesFrom(id, s, bps, previous, i);
      assert ps[1..] == PiecesFrom(id, s, bps[1..], bps[0], i + 1);
    }
  }

  /** With sorted non-negative breakpoints, the pieces put back together
      give the whole sequence. */
  lemma Concatenation(id: string, s: string, breakpoints: seq<int>)
    requires forall k :: 0 <= k < |breakpoints| ==> breakpoints[k] >= 0
    ensures Flatten(Bases(Pieces(id, s, breakpoints))) == s
  {
    var bps := SortInts(breakpoints);
    SortIntsSpec(breakpoints);
    forall k | 0 <= k < |bps|
      ensures bps[k] >= 0
    {
      assert bps[k] in multiset(breakpoints);
      var j :| 0 <= j < |breakpoints| && breakpoints[j] == bps[k];
    }
    BasesOfPieces(id, s, bps, 0, 1);
    SlicesConcatenate(s, bps, 0);
  }

  lemma {:induction false} SlicesConcatenate(s: string, bps: seq<int>, previous: nat)
    requires Sorted(bps) && forall k :: 0 <= k < |bps| ==> bps[k] >= previous
    requires previous <= |s|
    ensures Flatten(SlicesFrom(s, bps, previous)) == s[previous..]
    decreases |bps|, 1
  {
    if bps == [] {
      PySliceForward(s, previous, |s|);
      FlattenSingle(s[previous..]);
    } else if bps[0] <= |s| {
      SlicesWithin(s, bps, previous);
    } else {
      SlicesBeyond(s, bps, previous);
    }
  }

  /** The first breakpoint lies within the sequence: the first piece runs up
      to it and the rest put back together give the sequence from it on. */
  lemma {:induction false} SlicesWithin(s: string, bps: seq<int>, previous: nat)
    requires Sorted(bps) && forall k :: 0 <= k < |bps| ==> bps[k] >= previous
    requires previous <= |s| && bps != [] && bps[0] <= |s|
    ensures Flatten(SlicesFrom(s, bps, previous)) == s[previous..]
    decreases |bps|, 0
  {
    var b := bps[0];
    SlicesHead(s, bps, previous);
    PySliceForward(s, previous, b);
    SlicesConcatenate(s, bps[1..], b);
    assert s[previous..b] + s[b..] == s[previous..];
  }

  /** The first breakpoint lies past the end: the first piece is the rest of
      the sequence and every later piece is empty. */
  lemma SlicesBeyond(s: string, bps: seq<int>, previous: nat)
    requires Sorted(bps) && previous <= |s| && bps != [] && bps[0] > |s|
    ensures Flatten(SlicesFrom(s, bps, previous)) == s[previous..]
  {
    SlicesHead(s, bps, previous);
    PySliceForward(s, previous, bps[0]);
    SlicesPastEnd(s, bps[1..], bps[0]);
    assert s[previous..] + [] == s[previous..];
  }

  lemma SlicesHead(s: string, bps: seq<int>, previous: int)
    requires bps != []
    ensures Flatten(SlicesFrom(s, bps, previous)) == PySlice(s, previous, bps[0]) + Flatten(SlicesFrom(s, bps[1..], bps[0]))
  {
    FlattenCons(PySlice(s, previous, bps[0]), SlicesFrom(s, bps[1..], bps[0]));
  }

  /** Breakpoints past the end of the sequence yield empty pieces. */
  lemma {:induction false} SlicesPastEnd(s: string, bps: seq<int>, previous: int)
    requires previous >= |s| && forall k :: 0 <= k < |bps| ==> bps[k] >= |s|
    ensures Flatten(SlicesFrom(s, bps, previous)) == []
    decreases |bps|
  {
    if bps == [] {
      FlattenSingle(PySlice(s, previous, |s|));
    } else {
      var rest := SlicesFrom(s, bps[1..], bps[0]);
      assert PySlice(s, previous, bps[0]) == [];
      assert SlicesFrom(s, bps, previous) == [[]] + rest;
      SlicesPastEnd(s, bps[1..], bps[0]);
      FlattenCons([], rest);
    }
  }

  /** Unfolding `PiecesFrom` on a suffix of the breakpoints. */
  lemma PiecesFromStep(id: string, s: string, bps: seq<int>, previous: int, i: nat)
    requires i < |bps|
    ensures PiecesFrom(id, s, bps[i..], previous, i + 1)
      == [Piece(PieceId(id, i + 1), PySlice(s, previous, bps[i]))] + PiecesFrom(id, s, bps[i + 1..], bps[i], i + 2)
  {
    assert bps[i..][1..] == bps[i + 1..];
  }

  /** `break_contig`. */
  method BreakContig(id: string, s: string, breakpoints: seq<int>) returns (pieces: seq<Piece>)
    ensures pieces == Pieces(id, s, breakpoints)
  {
    var bps := SortInts(breakpoints);
    var previousBreakpoint := 0;
    pieces := [];
    for i := 0 to |bps|
      invariant previousBreakpoint == (if i == 0 then 0 else bps[i - 1])
      invariant pieces + PiecesFrom(id, s, bps[i..], previousBreakpoint, i + 1) == Pieces(id, s, breakpoints)
    {
      PiecesFromStep(id, s, bps, previousBreakpoint, i);
      pieces := pieces + [Piece(PieceId(id, i + 1), PySlice(s, previousBreakpoint, bps[i]))];
      previousBreakpoint := bps[i];
    }
    assert bps[|bps|..] == [];
    pieces := pieces + [Piece(PieceId(id, |breakpoints| + 1), PySlice(s, previousBreakpoint, |s|))];
  }
}
