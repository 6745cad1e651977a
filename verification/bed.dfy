/** BED records as the AGP tools read and write them: a sequence name,
    optionally a start and an end, then the UCSC name, score and strand
    columns and any further columns. */
module Bed {
  import opened Wrappers
  import opened Text
  import opened Seqs

  /** `BedRange`. `None` stands for Python's `None`. */
  datatype BedRange = BedRange(chrom: string, start: Option<int>, end: Option<int>,
                               name: Option<string>, score: Option<string>, strand: Option<string>,
                               extraFields: seq<string>)

  /** The `BedRange` constructor: with at least three extra columns the first
      three are the name, score and strand and the rest stay extra; with
      fewer, name, score and strand are `None` and every column stays extra. */
  function MakeBedRange(chrom: string, start: Option<int> := None, end: Option<int> := None,
                        extra: seq<string> := []): (b: BedRange)
    ensures b.chrom == chrom && b.start == start && b.end == end
    ensures |extra| >= 3 ==>
      b.name == Some(extra[0]) && b.score == Some(extra[1]) && b.strand == Some(extra[2])
      && b.extraFields == extra[3..]
    ensures |extra| < 3 ==>
      b.name.None? && b.score.None? && b.strand.None? && b.extraFields == extra
  {
    if |extra| >= 3 then BedRange(chrom, start, end, Some(extra[0]), Some(extra[1]), Some(extra[2]), extra[3..])
    else BedRange(chrom, start, end, None, None, None, extra)
  }

  /** Python truthiness of an optional string: present and non-empty. */
  predicate Truthy(s: Option<string>)
  {
    s.Some? && s.value != []
  }

  /** The columns `__str__` writes. */
  function Columns(b: BedRange): (cols: seq<string>)
    ensures |cols| >= 1 && cols[0] == b.chrom
  {
    if b.start.Some? && b.end.Some? then
      var named := if Truthy(b.name) && Truthy(b.score) && Truthy(b.strand)
                   then [b.name.value, b.score.value, b.strand.value] else [];
      [b.chrom, IntToString(b.start.value), IntToString(b.end.value)] + named + b.extraFields
    else [b.chrom]
  }

  /** `BedRange.__str__`: the columns, tab-joined. */
  function ToString(b: BedRange): string
  {
    Join(Columns(b), '\t')
  }

  /** `read` on one line: a single column gives a range with no coordinates;
      otherwise columns 2 and 3 are integers and the rest are extra columns.
      `None` means the line raises (a missing third column or a column that
      is not an integer). */
  function ReadLine(line: string): (r: Option<BedRange>)
    ensures var f := Split(Strip(line), '\t');
      && (|f| == 1 ==> r == Some(MakeBedRange(f[0])))
      && (|f| == 2 ==> r.None?)
      && (|f| >= 3 ==>
            (r.Some? <==> ParseInt(f[1]).Some? && ParseInt(f[2]).Some?)
            && (r.Some? ==> r.value == MakeBedRange(f[0], ParseInt(f[1]), ParseInt(f[2]), f[3..])))
  {
    var f := Split(Strip(line), '\t');
    if |f| == 1 then Some(MakeBedRange(f[0]))
    else if |f| == 2 then None
    else
      match (ParseInt(f[1]), ParseInt(f[2]))
      case (Some(s), Some(e)) => Some(MakeBedRange(f[0], Some(s), Some(e), f[3..]))
      case _ => None
  }

  /** Python's `str` on an optional integer. */
  function OptionalIntText(i: Option<int>): string
  {
    match i
    case Some(v) => IntToString(v)
    case None => "None"
  }

  /** The text of `EmptyRangeError`. */
  function EmptyRangeMessage(b: BedRange): string
  {
    "The range " + b.chrom + ":" + OptionalIntText(b.start) + "-" + OptionalIntText(b.end)
    + " does not contain any contigs."
  }

  /** The text of `BadRangeError`. The two literals of the source are
      adjacent, so "a" and "component" run together. */
  function BadRangeMessage(b: BedRange): string
  {
    "The bed range " + b.chrom + ":" + OptionalIntText(b.start) + "-" + OptionalIntText(b.end)
    + " starts and/or ends in the middle of a" + "component. This is not supported in this module."
  }

  /** A range that `__str__` writes in a form `read` gives back unchanged:
      coordinates both present or both absent; without coordinates nothing
      else; with them either all of name, score and strand non-empty, or
      none of them and fewer than three extra columns; no tab in any
      column; and no whitespace at either end of the line. */
  predicate Writable(b: BedRange)
  {
    var cols := Columns(b);
    && b.start.Some? == b.end.Some?
    && (b.start.None? ==> b.name.None? && b.score.None? && b.strand.None? && b.extraFields == [])
    && (b.start.Some? ==>
          (Truthy(b.name) && Truthy(b.score) && Truthy(b.strand))
          || (b.name.None? && b.score.None? && b.strand.None? && |b.extraFields| < 3))
    && (forall i :: 0 <= i < |cols| ==> '\t' !in cols[i])
    && b.chrom != [] && !IsSpace(b.chrom[0])
    && Last(cols) != [] && !IsSpace(Last(Last(cols)))
  }

  /** Writing a range and reading the line back gives the same range. */
  lemma ReadToString(b: BedRange)
    requires Writable(b)
    ensures ReadLine(ToString(b)) == Some(b)
  {
    var cols := Columns(b);
    var line := ToString(b);
    JoinLastChar(cols, '\t');
    assert line[0] == b.chrom[0];
    assert Trimmed(line);
    assert Strip(line) == line;
    SplitJoin(cols, '\t');
    assert Split(Strip(line), '\t') == cols;
    ReadColumns(b);
  }

  /** The columns of a writable range are read back as that range. */
  lemma ReadColumns(b: BedRange)
    requires Writable(b)
    ensures |Columns(b)| != 2
    ensures |Columns(b)| == 1 ==> b == MakeBedRange(b.chrom)
    ensures |Columns(b)| >= 3 ==>
      var f := Columns(b);
      ParseInt(f[1]) == b.start && ParseInt(f[2]) == b.end
      && b == MakeBedRange(f[0], b.start, b.end, f[3..])
  {
    if b.start.Some? {
      ColumnsTail(b);
      var f := Columns(b);
      ParseIntToString(b.start.value);
      ParseIntToString(b.end.value);
      assert ParseInt(f[1]) == b.start && ParseInt(f[2]) == b.end;
    }
  }

  lemma ColumnsTail(b: BedRange)
    requires Writable(b) && b.start.Some?
    ensures |Columns(b)| >= 3 && b == MakeBedRange(b.chrom, b.start, b.end, Columns(b)[3..])
    ensures Columns(b)[1] == IntToString(b.start.value) && Columns(b)[2] == IntToString(b.end.value)
  {
    var f := Columns(b);
    var head := [b.chrom, IntToString(b.start.value), IntToString(b.end.value)];
    var named := if Truthy(b.name) && Truthy(b.score) && Truthy(b.strand)
                 then [b.name.value, b.score.value, b.strand.value] else [];
    assert f == head + (named + b.extraFields);
    assert f[3..] == named + b.extraFields;
  }
}
