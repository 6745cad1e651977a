/** Writing a sequence in FASTA form: a `>name` header, then the sequence
    cut into lines of at most `wrap` characters. */
module Fasta {
  import opened Seqs

  /** The sequence cut into consecutive pieces of `wrap` characters, the
      last one possibly shorter. */
  function Chunks(s: string, wrap: nat): (lines: seq<string>)
    requires wrap > 0
    decreases |s|
  {
    if s == [] then []
    else if |s| <= wrap then [s]
    else [s[..wrap]] + Chunks(s[wrap..], wrap)
  }

  /** The pieces put back together give the sequence; every piece but the
      last has exactly `wrap` characters and the last between 1 and `wrap`;
      there are no pieces exactly when the sequence is empty. */
  lemma {:induction false} ChunksSpec(s: string, wrap: nat)
    requires wrap > 0
    ensures Flatten(Chunks(s, wrap)) == s
    ensures forall k :: 0 <= k < |Chunks(s, wrap)| - 1 ==> |Chunks(s, wrap)[k]| == wrap
    ensures |Chunks(s, wrap)| > 0 ==> 1 <= |Last(Chunks(s, wrap))| <= wrap
    ensures Chunks(s, wrap) == [] <==> s == []
    decreases |s|
  {
    var c := Chunks(s, wrap);
    if s == [] {
    } else if |s| <= wrap {
      FlattenSingle(s);
    } else {
      var rest := Chunks(s[wrap..], wrap);
      ChunksSpec(s[wrap..], wrap);
      FlattenConcat([s[..wrap]], rest);
      FlattenSingle(s[..wrap]);
      assert s[..wrap] + s[wrap..] == s;
      assert forall k :: 1 <= k < |c| ==> c[k] == rest[k - 1];
    }
  }

  /** The lines `print_fasta` writes. A negative `wrap` gives an empty
      range, so only the header. */
  function FastaLines(name: string, sequence: string, wrap: int := 60): (lines: seq<string>)
    requires wrap != 0
    ensures |lines| >= 1 && lines[0] == ">" + name
  {
    [">" + name] + (if wrap > 0 then Chunks(sequence, wrap) else [])
  }

  /** With a positive `wrap`: the header, then sequence lines that put back
      together give the sequence, all of `wrap` characters but the last,
      which has between 1 and `wrap`; only the header when the sequence is
      empty. */
  lemma FastaLinesSpec(name: string, sequence: string, wrap: int)
    requires wrap > 0
    ensures FastaLines(name, sequence, wrap)[0] == ">" + name
    ensures Flatten(FastaLines(name, sequence, wrap)[1..]) == sequence
    ensures forall k :: 1 <= k < |FastaLines(name, sequence, wrap)| - 1 ==> |FastaLines(name, sequence, wrap)[k]| == wrap
    ensures |FastaLines(name, sequence, wrap)| > 1 ==> 1 <= |Last(FastaLines(name, sequence, wrap))| <= wrap
    ensures |FastaLines(name, sequence, wrap)| == 1 <==> sequence == []
  {
    var lines, c := FastaLines(name, sequence, wrap), Chunks(sequence, wrap);
    ChunksSpec(sequence, wrap);
    assert lines[1..] == c;
    assert forall k :: 1 <= k < |lines| ==> lines[k] == c[k - 1];
  }

  /** The pieces from `start` on: the next `wrap` characters (or what is
      left), then the pieces after them. */
  lemma ChunksStep(s: string, start: nat, wrap: nat)
    requires wrap > 0 && start < |s|
    ensures var stop := if start + wrap < |s| then start + wrap else |s|;
      Chunks(s[start..], wrap) == [s[start..stop]] + Chunks(s[stop..], wrap)
  {
    var stop := if start + wrap < |s| then start + wrap else |s|;
    var rest := s[start..];
    if |rest| > wrap {
      assert rest[..wrap] == s[start..stop];
      assert rest[wrap..] == s[stop..];
    } else {
      assert rest == s[start..stop];
      assert s[stop..] == [];
    }
  }

  /** `print_fasta`, returning the lines it prints. */
  method PrintFasta(name: string, sequence: string, wrap: int := 60) returns (lines: seq<string>)
    requires wrap != 0
    ensures lines == FastaLines(name, sequence, wrap)
  {
    lines := [">" + name];
    if wrap < 0 {
      return;
    }
    var startPos := 0;
    while startPos < |sequence|
      invariant 0 <= startPos <= |sequence|
      invariant lines + Chunks(sequence[startPos..], wrap) == FastaLines(name, sequence, wrap)
      decreases |sequence| - startPos
    {
      var stop := if startPos + wrap < |sequence| then startPos + wrap else |sequence|;
      ChunksStep(sequence, startPos, wrap);
      lines := lines + [sequence[startPos..stop]];
      startPos := stop;
    }
    assert sequence[startPos..] == [];
  }
}
