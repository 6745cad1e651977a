/** Removing whole scaffolds (AGP objects) from a file. */
module Remove {
  import opened Wrappers
  import opened Agp

  /** `ScaffoldNotFoundError`, with the names that were never seen. */
  datatype ScaffoldNotFoundError = ScaffoldNotFoundError(names: set<string>)

  /** A line `run` prints: a comment, or a row of an object not being removed. */
  predicate Keeps(toRemove: set<string>, l: AgpLine)
  {
    l.Comment? || l.row.objectName !in toRemove
  }

  /** The lines `run` prints, in input order. */
  function Kept(toRemove: set<string>, lines: seq<AgpLine>): seq<AgpLine>
  {
    if lines == [] then []
    else
      var l := lines[|lines| - 1];
      Kept(toRemove, lines[..|lines| - 1]) + (if Keeps(toRemove, l) then [l] else [])
  }

  /** The objects named by the rows of `lines`. */
  function Objects(lines: seq<AgpLine>): set<string>
  {
    set i | 0 <= i < |lines| && lines[i].RowLine? :: lines[i].row.objectName
  }

  /** Everything `run` does: the printed lines, then the error naming every
      scaffold to remove that no row belongs to, if there is one. */
  function Removal(toRemove: set<string>, lines: seq<AgpLine>): Emitted<AgpLine, ScaffoldNotFoundError>
  {
    var remaining := toRemove - (toRemove * Objects(lines));
    Emitted(Kept(toRemove, lines), if remaining != {} then Some(ScaffoldNotFoundError(remaining)) else None)
  }

  /** No printed row belongs to a removed scaffold; every printed line comes
      from the input; every comment and every row of another scaffold is
      printed. */
  lemma {:induction false} KeptSpec(toRemove: set<string>, lines: seq<AgpLine>)
    ensures forall l :: l in Kept(toRemove, lines) ==> l in lines && Keeps(toRemove, l)
    ensures forall l :: l in lines && Keeps(toRemove, l) ==> l in Kept(toRemove, lines)
    ensures |Kept(toRemove, lines)| <= |lines|
  {
    if lines != [] {
      var init := lines[..|lines| - 1];
      KeptSpec(toRemove, init);
      assert lines == init + [lines[|lines| - 1]];
    }
  }

  /** Removing again removes nothing more. */
  lemma {:induction false} KeptIdempotent(toRemove: set<string>, lines: seq<AgpLine>)
    ensures Kept(toRemove, Kept(toRemove, lines)) == Kept(toRemove, lines)
  {
    if lines != [] {
      var init := lines[..|lines| - 1];
      var l := lines[|lines| - 1];
      KeptIdempotent(toRemove, init);
      var k := Kept(toRemove, init);
      if Keeps(toRemove, l) {
        assert Kept(toRemove, lines) == k + [l];
        assert (k + [l])[..|k + [l]| - 1] == k;
        assert Kept(toRemove, k + [l]) == Kept(toRemove, k) + [l];
      } else {
        assert Kept(toRemove, lines) == k;
      }
    }
  }

  /** Removing works line by line, so the printed lines keep their input
      order: the lines kept from two stretches are those of each in turn. */
  lemma {:induction false} KeptConcat(toRemove: set<string>, a: seq<AgpLine>, b: seq<AgpLine>)
    ensures Kept(toRemove, a + b) == Kept(toRemove, a) + Kept(toRemove, b)
    decreases |b|
  {
    if b == [] {
      assert a + b == a;
    } else {
      var init := b[..|b| - 1];
      KeptConcat(toRemove, a, init);
      assert (a + b)[..|a + b| - 1] == a + init;
      assert (a + b)[|a + b| - 1] == b[|b| - 1];
    }
  }

  /** The error is raised exactly when some scaffold to remove has no row,
      and it names exactly those scaffolds. */
  lemma RemovalError(toRemove: set<string>, lines: seq<AgpLine>)
    ensures Removal(toRemove, lines).failure.Some? <==>
      exists name :: name in toRemove && forall i :: 0 <= i < |lines| && lines[i].RowLine? ==> lines[i].row.objectName != name
    ensures Removal(toRemove, lines).failure.Some? ==>
      forall name :: name in Removal(toRemove, lines).failure.value.names <==>
        name in toRemove && forall i :: 0 <= i < |lines| && lines[i].RowLine? ==> lines[i].row.objectName != name
  {
    var remaining := toRemove - (toRemove * Objects(lines));
    forall name
      ensures name in remaining <==>
        name in toRemove && forall i :: 0 <= i < |lines| && lines[i].RowLine? ==> lines[i].row.objectName != name
    {
      if name in toRemove && name !in remaining {
        assert name in Objects(lines);
      }
    }
  }

  /** `run`. */
  method Run(toRemove: set<string>, lines: seq<AgpLine>) returns (out: Emitted<AgpLine, ScaffoldNotFoundError>)
    ensures out == Removal(toRemove, lines)
  {
    var printed: seq<AgpLine> := [];
    var scaffoldsRemoved: set<string> := {};
    for i := 0 to |lines|
      invariant printed == Kept(toRemove, lines[..i])
      invariant scaffoldsRemoved == toRemove * Objects(lines[..i])
    {
      assert lines[..i + 1][..i] == lines[..i];
      var row := lines[i];
      if row.Comment? || row.row.objectName !in toRemove {
        printed := printed + [row];
      } else {
        scaffoldsRemoved := scaffoldsRemoved + {row.row.objectName};
      }
      assert Objects(lines[..i + 1]) == Objects(lines[..i]) + (if row.RowLine? then {row.row.objectName} else {}) by {
        var p, q := lines[..i], lines[..i + 1];
        assert forall j :: 0 <= j < i ==> q[j] == p[j];
      }
    }
    assert lines[..|lines|] == lines;
    var remainingScaffolds := toRemove - scaffoldsRemoved;
    if remainingScaffolds != {} {
      return Emitted(printed, Some(ScaffoldNotFoundError(remainingScaffolds)));
    }
    return Emitted(printed, None);
  }
}
