/** Composing two AGP files: each component of the outer file is replaced by
    the rows the inner file assembles it from, renamed, renumbered and
    shifted into place. */
module Compose {
  import opened Wrappers
  import opened Seqs
  import opened Agp
  import Flip

  datatype ComposeError =
    | BrokenComponentError(outerRow: Row, innerRow: Row)
    | ComponentNotDefinedError(componentName: string)

  /** The text `ComponentNotDefinedError` shows. */
  function NotDefinedMessage(componentName: string): string
  {
    "Component \"" + componentName + "\" not defined."
  }

  /** `contains`: whether the outer component's range covers the inner
      row's span; covering one end but not the other is an error, since
      components are never broken. */
  function Contains(outerRow: Row, innerRow: Row): (r: Result<bool, ComposeError>)
    requires outerRow.Component?
    ensures r == Ok(true) <==>
      outerRow.componentBeg <= innerRow.objectBeg && outerRow.componentEnd >= innerRow.objectEnd
    ensures r == Ok(false) <==>
      outerRow.componentBeg > innerRow.objectBeg && outerRow.componentEnd < innerRow.objectEnd
    ensures r.Err? ==> r.error == BrokenComponentError(outerRow, innerRow)
  {
    if outerRow.componentBeg <= innerRow.objectBeg && outerRow.componentEnd >= innerRow.objectEnd then
      Ok(true)
    else if outerRow.componentBeg <= innerRow.objectBeg || outerRow.componentEnd >= innerRow.objectEnd then
      Err(BrokenComponentError(outerRow, innerRow))
    else
      Ok(false)
  }

  // ---- the inner file, by object ----

  /** `inner_dict`: the inner file's objects in order of first appearance,
      and the rows of each. */
  datatype Index = Index(order: seq<string>, rows: map<string, seq<Row>>)

  ghost predicate ValidIndex(ix: Index)
  {
    && Distinct(ix.order)
    && (forall n :: n in ix.rows <==> n in ix.order)
    && (forall n :: n in ix.rows ==> ix.rows[n] != [])
  }

  /** One more inner row. */
  function Add(ix: Index, r: Row): (ix': Index)
    requires ValidIndex(ix)
    ensures ValidIndex(ix')
    ensures r.objectName in ix.rows ==> ix'.order == ix.order
    ensures r.objectName !in ix.rows ==> ix'.order == ix.order + [r.objectName]
    ensures ix'.rows[r.objectName] == (if r.objectName in ix.rows then ix.rows[r.objectName] else []) + [r]
    ensures forall n :: n != r.objectName ==> (n in ix'.rows <==> n in ix.rows)
    ensures forall n :: n != r.objectName && n in ix.rows ==> ix'.rows[n] == ix.rows[n]
  {
    if r.objectName in ix.rows then Index(ix.order, ix.rows[r.objectName := ix.rows[r.objectName] + [r]])
    else
      var order := ix.order + [r.objectName];
      assert Distinct(order) by {
        forall i, j | 0 <= i < j < |order|
          ensures order[i] != order[j]
        {
          if j == |ix.order| {
            assert ix.order[i] in ix.rows;
          }
        }
      }
      Index(order, ix.rows[r.objectName := [r]])
  }

  /** `inner_dict` once the inner file is read. */
  function Indexed(inner: seq<AgpLine>): (ix: Index)
    ensures ValidIndex(ix)
  {
    if inner == [] then Index([], map[])
    else
      var ix := Indexed(inner[..|inner| - 1]);
      match Last(inner)
      case RowLine(r) => Add(ix, r)
      case Comment(_) => ix
  }

  /** The index holds every object of the inner file, with all its rows in
      file order. */
  lemma {:induction false} IndexedSpec(inner: seq<AgpLine>)
    ensures forall n :: n in Indexed(inner).rows ==> Indexed(inner).rows[n] == RowsOf(inner, n)
    ensures forall n :: n in Indexed(inner).rows <==> RowsOf(inner, n) != []
  {
    if inner != [] {
      IndexedSpec(inner[..|inner| - 1]);
    }
  }

  predicate Distinct(order: seq<string>)
  {
    forall i, j :: 0 <= i < j < |order| ==> order[i] != order[j]
  }

  /** `order` without `key`. */
  function Drop(order: seq<string>, key: string): (r: seq<string>)
    ensures forall n :: n in r <==> n in order && n != key
  {
    if order == [] then []
    else
      var rest := Drop(order[..|order| - 1], key);
      var n := Last(order);
      assert forall m :: m in order[..|order| - 1] ==> m in order;
      if n == key then rest else rest + [n]
  }

  lemma {:induction false} DropDistinct(order: seq<string>, key: string)
    requires Distinct(order)
    ensures Distinct(Drop(order, key))
  {
    if order != [] {
      var init := order[..|order| - 1];
      DropDistinct(init, key);
      var rest := Drop(init, key);
      var n := Last(order);
      if n != key {
        forall i | 0 <= i < |rest|
          ensures rest[i] != n
        {
          assert rest[i] in init;
          var j :| 0 <= j < |init| && init[j] == rest[i];
          assert order[j] == rest[i];
        }
      }
    }
  }

  /** `del inner_dict[key]`. */
  function Remove(ix: Index, key: string): (r: Index)
    requires ValidIndex(ix)
    ensures ValidIndex(r)
    ensures forall n :: n in r.rows <==> n in ix.rows && n != key
    ensures forall n :: n in r.rows ==> r.rows[n] == ix.rows[n]
  {
    DropDistinct(ix.order, key);
    Index(Drop(ix.order, key), ix.rows - {key})
  }

  /** The rows of each object still in the index, in order. */
  function Groups(ix: Index): (groups: seq<seq<Row>>)
    requires ValidIndex(ix)
    ensures |groups| == |ix.order| && forall i :: 0 <= i < |ix.order| ==> groups[i] == ix.rows[ix.order[i]]
  {
    seq(|ix.order|, i requires 0 <= i < |ix.order| => ix.rows[ix.order[i]])
  }

  /** The rows `print_unused` prints: those of every object still in the
      index, object by object in order of first appearance. */
  function Unused(ix: Index): seq<Row>
    requires ValidIndex(ix)
  {
    Flatten(Groups(ix))
  }

  // ---- composing ----

  /** The loop over the outer file part way: what has been printed, what is
      left of the index, the previous outer object and the next part number. */
  datatype ComposeState = ComposeState(printed: seq<AgpLine>, index: Index, previous: Option<string>, counter: int)

  datatype Progress =
    | Going(state: ComposeState)
    | Stopped(printed: seq<AgpLine>, error: ComposeError)

  /** The part number the next row of object `name` starts from: numbering
      starts again at 1 when the outer object changes, except after an
      object named "" (which Python treats as no previous object). */
  function StartCounter(previous: Option<string>, counter: int, name: string): (c: int)
    ensures previous.Some? && previous.value != "" && previous.value != name ==> c == 1
    ensures previous.None? || previous.value == "" || previous.value == name ==> c == counter
  {
    if previous.Some? && previous.value != "" && previous.value != name then 1 else counter
  }

  /** The inner rows a component is replaced by: in order, or reversed
      when the outer row has orientation `-`. */
  function Oriented(outerRow: Row, innerRows: seq<Row>): (rows: seq<Row>)
    requires outerRow.Component? && |innerRows| > 0
    ensures |rows| == |innerRows|
  {
    if outerRow.orientation == "-" then Flip.Reversed(innerRows) else innerRows
  }

  /** One line of the outer file. */
  function Step(st: ComposeState, line: AgpLine): Progress
    requires ValidIndex(st.index)
  {
    match line
    case Comment(_) => Going(st.(printed := st.printed + [line]))
    case RowLine(o) =>
      var counter := StartCounter(st.previous, st.counter, o.objectName);
      var previous := Some(o.objectName);
      if o.Gap? then
        Going(ComposeState(st.printed + [RowLine(Renumbered(o, counter))], st.index, previous, counter + 1))
      else if o.componentId !in st.index.rows then
        Stopped(st.printed, ComponentNotDefinedError(o.componentId))
      else
        var innerRows := st.index.rows[o.componentId];
        var index := Remove(st.index, o.componentId);
        if o.componentBeg != 1 || o.componentEnd != Last(innerRows).objectEnd then
          Stopped(st.printed, BrokenComponentError(o, Last(innerRows)))
        else
          var spliced := Place(Oriented(o, innerRows), o.objectName, counter, o.objectBeg - 1);
          Going(ComposeState(st.printed + AsLines(spliced), index, previous, counter + |spliced|))
  }

  lemma StepValid(st: ComposeState, line: AgpLine)
    requires ValidIndex(st.index)
    ensures Step(st, line).Going? ==> ValidIndex(Step(st, line).state.index)
  {
  }

  /** The loop over the outer lines, from the full index. */
  function ComposeFold(outer: seq<AgpLine>, ix: Index): (p: Progress)
    requires ValidIndex(ix)
    ensures p.Going? ==> ValidIndex(p.state.index)
  {
    if outer == [] then Going(ComposeState([], ix, None, 1))
    else
      match ComposeFold(outer[..|outer| - 1], ix)
      case Stopped(printed, e) => Stopped(printed, e)
      case Going(st) =>
        StepValid(st, Last(outer));
        Step(st, Last(outer))
  }

  /** Everything `run` prints, and the error it raises, if any. */
  function Composing(outer: seq<AgpLine>, inner: seq<AgpLine>, printUnused: bool): Emitted<AgpLine, ComposeError>
  {
    match ComposeFold(outer, Indexed(inner))
    case Stopped(printed, e) => Emitted(printed, Some(e))
    case Going(st) => Emitted(st.printed + (if printUnused then AsLines(Unused(st.index)) else []), None)
  }

  lemma {:induction false} ComposeFoldSticks(outer: seq<AgpLine>, n: nat, ix: Index)
    requires ValidIndex(ix) && n <= |outer| && ComposeFold(outer[..n], ix).Stopped?
    ensures ComposeFold(outer, ix) == ComposeFold(outer[..n], ix)
    decreases |outer| - n
  {
    if n < |outer| {
      assert outer[..n + 1][..n] == outer[..n];
      ComposeFoldSticks(outer, n + 1, ix);
    } else {
      assert outer[..n] == outer;
    }
  }

  /** What one outer line does: a comment is printed; a gap is printed with
      only its part number changed, to the next number; a component the index
      lacks raises `ComponentNotDefinedError`; a component that does not use
      the whole inner object raises `BrokenComponentError` with the object's
      last row; otherwise the component is replaced by the inner rows,
      reversed if its orientation is `-`, each taking the outer object's
      name, shifted by the outer begin less one and numbered on, and the
      object leaves the index. */
  lemma StepSpec(st: ComposeState, line: AgpLine)
    requires ValidIndex(st.index)
    ensures line.Comment? ==> Step(st, line) == Going(st.(printed := st.printed + [line]))
    ensures line.RowLine? && line.row.Gap? ==>
      var c := StartCounter(st.previous, st.counter, line.row.objectName);
      && Step(st, line).Going?
      && Step(st, line).state.printed == st.printed + [RowLine(Renumbered(line.row, c))]
      && Step(st, line).state.counter == c + 1
      && Step(st, line).state.index == st.index
    ensures line.RowLine? && line.row.Component? && line.row.componentId !in st.index.rows ==>
      Step(st, line) == Stopped(st.printed, ComponentNotDefinedError(line.row.componentId))
    ensures line.RowLine? && line.row.Component? && line.row.componentId in st.index.rows ==>
      var o, innerRows := line.row, st.index.rows[line.row.componentId];
      && ((o.componentBeg != 1 || o.componentEnd != Last(innerRows).objectEnd) <==> Step(st, line).Stopped?)
      && (Step(st, line).Stopped? ==> Step(st, line) == Stopped(st.printed, BrokenComponentError(o, Last(innerRows))))
      && (Step(st, line).Going? ==>
            var c := StartCounter(st.previous, st.counter, o.objectName);
            var rows := if o.orientation == "-" then Flip.Reversed(innerRows) else innerRows;
            var added := Step(st, line).state.printed[|st.printed|..];
            && st.printed <= Step(st, line).state.printed
            && |added| == |innerRows|
            && (forall k :: 0 <= k < |added| ==>
                  && added[k].RowLine?
                  && added[k].row.objectName == o.objectName
                  && added[k].row.partNumber == c + k
                  && added[k].row.objectBeg == rows[k].objectBeg + o.objectBeg - 1
                  && added[k].row.objectEnd == rows[k].objectEnd + o.objectBeg - 1
                  && SameContent(added[k].row, rows[k]))
            && Step(st, line).state.counter == c + |innerRows|
            && o.componentId !in Step(st, line).state.index.rows)
  {
  }

  /** A step takes out of the index the component it places and nothing
      else. */
  lemma StepIndex(st: ComposeState, line: AgpLine)
    requires ValidIndex(st.index)
    ensures Step(st, line).Going? ==>
      && (line.RowLine? && line.row.Component? ==> line.row.componentId !in Step(st, line).state.index.rows)
      && (forall n :: n in Step(st, line).state.index.rows ==>
            n in st.index.rows && Step(st, line).state.index.rows[n] == st.index.rows[n])
      && (forall n :: n in st.index.rows && !(line.RowLine? && line.row.Component? && line.row.componentId == n) ==>
            n in Step(st, line).state.index.rows)
  {
  }

  /** The step for a component that uses a whole inner object. */
  lemma StepSplice(st: ComposeState, o: Row, counter: int)
    requires ValidIndex(st.index) && o.Component? && o.componentId in st.index.rows
    requires o.componentBeg == 1 && o.componentEnd == Last(st.index.rows[o.componentId]).objectEnd
    requires counter == StartCounter(st.previous, st.counter, o.objectName)
    ensures var spliced := Place(Oriented(o, st.index.rows[o.componentId]), o.objectName, counter, o.objectBeg - 1);
      Step(st, RowLine(o))
      == Going(ComposeState(st.printed + AsLines(spliced), Remove(st.index, o.componentId), Some(o.objectName),
                            counter + |spliced|))
  {
    var innerRows := st.index.rows[o.componentId];
    assert o.Component? && !o.Gap?;
    assert !(o.componentBeg != 1 || o.componentEnd != Last(innerRows).objectEnd);
  }

  /** After any prefix of the outer file has gone through: no component it
      names is left in the index, every inner object it does not name is
      still there, and every object left still has exactly its inner rows. */
  lemma {:induction false} ComposeFoldIndex(outer: seq<AgpLine>, inner: seq<AgpLine>)
    ensures var p := ComposeFold(outer, Indexed(inner));
      p.Going? ==>
        && (forall k :: 0 <= k < |outer| && outer[k].RowLine? && outer[k].row.Component? ==>
              outer[k].row.componentId !in p.state.index.rows)
        && (forall n :: RowsOf(inner, n) != [] && Unreferenced(outer, n) ==> n in p.state.index.rows)
        && (forall n :: n in p.state.index.rows ==> p.state.index.rows[n] == RowsOf(inner, n))
  {
    if outer == [] {
      IndexedSpec(inner);
    } else {
      var init := outer[..|outer| - 1];
      var ix := Indexed(inner);
      ComposeFoldIndex(init, inner);
      var p := ComposeFold(init, ix);
      if p.Going? {
        var st := p.state;
        assert ValidIndex(st.index);
        var q := Step(st, Last(outer));
        assert ComposeFold(outer, ix) == q;
        StepIndex(st, Last(outer));
        if q.Going? {
          forall k | 0 <= k < |outer| && outer[k].RowLine? && outer[k].row.Component?
            ensures outer[k].row.componentId !in q.state.index.rows
          {
            if k < |init| {
              assert init[k] == outer[k];
            }
          }
          forall n | RowsOf(inner, n) != [] && Unreferenced(outer, n)
            ensures n in q.state.index.rows
          {
            UnreferencedInit(outer, n);
          }
        }
      }
    }
  }

  /** No component of the outer lines names inner object `n`. */
  predicate Unreferenced(outer: seq<AgpLine>, n: string)
  {
    forall k :: 0 <= k < |outer| && outer[k].RowLine? && outer[k].row.Component? ==> outer[k].row.componentId != n
  }

  lemma UnreferencedInit(outer: seq<AgpLine>, n: string)
    requires outer != [] && Unreferenced(outer, n)
    ensures Unreferenced(outer[..|outer| - 1], n)
    ensures var l := Last(outer); !(l.RowLine? && l.row.Component? && l.row.componentId == n)
  {
    var init := outer[..|outer| - 1];
    assert forall k :: 0 <= k < |init| ==> init[k] == outer[k];
  }

  /** An inner object is used at most once: a second outer component with
      the same id stops the run. */
  lemma ComposeUsesOnce(outer: seq<AgpLine>, inner: seq<AgpLine>, i: nat, j: nat)
    requires i < j < |outer|
    requires outer[i].RowLine? && outer[i].row.Component? && outer[j].RowLine? && outer[j].row.Component?
    requires outer[i].row.componentId == outer[j].row.componentId
    ensures ComposeFold(outer, Indexed(inner)).Stopped?
  {
    IndexedSpec(inner);
    var ix := Indexed(inner);
    var before := outer[..j];
    ComposeFoldIndex(before, inner);
    var p := ComposeFold(before, ix);
    assert outer[..j + 1][..j] == before;
    if p.Going? {
      assert before[i] == outer[i];
      assert Last(outer[..j + 1]) == outer[j];
      assert ComposeFold(outer[..j + 1], ix).Stopped?;
    }
    ComposeFoldSticks(outer, j + 1, ix);
  }

  /** With `print_unused`, the rows printed at the end are those of
      exactly the inner objects no outer component used, each with all its
      rows. */
  lemma UnusedSpec(outer: seq<AgpLine>, inner: seq<AgpLine>)
    ensures var p := ComposeFold(outer, Indexed(inner));
      p.Going? ==>
        && (forall n :: n in p.state.index.order <==> RowsOf(inner, n) != [] && Unreferenced(outer, n))
        && (forall n :: n in p.state.index.rows ==> p.state.index.rows[n] == RowsOf(inner, n))
  {
    IndexedSpec(inner);
    ComposeFoldIndex(outer, inner);
  }

  // ---- the command ----

  /** The loop that reads the inner file into `inner_dict`. */
  method IndexInner(innerAgp: seq<AgpLine>) returns (innerOrder: seq<string>, innerDict: map<string, seq<Row>>)
    ensures Index(innerOrder, innerDict) == Indexed(innerAgp)
  {
    innerOrder, innerDict := [], map[];
    for i := 0 to |innerAgp|
      invariant Index(innerOrder, innerDict) == Indexed(innerAgp[..i])
    {
      assert innerAgp[..i + 1][..i] == innerAgp[..i];
      var innerRow := innerAgp[i];
      if innerRow.RowLine? {
        var name := innerRow.row.objectName;
        if name in innerDict {
          innerDict := innerDict[name := innerDict[name] + [innerRow.row]];
        } else {
          innerOrder := innerOrder + [name];
          innerDict := innerDict[name := [innerRow.row]];
        }
      }
    }
    assert innerAgp[..|innerAgp|] == innerAgp;
  }

  /** The lines `print_unused` adds: `chain.from_iterable(inner_dict.values())`. */
  method UnusedLines(innerOrder: seq<string>, innerDict: map<string, seq<Row>>) returns (lines: seq<AgpLine>)
    requires ValidIndex(Index(innerOrder, innerDict))
    ensures lines == AsLines(Unused(Index(innerOrder, innerDict)))
  {
    ghost var unused := Groups(Index(innerOrder, innerDict));
    lines := [];
    for k := 0 to |innerOrder|
      invariant lines == AsLines(Flatten(unused[..k]))
    {
      assert unused[..k + 1] == unused[..k] + [unused[k]];
      FlattenAppend(unused[..k], unused[k]);
      assert AsLines(Flatten(unused[..k]) + unused[k]) == lines + AsLines(innerDict[innerOrder[k]]);
      lines := lines + AsLines(innerDict[innerOrder[k]]);
    }
    assert unused[..|innerOrder|] == unused;
  }

  /** The body of `run`'s loop over the outer lines: one line, against the
      current `inner_dict`, counter and previous object. */
  method ComposeLine(printed: seq<AgpLine>, innerOrder: seq<string>, innerDict: map<string, seq<Row>>,
                     previousScaffold: Option<string>, componentCounter: int, outerRow: AgpLine)
    returns (printed': seq<AgpLine>, innerOrder': seq<string>, innerDict': map<string, seq<Row>>,
             previousScaffold': Option<string>, componentCounter': int, failure: Option<ComposeError>)
    requires ValidIndex(Index(innerOrder, innerDict))
    ensures var p := Step(ComposeState(printed, Index(innerOrder, innerDict), previousScaffold, componentCounter), outerRow);
      if failure.None? then
        p == Going(ComposeState(printed', Index(innerOrder', innerDict'), previousScaffold', componentCounter'))
      else p == Stopped(printed, failure.value) && printed' == printed
  {
    ghost var st := ComposeState(printed, Index(innerOrder, innerDict), previousScaffold, componentCounter);
    printed', innerOrder', innerDict', previousScaffold', componentCounter', failure :=
      printed, innerOrder, innerDict, previousScaffold, componentCounter, None;
    if outerRow.Comment? {
      printed' := printed + [outerRow];
      return;
    }
    var o := outerRow.row;
    if previousScaffold.Some? && previousScaffold.value != "" && previousScaffold.value != o.objectName {
      componentCounter' := 1;
    }
    previousScaffold' := Some(o.objectName);
    if o.Gap? {
      printed' := printed + [RowLine(Renumbered(o, componentCounter'))];
      componentCounter' := componentCounter' + 1;
      return;
    }
    if o.componentId !in innerDict {
      failure := Some(ComponentNotDefinedError(o.componentId));
      return;
    }
    var innerRows := innerDict[o.componentId];
    innerDict' := innerDict - {o.componentId};
    innerOrder' := Drop(innerOrder, o.componentId);
    if o.componentBeg != 1 || o.componentEnd != Last(innerRows).objectEnd {
      failure := Some(BrokenComponentError(o, Last(innerRows)));
      return;
    }
    StepSplice(st, o, componentCounter');
    if o.orientation == "-" {
      innerRows := Flip.ReverseRows(innerRows);
    }
    var spliced := Place(innerRows, o.objectName, componentCounter', o.objectBeg - 1);
    printed' := printed + AsLines(spliced);
    componentCounter' := componentCounter' + |spliced|;
  }

  /** `run`: index the inner file, replace each outer component by the
      rows of the inner object it names, then print what is left when
      asked. */
  method Run(outerAgp: seq<AgpLine>, innerAgp: seq<AgpLine>, printUnused: bool)
    returns (out: Emitted<AgpLine, ComposeError>)
    ensures out == Composing(outerAgp, innerAgp, printUnused)
  {
    var innerOrder, innerDict := IndexInner(innerAgp);
    ghost var ix := Indexed(innerAgp);

    var printed: seq<AgpLine> := [];
    var previousScaffold: Option<string> := None;
    var componentCounter := 1;
    for i := 0 to |outerAgp|
      invariant ValidIndex(Index(innerOrder, innerDict))
      invariant ComposeFold(outerAgp[..i], ix)
        == Going(ComposeState(printed, Index(innerOrder, innerDict), previousScaffold, componentCounter))
    {
      ghost var st := ComposeState(printed, Index(innerOrder, innerDict), previousScaffold, componentCounter);
      assert ComposeFold(outerAgp[..i + 1], ix) == Step(st, outerAgp[i]) by {
        assert outerAgp[..i + 1][..i] == outerAgp[..i];
      }
      StepValid(st, outerAgp[i]);
      var failure;
      printed, innerOrder, innerDict, previousScaffold, componentCounter, failure :=
        ComposeLine(printed, innerOrder, innerDict, previousScaffold, componentCounter, outerAgp[i]);
      if failure.Some? {
        ComposeFoldSticks(outerAgp, i + 1, ix);
        return Emitted(printed, failure);
      }
    }
    assert outerAgp[..|outerAgp|] == outerAgp;

    if printUnused {
      var unused := UnusedLines(innerOrder, innerDict);
      printed := printed + unused;
    }
    return Emitted(printed, None);
  }

}
