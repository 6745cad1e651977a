# agp — a verified model of the AGP toolkit's coordinate engine

The `agp` Python package manipulates AGP files. An AGP file is a tab-separated
layout: each row places either a *component* (a stretch of a contig, in `+`
or `-` orientation) or a *gap* at positions `object_beg..object_end` of an
*object* (a scaffold or chromosome), with a part number counting the rows of
the object from 1. The package's commands rewrite these rows:

- `flip` reverse-complements ranges of objects;
- `split` cuts objects at breakpoints into sub-scaffolds `S.1`, `S.2`, …;
- `join` strings scaffolds together, with new gaps between them;
- `compose` replaces each component of an outer AGP by its own layout in an inner AGP;
- `transform` maps BED intervals from contig to scaffold coordinates;
- `rename` and `remove` rename, reverse or drop whole objects;
- `sanitize` cuts every component out into a contig of its own, `contig_1`, `contig_2`, ….

This project models that engine in Dafny and proves what it promises.

## Structure of the model

Each Dafny module follows one Python module:

| Dafny file | module | Python module |
|---|---|---|
| `wrappers.dfy` | `Wrappers` | `Option`, `Result` and `Emitted`, the lines written before an exception together with the exception |
| `seqs.dfy` | `Seqs` | `sorted`, flattening, `[-1]` |
| `text.dfy` | `Text` | `str.strip`, `str.split`, `str.join`, `int`, `str` and slicing |
| `agp.dfy` | `Agp` | `agp/__init__.py`: rows, parsing, writing, equality, `GapRow`, `read` |
| `bed.dfy` | `Bed` | `agp/bed.py` |
| `flip.dfy` | `Flip` | `agp/flip.py` |
| `split.dfy` | `Split` | `agp/split.py` |
| `join.dfy` | `Join` | `agp/join.py` |
| `compose.dfy` | `Compose` | `agp/compose.py` |
| `transform.dfy` | `Transform` | `agp/transform.py` |
| `rename.dfy` | `Rename` | `agp/rename.py` |
| `remove.dfy` | `Remove` | `agp/remove.py` |
| `sanitize.dfy` | `Sanitize` | `agp/sanitize.py` |
| `break_contigs.dfy` | `BreakContigs` | `agp/break_contigs.py` |
| `fasta.dfy` | `Fasta` | `agp/fasta.py` |

The Python commands work by loops that update lists, counters and dicts.
Each such loop is a Dafny `method` with the same variables and loop
invariants. Each method is proved equal to a specification function: a fold
over the input, or a closed form. The lemmas about those functions carry the
properties: tiling, numbering, round trips, error conditions, and involution
of reversal.

A row is a value: `Agp.Row` is `Gap(..)` or `Component(..)`. A line of a
file is `Agp.AgpLine`: a comment or a row.

Where Python raises after printing some lines, the model returns an
`Emitted(lines, failure)`: the lines printed so far and the exception
raised, if any.

## Model

| member | source | states |
|---|---|---|
| Text.StripLeft | agp/__init__.py:33 | the whitespace removed from the front is all whitespace, and what is left starts with a non-space |
| Text.StripRight | agp/__init__.py:33 | the whitespace removed from the back is all whitespace, and what is left ends with a non-space |
| Text.Strip | agp/__init__.py:33 | `str.strip` leaves no whitespace at either end, and a string with none there is unchanged |
| Text.LStrip | agp/join.py:106 | `lstrip(chars)` removes only characters of the set from the front, and what is left does not start with one |
| Text.Split | agp/__init__.py:33 | `str.split(sep)` gives at least one piece, and no piece holds the separator |
| Text.SplitJoin | agp/__init__.py:33-93 | splitting a tab-join of pieces without tabs gives the pieces back |
| Text.JoinSplit | agp/__init__.py:33-93 | joining the pieces of a split gives the string back |
| Text.NatToStringValue | agp/__init__.py:61-76 | `str(n)` on a non-negative integer is digits whose value is `n` |
| Text.ParseInt | agp/__init__.py:35-37 | `int(s)` only succeeds on a string with something left after stripping; what it accepts is stated by `Text.ParseIntToString` |
| Text.IntToString | agp/__init__.py:61-76 | `str(i)` is never empty; that it is read back by `int` is `Text.ParseIntToString` |
| Text.ParseIntToString | agp/__init__.py:35-37 | `int(str(i)) == i` for every integer |
| Text.IntToStringTrimmed | agp/__init__.py:61-76 | `str(i)` has no whitespace at either end |
| Text.PySlice | agp/break_contigs.py:38 | `s[i:j]` has length `j' - i'` when the clamped bounds `i' < j'`, and 0 otherwise, and is the stretch of `s` that starts where `i` lands after Python's clamping of negative and out-of-range bounds |
| Text.PySliceForward | agp/break_contigs.py:38 | a Python slice with ordered bounds from inside the sequence is the plain slice, cut at the end of the sequence |
| Agp.RowOfFields | agp/__init__.py:34-51 | the row is a gap exactly when column 5 is `N` or `U`; the object name and component type are columns 1 and 5 |
| Agp.Parse | agp/__init__.py:27-53 | `AgpRow.__init__` on one line, ignoring columns past the ninth; a function without a contract of its own, specified by `Agp.ParseSpec` (when it fails and what the row is) and `Agp.ParseSerialise` (it inverts `__str__`) |
| Agp.ParseSpec | agp/__init__.py:27-53 | parsing succeeds exactly when there are at least nine tab-separated fields and every integer column parses; a failure is `AgpFormatError` carrying the line; the row is a gap exactly when its type is `N` or `U` |
| Agp.Columns | agp/__init__.py:55-93 | a row is written as exactly nine columns |
| Agp.Serialise | agp/__init__.py:55-93 | `AgpRow.__str__`: the nine columns joined by tabs; a function without a contract of its own, specified by `Agp.FieldsOfSerialise`, `Agp.SerialiseTrimmed` and `Agp.ParseSerialise` |
| Agp.ParseSerialise | agp/__init__.py:27-93 | parsing the line `__str__` writes for a row gives back the same row |
| Agp.SerialiseParse | agp/__init__.py:27-93 | a stripped nine-field line whose numbers are written canonically parses, and writing the row reproduces the line |
| Agp.FieldsOfSerialise | agp/__init__.py:33-93 | splitting a written row on tabs gives back its nine columns |
| Agp.ColumnsParse | agp/__init__.py:34-51 | every integer column of a written row reads back as the same integer, and the nine columns rebuild the row |
| Agp.ColumnsOfFields | agp/__init__.py:34-93 | nine fields with canonical numbers are reproduced by parsing them into a row and writing it out |
| Agp.RowEquals | agp/__init__.py:95-122 | `__eq__` holds exactly when both rows are of the same kind and all nine fields of that kind are equal |
| Agp.TiledContains | agp/__init__.py:124-132 | for rows laid end to end along an object, `contains` holds in some row exactly when the position lies between the first row's beginning and the last row's end, and in at most one row |
| Agp.TiledOrdered | agp/__init__.py:124-132 | in rows laid end to end, each row ends before any later row begins, so `contains` never holds in two of them |
| Agp.NewGapRow | agp/__init__.py:135-152 | `GapRow` is a gap of type `N` with the given name, span and part, and the length, gap type, linkage and evidence given or defaulted |
| Agp.GapRowDefaults | agp/__init__.py:142-150 | with no optional arguments, the written gap's last five columns are `N 500 scaffold yes paired-end` |
| Agp.ReadAll | agp/__init__.py:160-169 | `read` over all lines, stopping at the first bad line; a function without a contract of its own, specified by `Agp.ReadAllSpec` |
| Agp.ReadAllSpec | agp/__init__.py:160-169 | `read` succeeds exactly when every line reads; it keeps one item per line in order; otherwise it fails with the error of the first bad line |
| Agp.ReadLineError | agp/__init__.py:165-169 | a line that does not read fails with `AgpFormatError` carrying that line |
| Agp.Read | agp/__init__.py:160-169 | the loop over the lines yields exactly what the specification of `read` gives |
| Agp.SerialiseTrimmed | agp/__init__.py:33-93 | a written row has no whitespace at either end, so reading it strips nothing |
| Agp.Moved | agp/join.py:191-195 | a moved row takes the new name and part, is shifted by the offset, and keeps its content |
| Agp.Renumbered | agp/compose.py:85-88 | a gap of the outer file only has its part number rewritten |
| Agp.Place | agp/join.py:189-196 | each row of a scaffold is moved into the object, numbered on from the counter in order and shifted by the offset |
| Agp.RowsOfNone | agp/join.py:246-248 | an object has no rows exactly when no row of the file names it |
| Flip.SwapOrientation | agp/flip.py:39-44 | `+` becomes `-`, `-` becomes `+`, and any other marker stays |
| Flip.Mirror | agp/flip.py:33-44 | the reversed row spans `[F+L-e, F+L-b]` and is part `P1+Pn-p`; on a component the orientation is swapped; the name and the other fields stay |
| Flip.Reversed | agp/flip.py:26-48 | the result has as many rows as the input; row `j` is the mirror of input row `n-1-j` about the first begin, last end, first part and last part |
| Flip.ReversedRows | agp/flip.py:31-46 | field by field: row `j` of the result comes from row `n-1-j`, with mirrored span and part, swapped orientation, and everything else unchanged |
| Flip.ReversedEnds | agp/flip.py:26-37 | one reversal keeps the first begin, the last end, the first part number and the last part number |
| Flip.ReversedTwice | agp/flip.py:26-48 | reversing twice restores every row and the original order |
| Flip.ReverseRows | agp/flip.py:11-48 | the loop returns exactly the reversal |
| Flip.Selection | agp/flip.py:71-84 | the collected pairs point at rows of the range's sequence that lie within the range (or all of them when the range has no coordinates), in increasing index order |
| Flip.SelectionComplete | agp/flip.py:74-84 | every row of the sequence that lies within the range is collected |
| Flip.WriteBackSpec | agp/flip.py:96-98 | after writing back, each collected index holds its new row and every other index keeps its line |
| Flip.FlipOne | agp/flip.py:71-98 | one range of `flip`: fail if a row is cut, fail if nothing is selected, else reverse the selected rows in place; specified by `Flip.FlipOneErrors` and `Flip.FlipOneOk` |
| Flip.FlipOneErrors | agp/flip.py:85-92 | a range fails with `BadRangeError` exactly when a row of its sequence contains its start or end without lying inside it; it fails with `EmptyRangeError` exactly when, failing that, it selects no row |
| Flip.FlipOneOk | agp/flip.py:90-98 | a successful range keeps the file length and every unselected line; at the selected indices it puts the reversed selected rows |
| Flip.WriteBackSelection | agp/flip.py:96-98 | writing back at the selected indices changes only lines the range selects |
| Flip.SelectRows | agp/flip.py:73-88 | the collecting loop succeeds exactly when no row is cut by the range; it then returns the selection, and otherwise `BadRangeError` for the range |
| Flip.WriteRows | agp/flip.py:97-98 | the write-back loop computes the write-back function |
| Flip.FlipRange | agp/flip.py:71-98 | one pass of the loop over the ranges computes the one-range specification |
| Flip.FlipAll | agp/flip.py:51-100 | `flip`: the ranges applied in order, the first failure ending it; the loop `Flip.Flip` is proved to compute it |
| Flip.Flip | agp/flip.py:51-100 | `flip` applies the ranges in order and stops at the first failure, as the fold over the ranges does |
| Flip.Unwritten | agp/flip.py:96-98 | a line the range does not choose is never written back |
| Bed.MakeBedRange | agp/bed.py:28-36 | the constructor keeps chrom, start and end; with three or more extra columns the first three become name, score and strand and the rest stay extra; with fewer, name, score and strand are `None` and every column stays extra |
| Bed.ReadLine | agp/bed.py:59-69 | a one-field line is a range without coordinates; a line with three or more fields is read when columns 2 and 3 are integers, with columns 4 onwards as extra columns; a two-field line fails |
| Bed.ToString | agp/bed.py:38-45 | `BedRange.__str__`: the columns joined by tabs; a function without a contract of its own, specified by `Bed.ReadToString` (reading it back gives the range) |
| Bed.ReadToString | agp/bed.py:38-69 | writing a range with `__str__` and reading the line back gives the same range |
| Bed.ReadColumns | agp/bed.py:38-45 | the written columns of a range are never two; one column is a range without coordinates; otherwise columns 2 and 3 hold start and end and the rest rebuild name, score, strand and extras |
| Bed.ColumnsTail | agp/bed.py:38-45 | the written columns of a range with coordinates hold its start and end in columns 2 and 3, and the columns after them rebuild the range through the constructor |
| BreakContigs.PiecesFrom | agp/break_contigs.py:37-45 | the pieces cut from a position on number one more than the breakpoints left, and piece `k` has id `<id>_<k+i>` |
| BreakContigs.Cover | agp/break_contigs.py:36-45 | `break_contig` yields one piece more than there are breakpoints; piece `k+1` has id `<id>_<k+1>` and holds the Python slice of the sequence between the `k`th and `k+1`th cut of `0`, the sorted breakpoints and the length, so a breakpoint base belongs to the left piece |
| BreakContigs.Concatenation | agp/break_contigs.py:36-45 | with non-negative breakpoints, the pieces put back together in order give the whole sequence |
| BreakContigs.SlicesConcatenate | agp/break_contigs.py:37-43 | slices between sorted cuts from a position on put back together give the rest of the sequence |
| BreakContigs.SlicesPastEnd | agp/break_contigs.py:38-43 | cuts at or past the end of the sequence yield empty pieces |
| BreakContigs.BreakContig | agp/break_contigs.py:14-45 | the generator loop over the sorted breakpoints yields exactly the specified pieces |
| BreakContigs.CoverFrom | agp/break_contigs.py:37-45 | piece `k` cut from a position on holds the Python slice between cut `k` and cut `k+1`, the cuts being that position, the breakpoints and the length |
| BreakContigs.BasesOfPieces | agp/break_contigs.py:37-45 | the bases of the pieces are the slices between consecutive cuts |
| Fasta.ChunksSpec | agp/fasta.py:30-31 | the chunks put back together give the sequence; all have `wrap` characters but the last, which has between 1 and `wrap`; there are none exactly when the sequence is empty |
| Fasta.FastaLines | agp/fasta.py:29-31 | the first line is `>` followed by the name |
| Fasta.FastaLinesSpec | agp/fasta.py:29-31 | after the `>name` header the sequence lines put back together give the sequence; all but the last have `wrap` characters and the last between 1 and `wrap`; an empty sequence gives only the header |
| Fasta.PrintFasta | agp/fasta.py:8-31 | the loop over `range(0, len, wrap)` writes exactly the specified lines |
| Join.GroupOfLine | agp/join.py:97-103 | a line fails exactly when it has a second column that is not a good sequence name, reporting that column; otherwise its group has at least one scaffold, none holding a comma, and a name that is good |
| Join.ReusedNone | agp/join.py:105-109 | no scaffold is reported as used twice exactly when the scaffold names are distinct |
| Join.ParseJoins | agp/join.py:76-111 | `joins_type` on the lines of a joins file; a function without a contract of its own, specified by `Join.ParseJoinsBadName` and `Join.ParseJoinsReused` |
| Join.ParseJoinsBadName | agp/join.py:96-103 | a bad-name error reports the second column of the first line that has a bad one, every earlier line being good |
| Join.ParseJoinsReused | agp/join.py:96-111 | when every line is good, reading succeeds exactly when no unsigned scaffold name repeats, giving one group per line in file order; otherwise the error lists exactly the repeated names |
| Join.CountNames | agp/join.py:106 | the counter holds exactly the names listed, each with the number of times it occurs |
| Join.JoinsType | agp/join.py:76-111 | `joins_type` gives what the specification of a joins file gives |
| Join.ReadGroups | agp/join.py:96-103 | the loop yields the groups in file order, or stops at the first bad line |
| Join.ReadGroup | agp/join.py:97-103 | the body of the loop gives the group of its line |
| Join.ReusedNames | agp/join.py:106-109 | the names counted more than once are exactly the reused ones |
| Join.MatchAtSpec | agp/join.py:15 | a match at `i` is a nonempty alphanumeric run, `_`, and a nonempty name run; there is none exactly when no `_` can be reached from `i` that way |
| Join.SearchFromNone | agp/join.py:15 | `search` from `i` finds nothing exactly when no position from `i` starts a match |
| Join.SearchFromSome | agp/join.py:15 | what `search` from `i` finds has the shape of a match |
| Join.ScaffoldSearchSpec | agp/join.py:131 | `scaffold_regex.search` finds nothing exactly when no position starts a match, and what it finds has the shape of one |
| Join.MakeSuperscaffoldName | agp/join.py:114-139 | `make_superscaffold_name`: the shared prefix and the numbers, or the names joined by `p`; specified by `Join.FallbackNameLists`, `Join.PrefixedNames`, `Join.UnmatchedName` and `Join.MixedPrefixes` |
| Join.FallbackNameLists | agp/join.py:131-139 | without a shared prefix the superscaffold name lists the subscaffolds: cutting it at `p` gives them back when none holds a `p` |
| Join.SuperscaffoldName | agp/join.py:171-175 | an explicit name is used as given; otherwise a shared prefix gives `make_superscaffold_name`, and no shared prefix gives the empty name |
| Join.UsedUpNames | agp/join.py:171-175 | without a shared prefix the name `join_scaffolds` derives differs from what `make_superscaffold_name` returns |
| Join.SearchPrefixed | agp/join.py:15 | `prefix_suffix` is found with exactly that prefix and suffix |
| Join.SearchNoUnderscore | agp/join.py:15 | a name without `_` never matches |
| Join.PrefixedNames | agp/join.py:131-138 | names sharing one prefix give `prefix_` and their suffixes joined by `p` |
| Join.UnmatchedName | agp/join.py:131-139 | a name without `_` makes the result all the names joined by `p` |
| Join.MixedPrefixes | agp/join.py:131-139 | two names with different prefixes make the result all the names joined by `p` |
| Join.SharedPrefixExample | agp/join.py:114-139 | `["scaffold_3", "scaffold_4", "scaffold_5"]` gives `scaffold_3p4p5` |
| Join.UnmatchedNameExample | agp/join.py:114-139 | `["contig2", "scaffold_4", "chr1"]` gives `contig2pscaffold_4pchr1` |
| Join.MixedPrefixExample | agp/join.py:114-139 | `["scaffold_1", "contig_2", "scaffold_3"]` gives `scaffold_1pcontig_2pscaffold_3` |
| Join.StepCount | agp/join.py:189-213 | one scaffold adds its rows and, unless it is the last, one gap, and the part counter moves on by as many |
| Join.JoinFoldCount | agp/join.py:177-213 | at every stage there is one output row per input row and one per gap so far, and the part counter is one past the last row |
| Join.StepParts | agp/join.py:189-213 | a scaffold placed with the next part number keeps the rows numbered from 1 under the superscaffold name |
| Join.JoinFoldParts | agp/join.py:177-213 | at every stage the rows are numbered 1, 2, … and all carry the superscaffold name |
| Join.StepEnd | agp/join.py:189-213 | a scaffold moves the end on by its own length and, when a gap follows, by the gap size; the last row ends there |
| Join.JoinFoldEnd | agp/join.py:177-213 | the end reached is the total length of the scaffolds plus that of the gaps so far, and the last row ends there |
| Join.SeamsStep | agp/join.py:200 | one more scaffold adds one gap length unless it is the last |
| Join.TiledConcat | agp/join.py:189-213 | rows that each tile their own stretch, placed one after the other, tile the whole |
| Join.PlaceTiled | agp/join.py:189-196 | a scaffold tiled from 1, shifted by the previous end, is tiled from just after it |
| Join.StepTiled | agp/join.py:189-213 | a tiled scaffold placed after tiled rows, with its gap, keeps them tiled |
| Join.JoinFoldTiled | agp/join.py:177-213 | when each scaffold runs from 1 with no hole or overlap, so do the rows at every stage |
| Join.StepGap | agp/join.py:199-213 | a scaffold that is not the last is followed by a gap of the given size and type, numbered next and placed right after it |
| Join.JoinFoldGapAfter | agp/join.py:199-213 | after every scaffold but the last, the rows end with such a gap |
| Join.JoinFoldNoGapAtEnd | agp/join.py:199-213 | no gap follows the last scaffold: the last output row is its last row, moved |
| Join.JoinedShape | agp/join.py:142-215 | the superscaffold has one row per input row plus one gap between each pair of scaffolds, numbered 1, 2, …, all under the superscaffold name, and ends at the total length plus the gaps |
| Join.JoinedTiled | agp/join.py:142-215 | scaffolds each running from 1 with no hole or overlap give a superscaffold that does too |
| Join.JoinFoldSnoc | agp/join.py:177-213 | one more scaffold is one more step of the join |
| Join.PlaceRows | agp/join.py:189-196 | the inner loop renames, renumbers and shifts each row of the scaffold in order |
| Join.JoinScaffolds | agp/join.py:142-215 | `join_scaffolds` returns the joined rows, so the shape, tiling and gap lemmas hold of its result |
| Join.JoinOne | agp/join.py:188-213 | one pass of the outer loop is one step of the join |
| Join.FirstMissingNone | agp/join.py:246-248 | no scaffold is reported missing exactly when every registered scaffold has rows |
| Join.FirstMissingIndex | agp/join.py:246-248 | the scaffold reported missing is the first in file order with no rows |
| Join.EntryRows | agp/join.py:251-259 | looking up an entry fails with `KeyError` exactly when its stripped name was never registered; otherwise it gives that scaffold's rows, never empty |
| Join.OneSignKey | agp/join.py:252-259 | an entry with at most one sign is looked up by the name registered for it |
| Join.GroupRowsOk | agp/join.py:251-261 | a group whose lookups succeed gives one nonempty row list per entry |
| Join.JoinAllSticks | agp/join.py:251-267 | once a group raises, nothing after it is printed |
| Join.JoinAllKeyError | agp/join.py:251-261 | a `KeyError` names the stripped name of an entry of some group that was never registered |
| Join.JoinAllNoKeyError | agp/join.py:251-261 | when every entry carries at most one sign, no `KeyError` is raised |
| Join.JoinedNamesHas | agp/join.py:232-234 | every entry's unsigned name is registered |
| Join.JoinRun | agp/join.py:218-267 | everything `run` prints and the error it raises; a function without a contract of its own, specified by `Join.JoinRunSpec` and computed by the loop `Join.Run` |
| Join.JoinRunSpec | agp/join.py:218-267 | every row of an unregistered object is echoed; a scaffold is reported missing exactly when some registered one has no rows, and then it is the first such and only the echoed rows are printed; any other error is a `KeyError` for an unregistered name |
| Join.Sort | agp/join.py:232-243 | each registered name collects exactly its rows, and the other lines are echoed in order |
| Join.GatherGroup | agp/join.py:251-261 | the rows of a group are gathered entry by entry, reversed for `-`, as the group lookup says |
| Join.CheckFound | agp/join.py:246-248 | the check reports the first registered scaffold without rows |
| Join.Run | agp/join.py:218-267 | `run` prints what the join specification says: echoed rows, then one superscaffold per group, or the error that stops it |
| Join.UnderscoreNameRefused | agp/join.py:16 | a group name holding `_` is refused with `BadSequenceNameError`, though the message of that error lists `_` as allowed |
| Join.JoinRunIgnoresEvidence | agp/join.py:264-266 | the output of `run` is the same whatever gap evidence is asked for: that of `join_scaffolds`' default `na` |
| Split.Unoffset | agp/split.py:29-58 | every row is kept, one for one |
| Split.UnoffsetStandalone | agp/split.py:49-58 | the first row starts at position 1 with part 1; every row is renamed, keeps its span and its content, and keeps its distance from the first row in positions and in parts |
| Split.UnoffsetRows | agp/split.py:49-58 | the loop of `unoffset_rows` renames and shifts each row as the standalone-scaffold specification says |
| Split.SubscaffoldName | agp/split.py:116 | sub-scaffold `k` of object `S` is named `S.k` |
| Split.Convert | agp/split.py:99-117 | `convert_rows` keeps every row and gives all of them the sub-scaffold name |
| Split.ConvertRows | agp/split.py:99-117 | `convert_rows` is `unoffset_rows` under the sub-scaffold name |
| Split.Pieces | agp/split.py:82-96 | a contig cut at `k` breakpoints gives `k + 1` pieces |
| Split.PiecesTile | agp/split.py:82-96 | the pieces start where the row starts and end where it ends, in object and component coordinates; each but the last ends at its breakpoint, the next starts one past it in both coordinates, and each keeps equal object and component spans (the last too when the row did); part numbers run on from the row's, and name, type, component and orientation are kept |
| Split.PiecesIgnoreOrientation | agp/split.py:82-96 | `split_contig` never reads the orientation: a row in another orientation is cut into the same pieces, each carrying that orientation |
| Split.PiecesStep | agp/split.py:83-95 | one more breakpoint pops the last piece and pushes its left and right parts |
| Split.SplitContig | agp/split.py:61-96 | `split_contig` cuts at the breakpoints in increasing order, as the pieces specification says |
| Split.Hits | agp/split.py:140 | the breakpoints kept are exactly those of the list that the row contains |
| Split.ConvertEach | agp/split.py:167-169 | each middle piece becomes one sub-scaffold of one row |
| Split.ScaffoldFoldSticks | agp/split.py:139-174 | once a step fails, the whole scaffold fails |
| Split.ScaffoldFoldShape | agp/split.py:139-172 | the loop fails exactly when some gap holding a breakpoint meets an empty open sub-scaffold; the open sub-scaffold is empty exactly when the last row was such a gap |
| Split.StepShape | agp/split.py:140-172 | one row fails exactly when it is a hit gap and nothing is open, and leaves nothing open exactly when it is a hit gap |
| Split.BreakableStep | agp/split.py:140-172 | a longer scaffold splits cleanly exactly when its rows but the last do and no two hit gaps follow one another (nor does one come first) |
| Split.SplitScaffoldSpec | agp/split.py:120-176 | `split_scaffold` as a fold of its loop body over the rows; a function without a contract of its own, specified by `Split.SplitScaffoldBlocks`, `Split.SubscaffoldsCover` and `Split.SubscaffoldsNamed` |
| Split.GroupStepCover | agp/split.py:140-172 | one row adds to the sub-scaffold groups exactly what it yields (itself when no breakpoint hits it, nothing for a hit gap, its pieces for a hit component) and it closes as many groups as it makes cuts |
| Split.GroupFoldCover | agp/split.py:139-172 | over all rows, the closed groups and the open one put back together are everything the rows yield, in input order, and there are as many closed groups as cuts |
| Split.SubscaffoldsCover | agp/split.py:139-174 | the sub-scaffold groups put back together are the rows without breakpoints, the pieces of hit components and nothing of hit gaps, in input order; there is one group more than there are cuts |
| Split.StepIsGroupStep | agp/split.py:140-172 | a loop step on the numbered groups fails exactly when it closes an empty group, and otherwise is the grouping step with the groups converted as `S.1`, `S.2`, … |
| Split.FoldIsGrouping | agp/split.py:139-172 | the loop fails exactly when some closed group is empty; otherwise its output so far is the closed groups converted in order as sub-scaffolds 1, 2, …, with the counter one past them |
| Split.SplitScaffoldBlocks | agp/split.py:120-176 | `split_scaffold` succeeds exactly when no sub-scaffold group is empty, and then returns `convert_rows(G[0], 1) + … + convert_rows(G[n-1], n)` for the groups in input order |
| Split.SubscaffoldsNamed | agp/split.py:99-117 | sub-scaffold `k` of a scaffold `S` has every row named `S.k`, starts at position 1 as part 1, has one row per row of its group, keeps the spans and part-number steps of its group relative to its first row, and keeps each row's content |
| Split.SplitScaffoldSucceeds | agp/split.py:120-176 | `split_scaffold` succeeds exactly when no hit gap comes first, no two come in a row, and none comes last |
| Split.ScaffoldFoldCounts | agp/split.py:139-172 | the sub-scaffold counter is one past the number of cuts, and the rows written or open are the rows kept plus the pieces of cut components |
| Split.SplitScaffoldCounts | agp/split.py:120-176 | on success there is one row per kept row or piece, and the last sub-scaffold number is one past the cuts |
| Split.SplitWithoutHits | agp/split.py:139-174 | with no breakpoint in any row, the scaffold comes out whole, renamed `S.1` |
| Split.FoldWithoutHits | agp/split.py:171-172 | with no breakpoint in any row, every row joins the first sub-scaffold |
| Split.SplitScaffold | agp/split.py:120-176 | the loop of `split_scaffold` returns exactly `Split.SplitScaffoldSpec`, failing where Python raises `IndexError`; with `Split.SplitScaffoldBlocks` and `Split.SubscaffoldsNamed` this makes its output the sub-scaffolds `S.1`, `S.2`, … in order |
| Split.SplitRow | agp/split.py:140-172 | one pass of the loop is one step of the fold, failing where the step fails |
| Split.CutComponent | agp/split.py:151-169 | the first piece closes the open sub-scaffold, each middle piece is a sub-scaffold of its own, and the last piece opens the next |
| Split.ConvertMiddle | agp/split.py:167-169 | the loop over middle pieces converts each, numbered on from the counter |
| Split.ConvertEachStep | agp/split.py:167-169 | one more middle piece is one more sub-scaffold |
| Split.ConvertSingle | agp/split.py:116-117 | a single row converted is renamed `S.k` and moved to position 1, part 1 |
| Split.CutOnce | agp/split.py:151-174 | a one-contig scaffold with one breakpoint inside becomes `S.1` holding the left part and `S.2` holding the right |
| Split.ForwardContigCut | tests/test_split.py:56-63 | `scfd1` cut at 300 becomes `scfd1.1` over 1-300 and `scfd1.2` over 301-1000, as the test expects |
| Split.ReverseContigCut | agp/split.py:87-93 | a reversed contig cut at 300 keeps component positions 1-300 in its first piece, where the test expects 701-1000 |
| Split.ConvertComponent | agp/split.py:116-117 | a single component converted keeps its component fields and spans 1 to its length |
| Split.CutTwice | agp/split.py:151-174 | two increasing breakpoints in one contig give three sub-scaffolds, the middle piece one of its own |
| Split.ContigCutTwice | tests/test_split.py:86-95 | `scfd3` cut at 300 and 500 gives `scfd3.1`, `scfd3.2` and `scfd3.3`, as the test expects |
| Split.ContigPiecesTwice | agp/split.py:66-72 | the contig cut at 300 and 500 gives pieces 1-300, 301-500 and 501-1000, parts 1 to 3, as in the doctest |
| Split.CutMiddle | agp/split.py:151-174 | a breakpoint in the middle contig of three closes `S.1` with its left part and opens `S.2` with its right part and the contig after |
| Split.CutFirst | agp/split.py:151-169 | a first row cut by breakpoints writes its first and middle pieces and leaves the last open |
| Split.SpecOfFold | agp/split.py:174-176 | the open sub-scaffold is converted and written last |
| Split.FoldAppend | agp/split.py:139 | the loop handles rows one at a time |
| Split.StepKeep | agp/split.py:171-172 | a row without breakpoints joins the open sub-scaffold |
| Split.StepGap | agp/split.py:144-148 | a gap with a breakpoint is dropped and closes the open sub-scaffold, failing when nothing is open |
| Split.StepCut | agp/split.py:151-169 | a component with breakpoints writes the open sub-scaffold with its first piece, then each middle piece, and opens the next with its last piece |
| Split.FoldKeep | agp/split.py:171-172 | a row without breakpoints joins the open sub-scaffold |
| Split.FoldCutOnce | agp/split.py:151-169 | a component with one breakpoint closes the open sub-scaffold with its left part and opens the next with its right part |
| Split.RepeatedPartNumber | agp/split.py:156-174 | after a cut in the middle contig, the tail piece and the next contig both come out as part 1 of `scfd3.2`, where the test expects parts 1 and 2 |
| Split.RunFoldSticks | agp/split.py:181-198 | once a scaffold fails, nothing more is printed |
| Split.Run | agp/split.py:179-206 | the loop of `run` prints exactly `Split.Splitting`; with `Split.RunScaffolds` this makes its output the scaffolds in order, each split or passed through |
| Split.FilterConcat | agp/split.py:181-206 | rows and comments of two stretches of lines are those of each, in order |
| Split.FilterAsLines | agp/split.py:194-195 | printing rows gives those rows and no comments |
| Split.HoldingStep | agp/split.py:181-198 | with no breakpoints for the line's object, the run keeps everything read printed or held, in order |
| Split.RunFoldUntouched | agp/split.py:181-198 | with no breakpoints for any object, everything read is printed or held |
| Split.RunUntouched | agp/split.py:179-206 | with no breakpoints for any object, the rows come out unchanged and in order and so do the comments; only a file without rows fails |
| Split.Splitting | agp/split.py:179-206 | everything `run` prints and the error it raises; a function without a contract of its own, specified by `Split.RunScaffolds` and `Split.RunFoldTracks` |
| Split.FlushAllSpec | agp/split.py:188-195 | printing finished scaffolds one by one fails exactly when one of them fails to split, and otherwise prints each scaffold's output, in order |
| Split.TracksRow | agp/split.py:181-198 | reading one more row keeps the loop's invariant: comments printed as read, finished scaffolds printed in order, the scaffold being read held back |
| Split.RunFoldTracks | agp/split.py:181-198 | after any prefix of the file, every comment read has been printed, in order; unless a split failed, the rows printed are the outputs of the scaffolds already finished, in order, and the buffer holds the scaffold being read |
| Split.RunScaffolds | agp/split.py:179-206 | `run` fails exactly when the file has no rows or some scaffold fails to split; otherwise the rows printed are the scaffolds' outputs in order, each scaffold without breakpoints passed through unchanged whatever happens to the others, each with breakpoints replaced by its `split_scaffold`, and the comments are printed as read |
| Compose.Contains | agp/compose.py:37-58 | true exactly when the outer component range covers the inner row's span, false exactly when it strictly overlaps it on both sides, and `BrokenComponentError` for the two rows otherwise |
| Compose.Add | agp/compose.py:66-68 | adding a row appends it to its object's list, registering the object at the end of the insertion order when new, and leaves every other object alone |
| Compose.IndexedSpec | agp/compose.py:66-68 | the inner index holds exactly the objects with rows, each with all its rows in file order |
| Compose.Drop | agp/compose.py:99 | deleting a key leaves exactly the other keys in order |
| Compose.DropDistinct | agp/compose.py:99 | deleting a key keeps the insertion order free of repeats |
| Compose.Remove | agp/compose.py:99 | `del` removes exactly the key and keeps every other object's rows |
| Compose.Groups | agp/compose.py:122 | the groups are the rows of each object still in the index, in insertion order |
| Compose.StartCounter | agp/compose.py:78-82 | the part counter restarts at 1 exactly when a previous, non-empty object name differs from this row's |
| Compose.Oriented | agp/compose.py:106-108 | the inner run, reversed for `-`, keeps its length |
| Compose.StepValid | agp/compose.py:72-117 | one outer line keeps the inner index well formed |
| Compose.ComposeFold | agp/compose.py:72-117 | the loop keeps the inner index well formed |
| Compose.ComposeFoldSticks | agp/compose.py:72-117 | once an outer row raises, nothing more is printed |
| Compose.Step | agp/compose.py:72-117 | one outer line: a comment is printed, a gap renumbered, a component spliced from the index or reported as undefined; specified by `Compose.StepSpec`, `Compose.StepIndex` and `Compose.StepSplice` |
| Compose.StepSpec | agp/compose.py:72-117 | a comment is echoed; a gap is only renumbered with the next part; an undefined component raises `ComponentNotDefinedError`; a component not covering its whole unit raises `BrokenComponentError` with the unit's last row; otherwise the unit's rows, reversed for `-`, are printed under the outer name, shifted by the outer start, with consecutive parts, and the unit is deleted |
| Compose.StepIndex | agp/compose.py:93-99 | a spliced unit leaves the index; every other unit stays in it, unchanged |
| Compose.StepSplice | agp/compose.py:98-117 | a component covering its whole unit prints the oriented unit renamed, numbered and shifted, and deletes the unit |
| Compose.ComposeFoldIndex | agp/compose.py:66-117 | after the loop no component used by an outer row is left in the index, every inner object with rows that no outer component references is still there, and every unit left holds its inner rows |
| Compose.ComposeUsesOnce | agp/compose.py:93-99 | a component referenced twice in the outer file raises, since its unit is deleted on first use |
| Compose.UnusedSpec | agp/compose.py:119-123 | the units left over are exactly inner objects with rows that no outer component references, with their original rows |
| Compose.IndexInner | agp/compose.py:66-68 | the loop filling `inner_dict` builds the index specification |
| Compose.UnusedLines | agp/compose.py:121-123 | the unused rows are printed unit by unit in insertion order |
| Compose.ComposeLine | agp/compose.py:72-117 | one pass of the loop is one step, printing nothing more when it raises |
| Compose.Composing | agp/compose.py:61-123 | everything `run` prints and the error it raises; a function without a contract of its own, computed by the loop `Compose.Run` and specified by `Compose.ComposeFoldIndex` and `Compose.UnusedSpec` |
| Compose.Run | agp/compose.py:61-123 | `run` prints what the splice specification says, then the unused units when asked |
| Transform.PlacementOf | agp/transform.py:25-30 | a contig's placement is its row's object name, span and orientation |
| Transform.ContigIndexHas | agp/transform.py:23-30 | a contig is indexed exactly when some non-gap row names it as its component |
| Transform.ContigIndexLast | agp/transform.py:23-30 | a contig named by several rows is placed where the last of them says |
| Transform.FlipStrand | agp/transform.py:40-43 | `+` and `-` swap, and any other strand, or none, is kept |
| Transform.Transformed | agp/transform.py:34-46 | the record moves to the contig's scaffold keeping name, score and extra fields; its strand flips under `-` and is kept otherwise |
| Transform.TransformedLength | agp/transform.py:36-46 | the interval keeps its length in both orientations |
| Transform.TransformedWithin | agp/transform.py:36-46 | an interval inside the contig lands inside the contig's span on the scaffold |
| Transform.TransformedMirror | agp/transform.py:36-39 | under `-` the interval lands as far from the contig's start as the forward placement lands from its end, and the other way round |
| Transform.FlipStrandTwice | agp/transform.py:40-43 | flipping a strand twice gives it back |
| Transform.CoordinatesPrefix | agp/transform.py:32-49 | the records before any point still carry coordinates where they are looked up |
| Transform.TransformAll | agp/transform.py:32-49 | a run without error moves every record, one for one, and every chrom was indexed |
| Transform.TransformAllSpec | agp/transform.py:32-49 | the run succeeds exactly when every chrom is indexed; otherwise it stops with `NoSuchContigError` at the first chrom that is not, after moving every record before it; each record printed is the record moved by its contig's placement |
| Transform.TransformAllStop | agp/transform.py:48-49 | a record whose chrom is not indexed stops the run with `NoSuchContigError` for that chrom |
| Transform.TransformAllStep | agp/transform.py:34-47 | a record whose chrom is indexed is moved and printed after the records before it |
| Transform.TransformAllSticks | agp/transform.py:32-49 | once a record raises, nothing more is printed |
| Transform.IndexContigs | agp/transform.py:23-30 | the loop builds the contig index |
| Transform.MoveRecord | agp/transform.py:34-46 | the body of the loop moves one record by its contig's placement |
| Transform.Transforming | agp/transform.py:17-49 | everything `run` prints and the error it raises; a function without a contract of its own, specified by `Transform.TransformAllSpec` and computed by the loop `Transform.Run` |
| Transform.Run | agp/transform.py:17-49 | `run` prints what the transform specification says |
| Rename.RenamingLine | agp/rename.py:34-46 | one line of the renaming file; a function without a contract of its own, specified by `Rename.RenamingLineSpec` and `Rename.TablessLineRefused` |
| Rename.RenamingLineSpec | agp/rename.py:34-46 | a line fails exactly when it has fewer than two fields, or a third field that is neither `+` nor `-`, with a `FormatError` naming its 1-based line number and the problem; otherwise it maps its first field to its second with orientation `+` by default or its third field |
| Rename.TablessLineRefused | agp/rename.py:34-38 | a line with no tab after stripping, a blank line included, is refused as a line without enough columns, with its 1-based line number, rather than skipped |
| Rename.RenamingLines | agp/rename.py:33-46 | each line is read with its own index |
| Rename.RenamingMapError | agp/rename.py:31-48 | reading the file fails exactly when some line is bad |
| Rename.RenamingMapFirstError | agp/rename.py:33-46 | the error reported is that of the first bad line, every earlier line being good |
| Rename.FirstErrorLine | agp/rename.py:33-46 | when reading the lines fails, the error names line `n`, line `n` fails with it, and every line before it is good |
| Rename.FirstBadLine | agp/rename.py:33-46 | when reading the lines fails, some line fails with that very error, and every line before it is good |
| Rename.RenamingLinesNumbered | agp/rename.py:36-45 | the error of line `k` carries the number `k + 1` |
| Rename.MapOfKeys | agp/rename.py:40-46 | the dict holds exactly the names given, each with the renaming of the last pair that names it, as later assignments overwrite earlier ones |
| Rename.RenamingMapKeys | agp/rename.py:31-48 | a file read without error maps exactly the first fields of its lines, each to orientation `+` or `-`; an old name listed on several lines gets the new name and orientation of the last of them |
| Rename.PairsKey | agp/rename.py:36-46 | for the pairs read from the lines, a name is a key exactly when a line starts with it, and then maps to the pair of the last such line |
| Rename.PairsOfLines | agp/rename.py:36-46 | lines read without error give one pair per line, pair `k` being what line `k` reads as |
| Rename.PairOfLine | agp/rename.py:39-46 | a good line maps its first field, with orientation `+` or `-` |
| Rename.ParseRenamingFile | agp/rename.py:31-48 | the loop of `renaming_file_type` builds the map the specification gives, or stops at the first bad line |
| Rename.Renamed | agp/rename.py:70-76 | every row is kept, one for one, and carries the new name |
| Rename.RenamedSpec | agp/rename.py:70-76 | without `-` each row is only renamed, keeping its position, part and content; with `-` the renamed rows are reversed as `reverse_rows` does |
| Rename.RenamedTwice | agp/rename.py:74-75 | renaming and reversing twice gives the rows only renamed |
| Rename.RenameRows | agp/rename.py:51-76 | `rename_rows` gives what the renaming specification gives |
| Rename.Flush | agp/rename.py:104-109 | flushing prints every buffered row, empties the buffer and records the object as renamed |
| Rename.Step | agp/rename.py:96-125 | one line keeps the buffer holding only rows of one mapped object |
| Rename.RenameFold | agp/rename.py:96-125 | the loop keeps the buffer holding only rows of one mapped object |
| Rename.RenameFoldLast | agp/rename.py:127-128 | when the input ends on a row and rows are buffered, that row is of the buffered object, so the final lookup by its name is the right one |
| Rename.RenameFoldCounts | agp/rename.py:96-130 | every line read is printed or buffered, and the objects renamed or buffered are exactly the mapped objects that occur |
| Rename.RenamingRun | agp/rename.py:79-134 | everything `run` prints and the error it raises; a function without a contract of its own, specified by `Rename.RenamingLength`, `Rename.RenamingNotFound` and `Rename.RenamingUntouched`, and computed by the loop `Rename.Run` |
| Rename.RenamingLength | agp/rename.py:93-130 | one line is printed per input line |
| Rename.RenamingNotFound | agp/rename.py:132-134 | `ScaffoldNotFoundError` is raised exactly when some mapped name never occurs, and names all of them |
| Rename.RenamingUntouched | agp/rename.py:96-125 | an input with no mapped object is printed unchanged |
| Rename.StepSpec | agp/rename.py:96-125 | a comment is echoed; a mapped row joins the buffer, after flushing another object's rows; an unmapped row is printed after flushing the buffer; a flush prints the buffer renamed, and reversed for `-` |
| Rename.Run | agp/rename.py:79-134 | `run` prints what the buffering specification says and raises for names never seen |
| Remove.Kept | agp/remove.py:31-35 | the lines `run` prints, in input order; a function without a contract of its own, specified by `Remove.KeptSpec` |
| Remove.KeptSpec | agp/remove.py:31-35 | every printed line comes from the input and is a comment or a row of a scaffold not removed, and every such input line is printed |
| Remove.KeptIdempotent | agp/remove.py:31-35 | removing again from the output removes nothing more |
| Remove.KeptConcat | agp/remove.py:31-33 | lines are filtered one at a time, so the output keeps the input order |
| Remove.RemovalError | agp/remove.py:36-38 | `ScaffoldNotFoundError` is raised exactly when some scaffold to remove has no row, and names exactly those scaffolds |
| Remove.Run | agp/remove.py:29-38 | `run` prints the kept lines and raises for the scaffolds never seen, as the removal specification says |
| Sanitize.Runs | agp/sanitize.py:13-28 | the maximal runs of rows of one object, in order; a function without a contract of its own, specified by `Sanitize.RunsSpec` |
| Sanitize.RunsSpec | agp/sanitize.py:19-28 | the runs concatenate back to the rows; there are none exactly when there are no rows; each is nonempty and of one object; neighbouring runs differ in object; the last run ends with the last row |
| Sanitize.RunsFlatten | agp/sanitize.py:19-28 | the runs concatenate back to the rows |
| Sanitize.RunsShape | agp/sanitize.py:22-27 | each run is nonempty and of one object, and neighbouring runs differ in object |
| Sanitize.RunsMerge | agp/sanitize.py:27 | a row of the current object extends the last run |
| Sanitize.RunsNew | agp/sanitize.py:22-27 | a row of another object starts a new run |
| Sanitize.RunsExtend | agp/sanitize.py:21-27 | one more row either extends the last run or starts a new one, by its object |
| Sanitize.Divide | agp/sanitize.py:28 | `divide_into_scaffolds` always yields at least one group: one empty group for no rows |
| Sanitize.DivideIntoScaffolds | agp/sanitize.py:13-28 | the generator yields the runs of rows by object, as the division specification says |
| Sanitize.DivideRow | agp/sanitize.py:22-27 | one row of the loop keeps the groups yielded plus the open group equal to the runs so far |
| Sanitize.ForceAllSpec | agp/sanitize.py:33-37 | forcing works row by row: a component alone in its scaffold gets orientation `+`, and every other row is kept |
| Sanitize.NextObject | agp/sanitize.py:22-27 | the row after a scaffold belongs to another object |
| Sanitize.ForcedInHead | agp/sanitize.py:36-37 | within its scaffold, a row is forced exactly when it is a lone component |
| Sanitize.ForcedInTail | agp/sanitize.py:36-37 | rows after a scaffold are forced as if it were not there |
| Sanitize.ForcedSpec | agp/sanitize.py:33-37 | after division and forcing, the rows are the input rows, each with the orientation rule applied |
| Sanitize.SanitizeRows | agp/sanitize.py:38-51 | one output row per input row |
| Sanitize.Sanitized | agp/sanitize.py:31-51 | what `run` writes, AGP rows and FASTA lines; a function without a contract of its own, specified by `Sanitize.SanitizedSpec`, `Sanitize.SanitizedAt` and `Sanitize.SanitizedSpan` (the AGP rows) and `Sanitize.SanitizedFasta` (the FASTA lines) |
| Sanitize.SanitizedSpec | agp/sanitize.py:31-51 | output row `i` is input row `i` with the orientation rule applied and, for a component, renamed `contig_n` where `n` is one more than the components before it, over positions 1 to the length of the bases it used |
| Sanitize.SanitizedAt | agp/sanitize.py:31-51 | the same, for one row |
| Sanitize.ContigPartSpec | agp/sanitize.py:42-44 | a component whose span lies within its contig uses bases `component_beg` to `component_end` of it, `component_end - component_beg + 1` of them |
| Sanitize.SanitizedSpan | agp/sanitize.py:42-50 | a component row whose span lies within its contig is renamed `contig_n`, `n` one more than the components before it, over positions 1 to `component_end - component_beg + 1` |
| Sanitize.SanitizedFasta | agp/sanitize.py:38-47 | the FASTA lines are, for each component row in input order, the record `contig_n` (`n` one more than the components before it) of the bases that row uses; gaps write none |
| Sanitize.SanitizeRowsFasta | agp/sanitize.py:38-47 | the loop over rows writes, row by row, the FASTA record of the contig each component becomes, the counter moving on by the components before it |
| Sanitize.ContigLinesHead | agp/sanitize.py:38-47 | the FASTA records per row: the first row's, then the rest's with the counter moved on by the first row |
| Sanitize.ContigLinesAlike | agp/sanitize.py:36-37 | forcing a lone component to `+` changes no FASTA record |
| Sanitize.ContigLinesReoriented | agp/sanitize.py:36-47 | the same, for one row |
| Sanitize.ComponentsReoriented | agp/sanitize.py:36-47 | rows that differ only in orientation count the same components before every row |
| Sanitize.ContigLinesOriented | agp/sanitize.py:42-46 | a component's FASTA record does not depend on its orientation |
| Sanitize.ForceSingleKnown | agp/sanitize.py:36-37 | forcing keeps every contig looked up |
| Sanitize.DivideKnown | agp/sanitize.py:33 | every scaffold of a file whose contigs are known has its contigs known |
| Sanitize.FlattenKnown | agp/sanitize.py:33 | contigs known for all rows are known for every scaffold |
| Sanitize.ContigsKnownJoin | agp/sanitize.py:42 | contigs known for two stretches are known for both together |
| Sanitize.ScaffoldsKnownTail | agp/sanitize.py:33 | contigs known for every scaffold are known for the first and for the rest |
| Sanitize.SanitizeAllCons | agp/sanitize.py:33-51 | the first scaffold is forced and sanitized from the counter, then the rest from the counter moved on by its components |
| Sanitize.ForceAllKnown | agp/sanitize.py:33-37 | forcing every scaffold keeps every contig looked up |
| Sanitize.SanitizeAllFlat | agp/sanitize.py:33-51 | sanitizing scaffold by scaffold is sanitizing the forced rows in one pass with one counter |
| Sanitize.FlatStep | agp/sanitize.py:38-51 | one scaffold, then the rest with the counter moved on by its components |
| Sanitize.ComponentsAlike | agp/sanitize.py:39 | forcing keeps the number of components |
| Sanitize.SanitizeRowsSpec | agp/sanitize.py:38-51 | output row `i` is row `i` sanitized with the counter moved on by the components before it |
| Sanitize.SanitizeRowsAt | agp/sanitize.py:38-51 | the same, for one row |
| Sanitize.SanitizeRowsSeam | agp/sanitize.py:38-51 | the first row after a stretch is sanitized with the counter moved on by the stretch's components |
| Sanitize.SanitizedRowsHead | agp/sanitize.py:38-51 | the first row is sanitized with the counter, the rest after it |
| Sanitize.ComponentsPrefix | agp/sanitize.py:47 | the counter before row `i` counts the first row and the components after it |
| Sanitize.SanitizeRowsConcat | agp/sanitize.py:38-51 | sanitizing two stretches in turn is sanitizing both, the counter moving on by the components of the first |
| Sanitize.ContigsKnownConcat | agp/sanitize.py:42 | contigs known for two stretches together are known for each |
| Sanitize.SanitizeScaffold | agp/sanitize.py:38-51 | the loop over one scaffold writes its rows and FASTA records as the specification says and moves the counter on by its components |
| Sanitize.SanitizeRowsSnoc | agp/sanitize.py:38-51 | one more row appends its row and FASTA record, and moves the counter on by one for a component |
| Sanitize.ComponentsConcat | agp/sanitize.py:47 | the components of two stretches add up |
| Sanitize.SanitizeOne | agp/sanitize.py:39-51 | a gap is printed as it is; a component writes a FASTA record `contig_n` of the bases it uses and is renamed to it over 1 to their length, moving the counter on |
| Sanitize.Run | agp/sanitize.py:31-51 | `run` writes the rows and FASTA records the sanitizing specification gives |
| Sanitize.SanitizeScaffolds | agp/sanitize.py:32-51 | the loop over scaffolds writes what sanitizing scaffold by scaffold gives, from contig 1 |
| Sanitize.SanitizeNext | agp/sanitize.py:33-51 | one scaffold, forced then sanitized, is one step of the loop |
| Sanitize.ScaffoldStep | agp/sanitize.py:33-51 | sanitizing from scaffold `g` is scaffold `g`, forced and sanitized, then the rest |
| Sanitize.GlueStep | agp/sanitize.py:38-51 | output written in pieces is the output written at once |
| Sanitize.SanitizeRowsHead | agp/sanitize.py:38-51 | the first row, then the rest with the counter moved on by it |
| Sanitize.ContigsKnownTail | agp/sanitize.py:42 | contigs known for all rows are known for all but the first |
| Seqs.FlattenConcat | agp/sanitize.py:19-28 | concatenating groups distributes over joining lists of groups |
| Seqs.SortIntsSpec | agp/split.py:83 | `sorted` gives its input in increasing order, as a permutation |
| Seqs.InsertPerm | agp/split.py:83 | inserting adds exactly the one element |
| Seqs.InsertSorted | agp/split.py:83 | inserting into a sorted list keeps it sorted |
| Wrappers.CollectOk | agp/__init__.py:160-169 | reading every line succeeds exactly when each line does, giving the lines' values in order |
| Wrappers.CollectFirstError | agp/__init__.py:160-169 | a failed read reports the error of the first bad line, every earlier one being good |
| Wrappers.CollectErrorSticks | agp/__init__.py:160-169 | once a line fails, later lines change nothing |
| Wrappers.CollectStep | agp/__init__.py:160-169 | a good line appends its value; a bad one ends the read with its error |

## Left out

- File opening, reading and printing. The model works on the lines of a file as a sequence of strings or items, and returns what would be printed. This covers `joins_type`, `breakpoints_type`, `renaming_file_type`, `scaffolds_list_type`, `open_agp`, `open_bed` and every `print`.
- `breakpoints_type` and `scaffolds_list_type` in agp/split.py and agp/remove.py are file-reading argument types. The model takes the breakpoints map and the set of names as given.
- `agp/agptools.py` is only command-line wiring. It is not part of this model.
- `agp/assemble.py` slices and reverse-complements sequences with Biopython, which is not part of this model.
- The pyfaidx FASTA index that `sanitize` reads is a map from contig name to its bases. A contig missing from the index makes pyfaidx raise `KeyError`. The model instead requires every component's contig to be in the map (`Sanitize.ContigsKnown`).
- The top-level copies `agp.py`, `bed.py`, `compose.py`, `flip.py`, `join.py`, `split.py`, `transform.py` and `assemble.py` are not modelled. They are older versions that `setup.py` does not install. `setup.py` is packaging only.
- Python mutates row objects in place, and the model treats rows as values. This matters only where one row object could appear twice:
  - `Join.Run` requires that no scaffold is named twice. `joins_type` guarantees this.
  - `compose` deletes a unit from its dict once the unit is used, so no row is spliced twice.
  - `split_contig` deep-copies the row it cuts (agp/split.py:84-85). `unoffset_rows` renames and shifts the rows it is given in place (agp/split.py:52-57), but every row belongs to one sub-scaffold only and is printed once, so no row object is shared and the value model agrees.
- Unguarded crashes are modelled as preconditions, not as errors:
  - `Rename.Run` requires that the input does not end on a comment while rows are buffered. There the final lookup `renaming_map[row.object]` would use the comment.
  - `Flip.Flip` requires that a range with a start also has an end.
  - `Transform.Run` requires that every record looked up in the index carries coordinates. There, Python would do arithmetic on `None`.
  - `Fasta.FastaLines` and `Fasta.PrintFasta` require `wrap != 0`. With a zero `wrap`, Python writes the `>name` header and then `range(0, len(sequence), 0)` raises `ValueError` (agp/fasta.py:29-30). Its only caller, agp/sanitize.py:46, passes the default of 60.
- `Join.JoinScaffolds` and `Join.Joined` require that every scaffold has rows (`Join.AllNonEmpty`), and that there is a scaffold when no name is given. Join's `run` raises `ScaffoldNotFoundError` for a scaffold without rows before it joins anything (agp/join.py:246-248), so only a direct call of `join_scaffolds` can break this. Such a call behaves in three ways:
  - Without a name, Python crashes: `s[0]` fails on the empty scaffold (agp/join.py:171, evaluated at agp/join.py:131), and with no scaffolds at all `matches[0]` fails.
  - With an empty first scaffold, Python crashes at `outrows[-1]` (agp/join.py:197).
  - With a name and an empty later scaffold, Python returns rows with two adjacent gaps, or a trailing gap. The model does not represent this output.
- Where Python raises `IndexError` in `split_scaffold` (a sub-scaffold with no rows) and in split's `run` (a file with no rows), the model returns the error.
- The `__str__` texts of the exceptions are modelled as string functions without contracts. `BrokenComponentError`'s multi-line text is not modelled.
- Join.ParseJoinsReused: the error carries the set of reused names. The order and text of Python's message, a list in `Counter` order, are not modelled.
- Remove.RemovalError: the error carries the set of missing names, not the `str` of that set.
- Text.ParseInt: Python's `int` also accepts `_` between digits and non-ASCII digits. The model accepts only an optional sign and ASCII digits, with surrounding whitespace.

## Where the code and its tests differ

The model follows the code. Lemmas exhibit each of these differences:

- `split_contig` never reads the orientation. A reversed contig keeps component positions 1-300 in its first piece, where tests/test_split.py:64-71 expects 701-1000 (`Split.ReverseContigCut`).
- After a contig is cut, the next sub-scaffold's part numbers are rebased from the last piece's part number. The tail piece and the contig after it both come out as part 1, where tests/test_split.py:72-85 expects parts 1 and 2 (`Split.RepeatedPartNumber`).
- `join_scaffolds` gives `make_superscaffold_name` a generator that the regex search uses up. Without an explicit name and a shared prefix, the superscaffold name is therefore empty, not the names joined by `p` that `make_superscaffold_name` returns for a list (`Join.SuperscaffoldName`, `Join.UsedUpNames`).
- `run` in agp/join.py does not pass `gap_evidence` on, so new gaps always carry `na` (`Join.JoinRunIgnoresEvidence`).
- The group-name pattern excludes `_`, although `BadSequenceNameError`'s message allows it (`Join.UnderscoreNameRefused`).
- tests/test_rename.py:11-21 puts a blank second line in the renaming file and expects the file to be read. `renaming_file_type` (agp/rename.py:34-38) reports that line as a line without enough columns instead; the model follows the code (`Rename.TablessLineRefused`).

Three further behaviours are modelled as the code has them:

- `run` in agp/join.py reports only the first registered scaffold without rows, in the order of the joins file (`Join.JoinRunSpec`).
- `transform` never reads `component_beg`. A contig's position on the scaffold comes from the row's object span alone (`Transform.Transformed`).
- In `sanitize`, a lone gap row's orientation is set to `+`. Gaps have no orientation column, so the row is written unchanged (`Sanitize.ForceAllSpec`).
