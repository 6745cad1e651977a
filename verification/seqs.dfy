/** Small facts about sequences shared by the engines. */
module Seqs {

  function Last<T>(s: seq<T>): T
    requires |s| > 0
  {
    s[|s| - 1]
  }

  /** Concatenation of a list of lists (Python's `chain.from_iterable`). */
  function Flatten<T>(ss: seq<seq<T>>): seq<T>
  {
    if ss == [] then [] else ss[0] + Flatten(ss[1..])
  }

  lemma FlattenCons<T>(s: seq<T>, ss: seq<seq<T>>)
    ensures Flatten([s] + ss) == s + Flatten(ss)
  {
    assert ([s] + ss)[1..] == ss;
  }

  lemma FlattenSingle<T>(s: seq<T>)
    ensures Flatten([s]) == s
  {
    FlattenCons(s, []);
    assert [s] + [] == [s];
  }

  lemma {:induction false} FlattenConcat<T>(a: seq<seq<T>>, b: seq<seq<T>>)
    ensures Flatten(a + b) == Flatten(a) + Flatten(b)
  {
    if a == [] {
      assert a + b == b;
    } else {
      var ab := a + b;
      assert ab[0] == a[0] && ab[1..] == a[1..] + b;
      FlattenConcat(a[1..], b);
      assert Flatten(ab) == a[0] + Flatten(a[1..] + b);
      assert Flatten(a) == a[0] + Flatten(a[1..]);
    }
  }

  lemma FlattenAppend<T>(ss: seq<seq<T>>, s: seq<T>)
    ensures Flatten(ss + [s]) == Flatten(ss) + s
  {
    FlattenConcat(ss, [s]);
    FlattenSingle(s);
  }

  /** Every element of every list is in the concatenation. */
  lemma {:induction false} InFlatten<T>(ss: seq<seq<T>>, k: nat, x: T)
    requires k < |ss| && x in ss[k]
    ensures x in Flatten(ss)
    decreases k
  {
    if k > 0 {
      InFlatten(ss[1..], k - 1, x);
    }
  }

  /** Python's `sorted` on a list of integers. */
  predicate Sorted(s: seq<int>)
  {
    forall i, j :: 0 <= i < j < |s| ==> s[i] <= s[j]
  }

  /** One step of insertion sort: `x` goes before the first larger element. */
  function Insert(x: int, s: seq<int>): (r: seq<int>)
    ensures |r| == |s| + 1
  {
    if s == [] then [x]
    else if x <= s[0] then [x] + s
    else [s[0]] + Insert(x, s[1..])
  }

  /** Python's `sorted` on a list of integers, as an insertion sort. */
  function SortInts(s: seq<int>): (r: seq<int>)
    ensures |r| == |s|
  {
    if s == [] then [] else Insert(s[0], SortInts(s[1..]))
  }

  /** Inserting adds exactly one occurrence of `x`. */
  lemma {:induction false} InsertPerm(x: int, s: seq<int>)
    ensures multiset(Insert(x, s)) == multiset(s) + multiset{x}
    decreases |s|
  {
    if s != [] && x > s[0] {
      InsertPerm(x, s[1..]);
      assert s == [s[0]] + s[1..];
      assert multiset([s[0]] + Insert(x, s[1..])) == multiset{s[0]} + multiset(Insert(x, s[1..]));
    }
  }

  /** Every element of `Insert(x, s)` is `x` or at least the old head. */
  lemma {:induction false} InsertBound(x: int, s: seq<int>)
    requires Sorted(s)
    ensures forall k :: 0 <= k < |Insert(x, s)| ==>
      Insert(x, s)[k] == x || (|s| > 0 && s[0] <= Insert(x, s)[k])
    decreases |s|
  {
    if s != [] {
      var r := Insert(x, s);
      if x <= s[0] {
        assert r == [x] + s;
        forall k | 0 < k < |r|
          ensures s[0] <= r[k]
        {
          assert r[k] == s[k - 1];
        }
      } else {
        var rest := Insert(x, s[1..]);
        assert r == [s[0]] + rest;
        InsertBound(x, s[1..]);
        forall k | 0 < k < |r|
          ensures r[k] == x || s[0] <= r[k]
        {
          assert r[k] == rest[k - 1];
          if rest[k - 1] != x {
            assert s[1..][0] == s[1] && s[1] <= rest[k - 1];
            assert s[0] <= s[1];
          }
        }
      }
    }
  }

  /** Inserting into a sorted sequence keeps it sorted. */
  lemma {:induction false} InsertSorted(x: int, s: seq<int>)
    requires Sorted(s)
    ensures Sorted(Insert(x, s))
    decreases |s|
  {
    if s != [] {
      var r := Insert(x, s);
      if x <= s[0] {
        assert r == [x] + s;
        forall i, j | 0 <= i < j < |r|
          ensures r[i] <= r[j]
        {
          assert r[j] == s[j - 1];
        }
      } else {
        var rest := Insert(x, s[1..]);
        assert r == [s[0]] + rest;
        InsertSorted(x, s[1..]);
        InsertBound(x, s[1..]);
        forall i, j | 0 <= i < j < |r|
          ensures r[i] <= r[j]
        {
          assert r[j] == rest[j - 1];
          if i > 0 { assert r[i] == rest[i - 1]; }
          else if rest[j - 1] != x {
            assert s[1..][0] == s[1] && s[1] <= rest[j - 1];
            assert s[0] <= s[1];
          }
        }
      }
    }
  }

  /** `SortInts` returns a sorted permutation of its input. */
  lemma {:induction false} SortIntsSpec(s: seq<int>)
    ensures Sorted(SortInts(s)) && multiset(SortInts(s)) == multiset(s)
    decreases |s|
  {
    if s != [] {
      SortIntsSpec(s[1..]);
      InsertSorted(s[0], SortInts(s[1..]));
      InsertPerm(s[0], SortInts(s[1..]));
      assert s == [s[0]] + s[1..];
    }
  }
}
