/**
 The canonical ordering loop (section 3.11 of the Unicode Standard): runs of code points with a combining class are
 sorted by class in place, stably. The class function is arbitrary.
 */
module CanonicalOrder {

  type Classes = nat -> nat

  // ---- stable sorting

  /** Inserts x, which comes from the left, in front of the first element whose class is not below its own. */
  function Insert(x: nat, s: seq<nat>, ccc: Classes): (r: seq<nat>)
    ensures |r| == |s| + 1
  {
    if s == [] || ccc(x) <= ccc(s[0]) then [x] + s else [s[0]] + Insert(x, s[1..], ccc)
  }

  /** The stable sort by class. */
  function StableSorted(s: seq<nat>, ccc: Classes): (r: seq<nat>)
    ensures |r| == |s|
  {
    if s == [] then [] else Insert(s[0], StableSorted(s[1..], ccc), ccc)
  }

  predicate Sorted(s: seq<nat>, ccc: Classes) {
    forall i, j :: 0 <= i < j < |s| ==> ccc(s[i]) <= ccc(s[j])
  }

  /** The elements of one class, in order. */
  function OfClass(s: seq<nat>, c: nat, ccc: Classes): seq<nat> {
    if s == [] then [] else (if ccc(s[0]) == c then [s[0]] else []) + OfClass(s[1..], c, ccc)
  }

  lemma {:induction false} InsertPermutes(x: nat, s: seq<nat>, ccc: Classes)
    ensures multiset(Insert(x, s, ccc)) == multiset([x] + s)
  {
    if s != [] && ccc(x) > ccc(s[0]) {
      InsertPermutes(x, s[1..], ccc);
      assert s == [s[0]] + s[1..];
    }
  }

  lemma InsertMembers(x: nat, s: seq<nat>, ccc: Classes, e: nat)
    requires e in Insert(x, s, ccc)
    ensures e == x || e in s
  {
    InsertPermutes(x, s, ccc);
    assert e in multiset(Insert(x, s, ccc));
    assert e in multiset([x] + s);
  }

  lemma {:induction false} InsertSorted(x: nat, s: seq<nat>, ccc: Classes)
    requires Sorted(s, ccc)
    ensures Sorted(Insert(x, s, ccc), ccc)
  {
    if s != [] && ccc(x) > ccc(s[0]) {
      var t := Insert(x, s[1..], ccc);
      InsertSorted(x, s[1..], ccc);
      forall i | 0 <= i < |t| ensures ccc(s[0]) <= ccc(t[i]) {
        InsertMembers(x, s[1..], ccc, t[i]);
        if t[i] != x {
          var k :| 0 <= k < |s| - 1 && s[1..][k] == t[i];
          assert s[k + 1] == t[i];
        }
      }
    }
  }

  lemma {:induction false} InsertOfClass(x: nat, s: seq<nat>, c: nat, ccc: Classes)
    ensures OfClass(Insert(x, s, ccc), c, ccc) == OfClass([x] + s, c, ccc)
  {
    assert ([x] + s)[1..] == s;
    if s != [] && ccc(x) > ccc(s[0]) {
      var t := Insert(x, s[1..], ccc);
      InsertOfClass(x, s[1..], c, ccc);
      assert ([s[0]] + t)[1..] == t && ([x] + s[1..])[1..] == s[1..];
    }
  }

  /** Sorting permutes, sorts, and keeps the order within each class. */
  lemma {:induction false} SortingSorts(s: seq<nat>, ccc: Classes)
    ensures multiset(StableSorted(s, ccc)) == multiset(s) && Sorted(StableSorted(s, ccc), ccc)
  {
    if s != [] {
      SortingSorts(s[1..], ccc);
      InsertPermutes(s[0], StableSorted(s[1..], ccc), ccc);
      InsertSorted(s[0], StableSorted(s[1..], ccc), ccc);
      assert s == [s[0]] + s[1..];
    }
  }

  lemma {:induction false} SortingIsStable(s: seq<nat>, c: nat, ccc: Classes)
    ensures OfClass(StableSorted(s, ccc), c, ccc) == OfClass(s, c, ccc)
  {
    if s != [] {
      var t := StableSorted(s[1..], ccc);
      SortingIsStable(s[1..], c, ccc);
      InsertOfClass(s[0], t, c, ccc);
      assert ([s[0]] + t)[1..] == t;
    }
  }

  /** A sequence whose classes are ordered is left alone. */
  lemma {:induction false} SortedIsFixed(s: seq<nat>, ccc: Classes)
    requires Sorted(s, ccc)
    ensures StableSorted(s, ccc) == s
  {
    if s != [] {
      SortedIsFixed(s[1..], ccc);
      assert s == [s[0]] + s[1..];
    }
  }

  lemma {:induction false} NoneOfClass(s: seq<nat>, c: nat, ccc: Classes)
    requires forall i :: 0 <= i < |s| ==> ccc(s[i]) != c
    ensures OfClass(s, c, ccc) == []
  {
    if s != [] {
      NoneOfClass(s[1..], c, ccc);
    }
  }

  lemma {:induction false} SomeOfClass(s: seq<nat>, i: nat, ccc: Classes)
    requires i < |s|
    ensures OfClass(s, ccc(s[i]), ccc) != []
  {
    if i > 0 {
      SomeOfClass(s[1..], i - 1, ccc);
    }
  }

  /** There is only one sorted sequence with the same elements, in the same order, in every class. */
  lemma {:induction false} StableSortIsUnique(a: seq<nat>, b: seq<nat>, ccc: Classes)
    requires Sorted(a, ccc) && Sorted(b, ccc)
    requires forall c: nat :: OfClass(a, c, ccc) == OfClass(b, c, ccc)
    ensures a == b
    decreases |a| + |b|
  {
    if a == [] && b == [] {
    } else if a == [] {
      SomeOfClass(b, 0, ccc);
    } else if b == [] {
      SomeOfClass(a, 0, ccc);
    } else {
      SameHead(a, b, ccc);
      forall c: nat ensures OfClass(a[1..], c, ccc) == OfClass(b[1..], c, ccc) {
        assert OfClass(a, c, ccc) == OfClass(b, c, ccc);
        var pre := if ccc(a[0]) == c then [a[0]] else [];
        assert OfClass(a[1..], c, ccc) == (pre + OfClass(a[1..], c, ccc))[|pre|..];
        assert OfClass(b[1..], c, ccc) == (pre + OfClass(b[1..], c, ccc))[|pre|..];
      }
      StableSortIsUnique(a[1..], b[1..], ccc);
      assert a == [a[0]] + a[1..] && b == [b[0]] + b[1..];
    }
  }

  /** A class that occurs in a sorted sequence is not below that of its first element. */
  lemma HeadBelow(s: seq<nat>, c: nat, ccc: Classes)
    requires Sorted(s, ccc) && OfClass(s, c, ccc) != []
    ensures s != [] && ccc(s[0]) <= c
  {
    if forall i :: 0 <= i < |s| ==> ccc(s[i]) != c {
      NoneOfClass(s, c, ccc);
    } else {
      var i :| 0 <= i < |s| && ccc(s[i]) == c;
    }
  }

  lemma SameHead(a: seq<nat>, b: seq<nat>, ccc: Classes)
    requires a != [] && b != [] && Sorted(a, ccc) && Sorted(b, ccc)
    requires forall c: nat :: OfClass(a, c, ccc) == OfClass(b, c, ccc)
    ensures a[0] == b[0]
  {
    SomeOfClass(a, 0, ccc);
    HeadBelow(b, ccc(a[0]), ccc);
    SomeOfClass(b, 0, ccc);
    HeadBelow(a, ccc(b[0]), ccc);
    var c := ccc(a[0]);
    assert OfClass(a, c, ccc) == OfClass(b, c, ccc);
    assert OfClass(a, c, ccc)[0] == a[0] && OfClass(b, c, ccc)[0] == b[0];
  }

  // ---- runs

  /** The number of code points with a class at the front. */
  function RunLength(s: seq<nat>, ccc: Classes): (n: nat)
    ensures n <= |s|
    ensures forall i :: 0 <= i < n ==> ccc(s[i]) != 0
    ensures n < |s| ==> ccc(s[n]) == 0
  {
    if s == [] || ccc(s[0]) == 0 then 0 else 1 + RunLength(s[1..], ccc)
  }

  /** Sorts every run. */
  function Reordered(s: seq<nat>, ccc: Classes): (r: seq<nat>)
    ensures |r| == |s|
    decreases |s|
  {
    if s == [] then []
    else if ccc(s[0]) == 0 then [s[0]] + Reordered(s[1..], ccc)
    else
      var n := RunLength(s, ccc);
      StableSorted(s[..n], ccc) + Reordered(s[n..], ccc)
  }

  /** In front of `start` the runs are sorted, from `start` on nothing has changed. */
  ghost predicate SortedUpTo(now: seq<nat>, was: seq<nat>, start: nat, ccc: Classes) {
    && |now| == |was| && start <= |was|
    && now[start..] == was[start..] && now[..start] + Reordered(was[start..], ccc) == Reordered(was, ccc)
  }

  lemma SkipStarter(now: seq<nat>, was: seq<nat>, start: nat, ccc: Classes)
    requires start < |was| && SortedUpTo(now, was, start, ccc) && ccc(now[start]) == 0
    ensures SortedUpTo(now, was, start + 1, ccc)
  {
    hide StableSorted;
    assert now[start..][0] == now[start] && was[start..][0] == was[start];
    assert was[start..][1..] == was[start + 1..] && now[start..][1..] == now[start + 1..];
    assert now[..start + 1] == now[..start] + [was[start]];
    assert now[..start] + ([was[start]] + Reordered(was[start + 1..], ccc))
        == now[..start] + [was[start]] + Reordered(was[start + 1..], ccc);
  }

  lemma SkipRun(before: seq<nat>, now: seq<nat>, was: seq<nat>, start: nat, end: nat, ccc: Classes)
    requires start < end <= |was| && SortedUpTo(before, was, start, ccc) && |now| == |was|
    requires end - start == RunLength(was[start..], ccc)
    requires now[..start] == before[..start] && now[end..] == before[end..]
    requires now[start..end] == StableSorted(was[start..end], ccc)
    ensures SortedUpTo(now, was, end, ccc)
  {
    hide StableSorted;
    RunIs(was, start, end, ccc);
    assert now[end..] == was[end..] by {
      assert before[start..][end - start..] == before[end..] && was[start..][end - start..] == was[end..];
    }
    var run := now[start..end];
    assert now[..end] == now[..start] + run;
    assert now[..start] + (run + Reordered(was[end..], ccc)) == now[..start] + run + Reordered(was[end..], ccc);
  }

  lemma SortedToEnd(now: seq<nat>, was: seq<nat>, ccc: Classes)
    requires SortedUpTo(now, was, |was|, ccc)
    ensures now == Reordered(was, ccc)
  {
    assert now[..|was|] == now && was[|was|..] == [];
    assert now + [] == now;
  }

  lemma RunIs(was: seq<nat>, start: nat, end: nat, ccc: Classes)
    requires start < end <= |was| && end - start == RunLength(was[start..], ccc)
    ensures Reordered(was[start..], ccc) == StableSorted(was[start..end], ccc) + Reordered(was[end..], ccc)
  {
    hide StableSorted;
    var s, n := was[start..], end - start;
    assert s[..n] == was[start..end] && s[n..] == was[end..];
    assert ccc(s[0]) != 0;
  }

  /** The loop: finds each run and sorts it in place; the starter behind a run needs no look. */
  method OrderCanonically(codepoints: array<nat>, ccc: Classes)
    modifies codepoints
    ensures codepoints[..] == Reordered(old(codepoints[..]), ccc)
  {
    hide StableSorted, SortedUpTo;
    ghost var was := codepoints[..];
    var start := 0;
    NothingSorted(was, ccc);
    while start < codepoints.Length
      invariant 0 <= start <= codepoints.Length + 1
      invariant SortedUpTo(codepoints[..], was, if start <= codepoints.Length then start else codepoints.Length, ccc)
    {
      if ccc(codepoints[start]) == 0 {
        SkipStarter(codepoints[..], was, start, ccc);
        start := start + 1;
        continue;
      }
      ghost var before := codepoints[..];
      var end := FindEnd(codepoints, start, ccc);
      Untouched(before, was, start, end, ccc);
      if end - start > 1 {
        SortRun(codepoints, start, end, ccc);
      } else {
        assert Sorted(was[start..end], ccc);
        SortedIsFixed(was[start..end], ccc);
      }
      SkipRun(before, codepoints[..], was, start, end, ccc);
      if end < codepoints.Length {
        EndIsStarter(codepoints[..], was, start, end, ccc);
        SkipStarter(codepoints[..], was, end, ccc);
      }
      start := end + 1;
    }
    SortedToEnd(codepoints[..], was, ccc);
  }

  lemma NothingSorted(was: seq<nat>, ccc: Classes)
    ensures SortedUpTo(was, was, 0, ccc)
  {
    assert was[0..] == was && [] + Reordered(was, ccc) == Reordered(was, ccc);
  }

  lemma Untouched(now: seq<nat>, was: seq<nat>, start: nat, end: nat, ccc: Classes)
    requires SortedUpTo(now, was, start, ccc) && start <= end <= |was|
    ensures now[start..] == was[start..] && now[start..end] == was[start..end]
  {
    assert now[start..end] == now[start..][..end - start] && was[start..end] == was[start..][..end - start];
  }

  lemma EndIsStarter(now: seq<nat>, was: seq<nat>, start: nat, end: nat, ccc: Classes)
    requires SortedUpTo(now, was, end, ccc) && start < end < |was| && end - start == RunLength(was[start..], ccc)
    ensures ccc(now[end]) == 0
  {
    assert now[end..][0] == now[end] && was[end..][0] == was[end];
    assert was[start..][end - start] == was[end];
  }

  /** Where the run that starts at `start` ends. */
  method FindEnd(codepoints: array<nat>, start: nat, ccc: Classes) returns (end: nat)
    requires start < codepoints.Length && ccc(codepoints[start]) != 0
    ensures start < end <= codepoints.Length && end - start == RunLength(codepoints[start..], ccc)
  {
    end := start + 1;
    assert codepoints[start..][1..] == codepoints[end..];
    while end < codepoints.Length && ccc(codepoints[end]) != 0
      invariant start < end <= codepoints.Length
      invariant RunLength(codepoints[start..], ccc) == end - start + RunLength(codepoints[end..], ccc)
    {
      assert codepoints[end..][1..] == codepoints[end + 1..];
      end := end + 1;
    }
  }

  /** The library's stable sort of a range, by class. */
  method SortRun(codepoints: array<nat>, start: nat, end: nat, ccc: Classes)
    requires start <= end <= codepoints.Length
    modifies codepoints
    ensures codepoints[start..end] == StableSorted(old(codepoints[start..end]), ccc)
    ensures codepoints[..start] == old(codepoints[..start]) && codepoints[end..] == old(codepoints[end..])
  {
    hide StableSorted;
    var run := StableSorted(codepoints[start..end], ccc);
    forall i | start <= i < end {
      codepoints[i] := run[i - start];
    }
  }

  // ---- what the loop achieves

  predicate HasClass(s: seq<nat>, i: nat, ccc: Classes) {
    i < |s| && ccc(s[i]) != 0
  }

  /** A maximal run of code points with a class. */
  predicate IsRun(s: seq<nat>, i: nat, j: nat, ccc: Classes) {
    && i < j <= |s| && (forall k :: i <= k < j ==> HasClass(s, k, ccc))
    && (i > 0 ==> !HasClass(s, i - 1, ccc)) && !HasClass(s, j, ccc)
  }

  lemma SortedMembers(s: seq<nat>, ccc: Classes)
    ensures forall i :: 0 <= i < |s| ==> StableSorted(s, ccc)[i] in s
  {
    hide StableSorted;
    SortingSorts(s, ccc);
    var t := StableSorted(s, ccc);
    forall i | 0 <= i < |s| ensures t[i] in s {
      assert t[i] in multiset(t);
      assert t[i] in multiset(s);
    }
  }

  /** The loop permutes. */
  lemma {:induction false} ReorderedPermutes(s: seq<nat>, ccc: Classes)
    ensures multiset(Reordered(s, ccc)) == multiset(s)
    decreases |s|
  {
    hide StableSorted;
    if s != [] {
      if ccc(s[0]) == 0 {
        ReorderedPermutes(s[1..], ccc);
        assert s == [s[0]] + s[1..];
      } else {
        var n := RunLength(s, ccc);
        ReorderedPermutes(s[n..], ccc);
        SortingSorts(s[..n], ccc);
        assert s == s[..n] + s[n..];
      }
    }
  }

  /** A code point of class 0 stays where it is; at the other places there are code points with a class. */
  predicate StaysOrMoves(s: seq<nat>, r: seq<nat>, i: nat, ccc: Classes)
    requires i < |s| == |r|
  {
    if ccc(s[i]) == 0 then r[i] == s[i] else ccc(r[i]) != 0
  }

  lemma {:induction false} StartersStay(s: seq<nat>, i: nat, ccc: Classes)
    requires i < |s|
    ensures StaysOrMoves(s, Reordered(s, ccc), i, ccc)
    decreases |s|
  {
    hide StableSorted;
    if ccc(s[0]) == 0 {
      if i > 0 {
        StartersStay(s[1..], i - 1, ccc);
      }
    } else {
      var n := RunLength(s, ccc);
      if i < n {
        SortedMembers(s[..n], ccc);
      } else {
        StartersStay(s[n..], i - n, ccc);
        assert s[n..][i - n] == s[i];
      }
    }
  }

  /** The result is in canonical order: neighbours that both have a class are ordered by it. */
  lemma {:induction false} NeighboursOrdered(s: seq<nat>, i: nat, ccc: Classes)
    requires i + 1 < |s|
    ensures var r := Reordered(s, ccc);
            ccc(r[i]) != 0 && ccc(r[i + 1]) != 0 ==> ccc(r[i]) <= ccc(r[i + 1])
    decreases |s|
  {
    hide StableSorted;
    var r := Reordered(s, ccc);
    if ccc(s[0]) == 0 {
      if i > 0 {
        NeighboursOrdered(s[1..], i - 1, ccc);
      }
    } else {
      var n := RunLength(s, ccc);
      if i + 1 < n {
        SortingSorts(s[..n], ccc);
      } else if i + 1 == n {
        StartersStay(s, n, ccc);
      } else {
        NeighboursOrdered(s[n..], i - n, ccc);
      }
    }
  }

  lemma {:induction false} RunLengthIs(s: seq<nat>, n: nat, ccc: Classes)
    requires n <= |s| && (forall i :: 0 <= i < n ==> ccc(s[i]) != 0) && (n < |s| ==> ccc(s[n]) == 0)
    ensures RunLength(s, ccc) == n
  {
    if n > 0 {
      RunLengthIs(s[1..], n - 1, ccc);
    }
  }

  lemma SliceBehind(a: seq<nat>, b: seq<nat>, i: nat, j: nat)
    requires |a| <= i <= j <= |a| + |b|
    ensures (a + b)[i..j] == b[i - |a|..j - |a|]
  {
  }

  lemma SliceOfRest(s: seq<nat>, n: nat, i: nat, j: nat)
    requires n <= i <= j <= |s|
    ensures s[n..][i - n..j - n] == s[i..j]
  {
  }

  lemma RunAtFront(s: seq<nat>, j: nat, ccc: Classes)
    requires IsRun(s, 0, j, ccc)
    ensures RunLength(s, ccc) == j && Reordered(s, ccc) == StableSorted(s[..j], ccc) + Reordered(s[j..], ccc)
  {
    hide StableSorted;
    forall k: nat | k < j ensures ccc(s[k]) != 0 {
      assert HasClass(s, k, ccc);
    }
    RunLengthIs(s, j, ccc);
  }

  /** Every maximal run is replaced by its stable sort. */
  lemma {:induction false} RunsSorted(s: seq<nat>, i: nat, j: nat, ccc: Classes)
    requires IsRun(s, i, j, ccc)
    ensures Reordered(s, ccc)[i..j] == StableSorted(s[i..j], ccc)
    decreases |s|
  {
    hide StableSorted, IsRun;
    assert i < j <= |s| by { RunInside(s, i, j, ccc); }
    if i == 0 {
      RunAtFront(s, j, ccc);
    } else {
      var n := if ccc(s[0]) == 0 then 1 else RunLength(s, ccc);
      var front := if ccc(s[0]) == 0 then [s[0]] else StableSorted(s[..n], ccc);
      if ccc(s[0]) != 0 {
        RunsApart(s, i, j, ccc);
      }
      ShiftedRun(s, n, i, j, ccc);
      RunsSorted(s[n..], i - n, j - n, ccc);
      SliceOfRest(s, n, i, j);
      SliceBehind(front, Reordered(s[n..], ccc), i, j);
    }
  }

  lemma RunInside(s: seq<nat>, i: nat, j: nat, ccc: Classes)
    requires IsRun(s, i, j, ccc)
    ensures i < j <= |s|
  {
  }

  lemma ShiftedRun(s: seq<nat>, n: nat, i: nat, j: nat, ccc: Classes)
    requires IsRun(s, i, j, ccc) && n <= i
    ensures IsRun(s[n..], i - n, j - n, ccc)
  {
    forall k | i - n <= k < j - n ensures HasClass(s[n..], k, ccc) {
      assert HasClass(s, k + n, ccc);
    }
  }

  lemma RunsApart(s: seq<nat>, i: nat, j: nat, ccc: Classes)
    requires IsRun(s, i, j, ccc) && i > 0 && s != [] && ccc(s[0]) != 0
    ensures RunLength(s, ccc) < i
  {
    assert !HasClass(s, i - 1, ccc);
  }

  /** Reordering twice is reordering once. */
  lemma {:induction false} ReorderingIdempotent(s: seq<nat>, ccc: Classes)
    ensures Reordered(Reordered(s, ccc), ccc) == Reordered(s, ccc)
    decreases |s|
  {
    hide StableSorted;
    if s != [] {
      var r := Reordered(s, ccc);
      if ccc(s[0]) == 0 {
        ReorderingIdempotent(s[1..], ccc);
        assert r[1..] == Reordered(s[1..], ccc);
      } else {
        var n := RunLength(s, ccc);
        var run, tail := StableSorted(s[..n], ccc), Reordered(s[n..], ccc);
        SortingSorts(s[..n], ccc);
        SortedIsFixed(run, ccc);
        SortedMembers(s[..n], ccc);
        ReorderingIdempotent(s[n..], ccc);
        if n < |s| {
          StartersStay(s[n..], 0, ccc);
        }
        RunLengthIs(r, n, ccc);
        assert r[..n] == run && r[n..] == tail;
      }
    }
  }
}
