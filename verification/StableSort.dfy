/**
 * Bottom-up merge sort as a function on sequences, and what it computes: the one stable sorted
 * arrangement of its input.  The heap version in LinkedList.dfy is proved against `Sort`.
 *
 * A comparator is only ever asked whether `cmp(x, y) <= 0`, so a total preorder is all it needs.
 */
module StableSort {
  import opened Seqs

  ghost predicate TotalPreorder<T>(cmp: (T, T) -> int, S: set<T>) {
    && (forall x, y :: x in S && y in S ==> cmp(x, y) <= 0 || cmp(y, x) <= 0)
    && (forall x, y, z :: x in S && y in S && z in S && cmp(x, y) <= 0 && cmp(y, z) <= 0 ==> cmp(x, z) <= 0)
  }

  ghost predicate Over<T>(s: seq<T>, S: set<T>) {
    forall k :: 0 <= k < |s| ==> s[k] in S
  }

  ghost predicate Sorted<T>(s: seq<T>, cmp: (T, T) -> int) {
    forall i, j :: 0 <= i < j < |s| ==> cmp(s[i], s[j]) <= 0
  }

  /** The elements of `s` that compare equal to `x`, in the order `s` has them. */
  ghost function Class<T>(s: seq<T>, x: T, cmp: (T, T) -> int): seq<T> {
    if s == [] then []
    else if cmp(s[0], x) <= 0 && cmp(x, s[0]) <= 0 then [s[0]] + Class(s[1..], x, cmp)
    else Class(s[1..], x, cmp)
  }

  /** `o` has the elements of `s`, and equal elements in the order `s` has them. */
  ghost predicate Stable<T>(s: seq<T>, o: seq<T>, cmp: (T, T) -> int, S: set<T>) {
    && multiset(o) == multiset(s)
    && forall x :: x in S ==> Class(o, x, cmp) == Class(s, x, cmp)
  }

  function Merge<T>(p: seq<T>, q: seq<T>, cmp: (T, T) -> int): (m: seq<T>)
    ensures |m| == |p| + |q|
    decreases |p| + |q|
  {
    if p == [] then q
    else if q == [] then p
    else if cmp(p[0], q[0]) <= 0 then [p[0]] + Merge(p[1..], q, cmp)
    else [q[0]] + Merge(p, q[1..], cmp)
  }

  function Min(a: nat, b: nat): nat {
    if a < b then a else b
  }

  /** `Merge` of the stretches `a..pe` and `b..qe` of `s`, by positions. */
  function MergeAt<T>(s: seq<T>, a: nat, pe: nat, b: nat, qe: nat, cmp: (T, T) -> int): (m: seq<T>)
    requires a <= pe <= |s| && b <= qe <= |s|
    ensures |m| == (pe - a) + (qe - b)
    decreases (pe - a) + (qe - b)
  {
    if a == pe && b == qe then []
    else if a < pe && (b == qe || cmp(s[a], s[b]) <= 0) then [s[a]] + MergeAt(s, a + 1, pe, b, qe, cmp)
    else [s[b]] + MergeAt(s, a, pe, b + 1, qe, cmp)
  }

  /** One pass from position `at` on: runs of length `w` are merged in pairs. */
  function PassFrom<T>(s: seq<T>, at: nat, w: nat, cmp: (T, T) -> int): (o: seq<T>)
    requires w > 0 && at <= |s|
    ensures |o| == |s| - at
    decreases |s| - at
  {
    if at == |s| then []
    else
      var pe, qe := Min(at + w, |s|), Min(at + 2 * w, |s|);
      MergeAt(s, at, pe, pe, qe, cmp) + PassFrom(s, qe, w, cmp)
  }

  function MergePass<T>(s: seq<T>, w: nat, cmp: (T, T) -> int): (o: seq<T>)
    requires w > 0
    ensures |o| == |s|
  {
    PassFrom(s, 0, w, cmp)
  }

  /** Passes with doubled run length until one pair of runs covers everything. */
  function SortFrom<T>(s: seq<T>, w: nat, cmp: (T, T) -> int): (o: seq<T>)
    requires w > 0
    ensures |o| == |s|
    decreases |s| - w
  {
    var o := MergePass(s, w, cmp);
    if |s| <= 2 * w then o else SortFrom(o, 2 * w, cmp)
  }

  function Sort<T>(s: seq<T>, cmp: (T, T) -> int): seq<T> {
    SortFrom(s, 1, cmp)
  }

  ghost function Member<T>(y: T, x: T, cmp: (T, T) -> int): seq<T> {
    if cmp(y, x) <= 0 && cmp(x, y) <= 0 then [y] else []
  }

  lemma ClassCons<T>(y: T, s: seq<T>, x: T, cmp: (T, T) -> int)
    ensures Class([y] + s, x, cmp) == Member(y, x, cmp) + Class(s, x, cmp)
  {
    assert ([y] + s)[1..] == s;
  }

  lemma {:induction false} ClassAppend<T>(a: seq<T>, b: seq<T>, x: T, cmp: (T, T) -> int)
    ensures Class(a + b, x, cmp) == Class(a, x, cmp) + Class(b, x, cmp)
  {
    if a == [] {
      assert a + b == b;
    } else {
      var h, t := [a[0]], a[1..];
      ClassAppend(t, b, x, cmp);
      assert a == h + t;
      Assoc(h, t, b);
      ClassCons(a[0], t + b, x, cmp);
      ClassCons(a[0], t, x, cmp);
      Assoc(Member(a[0], x, cmp), Class(t, x, cmp), Class(b, x, cmp));
    }
  }

  /** Nothing in a sorted sequence headed by an element above `x` compares equal to `x`. */
  lemma {:induction false} ClassAbove<T>(s: seq<T>, x: T, cmp: (T, T) -> int)
    requires forall k :: 0 <= k < |s| ==> !(cmp(s[k], x) <= 0)
    ensures Class(s, x, cmp) == []
  {
    if s != [] {
      ClassAbove(s[1..], x, cmp);
    }
  }

  lemma MultisetPrepend<T>(x: T, s: seq<T>)
    ensures multiset([x] + s) == multiset{x} + multiset(s)
  {
  }

  lemma MultisetHead<T>(s: seq<T>)
    requires s != []
    ensures multiset(s) == multiset{s[0]} + multiset(s[1..])
  {
    assert s == [s[0]] + s[1..];
  }

  lemma {:induction false} MergeMultiset<T>(p: seq<T>, q: seq<T>, cmp: (T, T) -> int)
    ensures multiset(Merge(p, q, cmp)) == multiset(p) + multiset(q)
    decreases |p| + |q|
  {
    if p != [] && q != [] {
      if cmp(p[0], q[0]) <= 0 {
        MergeMultiset(p[1..], q, cmp);
        MultisetPrepend(p[0], Merge(p[1..], q, cmp));
        MultisetHead(p);
      } else {
        MergeMultiset(p, q[1..], cmp);
        MultisetPrepend(q[0], Merge(p, q[1..], cmp));
        MultisetHead(q);
      }
    }
  }

  lemma {:induction false} MergeSorted<T>(p: seq<T>, q: seq<T>, cmp: (T, T) -> int, S: set<T>)
    requires TotalPreorder(cmp, S) && Over(p, S) && Over(q, S) && Sorted(p, cmp) && Sorted(q, cmp)
    ensures Sorted(Merge(p, q, cmp), cmp)
    decreases |p| + |q|
  {
    if p != [] && q != [] {
      if cmp(p[0], q[0]) <= 0 {
        MergeSorted(p[1..], q, cmp, S);
        PrependLeast(p[0], p[1..], q, cmp, S);
      } else {
        MergeSorted(p, q[1..], cmp, S);
        PrependLeast(q[0], p, q[1..], cmp, S);
      }
    }
  }

  /** The head of a sorted run is below all of it. */
  lemma BelowRun<T>(x: T, p: seq<T>, y: T, cmp: (T, T) -> int, S: set<T>)
    requires TotalPreorder(cmp, S) && x in S && Over(p, S) && Sorted(p, cmp) && y in p
    requires cmp(x, p[0]) <= 0
    ensures cmp(x, y) <= 0
  {
    var i :| 0 <= i < |p| && p[i] == y;
    assert i > 0 ==> cmp(p[0], p[i]) <= 0;
  }

  lemma PrependLeast<T>(x: T, p: seq<T>, q: seq<T>, cmp: (T, T) -> int, S: set<T>)
    requires TotalPreorder(cmp, S) && x in S && Over(p, S) && Over(q, S) && Sorted(p, cmp) && Sorted(q, cmp)
    requires p != [] ==> cmp(x, p[0]) <= 0
    requires q != [] ==> cmp(x, q[0]) <= 0
    requires Sorted(Merge(p, q, cmp), cmp)
    ensures Sorted([x] + Merge(p, q, cmp), cmp)
  {
    var m := Merge(p, q, cmp);
    MergeMultiset(p, q, cmp);
    forall k | 0 <= k < |m|
      ensures cmp(x, m[k]) <= 0
    {
      assert m[k] in multiset(m);
      if m[k] in p {
        BelowRun(x, p, m[k], cmp, S);
      } else {
        BelowRun(x, q, m[k], cmp, S);
      }
    }
  }

  /** When the merge takes `y` before a run, no member of the run equals anything `y` equals. */
  lemma ClassPassedOver<T>(p: seq<T>, y: T, x: T, cmp: (T, T) -> int, S: set<T>)
    requires TotalPreorder(cmp, S) && Over(p, S) && Sorted(p, cmp) && x in S && y in S
    requires p != [] && !(cmp(p[0], y) <= 0) && cmp(y, x) <= 0 && cmp(x, y) <= 0
    ensures Class(p, x, cmp) == []
  {
    forall k | 0 <= k < |p|
      ensures !(cmp(p[k], x) <= 0)
    {
      assert k > 0 ==> cmp(p[0], p[k]) <= 0;
    }
    ClassAbove(p, x, cmp);
  }

  lemma TakeLeft<T>(y: T, p: seq<T>, m: seq<T>, q: seq<T>, x: T, cmp: (T, T) -> int)
    requires Class(m, x, cmp) == Class(p, x, cmp) + Class(q, x, cmp)
    ensures Class([y] + m, x, cmp) == Class([y] + p, x, cmp) + Class(q, x, cmp)
  {
    ClassCons(y, m, x, cmp);
    ClassCons(y, p, x, cmp);
    Assoc(Member(y, x, cmp), Class(p, x, cmp), Class(q, x, cmp));
  }

  lemma TakeRight<T>(y: T, p: seq<T>, m: seq<T>, q: seq<T>, x: T, cmp: (T, T) -> int)
    requires Class(m, x, cmp) == Class(p, x, cmp) + Class(q, x, cmp)
    requires cmp(y, x) <= 0 && cmp(x, y) <= 0 ==> Class(p, x, cmp) == []
    ensures Class([y] + m, x, cmp) == Class(p, x, cmp) + Class([y] + q, x, cmp)
  {
    ClassCons(y, m, x, cmp);
    ClassCons(y, q, x, cmp);
  }

  /** Merging keeps every class in order, the first run's members before the second's. */
  lemma {:induction false} MergeClass<T>(p: seq<T>, q: seq<T>, x: T, cmp: (T, T) -> int, S: set<T>)
    requires TotalPreorder(cmp, S) && Over(p, S) && Over(q, S) && Sorted(p, cmp) && Sorted(q, cmp) && x in S
    ensures Class(Merge(p, q, cmp), x, cmp) == Class(p, x, cmp) + Class(q, x, cmp)
    decreases |p| + |q|
  {
    if p == [] || q == [] {
    } else if cmp(p[0], q[0]) <= 0 {
      MergeClass(p[1..], q, x, cmp, S);
      TakeLeft(p[0], p[1..], Merge(p[1..], q, cmp), q, x, cmp);
      assert p == [p[0]] + p[1..];
    } else {
      MergeClass(p, q[1..], x, cmp, S);
      if cmp(q[0], x) <= 0 && cmp(x, q[0]) <= 0 {
        ClassPassedOver(p, q[0], x, cmp, S);
      }
      TakeRight(q[0], p, Merge(p, q[1..], cmp), q[1..], x, cmp);
      assert q == [q[0]] + q[1..];
    }
  }

  /** `s` consists of sorted runs of length `w`, the last one possibly shorter. */
  ghost predicate Runs<T>(s: seq<T>, w: nat, cmp: (T, T) -> int)
    requires w > 0
    decreases |s|
  {
    if |s| <= w then Sorted(s, cmp) else Sorted(s[..w], cmp) && Runs(s[w..], w, cmp)
  }

  lemma {:induction false} MergeAtIsMerge<T>(s: seq<T>, a: nat, pe: nat, b: nat, qe: nat, cmp: (T, T) -> int)
    requires a <= pe <= |s| && b <= qe <= |s|
    ensures MergeAt(s, a, pe, b, qe, cmp) == Merge(s[a..pe], s[b..qe], cmp)
    decreases (pe - a) + (qe - b)
  {
    var p, q := s[a..pe], s[b..qe];
    if a == pe && b == qe {
    } else if a < pe && (b == qe || cmp(s[a], s[b]) <= 0) {
      MergeAtIsMerge(s, a + 1, pe, b, qe, cmp);
      assert p[1..] == s[a + 1..pe] && p == [s[a]] + s[a + 1..pe];
    } else {
      MergeAtIsMerge(s, a, pe, b + 1, qe, cmp);
      assert q[1..] == s[b + 1..qe] && q == [s[b]] + s[b + 1..qe];
    }
  }

  lemma ConsRun<T>(m: seq<T>, o: seq<T>, w: nat, cmp: (T, T) -> int)
    requires w > 0 && Sorted(m, cmp) && Runs(o, w, cmp)
    requires |m| == w || (|m| < w && o == [])
    ensures Runs(m + o, w, cmp)
  {
    if o == [] {
      assert m + o == m;
    } else {
      assert (m + o)[..w] == m && (m + o)[w..] == o;
    }
  }

  lemma ConsClass<T>(p: seq<T>, q: seq<T>, rest: seq<T>, o: seq<T>, x: T, cmp: (T, T) -> int, S: set<T>)
    requires TotalPreorder(cmp, S) && Over(p, S) && Over(q, S) && Sorted(p, cmp) && Sorted(q, cmp) && x in S
    requires Class(o, x, cmp) == Class(rest, x, cmp)
    ensures Class(Merge(p, q, cmp) + o, x, cmp) == Class(p + q + rest, x, cmp)
  {
    MergeClass(p, q, x, cmp, S);
    ClassAppend(Merge(p, q, cmp), o, x, cmp);
    ClassAppend(p, q, x, cmp);
    ClassAppend(p + q, rest, x, cmp);
  }

  lemma SlicesOfRest<T>(s: seq<T>, at: nat, pe: nat, qe: nat)
    requires at <= pe <= qe <= |s|
    ensures
      var t := s[at..];
      t[..pe - at] == s[at..pe] && t[pe - at..qe - at] == s[pe..qe] && t[qe - at..] == s[qe..]
    ensures s[at..] == s[at..pe] + s[pe..qe] + s[qe..]
  {
  }

  lemma FirstRuns<T>(s: seq<T>, at: nat, w: nat, cmp: (T, T) -> int)
    requires w > 0 && at < |s| && Runs(s[at..], w, cmp)
    ensures
      var pe, qe := Min(at + w, |s|), Min(at + 2 * w, |s|);
      Sorted(s[at..pe], cmp) && Sorted(s[pe..qe], cmp) && Runs(s[qe..], w, cmp)
  {
    var pe, qe := Min(at + w, |s|), Min(at + 2 * w, |s|);
    assert s[at..|s|] == s[at..] && s[pe..|s|] == s[pe..];
    if at + w < |s| {
      assert s[at..][..w] == s[at..pe] && s[at..][w..] == s[pe..];
      if at + 2 * w < |s| {
        assert s[pe..][..w] == s[pe..qe] && s[pe..][w..] == s[qe..];
      }
    }
  }

  /** What one pass does to a sequence of sorted runs. */
  lemma {:induction false} PassMerges<T>(s: seq<T>, at: nat, w: nat, cmp: (T, T) -> int, S: set<T>)
    requires w > 0 && at <= |s| && TotalPreorder(cmp, S) && Over(s, S) && Runs(s[at..], w, cmp)
    ensures Runs(PassFrom(s, at, w, cmp), 2 * w, cmp)
    ensures forall x :: x in S ==> Class(PassFrom(s, at, w, cmp), x, cmp) == Class(s[at..], x, cmp)
    decreases |s| - at
  {
    if at < |s| {
      var pe, qe := Min(at + w, |s|), Min(at + 2 * w, |s|);
      var p, q, rest := s[at..pe], s[pe..qe], s[qe..];
      FirstRuns(s, at, w, cmp);
      MergeSorted(p, q, cmp, S);
      MergeAtIsMerge(s, at, pe, pe, qe, cmp);
      PassMerges(s, qe, w, cmp, S);
      var o := PassFrom(s, qe, w, cmp);
      ConsRun(Merge(p, q, cmp), o, 2 * w, cmp);
      SlicesOfRest(s, at, pe, qe);
      forall x | x in S
        ensures Class(PassFrom(s, at, w, cmp), x, cmp) == Class(s[at..], x, cmp)
      {
        ConsClass(p, q, rest, o, x, cmp, S);
      }
    }
  }

  lemma MultisetThree<T>(p: seq<T>, q: seq<T>, rest: seq<T>, m: seq<T>, o: seq<T>)
    requires multiset(m) == multiset(p) + multiset(q) && multiset(o) == multiset(rest)
    ensures multiset(m + o) == multiset(p + q + rest)
  {
  }

  lemma {:induction false} PassMultiset<T>(s: seq<T>, at: nat, w: nat, cmp: (T, T) -> int)
    requires w > 0 && at <= |s|
    ensures multiset(PassFrom(s, at, w, cmp)) == multiset(s[at..])
    decreases |s| - at
  {
    if at < |s| {
      var pe, qe := Min(at + w, |s|), Min(at + 2 * w, |s|);
      var p, q, rest := s[at..pe], s[pe..qe], s[qe..];
      MergeAtIsMerge(s, at, pe, pe, qe, cmp);
      MergeMultiset(p, q, cmp);
      PassMultiset(s, qe, w, cmp);
      SlicesOfRest(s, at, pe, qe);
      MultisetThree(p, q, rest, Merge(p, q, cmp), PassFrom(s, qe, w, cmp));
    }
  }

  lemma MergePassMultiset<T>(s: seq<T>, w: nat, cmp: (T, T) -> int)
    requires w > 0
    ensures multiset(MergePass(s, w, cmp)) == multiset(s)
  {
    assert s[0..] == s;
    PassMultiset(s, 0, w, cmp);
  }

  /** Every comparator gets a rearrangement of its input. */
  lemma {:induction false} SortMultiset<T>(s: seq<T>, w: nat, cmp: (T, T) -> int)
    requires w > 0
    ensures multiset(SortFrom(s, w, cmp)) == multiset(s)
    decreases |s| - w
  {
    MergePassMultiset(s, w, cmp);
    if |s| > 2 * w {
      SortMultiset(MergePass(s, w, cmp), 2 * w, cmp);
    }
  }

  lemma OverMultiset<T>(s: seq<T>, o: seq<T>, S: set<T>)
    requires multiset(o) == multiset(s) && Over(s, S)
    ensures Over(o, S)
  {
    forall k | 0 <= k < |o|
      ensures o[k] in S
    {
      assert o[k] in multiset(o);
      assert o[k] in s;
    }
  }

  lemma {:induction false} SortFromStable<T>(s: seq<T>, w: nat, cmp: (T, T) -> int, S: set<T>)
    requires w > 0 && TotalPreorder(cmp, S) && Over(s, S) && Runs(s, w, cmp)
    ensures Sorted(SortFrom(s, w, cmp), cmp) && Stable(s, SortFrom(s, w, cmp), cmp, S)
    decreases |s| - w
  {
    var o := MergePass(s, w, cmp);
    assert s[0..] == s;
    PassMerges(s, 0, w, cmp, S);
    MergePassMultiset(s, w, cmp);
    if |s| > 2 * w {
      OverMultiset(s, o, S);
      SortFromStable(o, 2 * w, cmp, S);
    }
  }

  lemma {:induction false} SingletonRuns<T>(s: seq<T>, cmp: (T, T) -> int)
    ensures Runs(s, 1, cmp)
  {
    if |s| > 1 {
      SingletonRuns(s[1..], cmp);
    }
  }

  /** For a total preorder the result is sorted and stable. */
  lemma SortStable<T>(s: seq<T>, cmp: (T, T) -> int, S: set<T>)
    requires TotalPreorder(cmp, S) && Over(s, S)
    ensures Sorted(Sort(s, cmp), cmp) && Stable(s, Sort(s, cmp), cmp, S)
  {
    SingletonRuns(s, cmp);
    SortFromStable(s, 1, cmp, S);
  }

  lemma ClassTail<T>(x: T, t1: seq<T>, t2: seq<T>, z: T, cmp: (T, T) -> int)
    requires Class([x] + t1, z, cmp) == Class([x] + t2, z, cmp)
    ensures Class(t1, z, cmp) == Class(t2, z, cmp)
  {
    ClassCons(x, t1, z, cmp);
    ClassCons(x, t2, z, cmp);
    var m := Member(x, z, cmp);
    assert (m + Class(t1, z, cmp))[|m|..] == Class(t1, z, cmp);
    assert (m + Class(t2, z, cmp))[|m|..] == Class(t2, z, cmp);
  }

  /** Sorted and stable leave no freedom: there is only one such arrangement. */
  lemma {:induction false} StableUnique<T>(o1: seq<T>, o2: seq<T>, cmp: (T, T) -> int, S: set<T>)
    requires TotalPreorder(cmp, S) && Over(o1, S) && Over(o2, S)
    requires Sorted(o1, cmp) && Sorted(o2, cmp) && |o1| == |o2|
    requires forall x :: x in S ==> Class(o1, x, cmp) == Class(o2, x, cmp)
    ensures o1 == o2
  {
    if o1 != [] {
      var x, t1, t2 := o1[0], o1[1..], o2[1..];
      SharedLeast(o1, o2, cmp, S);
      assert o1 == [x] + t1 && o2 == [x] + t2;
      forall z | z in S
        ensures Class(t1, z, cmp) == Class(t2, z, cmp)
      {
        assert Class(o1, z, cmp) == Class(o2, z, cmp);
        ClassTail(x, t1, t2, z, cmp);
      }
      StableUnique(t1, t2, cmp, S);
    }
  }

  lemma {:induction false} InClass<T>(s: seq<T>, x: T, cmp: (T, T) -> int, y: T)
    ensures y in Class(s, x, cmp) <==> y in s && cmp(y, x) <= 0 && cmp(x, y) <= 0
  {
    if s != [] {
      InClass(s[1..], x, cmp, y);
    }
  }

  /** Two such arrangements begin with the same element. */
  lemma SharedLeast<T>(o1: seq<T>, o2: seq<T>, cmp: (T, T) -> int, S: set<T>)
    requires TotalPreorder(cmp, S) && Over(o1, S) && Over(o2, S)
    requires Sorted(o1, cmp) && Sorted(o2, cmp) && |o1| == |o2| > 0
    requires forall x :: x in S ==> Class(o1, x, cmp) == Class(o2, x, cmp)
    ensures o1[0] == o2[0]
  {
    var x, y := o1[0], o2[0];
    InClass(o1, x, cmp, x);
    InClass(o2, x, cmp, x);
    InClass(o2, y, cmp, y);
    InClass(o1, y, cmp, y);
    assert x in o2 && y in o1;
    BelowRun(x, o1, y, cmp, S);
    BelowRun(y, o2, x, cmp, S);
    assert Class(o1, x, cmp)[0] == x;
    assert Class(o2, x, cmp)[0] == y;
  }
}
