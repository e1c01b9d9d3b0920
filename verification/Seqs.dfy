/** Sequence functions shared by the codecs. */
module Seqs {
  function FlatMap<T, U>(f: T -> seq<U>, s: seq<T>): seq<U> {
    if s == [] then [] else f(s[0]) + FlatMap(f, s[1..])
  }

  lemma {:induction false} FlatMapAppend<T, U>(f: T -> seq<U>, a: seq<T>, b: seq<T>)
    ensures FlatMap(f, a + b) == FlatMap(f, a) + FlatMap(f, b)
  {
    if a == [] {
      assert a + b == b;
    } else {
      FlatMapAppend(f, a[1..], b);
      assert (a + b)[1..] == a[1..] + b && (a + b)[0] == a[0];
      Assoc(f(a[0]), FlatMap(f, a[1..]), FlatMap(f, b));
    }
  }

  lemma FlatMapOne<T, U>(f: T -> seq<U>, x: T)
    ensures FlatMap(f, [x]) == f(x)
  {
    assert FlatMap(f, [x]) == f(x) + FlatMap(f, []);
  }

  lemma FlatMapSnoc<T, U>(f: T -> seq<U>, s: seq<T>, x: T)
    ensures FlatMap(f, s + [x]) == FlatMap(f, s) + f(x)
  {
    FlatMapAppend(f, s, [x]);
    FlatMapOne(f, x);
  }

  function Whole<T>(part: seq<T>): seq<T> {
    part
  }

  /** The parts one behind the other. */
  function Flatten<T>(parts: seq<seq<T>>): seq<T> {
    FlatMap(Whole, parts)
  }

  lemma FlattenAppend<T>(a: seq<seq<T>>, b: seq<seq<T>>)
    ensures Flatten(a + b) == Flatten(a) + Flatten(b)
  {
    FlatMapAppend(Whole, a, b);
  }

  /** JavaScript's `indexOf` for a single element: the first position, or -1. */
  function IndexOf<T(==)>(s: seq<T>, x: T): (i: int)
    ensures -1 <= i < |s|
    ensures i == -1 <==> x !in s
    ensures i >= 0 ==> s[i] == x && x !in s[..i]
  {
    if s == [] then -1
    else if s[0] == x then 0
    else
      var i := IndexOf(s[1..], x);
      if i < 0 then -1 else assert s[..i + 1] == [s[0]] + s[1..][..i]; i + 1
  }

  /** JavaScript's `split` on a single element: always at least one part. */
  function Split<T(==)>(s: seq<T>, sep: T): (parts: seq<seq<T>>)
    ensures |parts| >= 1
    ensures forall k :: 0 <= k < |parts| ==> sep !in parts[k]
  {
    var i := IndexOf(s, sep);
    if i < 0 then [s] else [s[..i]] + Split(s[i + 1..], sep)
  }

  /** JavaScript's `join` with a single element. */
  function Join<T>(parts: seq<seq<T>>, sep: T): seq<T> {
    if parts == [] then []
    else if |parts| == 1 then parts[0]
    else parts[0] + [sep] + Join(parts[1..], sep)
  }

  lemma IndexOfFirst<T>(a: seq<T>, x: T, b: seq<T>)
    requires x !in a
    ensures IndexOf(a + [x] + b, x) == |a|
  {
    var s := a + [x] + b;
    assert s[..|a|] == a && s[|a|] == x;
    assert forall k :: 0 <= k < |a| ==> s[k] == a[k];
    assert forall k :: |a| < k <= |s| ==> x in s[..k] by {
      forall k | |a| < k <= |s|
        ensures x in s[..k]
      {
        assert s[..k][|a|] == x;
      }
    }
  }

  lemma SplitCons<T>(a: seq<T>, sep: T, b: seq<T>)
    requires sep !in a
    ensures Split(a + [sep] + b, sep) == [a] + Split(b, sep)
  {
    var s := a + [sep] + b;
    IndexOfFirst(a, sep, b);
    assert s[..|a|] == a;
    assert s[|a| + 1..] == b;
  }

  /** Splitting undoes joining parts that do not contain the separator. */
  lemma {:induction false} SplitJoin<T>(parts: seq<seq<T>>, sep: T)
    requires |parts| >= 1
    requires forall k :: 0 <= k < |parts| ==> sep !in parts[k]
    ensures Split(Join(parts, sep), sep) == parts
  {
    if |parts| > 1 {
      SplitCons(parts[0], sep, Join(parts[1..], sep));
      SplitJoin(parts[1..], sep);
    }
  }

  lemma JoinCons<T>(a: seq<T>, parts: seq<seq<T>>, sep: T)
    requires parts != []
    ensures Join([a] + parts, sep) == a + [sep] + Join(parts, sep)
  {
    assert ([a] + parts)[1..] == parts;
  }

  lemma CutAt<T>(s: seq<T>, i: nat)
    requires i < |s|
    ensures s[..i] + [s[i]] + s[i + 1..] == s
  {
  }

  /** Joining undoes splitting. */
  lemma {:induction false} JoinSplit<T>(s: seq<T>, sep: T)
    ensures Join(Split(s, sep), sep) == s
  {
    var i := IndexOf(s, sep);
    if i >= 0 {
      var rest := s[i + 1..];
      JoinSplit(rest, sep);
      JoinCons(s[..i], Split(rest, sep), sep);
      CutAt(s, i);
    }
  }

  lemma Assoc<T>(a: seq<T>, b: seq<T>, c: seq<T>)
    ensures (a + b) + c == a + (b + c)
  {
  }

  /** `t` stands in `s` at position `i`. */
  predicate StandsAt<T(==)>(s: seq<T>, i: nat, t: seq<T>) {
    i + |t| <= |s| && forall k :: 0 <= k < |t| ==> s[i + k] == t[k]
  }

  lemma StandsWhole<T>(s: seq<T>)
    ensures StandsAt(s, 0, s)
  {
  }

  lemma StandsSplit<T>(s: seq<T>, i: nat, a: seq<T>, b: seq<T>)
    ensures StandsAt(s, i, a + b) <==> StandsAt(s, i, a) && StandsAt(s, i + |a|, b)
  {
    if StandsAt(s, i, a + b) {
      forall k | 0 <= k < |a|
        ensures s[i + k] == a[k]
      {
        assert (a + b)[k] == a[k];
      }
      forall k | 0 <= k < |b|
        ensures s[i + |a| + k] == b[k]
      {
        assert (a + b)[|a| + k] == b[k];
      }
    }
  }
}
