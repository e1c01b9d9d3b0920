/**
 * Reversal and splicing of rings, and the `LinkedList` class of lib/lws/list.js over them.
 */
module ListOps {
  import opened LinkedList
  import opened ListSort
  import opened Seqs
  import opened Wrappers
  import StableSort

  function Reversed<T>(s: seq<T>): (r: seq<T>)
    ensures |r| == |s|
  {
    if s == [] then [] else Reversed(s[1..]) + [s[0]]
  }

  lemma {:induction false} ReversedAt<T>(s: seq<T>, i: nat)
    requires i < |s|
    ensures Reversed(s)[i] == s[|s| - 1 - i]
  {
    if i < |s| - 1 {
      ReversedAt(s[1..], i);
    }
  }

  lemma {:induction false} ReversedSnoc<T>(s: seq<T>, x: T)
    ensures Reversed(s + [x]) == [x] + Reversed(s)
  {
    if s == [] {
      assert [] + [x] == [x];
    } else {
      ReversedSnoc(s[1..], x);
      assert (s + [x])[1..] == s[1..] + [x];
      Assoc([x], Reversed(s[1..]), [s[0]]);
    }
  }

  /** `__list_reverse`: the nodes are moved one by one behind the head. */
  method ListReverseNodes<T>(head: Node<T>, ghost s: seq<Node<T>>)
    requires s != [] && Ring([head] + s)
    modifies head, s
    ensures Ring([head] + Reversed(s))
  {
    ListOfRing(head, s);
    var prev := head.prev;
    assert prev == s[|s| - 1];
    var p := DetachHead(head, s);
    InitListHead(head);
    ghost var k: nat := 0;
    ghost var done: seq<Node<T>> := [];
    assert [head] + done == [head];
    while true
      invariant k < |s| && p == s[k] && done == Reversed(s[..k])
      invariant Ring([head] + done)
      invariant forall i {:trigger s[i].next} :: k <= i < |s| ==> s[i].next == s[After(i, |s|)]
      decreases |s| - k
    {
      var q := p.next;
      assert p == prev <==> k + 1 == |s|;
      ReversedPrefix(s, k);
      ListAdd(p, head, done);
      done := [p] + done;
      k := k + 1;
      if p == prev {
        break;
      }
      p := q;
    }
    assert s[..|s|] == s;
  }

  /** The part already reversed, and the next node to be moved. */
  lemma ReversedPrefix<T>(s: seq<Node<T>>, k: nat)
    requires Distinct(s) && k < |s|
    ensures Reversed(s[..k + 1]) == [s[k]] + Reversed(s[..k])
    ensures forall i :: 0 <= i < k ==> Reversed(s[..k])[i] == s[k - 1 - i] && Reversed(s[..k])[i] != s[k]
  {
    assert s[..k + 1] == s[..k] + [s[k]];
    ReversedSnoc(s[..k], s[k]);
    forall i | 0 <= i < k
      ensures Reversed(s[..k])[i] == s[k - 1 - i]
    {
      ReversedAt(s[..k], i);
    }
  }

  /** `list_reverse`. */
  method ListReverse<T>(head: Node<T>, ghost s: seq<Node<T>>)
    requires Ring([head] + s)
    modifies head, s
    ensures Ring([head] + Reversed(s))
  {
    var empty := ListEmpty(head, s);
    if !empty {
      ListReverseNodes(head, s);
    }
  }

  /** The node at position `i` of a list, where position `|s|` is its head again. */
  ghost function Around<T>(head: Node<T>, s: seq<Node<T>>, i: nat): Node<T> {
    if i < |s| then s[i] else head
  }

  /** The neighbours a list's pointers must name, element by element. */
  ghost predicate Linked<T>(head: Node<T>, s: seq<Node<T>>)
    reads head, s
  {
    && Distinct(s) && (forall i :: 0 <= i < |s| ==> s[i] != head)
    && head.next == Around(head, s, 0) && head.prev == (if s == [] then head else s[|s| - 1])
    && (forall i {:trigger s[i].next} :: 0 <= i < |s| ==> s[i].next == Around(head, s, i + 1))
    && (forall i {:trigger s[i].prev} :: 0 <= i < |s| ==> s[i].prev == if i == 0 then head else s[i - 1])
  }

  lemma RingOfList<T>(head: Node<T>, s: seq<Node<T>>)
    requires Linked(head, s)
    ensures Ring([head] + s)
  {
    var t := [head] + s;
    forall i | 0 <= i < |t|
      ensures t[i].next == t[After(i, |t|)] && t[i].prev == t[Ahead(i, |t|)]
    {
      if i > 0 {
        assert t[i] == s[i - 1];
        assert s[i - 1].next == Around(head, s, i) && s[i - 1].prev == t[i - 1];
      }
    }
  }

  lemma ListOfRingAt<T>(head: Node<T>, s: seq<Node<T>>, i: nat)
    requires Ring([head] + s) && i < |s|
    ensures s[i] != head
    ensures s[i].next == Around(head, s, i + 1) && s[i].prev == if i == 0 then head else s[i - 1]
  {
    var t := [head] + s;
    assert t[i + 1] == s[i] && t[0] == head;
    assert t[i + 1].next == t[After(i + 1, |t|)] && t[i + 1].prev == t[Ahead(i + 1, |t|)];
  }

  lemma DistinctTail<T>(head: Node<T>, s: seq<Node<T>>)
    requires Distinct([head] + s)
    ensures Distinct(s)
  {
    var t := [head] + s;
    assert forall i :: 0 <= i < |s| ==> s[i] == t[i + 1];
  }

  lemma ListOfRing<T>(head: Node<T>, s: seq<Node<T>>)
    requires Ring([head] + s)
    ensures Linked(head, s)
  {
    DistinctTail(head, s);
    var t := [head] + s;
    assert t[0].next == t[After(0, |t|)] && t[0].prev == t[Ahead(0, |t|)];
    forall i | 0 <= i < |s|
      ensures s[i] != head
      ensures s[i].next == Around(head, s, i + 1) && s[i].prev == if i == 0 then head else s[i - 1]
    {
      ListOfRingAt(head, s, i);
    }
  }

  ghost predicate Disjoint<T>(a: seq<Node<T>>, b: seq<Node<T>>) {
    forall i, j :: 0 <= i < |a| && 0 <= j < |b| ==> a[i] != b[j]
  }

  /** `list_splice`: the elements of `src` go in front of those of `dest`. */
  method ListSplice<T>(src: Node<T>, dest: Node<T>, ghost a: seq<Node<T>>, ghost b: seq<Node<T>>)
    requires Ring([src] + a) && Ring([dest] + b)
    requires Disjoint(a, b) && forall i :: 0 <= i < |a| ==> a[i] != dest
    modifies a, dest, b
    ensures Ring([dest] + (a + b))
  {
    var empty := ListEmpty(src, a);
    if empty {
      assert a + b == b;
    } else {
      ListOfRing(src, a);
      ListOfRing(dest, b);
      ListSpliceNodes(src, dest, a, b);
    }
  }

  /** `__list_splice`; `src` itself is left pointing into the joined list. */
  method ListSpliceNodes<T>(src: Node<T>, dest: Node<T>, ghost a: seq<Node<T>>, ghost b: seq<Node<T>>)
    requires Linked(src, a) && Linked(dest, b) && a != []
    requires Disjoint(a, b) && forall i :: 0 <= i < |a| ==> a[i] != dest
    modifies a, dest, b
    ensures Ring([dest] + (a + b))
  {
    var next, prev := src.next, src.prev;
    var at := dest.next;
    next.prev := dest;
    dest.next := next;
    prev.next := at;
    at.prev := prev;
    SplicedRing(dest, a, b);
  }

  lemma SplicedRing<T>(dest: Node<T>, a: seq<Node<T>>, b: seq<Node<T>>)
    requires a != [] && Distinct(a) && Distinct(b) && Disjoint(a, b)
    requires forall i :: 0 <= i < |a| ==> a[i] != dest
    requires forall i :: 0 <= i < |b| ==> b[i] != dest
    requires dest.next == a[0] && dest.prev == (if b == [] then a[|a| - 1] else b[|b| - 1])
    requires forall i {:trigger a[i].next} :: 0 <= i < |a| ==>
               a[i].next == if i + 1 < |a| then a[i + 1] else Around(dest, b, 0)
    requires forall i {:trigger a[i].prev} :: 0 <= i < |a| ==> a[i].prev == if i == 0 then dest else a[i - 1]
    requires forall i {:trigger b[i].next} :: 0 <= i < |b| ==> b[i].next == Around(dest, b, i + 1)
    requires forall i {:trigger b[i].prev} :: 0 <= i < |b| ==> b[i].prev == if i == 0 then a[|a| - 1] else b[i - 1]
    ensures Ring([dest] + (a + b))
  {
    var s := a + b;
    assert forall i :: 0 <= i < |s| ==> s[i] == if i < |a| then a[i] else b[i - |a|];
    forall i | 0 <= i < |s|
      ensures s[i].next == Around(dest, s, i + 1) && s[i].prev == if i == 0 then dest else s[i - 1]
    {
      if i < |a| {
        assert a[i].next == Around(dest, s, i + 1);
        assert a[i].prev == if i == 0 then dest else s[i - 1];
      } else {
        assert b[i - |a|].next == Around(dest, s, i + 1);
        assert b[i - |a|].prev == s[i - 1];
      }
    }
    RingOfList(dest, s);
  }

  ghost predicate Elements<T>(s: seq<Node<T>>) {
    forall i :: 0 <= i < |s| ==> s[i].data.Some?
  }

  /** The values of a list's nodes. */
  ghost function Data<T>(s: seq<Node<T>>): seq<T>
    requires Elements(s)
  {
    seq(|s|, i requires 0 <= i < |s| => s[i].data.value)
  }

  lemma NoData<T>(s: seq<Node<T>>)
    requires Elements(s)
    ensures s == [] ==> Data(s) == []
  {
  }

  /** The first and the last element of a list, as the head knows them. */
  lemma Ends<T>(head: Node<T>, s: seq<Node<T>>)
    requires Ring([head] + s) && s != []
    ensures head.next == s[0] && head.prev == s[|s| - 1] && ([head] + s)[1] == s[0] && ([head] + s)[|s|] == s[|s| - 1]
  {
    var t := [head] + s;
    assert t[0].next == t[After(0, |t|)] && t[0].prev == t[Ahead(0, |t|)];
  }

  lemma FirstOut<T>(head: Node<T>, s: seq<Node<T>>)
    requires s != [] && Elements(s)
    ensures ([head] + s)[..1] + ([head] + s)[2..] == [head] + s[1..]
    ensures s[0].data.Some? && Elements(s[1..]) && Data(s) == [s[0].data.value] + Data(s[1..])
  {
  }

  lemma LastOut<T>(head: Node<T>, s: seq<Node<T>>)
    requires s != [] && Elements(s)
    ensures ([head] + s)[..|s|] + ([head] + s)[|s| + 1..] == [head] + s[..|s| - 1]
    ensures s[|s| - 1].data.Some? && Elements(s[..|s| - 1])
    ensures Data(s) == Data(s[..|s| - 1]) + [s[|s| - 1].data.value]
  {
  }

  lemma DataReversed<T>(s: seq<Node<T>>)
    requires Elements(s)
    ensures Elements(Reversed(s))
    ensures Data(Reversed(s)) == Reversed(Data(s))
  {
    forall i | 0 <= i < |s|
      ensures Reversed(s)[i] == s[|s| - 1 - i] && Reversed(Data(s))[i] == Data(s)[|s| - 1 - i]
    {
      ReversedAt(s, i);
      ReversedAt(Data(s), i);
    }
  }

  /** `(a, b) => cmp(a.data, b.data)`. */
  function OnData<T>(cmp: (T, T) -> int): (Node<T>, Node<T>) -> int {
    (a: Node<T>, b: Node<T>) => if a.data.Some? && b.data.Some? then cmp(a.data.value, b.data.value) else 0
  }

  /** One choice of a merge. */
  lemma MergeAtOnce<T>(s: seq<T>, a: nat, pe: nat, b: nat, qe: nat, cmp: (T, T) -> int)
    requires a <= pe <= |s| && b <= qe <= |s|
    ensures StableSort.MergeAt(s, a, pe, b, qe, cmp) ==
      if a == pe && b == qe then []
      else if a < pe && (b == qe || cmp(s[a], s[b]) <= 0) then
        [s[a]] + StableSort.MergeAt(s, a + 1, pe, b, qe, cmp)
      else [s[b]] + StableSort.MergeAt(s, a, pe, b + 1, qe, cmp)
  {
  }

  lemma {:induction false} MergeOnData<T>(s: seq<Node<T>>, a: nat, pe: nat, b: nat, qe: nat, cmp: (T, T) -> int)
    requires Elements(s) && a <= pe <= |s| && b <= qe <= |s|
    ensures
      var m := StableSort.MergeAt(s, a, pe, b, qe, OnData(cmp));
      Elements(m) && Data(m) == StableSort.MergeAt(Data(s), a, pe, b, qe, cmp)
    decreases (pe - a) + (qe - b)
  {
    hide StableSort.MergeAt;
    MergeAtOnce(s, a, pe, b, qe, OnData(cmp));
    MergeAtOnce(Data(s), a, pe, b, qe, cmp);
    if a == pe && b == qe {
    } else if a < pe && (b == qe || OnData(cmp)(s[a], s[b]) <= 0) {
      MergeOnData(s, a + 1, pe, b, qe, cmp);
    } else {
      MergeOnData(s, a, pe, b + 1, qe, cmp);
    }
  }

  lemma DataAppend<T>(a: seq<Node<T>>, b: seq<Node<T>>)
    requires Elements(a) && Elements(b)
    ensures Elements(a + b) && Data(a + b) == Data(a) + Data(b)
  {
  }

  lemma {:induction false} PassOnData<T>(s: seq<Node<T>>, at: nat, w: nat, cmp: (T, T) -> int)
    requires Elements(s) && w > 0 && at <= |s|
    ensures
      var o := StableSort.PassFrom(s, at, w, OnData(cmp));
      Elements(o) && Data(o) == StableSort.PassFrom(Data(s), at, w, cmp)
    decreases |s| - at
  {
    if at < |s| {
      var pe, qe := StableSort.Min(at + w, |s|), StableSort.Min(at + 2 * w, |s|);
      MergeOnData(s, at, pe, pe, qe, cmp);
      PassOnData(s, qe, w, cmp);
      DataAppend(StableSort.MergeAt(s, at, pe, pe, qe, OnData(cmp)), StableSort.PassFrom(s, qe, w, OnData(cmp)));
    }
  }

  /** Sorting nodes by their data sorts the data. */
  lemma {:induction false} SortOnData<T>(s: seq<Node<T>>, w: nat, cmp: (T, T) -> int)
    requires Elements(s) && w > 0
    ensures
      var o := StableSort.SortFrom(s, w, OnData(cmp));
      Elements(o) && Data(o) == StableSort.SortFrom(Data(s), w, cmp)
    decreases |s| - w
  {
    PassOnData(s, 0, w, cmp);
    if |s| > 2 * w {
      SortOnData(StableSort.MergePass(s, w, OnData(cmp)), 2 * w, cmp);
    }
  }

  /**
   * The same values, and in stable order whenever the comparator is a total preorder on a set that
   * holds them.
   */
  ghost predicate StablySorted<T(!new)>(before: seq<T>, after: seq<T>, cmp: (T, T) -> int) {
    && multiset(after) == multiset(before)
    && forall S: set<T> {:trigger StableSort.TotalPreorder(cmp, S)} ::
         StableSort.TotalPreorder(cmp, S) && StableSort.Over(before, S) ==>
           StableSort.Sorted(after, cmp) && StableSort.Stable(before, after, cmp, S)
  }

  lemma SortedContents<T(!new)>(s: seq<T>, cmp: (T, T) -> int)
    ensures StablySorted(s, StableSort.Sort(s, cmp), cmp)
  {
    StableSort.SortMultiset(s, 1, cmp);
    forall S: set<T> | StableSort.TotalPreorder(cmp, S) && StableSort.Over(s, S)
      ensures StableSort.Sorted(StableSort.Sort(s, cmp), cmp)
      ensures StableSort.Stable(s, StableSort.Sort(s, cmp), cmp, S)
    {
      StableSort.SortStable(s, cmp, S);
    }
  }

  /** The class over a head node; popping an empty list is the failed assertion of the original. */
  class List<T(!new)> {
    const head: Node<T>
    ghost var nodes: seq<Node<T>>

    ghost predicate Valid()
      reads this, head, nodes
    {
      Ring([head] + nodes) && Elements(nodes)
    }

    ghost function Contents(): seq<T>
      requires Valid()
      reads this, head, nodes
    {
      Data(nodes)
    }

    constructor ()
      ensures Valid() && fresh(head) && Contents() == []
    {
      head := new Node.Head();
      nodes := [];
      new;
      assert [head] + nodes == [head];
    }

    method PushFront(data: T)
      requires Valid()
      modifies this, head, nodes
      ensures Valid() && fresh(set x | x in nodes && x !in old(nodes))
      ensures Contents() == [data] + old(Contents())
    {
      var el := new Node.Element(data);
      ListAdd(el, head, nodes);
      nodes := [el] + nodes;
    }

    method PushBack(data: T)
      requires Valid()
      modifies this, head, nodes
      ensures Valid() && fresh(set x | x in nodes && x !in old(nodes))
      ensures Contents() == old(Contents()) + [data]
    {
      var el := new Node.Element(data);
      ListAddTail(el, head, nodes);
      nodes := nodes + [el];
    }

    method PopFront() returns (r: Option<T>)
      requires Valid()
      modifies this, head, nodes
      ensures Valid() && (r.None? <==> old(Contents()) == [])
      ensures r.None? ==> Contents() == []
      ensures r.Some? ==> old(Contents()) == [r.value] + Contents()
    {
      hide Linked, Data, Elements, Ring;
      var empty := ListEmpty(head, nodes);
      if empty {
        NoData(nodes);
        return None;
      }
      Ends(head, nodes);
      FirstOut(head, nodes);
      var el := head.next;
      ListDel(el, [head] + nodes, 1);
      nodes := nodes[1..];
      r := el.data;
    }

    method PopBack() returns (r: Option<T>)
      requires Valid()
      modifies this, head, nodes
      ensures Valid() && (r.None? <==> old(Contents()) == [])
      ensures r.None? ==> Contents() == []
      ensures r.Some? ==> old(Contents()) == Contents() + [r.value]
    {
      hide Linked, Data, Elements, Ring;
      var empty := ListEmpty(head, nodes);
      if empty {
        NoData(nodes);
        return None;
      }
      Ends(head, nodes);
      LastOut(head, nodes);
      var el := head.prev;
      ListDel(el, [head] + nodes, |nodes|);
      nodes := nodes[..|nodes| - 1];
      r := el.data;
    }

    method Reverse()
      requires Valid()
      modifies this, head, nodes
      ensures Valid() && Contents() == Reversed(old(Contents()))
    {
      DataReversed(nodes);
      ListReverse(head, nodes);
      nodes := Reversed(nodes);
    }

    /** Any comparator is safe; a total preorder makes this the stable sort of `StableSort`. */
    method Sort(cmp: (T, T) -> int)
      requires Valid()
      modifies this, head, nodes
      ensures Valid() && Contents() == StableSort.Sort(old(Contents()), cmp)
      ensures StablySorted(old(Contents()), Contents(), cmp)
    {
      hide StablySorted;
      SortedContents(Contents(), cmp);
      SortOnData(nodes, 1, cmp);
      var empty := ListEmpty(head, nodes);
      if empty {
        return;
      }
      ListSortNodes(head, OnData(cmp), nodes);
      nodes := StableSort.Sort(nodes, OnData(cmp));
    }
  }
}
