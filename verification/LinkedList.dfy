/**
 * The intrusive circular doubly linked list of lib/lws/list.js: primitive operations on nodes.
 *
 * `Ring(r)` says that the nodes of `r`, in this order, form one closed ring; a list with head `h`
 * and elements `s` is the ring `[h] + s`.  The ring is a ghost argument of every operation.
 */
module LinkedList {
  import opened Wrappers

  class Node<T> {
    const data: Option<T>
    var prev: Node?<T>
    var next: Node?<T>

    /** `LIST_HEAD_INIT`. */
    constructor Head()
      ensures Ring([this])
    {
      data := None;
      next, prev := this, this;
    }

    /** `{ data }`. */
    constructor Element(data: T)
      ensures this.data == Some(data)
    {
      this.data := Some(data);
      prev, next := null, null;
    }
  }

  ghost predicate Distinct<T>(r: seq<Node<T>>) {
    forall i, j :: 0 <= i < j < |r| ==> r[i] != r[j]
  }

  ghost function After(i: nat, n: nat): nat {
    if i + 1 == n then 0 else i + 1
  }

  ghost function Ahead(i: nat, n: nat): nat
    requires i < n
  {
    if i == 0 then n - 1 else i - 1
  }

  /** Each node points to its neighbours; the triggers follow pointers, never positions. */
  ghost predicate Ring<T>(r: seq<Node<T>>)
    reads r
  {
    && r != []
    && Distinct(r)
    && (forall i {:trigger r[i].next} :: 0 <= i < |r| ==> r[i].next == r[After(i, |r|)])
    && (forall i {:trigger r[i].prev} :: 0 <= i < |r| ==> r[i].prev == r[Ahead(i, |r|)])
  }

  /** Positions in a sequence without, or with, an extra element at `k`. */
  ghost function Skip(i: nat, k: nat): nat {
    if i < k then i else i + 1
  }

  ghost function Squeeze(i: nat, k: nat): nat {
    if i < k then i else if i == 0 then 0 else i - 1
  }

  /** `init_list_head`. */
  method InitListHead<T>(head: Node<T>)
    modifies head
    ensures Ring([head])
  {
    head.prev := head;
    head.next := head;
  }

  /** `list_empty`. */
  method ListEmpty<T>(head: Node<T>, ghost s: seq<Node<T>>) returns (empty: bool)
    requires Ring([head] + s)
    ensures empty <==> s == []
  {
    empty := head.next == head;
    ghost var r := [head] + s;
    assert r[0].next == r[After(0, |r|)];
  }

  /** Who is next to whom once `el` stands behind position `k`. */
  lemma WithAt<T>(r: seq<T>, k: nat, el: T, i: nat)
    requires k < |r| && i <= |r|
    ensures
      var n, t, j := |r|, r[..k + 1] + [el] + r[k + 1..], Squeeze(i, k + 1);
      if i == k + 1 then
        t[i] == el && t[After(i, n + 1)] == r[After(k, n)] && t[Ahead(i, n + 1)] == r[k]
      else
        && j < n && t[i] == r[j]
        && t[After(i, n + 1)] == (if j == k then el else r[After(j, n)])
        && t[Ahead(i, n + 1)] == (if j == After(k, n) then el else r[Ahead(j, n)])
  {
  }

  lemma DistinctWith<T>(r: seq<Node<T>>, k: nat, el: Node<T>)
    requires Distinct(r) && k < |r| && forall i :: 0 <= i < |r| ==> r[i] != el
    ensures Distinct(r[..k + 1] + [el] + r[k + 1..])
  {
  }

  /** A ring with a node spliced in behind position `k`. */
  lemma RingWith<T>(r: seq<Node<T>>, k: nat, el: Node<T>)
    requires Distinct(r) && k < |r| && forall i :: 0 <= i < |r| ==> r[i] != el
    requires el.next == r[After(k, |r|)] && el.prev == r[k]
    requires forall i {:trigger r[i].next} :: 0 <= i < |r| ==> r[i].next == if i == k then el else r[After(i, |r|)]
    requires forall i {:trigger r[i].prev} :: 0 <= i < |r| ==>
               r[i].prev == if i == After(k, |r|) then el else r[Ahead(i, |r|)]
    ensures Ring(r[..k + 1] + [el] + r[k + 1..])
  {
    var n, t := |r|, r[..k + 1] + [el] + r[k + 1..];
    DistinctWith(r, k, el);
    forall i | 0 <= i <= n
      ensures t[i].next == t[After(i, n + 1)] && t[i].prev == t[Ahead(i, n + 1)]
    {
      WithAt(r, k, el, i);
      if i != k + 1 {
        var j := Squeeze(i, k + 1);
        assert r[j].next == t[After(i, n + 1)];
        assert r[j].prev == t[Ahead(i, n + 1)];
      }
    }
  }

  /** Who is next to whom once the node at position `k` is gone. */
  lemma WithoutAt<T>(r: seq<T>, k: nat, i: nat)
    requires k < |r| && i < |r| - 1
    ensures
      var n, t, j := |r|, r[..k] + r[k + 1..], Skip(i, k);
      && t[i] == r[j] && j < n && j != k
      && t[After(i, n - 1)] == (if j == Ahead(k, n) then r[After(k, n)] else r[After(j, n)])
      && t[Ahead(i, n - 1)] == (if j == After(k, n) then r[Ahead(k, n)] else r[Ahead(j, n)])
  {
  }

  lemma DistinctWithout<T>(r: seq<Node<T>>, k: nat)
    requires Distinct(r) && k < |r|
    ensures Distinct(r[..k] + r[k + 1..])
  {
  }

  /** A ring with the node at position `k` taken out. */
  lemma RingWithout<T>(r: seq<Node<T>>, k: nat)
    requires Distinct(r) && k < |r| && |r| > 1
    requires forall i {:trigger r[i].next} :: 0 <= i < |r| && i != k ==>
               r[i].next == if i == Ahead(k, |r|) then r[After(k, |r|)] else r[After(i, |r|)]
    requires forall i {:trigger r[i].prev} :: 0 <= i < |r| && i != k ==>
               r[i].prev == if i == After(k, |r|) then r[Ahead(k, |r|)] else r[Ahead(i, |r|)]
    ensures Ring(r[..k] + r[k + 1..])
  {
    var n, t := |r|, r[..k] + r[k + 1..];
    DistinctWithout(r, k);
    forall i | 0 <= i < n - 1
      ensures t[i].next == t[After(i, n - 1)] && t[i].prev == t[Ahead(i, n - 1)]
    {
      WithoutAt(r, k, i);
      var j := Skip(i, k);
      assert r[j].next == t[After(i, n - 1)];
      assert r[j].prev == t[Ahead(i, n - 1)];
    }
  }

  /** `__list_add`: insertion between two neighbours, here the nodes at `k` and after `k`. */
  method ListAddBetween<T>(el: Node<T>, prev: Node<T>, next: Node<T>, ghost r: seq<Node<T>>, ghost k: nat)
    requires Ring(r) && k < |r| && prev == r[k] && next == r[After(k, |r|)]
    requires forall i :: 0 <= i < |r| ==> r[i] != el
    modifies prev`next, el, next`prev
    ensures Ring(r[..k + 1] + [el] + r[k + 1..])
  {
    prev.next := el;
    el.prev := prev;
    el.next := next;
    next.prev := el;
    RingWith(r, k, el);
  }

  /** `list_add`: a new first element. */
  method ListAdd<T>(el: Node<T>, head: Node<T>, ghost s: seq<Node<T>>)
    requires Ring([head] + s) && el != head && forall i :: 0 <= i < |s| ==> s[i] != el
    modifies el, head, s
    ensures Ring([head] + ([el] + s))
  {
    ghost var r := [head] + s;
    assert r[0].next == r[After(0, |r|)];
    ListAddBetween(el, head, head.next, r, 0);
    assert r[..1] + [el] + r[1..] == [head] + ([el] + s);
  }

  /** `list_add_tail`: a new last element. */
  method ListAddTail<T>(el: Node<T>, head: Node<T>, ghost s: seq<Node<T>>)
    requires Ring([head] + s) && el != head && forall i :: 0 <= i < |s| ==> s[i] != el
    modifies el, head, s
    ensures Ring([head] + (s + [el]))
  {
    ghost var r := [head] + s;
    assert r[0].prev == r[Ahead(0, |r|)];
    ListAddBetween(el, head.prev, head, r, |s|);
    assert r[..|s| + 1] + [el] + r[|s| + 1..] == [head] + (s + [el]);
  }

  /** `list_del`: the ring closes over the gap; a node that was alone is simply taken apart. */
  method ListDel<T>(el: Node<T>, ghost r: seq<Node<T>>, ghost k: nat)
    requires Ring(r) && k < |r| && r[k] == el
    modifies r
    ensures el.prev == null && el.next == null
    ensures |r| > 1 ==> Ring(r[..k] + r[k + 1..])
  {
    ghost var n := |r|;
    var prev, next := el.prev, el.next;
    assert prev == r[Ahead(k, n)] && next == r[After(k, n)];
    next.prev := prev;
    prev.next := next;
    el.prev := null;
    el.next := null;
    if n > 1 {
      RingWithout(r, k);
    }
  }
}
