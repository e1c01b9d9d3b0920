/**
 * The chunked-array queue of lib/lws/simple-queue.js: a linked list of nodes, each but the last
 * with exactly `MAX` elements, and a cursor into the first.  The ghost field `contents` is the
 * abstract FIFO sequence.
 *
 * An element that was shifted is `None`, where the original stores `undefined`.
 */
module SimpleQueue {
  import opened Wrappers

  const MAX: nat := 16384

  class Node<T> {
    var elements: seq<Option<T>>
    var next: Node?<T>

    constructor ()
      ensures elements == [] && next == null
    {
      elements, next := [], null;
    }
  }

  /** The array stands at `base` in the contents; what lies before them was shifted. */
  ghost predicate Stores<T>(elements: seq<Option<T>>, base: int, contents: seq<T>) {
    forall j :: 0 <= j < |elements| ==> StoredAt(elements, base, contents, j)
  }

  ghost predicate StoredAt<T>(elements: seq<Option<T>>, base: int, contents: seq<T>, j: nat)
    requires j < |elements|
  {
    base + j >= 0 ==> elements[j].Some? && base + j < |contents| && elements[j].value == contents[base + j]
  }

  lemma StoresShifted<T>(elements: seq<Option<T>>, base: int, contents: seq<T>)
    requires Stores(elements, base, contents) && contents != []
    ensures Stores(elements, base - 1, contents[1..])
    ensures base <= 0 && -base < |elements| ==>
              elements[-base] == Some(contents[0]) && Stores(elements[-base := None], base - 1, contents[1..])
  {
    var rest, below := contents[1..], base - 1;
    forall j | 0 <= j < |elements|
      ensures StoredAt(elements, below, rest, j)
    {
      assert StoredAt(elements, base, contents, j);
    }
    if base <= 0 && -base < |elements| {
      assert StoredAt(elements, base, contents, -base);
      var cleared := elements[-base := None];
      forall j | 0 <= j < |cleared|
        ensures StoredAt(cleared, below, rest, j)
      {
        assert StoredAt(elements, below, rest, j) && (j != -base ==> cleared[j] == elements[j]);
      }
    }
  }

  lemma StoresPushed<T>(elements: seq<Option<T>>, base: int, contents: seq<T>, element: T)
    requires Stores(elements, base, contents)
    ensures Stores(elements, base, contents + [element])
    ensures base + |elements| == |contents| ==> Stores(elements + [Some(element)], base, contents + [element])
  {
    var more := contents + [element];
    forall j | 0 <= j < |elements|
      ensures StoredAt(elements, base, more, j)
    {
      assert StoredAt(elements, base, contents, j);
    }
    if base + |elements| == |contents| {
      var all := elements + [Some(element)];
      forall j | 0 <= j < |all|
        ensures StoredAt(all, base, more, j)
      {
        if j < |elements| {
          assert StoredAt(elements, base, contents, j) && all[j] == elements[j];
        }
      }
    }
  }

  lemma NothingStored<T>(base: int, contents: seq<T>)
    ensures Stores([], base, contents)
  {
  }

  class SimpleQueue<T> {
    var cursor: nat
    var size: nat
    var front: Node<T>
    var back: Node<T>
    ghost var nodes: seq<Node<T>>
    ghost var contents: seq<T>

    /** The nodes are linked in order; all but the last are full. */
    ghost predicate Linked()
      reads this, nodes
    {
      && nodes != [] && nodes[0] == front && nodes[|nodes| - 1] == back
      && (forall i, j :: 0 <= i < j < |nodes| ==> nodes[i] != nodes[j])
      && (forall i {:trigger nodes[i].next} :: 0 <= i < |nodes| - 1 ==> nodes[i].next == nodes[i + 1])
      && (forall i {:trigger nodes[i].elements} :: 0 <= i < |nodes| - 1 ==> |nodes[i].elements| == MAX)
      && back.next == null && |back.elements| < MAX
    }

    ghost predicate Valid()
      reads this, nodes
    {
      && Linked()
      && cursor < MAX && cursor <= |front.elements|
      && size == |contents| == (|nodes| - 1) * MAX + |back.elements| - cursor
      && forall i {:trigger nodes[i].elements} :: 0 <= i < |nodes| ==>
           Stores(nodes[i].elements, i * MAX - cursor, contents)
    }

    constructor ()
      ensures Valid() && contents == [] && fresh(nodes)
    {
      var node := new Node();
      front, back := node, node;
      cursor, size := 0, 0;
      nodes, contents := [node], [];
    }

    method Push(element: T)
      requires Valid()
      modifies this, nodes
      ensures Valid() && fresh(set n | n in nodes && n !in old(nodes))
      ensures contents == old(contents) + [element]
    {
      hide Stores;
      forall i | 0 <= i < |nodes|
        ensures Stores(nodes[i].elements, i * MAX - cursor, contents + [element])
      {
        StoresPushed(nodes[i].elements, i * MAX - cursor, contents, element);
      }
      StoresPushed(back.elements, (|nodes| - 1) * MAX - cursor, contents, element);
      NothingStored((|nodes|) * MAX - cursor, contents + [element]);
      var oldBack := back;
      var newBack := oldBack;
      assert oldBack.next == null;
      if |oldBack.elements| == MAX - 1 {
        newBack := new Node();
      }
      oldBack.elements := oldBack.elements + [Some(element)];
      if newBack != oldBack {
        back := newBack;
        oldBack.next := newBack;
        nodes := nodes + [newBack];
      }
      size := size + 1;
      contents := contents + [element];
    }

    method Shift() returns (element: T)
      requires Valid() && size > 0
      modifies this, nodes
      ensures Valid() && (forall n :: n in nodes ==> n in old(nodes))
      ensures old(contents) == [element] + contents
    {
      hide Stores;
      ghost var rest, behind := contents[1..], nodes[1..];
      assert contents == [contents[0]] + rest && nodes == [front] + behind;
      forall i | 0 <= i < |nodes|
        ensures Stores(nodes[i].elements, i * MAX - cursor - 1, rest)
      {
        StoresShifted(nodes[i].elements, i * MAX - cursor, contents);
      }
      StoresShifted(front.elements, 0 - cursor, contents);
      var oldFront := front;
      var oldCursor := cursor;
      var newFront := oldFront;
      var newCursor := oldCursor + 1;
      element := oldFront.elements[oldCursor].value;
      if newCursor == MAX {
        assert |oldFront.elements| == MAX;
        assert oldFront.next != null;
        newFront := oldFront.next;
        newCursor := 0;
      }
      size := size - 1;
      cursor := newCursor;
      if oldFront != newFront {
        front := newFront;
        nodes := behind;
      }
      oldFront.elements := oldFront.elements[oldCursor := None];
      contents := rest;
    }

    method Peek() returns (element: T)
      requires Valid() && size > 0
      ensures element == contents[0]
    {
      StoresShifted(nodes[0].elements, 0 * MAX - cursor, contents);
      return front.elements[cursor].value;
    }

    /** `forEach` with a callback that leaves the queue alone; `visited` are its arguments, in order. */
    method ForEach() returns (visited: seq<T>)
      requires Valid()
      ensures visited == contents
    {
      visited := [];
      var i := cursor;
      var node := front;
      ghost var at := 0;
      while i != |node.elements| || node.next != null
        invariant 0 <= at < |nodes| && node == nodes[at] && 0 <= i <= |node.elements|
        invariant visited == contents[..at * MAX + i - cursor]
        invariant at * MAX + i >= cursor
        decreases |nodes| - at, |node.elements| - i
      {
        if i == |node.elements| {
          assert node.next != null;
          assert i == MAX;
          node := node.next;
          at := at + 1;
          i := 0;
          if |node.elements| == 0 {
            break;
          }
        }
        assert Stores(nodes[at].elements, at * MAX - cursor, contents);
        assert StoredAt(nodes[at].elements, at * MAX - cursor, contents, i);
        visited := visited + [node.elements[i].value];
        i := i + 1;
      }
    }
  }
}
