/**
 * `__list_sort` of lib/lws/list.js: a bottom-up merge sort that rewrites `next` and `prev` while
 * it is still walking the ring it replaces, and knows that ring's end only by comparing with
 * `oldhead`.  It is proved to arrange the nodes as `StableSort.Sort` does.
 */
module ListSort {
  import opened LinkedList
  import opened Seqs
  import opened StableSort

  /** The nodes still to be taken: positions `a..pe` and `b..` of the ring being walked. */
  ghost predicate Pending(i: nat, a: nat, pe: nat, b: nat, n: nat) {
    a <= i < pe || b <= i < n
  }

  ghost function Before<T>(out: seq<Node<T>>, i: nat): Node?<T>
    requires i < |out|
  {
    if i == 0 then null else out[i - 1]
  }

  /** The merged nodes form a chain with first node `list` and last node `tail`. */
  ghost predicate Chain<T>(out: seq<Node<T>>, list: Node?<T>, tail: Node?<T>)
    reads out
  {
    && (if out == [] then list == null && tail == null else list == out[0] && tail == out[|out| - 1])
    && (forall i {:trigger out[i].prev} :: 0 <= i < |out| ==> out[i].prev == Before(out, i))
    && (forall i {:trigger out[i].next} :: 0 <= i < |out| - 1 ==> out[i].next == out[i + 1])
  }

  lemma ChainTail<T>(out: seq<Node<T>>, list: Node?<T>, tail: Node?<T>)
    requires Chain(out, list, tail)
    ensures tail == if out == [] then null else out[|out| - 1]
  {
  }

  /** The node at position `k` of the ring being walked; `null` at its end. */
  ghost function At<T>(s: seq<Node<T>>, k: nat): Node?<T> {
    if k < |s| then s[k] else null
  }

  /** `tail.next = e` or `list = e`, then `e.prev = tail; tail = e`. */
  method Append<T>(e: Node<T>, list: Node?<T>, tail: Node?<T>, ghost out: seq<Node<T>>)
    returns (list': Node<T>, tail': Node<T>)
    requires Chain(out, list, tail) && Distinct(out) && forall i :: 0 <= i < |out| ==> out[i] != e
    modifies (if tail == null then {} else {tail}) + {e}
    ensures e.next == old(e.next)
    ensures Chain(out + [e], list', tail') && Distinct(out + [e])
  {
    if tail != null {
      tail.next := e;
      list' := list;
    } else {
      list' := e;
    }
    e.prev := tail;
    tail' := e;
    ghost var t := out + [e];
    forall i | 0 <= i < |t|
      ensures t[i].prev == Before(t, i)
    {
      if i < |out| {
        assert t[i] == out[i] && out[i].prev == old(out[i].prev);
        assert i > 0 ==> t[i - 1] == out[i - 1];
      }
    }
  }

  /** The second run starts `insize` nodes after the first, or the ring ends before. */
  method FindSecondRun<T>(p: Node<T>, oldhead: Node<T>, insize: nat, ghost s: seq<Node<T>>, ghost at: nat)
    returns (q: Node?<T>, psize: nat)
    requires insize > 0 && at < |s| && Distinct(s) && s[at] == p && s[0] == oldhead
    requires forall i {:trigger s[i].next} :: at <= i < |s| ==> s[i].next == s[After(i, |s|)]
    ensures psize == Min(insize, |s| - at) && q == At(s, at + psize)
  {
    q, psize := p, 0;
    for i := 0 to insize
      invariant psize == i && at + i < |s| && q == s[at + i]
    {
      psize := psize + 1;
      ghost var j := at + i;
      assert q.next == s[After(j, |s|)];
      q := if q.next == oldhead then null else q.next;
      if q == null {
        break;
      }
    }
  }

  lemma TakesFirst<T>(out: seq<T>, s: seq<T>, a: nat, pe: nat, b: nat, qe: nat, cmp: (T, T) -> int)
    requires a < pe <= |s| && b <= qe <= |s| && (b < qe ==> cmp(s[a], s[b]) <= 0)
    ensures out + MergeAt(s, a, pe, b, qe, cmp) == (out + [s[a]]) + MergeAt(s, a + 1, pe, b, qe, cmp)
  {
    Assoc(out, [s[a]], MergeAt(s, a + 1, pe, b, qe, cmp));
  }

  lemma TakesSecond<T>(out: seq<T>, s: seq<T>, a: nat, pe: nat, b: nat, qe: nat, cmp: (T, T) -> int)
    requires a <= pe <= |s| && b < qe <= |s| && (a < pe ==> !(cmp(s[a], s[b]) <= 0))
    ensures out + MergeAt(s, a, pe, b, qe, cmp) == (out + [s[b]]) + MergeAt(s, a, pe, b + 1, qe, cmp)
  {
    Assoc(out, [s[b]], MergeAt(s, a, pe, b + 1, qe, cmp));
  }

  /** Pending nodes still point along the old ring, and none of them is in the chain `out`. */
  ghost predicate Merging<T>(s: seq<Node<T>>, a: nat, pe: nat, b: nat, out: seq<Node<T>>)
    reads s
  {
    && a <= pe <= b <= |s|
    && (forall i {:trigger s[i].next} :: 0 <= i < |s| && Pending(i, a, pe, b, |s|) ==> s[i].next == s[After(i, |s|)])
    && (forall i, j {:trigger s[i], out[j]} ::
          0 <= i < |s| && Pending(i, a, pe, b, |s|) && 0 <= j < |out| ==> out[j] != s[i])
    && (forall j :: 0 <= j < |out| ==> out[j] in s)
    && Distinct(out)
  }

  /** `e = x; x = x.next; if(x == oldhead) x = null`. */
  method Advance<T>(x: Node<T>, oldhead: Node<T>, ghost s: seq<Node<T>>, ghost k: nat) returns (next: Node?<T>)
    requires k < |s| && s[k] == x && s[0] == oldhead && Distinct(s) && x.next == s[After(k, |s|)]
    ensures next == At(s, k + 1)
  {
    next := x.next;
    if next == oldhead {
      next := null;
    }
  }

  /** The chain so far, followed by the merge of what is left of both runs, makes up `goal`. */
  ghost predicate Heading<T>(s: seq<Node<T>>, a: nat, pe: nat, b: nat, qe: nat, out: seq<Node<T>>,
                             goal: seq<Node<T>>, cmp: (Node<T>, Node<T>) -> int)
    reads s
  {
    b <= qe <= |s| && Merging(s, a, pe, b, out) && out + MergeAt(s, a, pe, b, qe, cmp) == goal
  }

  /** Takes `e` from the front of the first run; `next` is where that run goes on. */
  method TakeFirst<T>(e: Node<T>, oldhead: Node<T>, list: Node?<T>, tail: Node?<T>, cmp: (Node<T>, Node<T>) -> int,
                      ghost s: seq<Node<T>>, ghost a: nat, ghost pe: nat, ghost b: nat, ghost qe: nat,
                      ghost out: seq<Node<T>>, ghost goal: seq<Node<T>>)
    returns (next: Node?<T>, list': Node<T>, tail': Node<T>)
    requires Heading(s, a, pe, b, qe, out, goal, cmp) && Chain(out, list, tail)
    requires a < pe && e == s[a] && (b < qe ==> cmp(e, s[b]) <= 0) && oldhead == s[0] && Distinct(s)
    modifies s
    ensures next == At(s, a + 1)
    ensures Heading(s, a + 1, pe, b, qe, out + [e], goal, cmp) && Chain(out + [e], list', tail')
  {
    hide MergeAt, Chain;
    ChainTail(out, list, tail);
    TakesFirst(out, s, a, pe, b, qe, cmp);
    next := Advance(e, oldhead, s, a);
    list', tail' := Append(e, list, tail, out);
  }

  /** Takes `e` from the front of the second run. */
  method TakeSecond<T>(e: Node<T>, oldhead: Node<T>, list: Node?<T>, tail: Node?<T>, cmp: (Node<T>, Node<T>) -> int,
                       ghost s: seq<Node<T>>, ghost a: nat, ghost pe: nat, ghost b: nat, ghost qe: nat,
                       ghost out: seq<Node<T>>, ghost goal: seq<Node<T>>)
    returns (next: Node?<T>, list': Node<T>, tail': Node<T>)
    requires Heading(s, a, pe, b, qe, out, goal, cmp) && Chain(out, list, tail)
    requires b < qe && e == s[b] && (a < pe ==> !(cmp(s[a], e) <= 0)) && oldhead == s[0] && Distinct(s)
    modifies s
    ensures next == At(s, b + 1)
    ensures Heading(s, a, pe, b + 1, qe, out + [e], goal, cmp) && Chain(out + [e], list', tail')
  {
    hide MergeAt, Chain;
    ChainTail(out, list, tail);
    TakesSecond(out, s, a, pe, b, qe, cmp);
    next := Advance(e, oldhead, s, b);
    list', tail' := Append(e, list, tail, out);
  }

  /** The merge loop: takes the smaller front node until both runs are used up. */
  method MergeLoop<T>(p0: Node<T>, q0: Node?<T>, psize0: nat, oldhead: Node<T>, insize: nat,
                      cmp: (Node<T>, Node<T>) -> int, list0: Node?<T>, tail0: Node?<T>,
                      ghost s: seq<Node<T>>, ghost at: nat, ghost qe: nat, ghost out0: seq<Node<T>>,
                      ghost goal: seq<Node<T>>)
    returns (q: Node?<T>, list: Node?<T>, tail: Node?<T>, ghost out: seq<Node<T>>)
    requires psize0 > 0 && at + psize0 <= qe <= |s| && s[at] == p0 && s[0] == oldhead && Distinct(s)
    requires q0 == At(s, at + psize0) && qe == Min(at + psize0 + insize, |s|)
    requires Heading(s, at, at + psize0, at + psize0, qe, out0, goal, cmp) && Chain(out0, list0, tail0)
    modifies s
    ensures q == At(s, qe) && Heading(s, at + psize0, at + psize0, qe, qe, out, goal, cmp) && Chain(out, list, tail)
  {
    hide Heading, Chain;
    var p: Node?<T>, psize, qsize := p0, psize0, insize;
    q, list, tail, out := q0, list0, tail0, out0;
    ghost var a: nat, pe: nat, b: nat := at, at + psize0, at + psize0;
    while psize > 0 || (qsize > 0 && q != null)
      invariant a <= pe <= b <= qe && psize == pe - a && b + qsize == pe + insize
      invariant q == At(s, b) && (psize > 0 ==> p == s[a])
      invariant Heading(s, a, pe, b, qe, out, goal, cmp) && Chain(out, list, tail)
      decreases psize + qsize
    {
      if psize > 0 && (qsize == 0 || q == null || cmp(p, q) <= 0) {
        ghost var e := s[a];
        p, list, tail := TakeFirst(p, oldhead, list, tail, cmp, s, a, pe, b, qe, out, goal);
        psize := psize - 1;
        out, a := out + [e], a + 1;
      } else {
        ghost var e := s[b];
        q, list, tail := TakeSecond(q, oldhead, list, tail, cmp, s, a, pe, b, qe, out, goal);
        qsize := qsize - 1;
        out, b := out + [e], b + 1;
      }
    }
  }

  /** Merges the run at `p` with the one after it and appends the result to the chain. */
  method MergeRuns<T>(p: Node<T>, oldhead: Node<T>, insize: nat, cmp: (Node<T>, Node<T>) -> int,
                      list0: Node?<T>, tail0: Node?<T>,
                      ghost s: seq<Node<T>>, ghost at: nat, ghost out0: seq<Node<T>>)
    returns (q: Node?<T>, list: Node?<T>, tail: Node?<T>, ghost out: seq<Node<T>>)
    requires insize > 0 && at < |s| && s[at] == p && s[0] == oldhead && Distinct(s)
    requires Chain(out0, list0, tail0) && Merging(s, at, at, at, out0)
    modifies s
    ensures
      var pe, qe := Min(at + insize, |s|), Min(at + 2 * insize, |s|);
      out == out0 + MergeAt(s, at, pe, pe, qe, cmp) && q == At(s, qe) && Merging(s, qe, qe, qe, out)
    ensures Chain(out, list, tail)
  {
    var psize: nat;
    q, psize := FindSecondRun(p, oldhead, insize, s, at);
    ghost var pe, qe := Min(at + insize, |s|), Min(at + 2 * insize, |s|);
    q, list, tail, out := MergeLoop(p, q, psize, oldhead, insize, cmp, list0, tail0, s, at, qe, out0,
                                    out0 + MergeAt(s, at, pe, pe, qe, cmp));
    assert out + [] == out;
  }

  lemma PassStep<T>(s: seq<T>, at: nat, w: nat, cmp: (T, T) -> int)
    requires w > 0 && at <= |s|
    ensures
      var pe, qe := Min(at + w, |s|), Min(at + 2 * w, |s|);
      PassFrom(s, at, w, cmp) == if at == |s| then [] else MergeAt(s, at, pe, pe, qe, cmp) + PassFrom(s, qe, w, cmp)
  {
    hide MergeAt;
  }

  /** A finished pass: the chain has ends, and consists of nodes of the old ring. */
  lemma PassEnds<T>(s: seq<Node<T>>, at: nat, out: seq<Node<T>>, list: Node?<T>, tail: Node?<T>)
    requires Merging(s, at, at, at, out) && Chain(out, list, tail) && out != []
    ensures list == out[0] && tail == out[|out| - 1] && Distinct(out) && forall j :: 0 <= j < |out| ==> out[j] in s
  {
  }

  lemma NothingMerged<T>(s: seq<Node<T>>)
    ensures Merging(s, 0, 0, 0, []) == (forall i {:trigger s[i].next} :: 0 <= i < |s| ==> s[i].next == s[After(i, |s|)])
    ensures Chain<T>([], null, null)
  {
  }

  /** One pass over the ring: pairs of runs of length `insize` are merged into a new ring. */
  method SortPass<T>(oldhead: Node<T>, insize: nat, cmp: (Node<T>, Node<T>) -> int, ghost s: seq<Node<T>>)
    returns (list: Node<T>, nmerges: nat)
    requires insize > 0 && Ring(s) && s[0] == oldhead
    modifies s
    ensures Ring(MergePass(s, insize, cmp)) && list == MergePass(s, insize, cmp)[0]
    ensures nmerges <= 1 <==> |s| <= 2 * insize
  {
    hide MergeAt, PassFrom, Chain, Merging;
    NothingMerged(s);
    nmerges := 0;
    var p: Node?<T> := oldhead;
    var list': Node?<T>, tail: Node?<T> := null, null;
    ghost var at: nat, out: seq<Node<T>>, goal := 0, [], PassFrom(s, 0, insize, cmp);
    while p != null
      invariant at <= |s| && p == At(s, at) && Merging(s, at, at, at, out) && Chain(out, list', tail)
      invariant out + PassFrom(s, at, insize, cmp) == goal
      invariant nmerges == 0 ==> at == 0
      invariant nmerges == 1 ==> at == Min(2 * insize, |s|)
      invariant nmerges > 1 ==> |s| > 2 * insize
      decreases |s| - at
    {
      nmerges := nmerges + 1;
      ghost var pe, qe := Min(at + insize, |s|), Min(at + 2 * insize, |s|);
      PassStep(s, at, insize, cmp);
      Assoc(out, MergeAt(s, at, pe, pe, qe, cmp), PassFrom(s, qe, insize, cmp));
      p, list', tail, out := MergeRuns(p, oldhead, insize, cmp, list', tail, s, at, out);
      at := qe;
    }
    PassStep(s, at, insize, cmp);
    assert out + [] == out;
    PassEnds(s, at, out, list', tail);
    list := list';
    CloseChain(list, tail, out);
  }

  /** `tail.next = list; list.prev = tail` makes a ring of the chain. */
  method CloseChain<T>(list: Node<T>, tail: Node<T>, ghost out: seq<Node<T>>)
    requires Distinct(out) && Chain(out, list, tail)
    modifies list, tail
    ensures Ring(out)
  {
    tail.next := list;
    list.prev := tail;
    forall i | 0 <= i < |out|
      ensures out[i].next == out[After(i, |out|)] && out[After(i, |out|)].prev == out[i]
    {
      assert i + 1 < |out| ==> Before(out, i + 1) == out[i];
    }
  }

  /** The head goes back between the last and the first node. */
  method Reattach<T>(head: Node<T>, list: Node<T>, ghost r: seq<Node<T>>)
    requires Ring(r) && list == r[0] && forall i :: 0 <= i < |r| ==> r[i] != head
    modifies head, r
    ensures Ring([head] + r)
  {
    ghost var n := |r|;
    assert After(n - 1, n) == 0;
    head.next := list;
    head.prev := list.prev;
    list.prev.next := head;
    list.prev := head;
    ghost var t := [head] + r;
    forall i | 0 <= i <= n
      ensures t[i].next == t[After(i, n + 1)] && t[After(i, n + 1)].prev == t[i]
    {
      assert i > 0 ==> t[i] == r[i - 1];
      assert i < n ==> t[i + 1] == r[i];
    }
  }

  lemma SameNodes<T>(s: seq<Node<T>>, o: seq<Node<T>>, head: Node<T>)
    requires multiset(o) == multiset(s)
    ensures forall i :: 0 <= i < |o| ==> o[i] in s
    ensures (forall i :: 0 <= i < |s| ==> s[i] != head) ==> forall i :: 0 <= i < |o| ==> o[i] != head
  {
    forall i | 0 <= i < |o|
      ensures o[i] in s
    {
      assert o[i] in multiset(o);
    }
  }

  /** The passes: the run length doubles until one merge covers the whole ring. */
  method SortRing<T>(first: Node<T>, cmp: (Node<T>, Node<T>) -> int, ghost s: seq<Node<T>>) returns (list: Node<T>)
    requires Ring(s) && first == s[0]
    modifies s
    ensures Ring(Sort(s, cmp)) && list == Sort(s, cmp)[0]
  {
    list := first;
    var insize: nat := 1;
    ghost var cur := s;
    while true
      invariant insize > 0 && Ring(cur) && list == cur[0] && multiset(cur) == multiset(s)
      invariant SortFrom(cur, insize, cmp) == Sort(s, cmp)
      decreases |s| - insize
    {
      var nmerges: nat;
      SameNodes(s, cur, list);
      list, nmerges := SortPass(list, insize, cmp, cur);
      MergePassMultiset(cur, insize, cmp);
      cur := MergePass(cur, insize, cmp);
      if nmerges <= 1 {
        break;
      }
      insize := insize * 2;
    }
  }

  /** `__list_sort`. */
  method ListSortNodes<T>(head: Node<T>, cmp: (Node<T>, Node<T>) -> int, ghost s: seq<Node<T>>)
    requires s != [] && Ring([head] + s)
    modifies head, s
    ensures Ring([head] + Sort(s, cmp))
  {
    ghost var o := Sort(s, cmp);
    SortMultiset(s, 1, cmp);
    var list := DetachHead(head, s);
    SameNodes(s, o, head);
    list := SortRing(list, cmp, s);
    Reattach(head, list, o);
  }

  /** `list = head.next; list_del(head)`. */
  method DetachHead<T>(head: Node<T>, ghost s: seq<Node<T>>) returns (list: Node<T>)
    requires s != [] && Ring([head] + s)
    modifies head, s
    ensures Ring(s) && list == s[0] && forall i :: 0 <= i < |s| ==> s[i] != head
  {
    ghost var r := [head] + s;
    assert r[..0] + r[1..] == s;
    assert r[0].next == r[After(0, |r|)];
    list := head.next;
    ListDel(head, r, 0);
    assert forall i :: 0 <= i < |s| ==> s[i] == r[i + 1] != r[0];
  }
}
