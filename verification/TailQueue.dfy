/**
  The tail queue macros of server/include/aesdsocket/queue.h.

  A head and an element have the same layout: a next cell, and the address of
  the next cell that leads to the end of the queue (head) or to the element.
  Both are a `Link`: `next` is the cell, and `prev` is the link whose cell that
  address denotes.  So `*elm->tqe_prev` is `elm.prev.next`, and reading an
  element through a pointer to a head, as TAILQ_LAST and TAILQ_PREV do, reads
  the same two fields.
 */
module TailQueue {

  class Link {
    var next: Link?
    var prev: Link?

    constructor () {
      next, prev := null, null;
    }
  }

  ghost predicate NoDuplicates<T>(s: seq<T>) {
    forall i, j :: 0 <= i < j < |s| ==> s[i] != s[j]
  }

  /** What the next cell of link `i` of a chain leads to. */
  function NextIn(c: seq<Link>, i: nat): Link?
    requires i < |c|
  {
    if i + 1 < |c| then c[i + 1] else null
  }

  /** The link before link `i` of a chain; the link before the head is the last one. */
  function PrevIn(c: seq<Link>, i: nat): Link
    requires i < |c|
  {
    if i == 0 then c[|c| - 1] else c[i - 1]
  }

  /** The position whose back-link leads to link `i`: the next one, or the head. */
  function After(c: seq<Link>, i: nat): nat
    requires i < |c|
  {
    if i + 1 < |c| then i + 1 else 0
  }

  /** A head and its elements in order, `c[0]` being the head. */
  ghost predicate Chain(c: seq<Link>)
    reads c
  {
    && |c| > 0 && NoDuplicates(c)
    && (forall i {:trigger c[i].next} :: 0 <= i < |c| ==> c[i].next == NextIn(c, i))
    && (forall i {:trigger c[i].prev} :: 0 <= i < |c| ==> c[i].prev == PrevIn(c, i))
  }

  /** The queue of `head` consists of the elements `q`, in this order. */
  ghost predicate Linked(head: Link, q: seq<Link>)
    reads head, q
  {
    Chain([head] + q)
  }

  /** A head determines its elements: the abstraction is a function of the links. */
  lemma {:induction false} LinkedUniqueFrom(a: seq<Link>, b: seq<Link>, k: nat)
    requires Chain(a) && Chain(b) && 0 < k <= |a| && k <= |b| && a[..k] == b[..k]
    ensures a == b
    decreases |a| - k
  {
    assert a[k - 1] == a[..k][k - 1] == b[..k][k - 1] == b[k - 1];
    assert a[k - 1].next == NextIn(a, k - 1) && b[k - 1].next == NextIn(b, k - 1);
    if k < |a| {
      assert a[..k + 1] == a[..k] + [a[k]] && b[..k + 1] == b[..k] + [b[k]];
      LinkedUniqueFrom(a, b, k + 1);
    } else {
      assert a[..k] == a && b[..k] == b;
    }
  }

  lemma LinkedUnique(head: Link, q: seq<Link>, r: seq<Link>)
    requires Linked(head, q) && Linked(head, r)
    ensures q == r
  {
    LinkedUniqueFrom([head] + q, [head] + r, 1);
    assert q == ([head] + q)[1..] && r == ([head] + r)[1..];
  }

  // ----- Access

  /** TAILQ_LAST: the link before the end, read as a head; its last cell holds the element. */
  function Last(head: Link): Link?
    requires head.prev != null && head.prev.prev != null
    reads head, head.prev, if head.prev != null then {head.prev.prev} else {}
  {
    head.prev.prev.next
  }

  /** TAILQ_PREV: the link before the element, read as a head. */
  function Prev(elm: Link): Link?
    requires elm.prev != null && elm.prev.prev != null
    reads elm, elm.prev, if elm.prev != null then {elm.prev.prev} else {}
  {
    elm.prev.prev.next
  }

  /** Also on an empty queue, where the head itself is read as the last link. */
  lemma LastIsLast(head: Link, q: seq<Link>)
    requires Linked(head, q)
    ensures head.prev != null && head.prev.prev != null
    ensures Last(head) == if q == [] then null else q[|q| - 1]
  {
    var c := [head] + q;
    assert c[0] == head && PrevIn(c, 0) == c[|q|];
    assert c[|q|].prev == PrevIn(c, |q|);
    if q != [] {
      assert c[|q| - 1].next == c[|q|] == q[|q| - 1];
    }
  }

  /** Also on the first element, whose predecessor in the chain is the head. */
  lemma PrevIsPredecessor(head: Link, q: seq<Link>, k: nat)
    requires Linked(head, q) && k < |q|
    ensures q[k].prev != null && q[k].prev.prev != null
    ensures Prev(q[k]) == if k == 0 then null else q[k - 1]
  {
    var c := [head] + q;
    assert c[k + 1] == q[k] && PrevIn(c, k + 1) == c[k];
    assert c[k].prev == PrevIn(c, k);
    if k == 0 {
      assert PrevIn(c, 0) == c[|q|] && c[|q|].next == null;
    } else {
      assert c[k - 1].next == c[k] == q[k - 1];
    }
  }

  // ----- What the pointer updates do to a chain

  /** If `c` was a chain and `elm` has been linked in at position `p`, then this is the chain now. */
  lemma InsertedAt(c: seq<Link>, p: nat, elm: Link)
    requires NoDuplicates(c) && 0 < p <= |c| && elm !in c
    requires elm.prev == c[p - 1] && elm.next == NextIn(c, p - 1)
    requires forall i {:trigger c[i].next} :: 0 <= i < |c| ==> c[i].next == if i == p - 1 then elm else NextIn(c, i)
    requires forall i {:trigger c[i].prev} :: 0 <= i < |c| ==>
               c[i].prev == if i == After(c, p - 1) then elm else PrevIn(c, i)
    ensures Chain(c[..p] + [elm] + c[p..])
  {
    var d := c[..p] + [elm] + c[p..];
    forall i | 0 <= i < |d| ensures d[i].next == NextIn(d, i) && d[i].prev == PrevIn(d, i) {
      assert d[i] == if i < p then c[i] else if i == p then elm else c[i - 1];
    }
  }

  /** If `c` was a chain and the link at position `p` has been taken out, then this is the chain now. */
  lemma RemovedAt(c: seq<Link>, p: nat)
    requires NoDuplicates(c) && 0 < p < |c|
    requires forall i {:trigger c[i].next} :: 0 <= i < |c| && i != p ==>
               c[i].next == if i == p - 1 then NextIn(c, p) else NextIn(c, i)
    requires forall i {:trigger c[i].prev} :: 0 <= i < |c| && i != p ==>
               c[i].prev == if i == After(c, p) then c[p - 1] else PrevIn(c, i)
    ensures Chain(c[..p] + c[p + 1..])
  {
    var d := c[..p] + c[p + 1..];
    forall i | 0 <= i < |d| ensures d[i].next == NextIn(d, i) && d[i].prev == PrevIn(d, i) {
      assert d[i] == if i < p then c[i] else c[i + 1];
    }
  }

  /** If `c` was a chain and `elm` has taken the place of the link at position `p`, then this is the chain now. */
  lemma ReplacedAt(c: seq<Link>, p: nat, elm: Link)
    requires NoDuplicates(c) && 0 < p < |c| && elm !in c
    requires elm.next == NextIn(c, p) && elm.prev == c[p - 1]
    requires forall i {:trigger c[i].next} :: 0 <= i < |c| && i != p ==>
               c[i].next == if i == p - 1 then elm else NextIn(c, i)
    requires forall i {:trigger c[i].prev} :: 0 <= i < |c| && i != p ==>
               c[i].prev == if i == After(c, p) then elm else PrevIn(c, i)
    ensures Chain(c[p := elm])
  {
    var d := c[p := elm];
    forall i | 0 <= i < |d| ensures d[i].next == NextIn(d, i) && d[i].prev == PrevIn(d, i) {
      assert d[i] == if i == p then elm else c[i];
    }
  }

  /** If `c` and `d` were chains and the elements of `d` now follow `c`, then this is the chain now. */
  lemma JoinedAt(c: seq<Link>, d: seq<Link>)
    requires |c| > 0 && |d| > 1 && NoDuplicates(c + d)
    requires forall i {:trigger c[i].next} :: 0 <= i < |c| ==> c[i].next == if i == |c| - 1 then d[1] else NextIn(c, i)
    requires forall i {:trigger c[i].prev} :: 0 <= i < |c| ==> c[i].prev == if i == 0 then d[|d| - 1] else PrevIn(c, i)
    requires forall i {:trigger d[i].next} :: 1 <= i < |d| ==> d[i].next == NextIn(d, i)
    requires forall i {:trigger d[i].prev} :: 1 <= i < |d| ==> d[i].prev == if i == 1 then c[|c| - 1] else PrevIn(d, i)
    ensures Chain(c + d[1..])
  {
    var e := c + d[1..];
    forall i | 0 <= i < |e| ensures e[i].next == NextIn(e, i) && e[i].prev == PrevIn(e, i) {
      assert e[i] == if i < |c| then c[i] else d[i - |c| + 1];
    }
    forall i, j | 0 <= i < j < |e| ensures e[i] != e[j] {
      assert e[j] == (c + d)[if j < |c| then j else j + 1] && e[i] == (c + d)[if i < |c| then i else i + 1];
    }
  }

  // ----- Operations

  method Init(head: Link)
    modifies head
    ensures Linked(head, [])
  {
    head.next := null;
    head.prev := head;
  }

  method InsertHead(head: Link, elm: Link, ghost q: seq<Link>)
    requires Linked(head, q) && elm != head && elm !in q
    modifies head, elm, q
    ensures Linked(head, [elm] + q)
  {
    ghost var c := [head] + q;
    assert c[0] == head;
    elm.next := head.next;
    if elm.next != null {
      head.next.prev := elm;
    } else {
      head.prev := elm;
    }
    head.next := elm;
    elm.prev := head;
    InsertedAt(c, 1, elm);
    assert c[..1] + [elm] + c[1..] == [head] + ([elm] + q);
  }

  method InsertTail(head: Link, elm: Link, ghost q: seq<Link>)
    requires Linked(head, q) && elm != head && elm !in q
    modifies head, elm, q
    ensures Linked(head, q + [elm])
  {
    ghost var c := [head] + q;
    assert c[0] == head;
    elm.next := null;
    elm.prev := head.prev;
    head.prev.next := elm;
    head.prev := elm;
    InsertedAt(c, |c|, elm);
    assert c[..|c|] + [elm] + c[|c|..] == [head] + (q + [elm]);
  }

  method InsertAfter(head: Link, listElm: Link, elm: Link, ghost q: seq<Link>, ghost k: nat)
    requires Linked(head, q) && elm != head && elm !in q
    requires k < |q| && listElm == q[k]
    modifies head, elm, q
    ensures Linked(head, q[..k + 1] + [elm] + q[k + 1..])
  {
    ghost var c := [head] + q;
    assert c[0] == head && c[k + 1] == listElm;
    elm.next := listElm.next;
    if elm.next != null {
      elm.next.prev := elm;
    } else {
      head.prev := elm;
    }
    listElm.next := elm;
    elm.prev := listElm;
    InsertedAt(c, k + 2, elm);
    assert c[..k + 2] + [elm] + c[k + 2..] == [head] + (q[..k + 1] + [elm] + q[k + 1..]);
  }

  method InsertBefore(listElm: Link, elm: Link, ghost head: Link, ghost q: seq<Link>, ghost k: nat)
    requires Linked(head, q) && elm != head && elm !in q
    requires k < |q| && listElm == q[k]
    modifies head, elm, q
    ensures Linked(head, q[..k] + [elm] + q[k..])
  {
    ghost var c := [head] + q;
    assert c[k + 1] == listElm;
    elm.prev := listElm.prev;
    elm.next := listElm;
    listElm.prev.next := elm;
    listElm.prev := elm;
    InsertedAt(c, k + 1, elm);
    assert c[..k + 1] + [elm] + c[k + 1..] == [head] + (q[..k] + [elm] + q[k..]);
  }

  method Remove(head: Link, elm: Link, ghost q: seq<Link>, ghost k: nat)
    requires Linked(head, q) && k < |q| && elm == q[k]
    modifies head, q
    ensures Linked(head, q[..k] + q[k + 1..])
    ensures elm.next == old(elm.next) && elm.prev == old(elm.prev)
  {
    ghost var c := [head] + q;
    assert c[0] == head && c[k + 1] == elm;
    if elm.next != null {
      elm.next.prev := elm.prev;
    } else {
      head.prev := elm.prev;
    }
    elm.prev.next := elm.next;
    RemovedAt(c, k + 1);
    assert c[..k + 1] + c[k + 2..] == [head] + (q[..k] + q[k + 1..]);
  }

  method Replace(head: Link, elm: Link, elm2: Link, ghost q: seq<Link>, ghost k: nat)
    requires Linked(head, q) && k < |q| && elm == q[k]
    requires elm2 != head && elm2 !in q
    modifies head, elm2, q
    ensures Linked(head, q[k := elm2])
  {
    ghost var c := [head] + q;
    assert c[0] == head && c[k + 1] == elm;
    elm2.next := elm.next;
    if elm2.next != null {
      elm2.next.prev := elm2;
    } else {
      head.prev := elm2;
    }
    elm2.prev := elm.prev;
    elm2.prev.next := elm2;
    ReplacedAt(c, k + 1, elm2);
    assert c[k + 1 := elm2] == [head] + q[k := elm2];
  }

  /** Moves all elements of `head2` to the end of the queue of `head1`. */
  method Concat(head1: Link, head2: Link, ghost q1: seq<Link>, ghost q2: seq<Link>)
    requires Linked(head1, q1) && Linked(head2, q2)
    requires NoDuplicates([head1] + q1 + [head2] + q2)
    modifies head1, head2, q1, q2
    ensures Linked(head1, q1 + q2) && Linked(head2, [])
  {
    ghost var c1, c2 := [head1] + q1, [head2] + q2;
    assert c1[0] == head1 && c2[0] == head2;
    assert c1 + c2 == [head1] + q1 + [head2] + q2;
    Apart(c1, c2);
    if head2.next != null {
      assert c2[0].next == c2[1] && c1[0].prev == c1[|q1|] && c2[0].prev == c2[|q2|];
      head1.prev.next := head2.next;
      head2.next.prev := head1.prev;
      head1.prev := head2.prev;
      Init(head2);
      JoinedAt(c1, c2);
      assert c1 + c2[1..] == [head1] + (q1 + q2);
    } else {
      assert c2[0].next == NextIn(c2, 0);
      assert q2 == [] && q1 + q2 == q1;
    }
  }

  lemma Apart(c: seq<Link>, d: seq<Link>)
    requires NoDuplicates(c + d)
    ensures forall i, j :: 0 <= i < |c| && 0 <= j < |d| ==> c[i] != d[j]
  {
    forall i, j | 0 <= i < |c| && 0 <= j < |d| ensures c[i] != d[j] {
      assert (c + d)[i] == c[i] && (c + d)[|c| + j] == d[j];
    }
  }

  // ----- Traversals

  /** TAILQ_FOREACH, with a body that records each element. */
  method Foreach(head: Link, ghost q: seq<Link>) returns (visited: seq<Link>)
    requires Linked(head, q)
    ensures visited == q
  {
    visited := [];
    ghost var c := [head] + q;
    assert c[0] == head;
    var elm := head.next;
    while elm != null
      invariant |visited| <= |q| && visited == q[..|visited|]
      invariant elm == if |visited| < |q| then q[|visited|] else null
      decreases |q| - |visited|
    {
      assert c[|visited| + 1] == elm;
      visited := visited + [elm];
      elm := elm.next;
    }
  }

  /** TAILQ_FOREACH_REVERSE: it visits the same elements in the opposite order. */
  method ForeachReverse(head: Link, ghost q: seq<Link>) returns (visited: seq<Link>)
    requires Linked(head, q)
    ensures |visited| == |q| && forall i :: 0 <= i < |q| ==> visited[i] == q[|q| - 1 - i]
  {
    visited := [];
    LastIsLast(head, q);
    var elm := Last(head);
    ghost var k: int := |q|;
    while elm != null
      invariant 0 <= k <= |q| && |visited| == |q| - k
      invariant forall i :: 0 <= i < |visited| ==> visited[i] == q[|q| - 1 - i]
      invariant elm == if k > 0 then q[k - 1] else null
      decreases k
    {
      k := k - 1;
      PrevIsPredecessor(head, q, k);
      visited := visited + [elm];
      elm := Prev(elm);
    }
  }
}
