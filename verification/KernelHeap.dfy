/**
  The kernel heap of the driver: live blocks by address, and how the entries of a
  ring stand for the byte strings in its blocks.
 */
module KernelHeap {
  import opened Bytes
  import opened CircularBuffer
  import opened DeviceSpec

  type Heap = map<Ptr, seq<byte>>

  /** The entry's block is live, holds exactly `bytes`, and is not empty. */
  predicate BlockHas(heap: Heap, e: Entry, bytes: seq<byte>) {
    e.buffptr != NULL && e.buffptr in heap && heap[e.buffptr] == bytes && e.size == |bytes| > 0
  }

  predicate Blocks(heap: Heap, q: seq<Entry>, w: seq<seq<byte>>) {
    |q| == |w| && forall k :: 0 <= k < |q| ==> BlockHas(heap, q[k], w[k])
  }

  /** The pending entry holds `bytes`; it has no block exactly when there are none. */
  predicate PendingHas(heap: Heap, e: Entry, bytes: seq<byte>) {
    if e.buffptr == NULL then e.size == 0 && bytes == [] else BlockHas(heap, e, bytes)
  }

  /** The stored entries' slots, so that ownership of slots is ownership of entries. */
  lemma LogicalIsSlot(r: Ring, k: nat) returns (i: nat)
    requires RingInv(r) && k < |Logical(r)|
    ensures i < |r.entry| && r.entry[i] == Logical(r)[k]
  {
    i := if r.full then SlotAt(r, k) else k;
    if r.full {
      RotatedAt(r, k);
    }
  }

  lemma {:induction false} TotalIsFlattenedLength(heap: Heap, q: seq<Entry>, w: seq<seq<byte>>)
    requires Blocks(heap, q, w)
    ensures TotalSize(q) == |Flatten(w)|
  {
    if q != [] {
      assert BlockHas(heap, q[0], w[0]);
      assert forall k :: 0 <= k < |q[1..]| ==> q[1..][k] == q[k + 1] && w[1..][k] == w[k + 1];
      TotalIsFlattenedLength(heap, q[1..], w[1..]);
    }
  }

  lemma ReadAtEntry(heap: Heap, q: seq<Entry>, w: seq<seq<byte>>, k: nat, offset: nat, count: nat)
    requires Blocks(heap, q, w) && k < |q| && offset < q[k].size
    ensures ReadAt(w, TotalSize(q[..k]) + offset, count) == w[k][offset..offset + Min(|w[k]| - offset, count)]
  {
    assert BlockHas(heap, q[k], w[k]);
    assert Blocks(heap, q[..k], w[..k]);
    TotalIsFlattenedLength(heap, q[..k], w[..k]);
    ReadAtIsRestOfEntry(w, k, offset, count);
  }

  /** The slot scan and the copy from the block it finds read the content by position. */
  lemma LookupReads(heap: Heap, r: Ring, w: seq<seq<byte>>, pos: nat, count: nat)
    requires RingInv(r) && Blocks(heap, Logical(r), w)
    ensures Lookup(r, pos, 0).None? <==> pos >= |Flatten(w)|
    ensures Lookup(r, pos, 0).None? ==> ReadAt(w, pos, count) == []
    ensures Lookup(r, pos, 0).Some? ==>
              var Hit(slot, offset) := Lookup(r, pos, 0).value;
              && slot < |r.entry| && offset < r.entry[slot].size
              && r.entry[slot].buffptr in heap
              && |heap[r.entry[slot].buffptr]| == r.entry[slot].size
              && ReadAt(w, pos, count) ==
                 heap[r.entry[slot].buffptr][offset..offset + Min(r.entry[slot].size - offset, count)]
  {
    var q := Logical(r);
    var k := LookupIsFlatIndexing(r, pos);
    TotalIsFlattenedLength(heap, q, w);
    if Lookup(r, pos, 0).Some? {
      var Hit(slot, offset) := Lookup(r, pos, 0).value;
      assert r.entry[slot] == q[k];
      assert BlockHas(heap, q[k], w[k]);
      ReadAtEntry(heap, q, w, k, offset, count);
    } else {
      ReadAtIsSlice(w, pos, count);
    }
  }

  /** Pushing an entry on the ring pushes its bytes on the window. */
  lemma PushBlocks(heap: Heap, q: seq<Entry>, w: seq<seq<byte>>, n: nat, e: Entry, bytes: seq<byte>)
    requires Blocks(heap, q, w) && BlockHas(heap, e, bytes)
    ensures Blocks(heap, Push(q, n, e), Push(w, n, bytes))
  {
  }

  lemma CommitWindow(d: Device)
    requires d.capacity >= 1 && EndsEntry(d.pending)
    ensures Window(Settle(d)) == Push(Window(d), d.capacity, d.pending)
  {
    PushKeepsLastN(d.committed, d.capacity, d.pending);
  }

  lemma FreshAddress(heap: Heap) returns (p: Ptr)
    ensures p != NULL && p !in heap
  {
    p := Bound(heap.Keys);
  }

  lemma {:induction false} Bound(s: set<nat>) returns (b: nat)
    ensures b > 0 && forall x :: x in s ==> x < b
  {
    if s == {} {
      b := 1;
    } else {
      var x :| x in s;
      var b' := Bound(s - {x});
      b := if b' <= x then x + 1 else b';
      assert forall y :: y in s ==> y == x || y in s - {x};
    }
  }
}
