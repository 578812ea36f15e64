/**
  The ring of the character driver (aesd-char-driver/aesd-circular-buffer.c).

  `Ring` is the value of a `struct aesd_circular_buffer`; its capacity is the
  number of slots.  `RingBuffer` is the structure that the C functions update in
  place.  `Logical` gives the entries a ring stands for, oldest first.
 */
module CircularBuffer {
  import opened Bytes

  type Ptr = nat
  const NULL: Ptr := 0

  const AESDCHAR_MAX_WRITE_OPERATIONS_SUPPORTED: nat := 10

  /** One more than the largest `size_t` of a 64-bit kernel. */
  const SIZE_T_LIMIT: nat := 0x1_0000_0000_0000_0000

  datatype Entry = Entry(buffptr: Ptr, size: nat)
  const EMPTY: Entry := Entry(NULL, 0)

  datatype Ring = Ring(entry: seq<Entry>, inOffs: nat, outOffs: nat, full: bool)

  /** A slot index and a byte offset into that slot's block. */
  datatype Hit = Hit(slot: nat, offset: nat)

  predicate RingInv(r: Ring) {
    && r.inOffs < |r.entry| && r.outOffs < |r.entry|
    && (r.full ==> r.inOffs == r.outOffs)
    && (!r.full ==> r.outOffs == 0 && forall i :: r.inOffs <= i < |r.entry| ==> r.entry[i] == EMPTY)
  }

  function InitRing(n: nat): Ring {
    Ring(seq(n, _ => EMPTY), 0, 0, false)
  }

  /** All slots in the order in which the lookup scans them. */
  function Rotated(r: Ring): seq<Entry>
    requires r.outOffs <= |r.entry|
  {
    r.entry[r.outOffs..] + r.entry[..r.outOffs]
  }

  /** The stored entries, oldest first. */
  function Logical(r: Ring): seq<Entry>
    requires RingInv(r)
  {
    if r.full then Rotated(r) else r.entry[..r.inOffs]
  }

  function TotalSize(q: seq<Entry>): nat {
    if q == [] then 0 else q[0].size + TotalSize(q[1..])
  }

  /** A first-in first-out queue that drops its oldest element when it is full. */
  function Push<T>(q: seq<T>, capacity: nat, e: T): seq<T> {
    if |q| < capacity || q == [] then q + [e] else q[1..] + [e]
  }

  /** The ring after `aesd_circular_buffer_add_entry`, and the pointer it returns. */
  function Add(r: Ring, e: Entry): (Ring, Ptr)
    requires r.inOffs < |r.entry| && r.outOffs < |r.entry|
  {
    var n := |r.entry|;
    var dropped := if r.full then r.entry[r.outOffs].buffptr else NULL;
    var out := if r.full then (r.outOffs + 1) % n else r.outOffs;
    var in' := (r.inOffs + 1) % n;
    (Ring(r.entry[r.inOffs := e], in', out, r.full || in' == out), dropped)
  }

  /** The slot that the scan visits after `k` steps. */
  function SlotAt(r: Ring, k: nat): (slot: nat)
    requires r.outOffs < |r.entry| && k < |r.entry|
    ensures slot < |r.entry|
  {
    (r.outOffs + k) % |r.entry|
  }

  /**
    The lookup, `k` slots into its scan, with `offset` bytes left to skip:
    the slot holding that byte, if there is one.
   */
  function Lookup(r: Ring, offset: nat, k: nat): Option<Hit>
    requires r.outOffs < |r.entry| && k < |r.entry|
    decreases |r.entry| - k
  {
    var i := SlotAt(r, k);
    if offset < r.entry[i].size then Some(Hit(i, offset))
    else if k + 1 == |r.entry| then None
    else Lookup(r, offset - r.entry[i].size, k + 1)
  }

  // ----- The ring is a bounded queue

  lemma WrapsAround(a: nat, b: nat, n: nat)
    requires a < n && b <= n
    ensures (a + b) % n == if a + b < n then a + b else a + b - n
  {
    if a + b >= n {
      assert (a + b) % n == (a + b - n) % n;
    }
  }

  lemma SmallMod(x: nat, n: nat)
    requires x < n
    ensures x % n == x
  {
  }

  lemma RotatedAt(r: Ring, k: nat)
    requires r.outOffs < |r.entry| && k < |r.entry|
    ensures Rotated(r)[k] == r.entry[SlotAt(r, k)]
  {
    WrapsAround(r.outOffs, k, |r.entry|);
  }

  lemma InitIsEmpty(n: nat)
    requires n >= 1
    ensures RingInv(InitRing(n)) && Logical(InitRing(n)) == []
  {
  }

  /**
    Adding an entry keeps the ring's invariant and pushes it on the bounded queue.
    The pointer returned is that of the oldest entry exactly when one is
    overwritten, and a full ring stays full.
   */
  lemma AddRefinesPush(r: Ring, e: Entry)
    requires RingInv(r)
    ensures RingInv(Add(r, e).0) && |Add(r, e).0.entry| == |r.entry|
    ensures Logical(Add(r, e).0) == Push(Logical(r), |r.entry|, e)
    ensures Add(r, e).1 == if r.full then Logical(r)[0].buffptr else NULL
    ensures Add(r, e).0.full <==> |Logical(r)| + 1 >= |r.entry|
    ensures r.full <==> |Logical(r)| == |r.entry|
  {
    WrapsAround(r.inOffs, 1, |r.entry|);
    WrapsAround(r.outOffs, 1, |r.entry|);
    if r.full {
      AddToFull(r, e);
    } else {
      var r' := Add(r, e).0;
      assert r'.full ==> Rotated(r') == r'.entry == r.entry[..r.inOffs] + [e];
      assert !r'.full ==> r'.entry[..r'.inOffs] == r.entry[..r.inOffs] + [e];
    }
  }

  lemma AddToFull(r: Ring, e: Entry)
    requires RingInv(r) && r.full
    ensures RingInv(Add(r, e).0) && Rotated(Add(r, e).0) == Rotated(r)[1..] + [e]
  {
    WrapsAround(r.outOffs, 1, |r.entry|);
    ReplaceFirst(r.entry, r.outOffs, e);
  }

  /** Overwriting the first element of a rotation makes it the last one of the next rotation. */
  lemma ReplaceFirst<T>(s: seq<T>, out: nat, e: T)
    requires out < |s|
    ensures var next := if out + 1 == |s| then 0 else out + 1;
            s[out := e][next..] + s[out := e][..next] == (s[out..] + s[..out])[1..] + [e]
  {
    assert (s[out..] + s[..out])[1..] == s[out + 1..] + s[..out];
    assert s[out := e][out + 1..] == s[out + 1..];
    assert s[out := e][..out + 1] == s[..out] + [e];
  }

  function AddAll(r: Ring, es: seq<Entry>): Ring
    requires RingInv(r)
    ensures RingInv(AddAll(r, es)) && |AddAll(r, es).entry| == |r.entry|
  {
    if es == [] then r
    else
      var before := AddAll(r, es[..|es| - 1]);
      AddRefinesPush(before, es[|es| - 1]);
      Add(before, es[|es| - 1]).0
  }

  lemma AddAllSnoc(r: Ring, es: seq<Entry>, e: Entry)
    requires RingInv(r)
    ensures AddAll(r, es + [e]) == Add(AddAll(r, es), e).0
  {
    assert (es + [e])[..|es|] == es;
  }

  /** Pushing on the last `n` elements gives the last `n` elements. */
  lemma PushKeepsLastN<T>(s: seq<T>, n: nat, e: T)
    requires n >= 1
    ensures Push(LastN(s, n), n, e) == LastN(s + [e], n)
  {
    if |s| >= n {
      assert LastN(s, n)[1..] == s[|s| - n + 1..];
    }
  }

  lemma {:induction false} AddAllHoldsLast(n: nat, es: seq<Entry>)
    requires n >= 1
    ensures Logical(AddAll(InitRing(n), es)) == LastN(es, n)
    ensures AddAll(InitRing(n), es).full <==> |es| >= n
  {
    InitIsEmpty(n);
    if es != [] {
      var front, last := es[..|es| - 1], es[|es| - 1];
      assert front + [last] == es;
      AddAllHoldsLast(n, front);
      AddRefinesPush(AddAll(InitRing(n), front), last);
      AddAllSnoc(InitRing(n), front, last);
      PushKeepsLastN(front, n, last);
    }
  }

  /** `held` are the last `n` elements of `s`, or all of them if there are fewer. */
  predicate AreLast<T(==)>(held: seq<T>, s: seq<T>, n: nat) {
    |held| == Min(|s|, n) && forall i :: 0 <= i < |held| ==> held[i] == s[|s| - |held| + i]
  }

  lemma LastNAreLast<T>(s: seq<T>, n: nat)
    ensures AreLast(LastN(s, n), s, n)
  {
  }

  /** After any sequence of adds to a new ring it holds the last `n` entries added. */
  lemma RingHoldsLastEntries(n: nat, es: seq<Entry>)
    requires n >= 1
    ensures AreLast(Logical(AddAll(InitRing(n), es)), es, n)
    ensures AddAll(InitRing(n), es).full <==> |es| >= n
  {
    AddAllHoldsLast(n, es);
    LastNAreLast(es, n);
  }

  // ----- The slot scan is flat indexing

  lemma {:induction false} TotalSizeSplit(q: seq<Entry>, k: nat)
    requires k <= |q|
    ensures TotalSize(q) == TotalSize(q[..k]) + TotalSize(q[k..])
  {
    if k > 0 {
      assert q[..k][1..] == q[1..][..k - 1] && q[1..][k - 1..] == q[k..];
      TotalSizeSplit(q[1..], k - 1);
    }
  }

  lemma {:induction false} EmptySlotsHaveNoBytes(q: seq<Entry>)
    requires forall i :: 0 <= i < |q| ==> q[i] == EMPTY
    ensures TotalSize(q) == 0
  {
    if q != [] {
      EmptySlotsHaveNoBytes(q[1..]);
    }
  }

  /** The scan's meaning over `Rotated`: position `k` and offset of byte `offset` of what remains. */
  lemma {:induction false} ScanFinds(r: Ring, offset: nat, from: nat) returns (k: nat)
    requires r.outOffs < |r.entry| && from < |r.entry|
    ensures Lookup(r, offset, from).None? <==> offset >= TotalSize(Rotated(r)[from..])
    ensures Lookup(r, offset, from).Some? ==>
              && from <= k < |r.entry|
              && Lookup(r, offset, from).value.slot == SlotAt(r, k)
              && Lookup(r, offset, from).value.offset < Rotated(r)[k].size
              && TotalSize(Rotated(r)[from..k]) + Lookup(r, offset, from).value.offset == offset
    decreases |r.entry| - from
  {
    var rot := Rotated(r);
    k := from;
    RotatedAt(r, from);
    assert rot[from..][1..] == rot[from + 1..];
    if offset < rot[from].size {
    } else if from + 1 < |r.entry| {
      k := ScanFinds(r, offset - rot[from].size, from + 1);
      if Lookup(r, offset, from).Some? {
        assert rot[from..k][1..] == rot[from + 1..k];
      }
    }
  }

  /** Slots that hold no entry add nothing to the scan. */
  lemma ScanTotal(r: Ring)
    requires RingInv(r)
    ensures TotalSize(Rotated(r)) == TotalSize(Logical(r))
  {
    var rot, n := Rotated(r), |Logical(r)|;
    assert rot[..n] == Logical(r);
    EmptySlotsHaveNoBytes(rot[n..]);
    TotalSizeSplit(rot, n);
  }

  /**
    In a well-formed ring the lookup fails exactly when `offset` is at or past
    the total size; otherwise it returns the stored entry `k` that holds the
    byte, with the offset into it.  No empty slot is ever returned.
   */
  lemma LookupIsFlatIndexing(r: Ring, offset: nat) returns (k: nat)
    requires RingInv(r)
    ensures Lookup(r, offset, 0).None? <==> offset >= TotalSize(Logical(r))
    ensures Lookup(r, offset, 0).Some? ==>
              var hit := Lookup(r, offset, 0).value;
              && k < |Logical(r)| && hit.slot < |r.entry|
              && hit.slot == SlotAt(r, k)
              && r.entry[hit.slot] == Logical(r)[k]
              && hit.offset < Logical(r)[k].size
              && TotalSize(Logical(r)[..k]) + hit.offset == offset
  {
    k := ScanFinds(r, offset, 0);
    var rot, n := Rotated(r), |Logical(r)|;
    assert rot[0..] == rot && rot[..n] == Logical(r);
    ScanTotal(r);
    TotalSizeSplit(rot, n);
    if Lookup(r, offset, 0).Some? {
      RotatedAt(r, k);
      assert rot[0..k] == rot[..k] == Logical(r)[..k];
    }
  }

  /** A scan visits every slot once. */
  lemma SlotsVisitedOnce(r: Ring, j: nat, k: nat)
    requires r.outOffs < |r.entry| && j < k < |r.entry|
    ensures SlotAt(r, j) != SlotAt(r, k)
  {
    WrapsAround(r.outOffs, j, |r.entry|);
    WrapsAround(r.outOffs, k, |r.entry|);
  }

  /** Flat indexing has one answer: entry and offset are determined by the position. */
  lemma FlatIndexUnique(q: seq<Entry>, j: nat, a: nat, k: nat, b: nat)
    requires j < |q| && a < q[j].size
    requires k < |q| && b < q[k].size
    requires TotalSize(q[..j]) + a == TotalSize(q[..k]) + b
    ensures j == k && a == b
  {
    if j < k {
      PrefixesGrow(q, j, k);
    } else if k < j {
      PrefixesGrow(q, k, j);
    }
  }

  lemma PrefixesGrow(q: seq<Entry>, j: nat, k: nat)
    requires j < k <= |q|
    ensures TotalSize(q[..j]) + q[j].size <= TotalSize(q[..k])
  {
    TotalSizeSplit(q[..k], j);
    assert q[..k][..j] == q[..j] && q[..k][j..][0] == q[j];
  }

  /** `struct aesd_circular_buffer`, with the functions that update it in place. */
  class RingBuffer {
    var entry: array<Entry>
    var inOffs: nat
    var outOffs: nat
    var full: bool

    function Value(): Ring
      reads this, entry
    {
      Ring(entry[..], inOffs, outOffs, full)
    }

    ghost predicate Valid()
      reads this, entry
    {
      RingInv(Value())
    }

    /** `aesd_circular_buffer_init`, for any capacity of at least one slot. */
    constructor (capacity: nat)
      requires capacity >= 1
      ensures Valid() && fresh(entry)
      ensures Value() == InitRing(capacity) && Logical(Value()) == []
    {
      entry := new Entry[capacity](_ => EMPTY);
      inOffs, outOffs, full := 0, 0, false;
      new;
      assert entry[..] == seq(capacity, _ => EMPTY);
    }

    /** `aesd_circular_buffer_add_entry` */
    method AddEntry(e: Entry) returns (oldData: Ptr)
      requires Valid()
      modifies this, entry
      ensures Valid() && entry == old(entry)
      ensures (Value(), oldData) == Add(old(Value()), e)
      ensures Logical(Value()) == Push(old(Logical(Value())), entry.Length, e)
      ensures Logical(Value()) == (if old(full) then old(Logical(Value()))[1..] else old(Logical(Value()))) + [e]
      ensures oldData == if old(full) then old(Logical(Value()))[0].buffptr else NULL
      ensures full <==> old(|Logical(Value())|) + 1 >= entry.Length
    {
      AddRefinesPush(Value(), e);
      oldData := NULL;
      if full {
        oldData := entry[outOffs].buffptr;
        outOffs := (outOffs + 1) % entry.Length;
      }
      entry[inOffs] := e;
      inOffs := (inOffs + 1) % entry.Length;
      if inOffs == outOffs {
        full := true;
      }
    }

    /**
      `aesd_circular_buffer_find_entry_offset_for_fpos`, with `size_t` sums.
      Each turn of the loop looks at one more slot, so no slot is seen twice.
     */
    method FindEntryOffsetForFpos(charOffset: nat) returns (hit: Option<Hit>)
      requires Valid()
      requires TotalSize(Logical(Value())) < SIZE_T_LIMIT
      ensures hit == Lookup(Value(), charOffset, 0)
    {
      ghost var r, visited := Value(), 0;
      var searchOffset := 0;
      var i := outOffs;
      WrapsAround(outOffs, 0, entry.Length);
      while true
        invariant 0 <= visited < entry.Length && i == SlotAt(r, visited)
        invariant searchOffset == ScanSum(r, visited) <= charOffset
        invariant Lookup(r, charOffset, 0) == Lookup(r, charOffset - searchOffset, visited)
        decreases entry.Length - visited
      {
        ScanSumBounded(r, visited + 1);
        SmallMod(searchOffset + entry[i].size, SIZE_T_LIMIT);
        searchOffset := (searchOffset + entry[i].size) % SIZE_T_LIMIT;
        if searchOffset > charOffset {
          searchOffset := searchOffset - entry[i].size;
          return Some(Hit(i, charOffset - searchOffset));
        }
        NextSlot(r, visited);
        i := (i + 1) % entry.Length;
        if i == outOffs {
          return None;
        }
        visited := visited + 1;
      }
    }
  }

  /** The sizes of the first `k` slots visited, as the loop adds them up. */
  function ScanSum(r: Ring, k: nat): nat
    requires r.outOffs < |r.entry| && k <= |r.entry|
  {
    if k == 0 then 0 else ScanSum(r, k - 1) + r.entry[SlotAt(r, k - 1)].size
  }

  /** No partial sum of a scan exceeds the total size of the stored entries. */
  lemma ScanSumBounded(r: Ring, k: nat)
    requires RingInv(r) && k <= |r.entry|
    ensures ScanSum(r, k) <= TotalSize(Logical(r))
  {
    ScanSumIsPrefixTotal(r, k);
    TotalSizeSplit(Rotated(r), k);
    ScanTotal(r);
  }

  lemma {:induction false} ScanSumIsPrefixTotal(r: Ring, k: nat)
    requires r.outOffs < |r.entry| && k <= |r.entry|
    ensures ScanSum(r, k) == TotalSize(Rotated(r)[..k])
  {
    if k > 0 {
      var rot := Rotated(r);
      RotatedAt(r, k - 1);
      ScanSumIsPrefixTotal(r, k - 1);
      TotalSizeSplit(rot[..k], k - 1);
      assert rot[..k][..k - 1] == rot[..k - 1] && rot[..k][k - 1..] == [rot[k - 1]];
    }
  }

  lemma NextSlot(r: Ring, k: nat)
    requires r.outOffs < |r.entry| && k < |r.entry|
    ensures k + 1 < |r.entry| ==> (SlotAt(r, k) + 1) % |r.entry| == SlotAt(r, k + 1)
    ensures (SlotAt(r, k) + 1) % |r.entry| == r.outOffs <==> k + 1 == |r.entry|
  {
    WrapsAround(r.outOffs, k, |r.entry|);
    WrapsAround(SlotAt(r, k), 1, |r.entry|);
    WrapsAround(r.outOffs, k + 1, |r.entry|);
  }
}
