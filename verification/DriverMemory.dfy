/**
  What the writer that holds entry_lock keeps of the driver's memory: who owns
  each block, what the ring's blocks hold, and what the pending entry holds.
  `w` is the call that holds entry_lock, if there is one.
 */
module DriverMemory {
  import opened Bytes
  import opened CircularBuffer
  import opened DeviceSpec
  import opened KernelHeap
  import opened DriverSteps

  /** The block that the writer still has to free or hand over. */
  function LocalOf(w: Option<Call>): Ptr {
    if w.None? then NULL
    else
      match w.value.pc
      case WriteFresh(kbuf) => kbuf
      case WriteGrow(kbuf) => kbuf
      case WriteFreeOld(kbuf) => kbuf
      case WriteCopyNew(kbuf) => kbuf
      case WriteDrop(dropped) => dropped
      case _ => NULL
  }

  /** Between freeing the old block and adopting the new one, and between commit and reset, the
      pending entry's pointer owns nothing. */
  predicate PendingOwns(w: Option<Call>) {
    w.Some? ==> !w.value.pc.WriteCopyNew? && !w.value.pc.WriteDrop? && !w.value.pc.WriteReset?
  }

  predicate Holds(m: Mem, w: Option<Call>, o: Place, p: Ptr) {
    match o
    case Slot(i) => i < |m.ring.entry| && m.ring.entry[i].buffptr == p
    case Pending => m.entry.buffptr == p && PendingOwns(w)
    case Local => LocalOf(w) == p
  }

  predicate OwnedBy(m: Mem, p: Ptr, o: Place) {
    p in m.owner && m.owner[p] == o
  }

  /** Every live block is held by exactly one place, and every place that holds a block holds a live one. */
  ghost predicate Owners(m: Mem, w: Option<Call>) {
    && m.heap.Keys == m.owner.Keys
    && (forall p :: p in m.owner ==> p != NULL && Holds(m, w, m.owner[p], p))
    && (forall i :: 0 <= i < |m.ring.entry| && m.ring.entry[i].buffptr != NULL ==>
          OwnedBy(m, m.ring.entry[i].buffptr, Slot(i)))
    && (PendingOwns(w) && m.entry.buffptr != NULL ==> OwnedBy(m, m.entry.buffptr, Pending))
    && (LocalOf(w) != NULL ==> OwnedBy(m, LocalOf(w), Local))
  }

  ghost predicate RingBytes(m: Mem, d: Device) {
    && RingInv(m.ring) && |m.ring.entry| == d.capacity
    && Blocks(m.heap, Logical(m.ring), Window(d))
  }

  /** The block a writer is filling: `n` bytes long, starting with `bytes`. */
  predicate Filling(m: Mem, p: Ptr, n: nat, bytes: seq<byte>) {
    p != NULL && p in m.heap && |m.heap[p]| == n && bytes <= m.heap[p]
  }

  /** The pending entry, as the writer has left it. */
  predicate PendingBytes(m: Mem, d: Device, w: Option<Call>) {
    if w.None? || w.value.op.Read? then PendingHas(m.heap, m.entry, d.pending)
    else
      var data, pending := w.value.op.data, d.pending;
      var n := |pending| + |data|;
      match w.value.pc
      case WriteFresh(kbuf) => m.entry == EMPTY && pending == [] && Filling(m, kbuf, n, [])
      case WriteGrow(kbuf) => BlockHas(m.heap, m.entry, pending) && Filling(m, kbuf, n, [])
      case WriteFreeOld(kbuf) => BlockHas(m.heap, m.entry, pending) && Filling(m, kbuf, n, pending)
      case WriteCopyNew(kbuf) => m.entry.size == |pending| && Filling(m, kbuf, n, pending)
      case WriteSize => m.entry.size == |pending| && BlockHas(m.heap, m.entry.(size := n), pending + data)
      case WriteBufWait => BlockHas(m.heap, m.entry, pending + data)
      case WriteCheck => BlockHas(m.heap, m.entry, pending + data)
      case WritePush => BlockHas(m.heap, m.entry, pending + data) && EndsEntry(pending + data)
      case WriteDrop(dropped) => dropped != NULL && pending == []
      case WriteReset => pending == []
      case _ => PendingHas(m.heap, m.entry, pending)
  }

  ghost predicate MemInv(m: Mem, d: Device, w: Option<Call>) {
    m.safe && Owners(m, w) && RingBytes(m, d) && PendingBytes(m, d, w)
  }

  // ----- Framing

  /** Blocks owned by slots are all that the ring's content depends on. */
  lemma RingBytesFrame(m: Mem, d: Device, w: Option<Call>, m': Mem, d': Device)
    requires RingBytes(m, d) && Owners(m, w)
    requires m'.ring == m.ring && d'.capacity == d.capacity && d'.committed == d.committed
    requires forall p :: p in m.owner && m.owner[p].Slot? ==> p in m'.heap && m'.heap[p] == m.heap[p]
    ensures RingBytes(m', d')
  {
    var q := Logical(m.ring);
    forall k | 0 <= k < |q| ensures BlockHas(m'.heap, q[k], Window(d)[k]) {
      assert BlockHas(m.heap, q[k], Window(d)[k]);
      var i := LogicalIsSlot(m.ring, k);
      assert OwnedBy(m, m.ring.entry[i].buffptr, Slot(i));
    }
  }

  /** A step that changes the owner of no block but `p` (of none, if `p` is NULL). */
  lemma OwnersFrame(m: Mem, w: Option<Call>, m': Mem, w': Option<Call>, p: Ptr)
    requires Owners(m, w)
    requires m'.ring == m.ring && m'.heap.Keys == m'.owner.Keys && m'.owner - {p} == m.owner - {p}
    requires p in m.owner ==> !m.owner[p].Slot?
    requires p in m'.owner ==> p != NULL && Holds(m', w', m'.owner[p], p)
    requires PendingOwns(w) && m.entry.buffptr != NULL && m.entry.buffptr != p ==>
               m'.entry.buffptr == m.entry.buffptr && PendingOwns(w')
    requires PendingOwns(w') && m'.entry.buffptr != NULL ==> OwnedBy(m', m'.entry.buffptr, Pending)
    requires LocalOf(w) == NULL || LocalOf(w) == p || LocalOf(w) == LocalOf(w')
    requires LocalOf(w') != NULL ==> OwnedBy(m', LocalOf(w'), Local)
    ensures Owners(m', w')
  {
    forall q | q in m'.owner && q != p ensures q != NULL && Holds(m', w', m'.owner[q], q) {
      assert q in m'.owner - {p} && q in m.owner - {p};
      assert m.owner[q] == (m.owner - {p})[q] == (m'.owner - {p})[q];
      assert Holds(m, w, m.owner[q], q);
    }
    forall i | 0 <= i < |m'.ring.entry| && m'.ring.entry[i].buffptr != NULL
      ensures OwnedBy(m', m'.ring.entry[i].buffptr, Slot(i))
    {
      var q := m.ring.entry[i].buffptr;
      assert OwnedBy(m, q, Slot(i));
      assert q in m.owner - {p} && q in m'.owner - {p};
      assert m.owner[q] == (m.owner - {p})[q] == (m'.owner - {p})[q];
    }
  }

  // ----- The steps of the writer that holds entry_lock

  /** The writer of `data` at a program counter. */
  function At(data: seq<byte>, pc: Pc): Option<Call> {
    Some(Call(Op.Write(data), pc))
  }

  lemma WriterAllocates(m: Mem, d: Device, data: seq<byte>, kz: Ptr)
    requires MemInv(m, d, At(data, WriteHeld)) && kz != NULL && kz !in m.heap && m.entry.buffptr == NULL
    ensures MemInv(Kzalloc(m, kz, |data|), d, At(data, WriteFresh(kz)))
  {
    var m', w, w' := Kzalloc(m, kz, |data|), At(data, WriteHeld), At(data, WriteFresh(kz));
    assert Owners(m', w') by { OwnersFrame(m, w, m', w', kz); }
    assert RingBytes(m', d) by { RingBytesFrame(m, d, w, m', d); }
  }

  lemma WriterReallocates(m: Mem, d: Device, data: seq<byte>, kz: Ptr, size: nat)
    requires MemInv(m, d, At(data, WriteHeld)) && kz != NULL && kz !in m.heap && m.entry.buffptr != NULL
    requires size == m.entry.size + |data|
    ensures MemInv(Kzalloc(m, kz, size), d, At(data, WriteGrow(kz)))
  {
    var m', w, w' := Kzalloc(m, kz, size), At(data, WriteHeld), At(data, WriteGrow(kz));
    assert Owners(m', w') by { OwnersFrame(m, w, m', w', kz); }
    assert RingBytes(m', d) by { RingBytesFrame(m, d, w, m', d); }
  }

  /** Program counters at which the writer owns the same and has the same bytes pending. */
  lemma WriterMoves(m: Mem, d: Device, w: Option<Call>, w': Option<Call>)
    requires MemInv(m, d, w) && PendingBytes(m, d, w')
    requires LocalOf(w) == LocalOf(w') && PendingOwns(w) == PendingOwns(w')
    ensures MemInv(m, d, w')
  {
    assert Owners(m, w') by { OwnersFrame(m, w, m, w', NULL); }
  }

  lemma WriterLocksEntry(m: Mem, d: Device, data: seq<byte>)
    requires MemInv(m, d, None)
    ensures MemInv(m, d, At(data, WriteHeld))
  {
    WriterMoves(m, d, None, At(data, WriteHeld));
  }

  lemma WriterLocksBuf(m: Mem, d: Device, data: seq<byte>)
    requires MemInv(m, d, At(data, WriteBufWait))
    ensures MemInv(m, d, At(data, WriteCheck))
  {
    WriterMoves(m, d, At(data, WriteBufWait), At(data, WriteCheck));
  }

  lemma WriterUnlocksBuf(m: Mem, d: Device, data: seq<byte>, res: Result)
    requires MemInv(m, d, At(data, WriteBufOut))
    ensures MemInv(m, d, At(data, WriteOut(res)))
  {
    WriterMoves(m, d, At(data, WriteBufOut), At(data, WriteOut(res)));
  }

  lemma WriterUnlocksEntry(m: Mem, d: Device, data: seq<byte>, res: Result)
    requires MemInv(m, d, At(data, WriteOut(res)))
    ensures MemInv(m, d, None)
  {
    WriterMoves(m, d, At(data, WriteOut(res)), None);
  }

  lemma WriterFreshFails(m: Mem, d: Device, data: seq<byte>, kbuf: Ptr, res: Result)
    requires MemInv(m, d, At(data, WriteFresh(kbuf)))
    ensures kbuf in m.heap && d.pending == []
    ensures MemInv(Kfree(m, kbuf), d, At(data, WriteOut(res)))
  {
    var m', w, w' := Kfree(m, kbuf), At(data, WriteFresh(kbuf)), At(data, WriteOut(res));
    assert OwnedBy(m, kbuf, Local);
    assert Owners(m', w') by { OwnersFrame(m, w, m', w', kbuf); }
    assert RingBytes(m', d) by { RingBytesFrame(m, d, w, m', d); }
  }

  lemma WriterFreshCopies(m: Mem, d: Device, data: seq<byte>, kbuf: Ptr)
    requires data != [] && MemInv(m, d, At(data, WriteFresh(kbuf)))
    ensures kbuf in m.heap && |data| <= |m.heap[kbuf]|
    ensures MemInv(Adopt(CopyTo(m, kbuf, 0, data), kbuf), d, At(data, WriteSize))
  {
    var m', w, w' := Adopt(CopyTo(m, kbuf, 0, data), kbuf), At(data, WriteFresh(kbuf)), At(data, WriteSize);
    assert OwnedBy(m, kbuf, Local);
    assert Blit(m.heap[kbuf], 0, data) == data == d.pending + data;
    assert Owners(m', w') by { OwnersFrame(m, w, m', w', kbuf); }
    assert RingBytes(m', d) by { RingBytesFrame(m, d, w, m', d); }
  }

  lemma WriterGrows(m: Mem, d: Device, data: seq<byte>, kbuf: Ptr)
    requires MemInv(m, d, At(data, WriteGrow(kbuf)))
    ensures m.entry.buffptr in m.heap && m.entry.size == |m.heap[m.entry.buffptr]|
    ensures var previous := m.heap[m.entry.buffptr][..m.entry.size];
            && kbuf in m.heap && |previous| <= |m.heap[kbuf]|
            && MemInv(CopyTo(m, kbuf, 0, previous), d, At(data, WriteFreeOld(kbuf)))
  {
    var m', w, w' := CopyTo(m, kbuf, 0, d.pending), At(data, WriteGrow(kbuf)), At(data, WriteFreeOld(kbuf));
    assert OwnedBy(m, kbuf, Local) && OwnedBy(m, m.entry.buffptr, Pending);
    assert m.heap[m.entry.buffptr][..m.entry.size] == d.pending;
    assert d.pending <= Blit(m.heap[kbuf], 0, d.pending);
    assert Owners(m', w') by { OwnersFrame(m, w, m', w', NULL); }
    assert RingBytes(m', d) by { RingBytesFrame(m, d, w, m', d); }
  }

  lemma WriterFreesOld(m: Mem, d: Device, data: seq<byte>, kbuf: Ptr)
    requires MemInv(m, d, At(data, WriteFreeOld(kbuf)))
    ensures m.entry.buffptr in m.heap
    ensures MemInv(Kfree(m, m.entry.buffptr), d, At(data, WriteCopyNew(kbuf)))
  {
    var m', w, w' := Kfree(m, m.entry.buffptr), At(data, WriteFreeOld(kbuf)), At(data, WriteCopyNew(kbuf));
    assert OwnedBy(m, kbuf, Local) && OwnedBy(m, m.entry.buffptr, Pending);
    assert Owners(m', w') by { OwnersFrame(m, w, m', w', m.entry.buffptr); }
    assert RingBytes(m', d) by { RingBytesFrame(m, d, w, m', d); }
  }

  lemma WriterCopiesNew(m: Mem, d: Device, data: seq<byte>, kbuf: Ptr)
    requires data != [] && MemInv(m, d, At(data, WriteCopyNew(kbuf)))
    ensures kbuf in m.heap && m.entry.size + |data| == |m.heap[kbuf]|
    ensures MemInv(Adopt(CopyTo(m, kbuf, m.entry.size, data), kbuf), d, At(data, WriteSize))
  {
    var m' := Adopt(CopyTo(m, kbuf, m.entry.size, data), kbuf);
    var w, w' := At(data, WriteCopyNew(kbuf)), At(data, WriteSize);
    assert OwnedBy(m, kbuf, Local);
    assert Blit(m.heap[kbuf], |d.pending|, data) == d.pending + data;
    assert Owners(m', w') by { OwnersFrame(m, w, m', w', kbuf); }
    assert RingBytes(m', d) by { RingBytesFrame(m, d, w, m', d); }
  }

  lemma WriterSizes(m: Mem, d: Device, data: seq<byte>)
    requires MemInv(m, d, At(data, WriteSize))
    ensures MemInv(m.(entry := m.entry.(size := m.entry.size + |data|)), d, At(data, WriteBufWait))
  {
    var m', w, w' := m.(entry := m.entry.(size := m.entry.size + |data|)), At(data, WriteSize), At(data, WriteBufWait);
    assert Owners(m', w') by { OwnersFrame(m, w, m', w', NULL); }
    assert RingBytes(m', d) by { RingBytesFrame(m, d, w, m', d); }
  }

  /** The bytes stay pending: the ring's lock was interrupted, or they end no entry. */
  lemma WriterAppends(m: Mem, d: Device, data: seq<byte>, pc: Pc, pc': Pc)
    requires pc.WriteBufWait? || pc.WriteCheck?
    requires pc'.WriteOut? || pc'.WriteBufOut?
    requires MemInv(m, d, At(data, pc))
    ensures MemInv(m, Append(d, data), At(data, pc'))
  {
    assert Owners(m, At(data, pc')) by { OwnersFrame(m, At(data, pc), m, At(data, pc'), NULL); }
    assert RingBytes(m, Append(d, data)) by { RingBytesFrame(m, d, At(data, pc), m, Append(d, data)); }
  }

  /** The last byte that the writer looks at decides whether the pending bytes end an entry. */
  lemma WriterChecks(m: Mem, d: Device, data: seq<byte>)
    requires MemInv(m, d, At(data, WriteCheck))
    ensures var p, size := m.entry.buffptr, m.entry.size;
            && p in m.heap && 0 < size == |m.heap[p]|
            && (m.heap[p][size - 1] == NEWLINE <==> EndsEntry(d.pending + data))
  {
  }

  /** The memory after the commit: the slot takes the pending block, the writer takes the block dropped. */
  function Commit(m: Mem): Mem
    requires RingInv(m.ring)
  {
    var (ring, dropped) := Add(m.ring, m.entry);
    var owner := if dropped != NULL then m.owner[dropped := Local] else m.owner;
    m.(ring := ring, owner := owner[m.entry.buffptr := Slot(m.ring.inOffs)])
  }

  function Committed(m: Mem): Pc
    requires RingInv(m.ring)
  {
    if Add(m.ring, m.entry).1 != NULL then WriteDrop(Add(m.ring, m.entry).1) else WriteReset
  }

  lemma OwnersPush(m: Mem, data: seq<byte>)
    requires m.entry.buffptr != NULL && RingInv(m.ring) && Owners(m, At(data, WritePush))
    ensures Owners(Commit(m), At(data, Committed(m)))
  {
    var m', w, w' := Commit(m), At(data, WritePush), At(data, Committed(m));
    var slot, dropped := m.ring.inOffs, Add(m.ring, m.entry).1;
    assert OwnedBy(m, m.entry.buffptr, Pending);
    assert dropped == m.ring.entry[slot].buffptr;
    assert dropped != NULL ==> OwnedBy(m, dropped, Slot(slot));
    forall p | p in m'.owner ensures p != NULL && Holds(m', w', m'.owner[p], p) {
      assert Holds(m, w, m.owner[p], p);
    }
    forall i | 0 <= i < |m'.ring.entry| && m'.ring.entry[i].buffptr != NULL
      ensures OwnedBy(m', m'.ring.entry[i].buffptr, Slot(i))
    {
      assert i != slot ==> OwnedBy(m, m.ring.entry[i].buffptr, Slot(i));
    }
  }

  lemma RingBytesPush(m: Mem, d: Device, bytes: seq<byte>)
    requires d.capacity >= 1 && RingBytes(m, d) && BlockHas(m.heap, m.entry, bytes) && EndsEntry(bytes)
    ensures RingBytes(Commit(m), Settle(d.(pending := bytes)))
  {
    AddRefinesPush(m.ring, m.entry);
    CommitWindow(d.(pending := bytes));
    PushBlocks(m.heap, Logical(m.ring), Window(d), d.capacity, m.entry, bytes);
  }

  lemma WriterPushes(m: Mem, d: Device, data: seq<byte>)
    requires d.capacity >= 1 && MemInv(m, d, At(data, WritePush))
    ensures MemInv(Commit(m), Settle(Append(d, data)), At(data, Committed(m)))
  {
    assert Owners(Commit(m), At(data, Committed(m))) by { OwnersPush(m, data); }
    assert RingBytes(Commit(m), Settle(Append(d, data))) by { RingBytesPush(m, d, d.pending + data); }
  }

  lemma WriterDrops(m: Mem, d: Device, data: seq<byte>, dropped: Ptr)
    requires MemInv(m, d, At(data, WriteDrop(dropped)))
    ensures dropped in m.heap && MemInv(Kfree(m, dropped), d, At(data, WriteReset))
  {
    var m', w, w' := Kfree(m, dropped), At(data, WriteDrop(dropped)), At(data, WriteReset);
    assert OwnedBy(m, dropped, Local);
    assert Owners(m', w') by { OwnersFrame(m, w, m', w', dropped); }
    assert RingBytes(m', d) by { RingBytesFrame(m, d, w, m', d); }
  }

  lemma WriterResets(m: Mem, d: Device, data: seq<byte>)
    requires MemInv(m, d, At(data, WriteReset))
    ensures MemInv(m.(entry := EMPTY), d, At(data, WriteBufOut))
  {
    var m', w, w' := m.(entry := EMPTY), At(data, WriteReset), At(data, WriteBufOut);
    assert Owners(m', w') by { OwnersFrame(m, w, m', w', NULL); }
    assert RingBytes(m', d) by { RingBytesFrame(m, d, w, m', d); }
  }

  // ----- Unloading the module

  /** The memory after the cleanup loop has freed the blocks of the first `k` slots. */
  function FreeSlots(m: Mem, k: nat): Mem
    requires k <= |m.ring.entry|
  {
    if k == 0 then m
    else
      var before, p := FreeSlots(m, k - 1), m.ring.entry[k - 1].buffptr;
      if p != NULL then Kfree(before, p) else before
  }

  /** The blocks of the slots from `k` on, and the pending entry's, are untouched. */
  ghost predicate FreedUpTo(m: Mem, m': Mem, k: nat) {
    && m'.safe && m'.ring == m.ring && m'.entry == m.entry
    && (forall p :: p in m'.heap <==> p in m.heap && p in m.owner && !(m.owner[p].Slot? && m.owner[p].i < k))
    && (forall p :: p in m'.heap ==> m'.heap[p] == m.heap[p])
  }

  /** No slot's block has been freed before its slot is reached. */
  lemma {:induction false} FreeSlotsKeeps(m: Mem, k: nat)
    requires m.safe && Owners(m, None) && k <= |m.ring.entry|
    ensures FreedUpTo(m, FreeSlots(m, k), k)
    ensures k < |m.ring.entry| && m.ring.entry[k].buffptr != NULL ==> m.ring.entry[k].buffptr in FreeSlots(m, k).heap
  {
    if k > 0 {
      FreeSlotsKeeps(m, k - 1);
      var p := m.ring.entry[k - 1].buffptr;
      assert p != NULL ==> OwnedBy(m, p, Slot(k - 1));
      forall q | q in m.owner && m.owner[q] == Slot(k - 1) ensures q == p {
        assert Holds(m, None, m.owner[q], q);
      }
    }
    assert k < |m.ring.entry| && m.ring.entry[k].buffptr != NULL ==> OwnedBy(m, m.ring.entry[k].buffptr, Slot(k));
  }

  /** Cleanup frees each slot's block, and no block twice; what it leaves is the pending entry's block. */
  lemma CleanupLeavesPending(m: Mem, d: Device)
    requires MemInv(m, d, None)
    ensures var m' := FreeSlots(m, |m.ring.entry|);
            && m'.safe
            && (forall i :: 0 <= i < |m.ring.entry| ==> m.ring.entry[i].buffptr !in m'.heap)
            && m'.heap == if m.entry.buffptr == NULL then map[] else map[m.entry.buffptr := d.pending]
  {
    var n := |m.ring.entry|;
    var m' := FreeSlots(m, n);
    FreeSlotsKeeps(m, n);
    forall p | p in m.owner && !(m.owner[p].Slot? && m.owner[p].i < n) ensures p == m.entry.buffptr != NULL {
      assert Holds(m, None, m.owner[p], p);
    }
    assert m.entry.buffptr != NULL ==> OwnedBy(m, m.entry.buffptr, Pending);
    assert forall i :: 0 <= i < n && m.ring.entry[i].buffptr != NULL ==> OwnedBy(m, m.ring.entry[i].buffptr, Slot(i));
  }
}
