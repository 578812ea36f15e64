/**
  The character driver as one caller sees it (aesd-char-driver/main.c): the
  functions that update the device structure in place.

  `spec` is the device that the structure stands for.  Each statement of
  `aesd_write` is one step of `DriverSteps`, so the methods are proved with the
  lemmas about those steps.
 */
module CharDevice {
  import opened Bytes
  import opened CircularBuffer
  import opened DeviceSpec
  import opened KernelHeap
  import opened DriverSteps
  import opened DriverMemory

  /** What the kernel does during one write: `kz` is the address that kzalloc returns, NULL if it fails. */
  datatype WriteEnv = WriteEnv(lockInterrupted: bool, kz: Ptr, copyFails: bool, bufLockInterrupted: bool)

  /** What a write returns, in the order in which it can fail. */
  function WriteResult(env: WriteEnv, data: seq<byte>): Result {
    if env.lockInterrupted then Error(ERESTARTSYS)
    else if env.kz == NULL then Error(ENOMEM)
    else if env.copyFails then Error(EFAULT)
    else if env.bufLockInterrupted then Error(EINTR)
    else Count(|data|)
  }

  /** What each failure of a write leaves, and what none leaves. */
  lemma WriteMeans(d: Device, env: WriteEnv, data: seq<byte>)
    requires data != []
    ensures var res := WriteResult(env, data);
            var d' := Effect(d, Op.Write(data), res);
            var kept := res.Count? || res == Error(EINTR);
            && d'.capacity == d.capacity
            && Flatten(d'.committed) + d'.pending ==
               Flatten(d.committed) + d.pending + (if kept then data else [])
            && d'.committed == d.committed
                               + (if res.Count? && data[|data| - 1] == NEWLINE then [d.pending + data] else [])
  {
    var entry := d.pending + data;
    assert entry[|entry| - 1] == data[|data| - 1];
    Associates(Flatten(d.committed), d.pending, data);
    FlattenSnoc(d.committed, entry);
    assert d.committed + [] == d.committed;
    assert Flatten(d.committed) + d.pending + [] == Flatten(d.committed) + d.pending;
    assert Flatten(d.committed + [entry]) + [] == Flatten(d.committed) + entry;
  }

  /** What a read returns; at the end of the content there is nothing to copy. */
  function ReadResult(d: Device, fPos: nat, count: nat, lockInterrupted: bool, copyFails: bool): Result {
    if lockInterrupted then Error(ERESTARTSYS)
    else if copyFails && fPos < |Content(d)| then Error(EFAULT)
    else Data(ReadAt(Window(d), fPos, count))
  }

  lemma ReadResultAllowed(d: Device, fPos: nat, count: nat, lockInterrupted: bool, copyFails: bool)
    ensures Allowed(d, Op.Read(fPos, count), ReadResult(d, fPos, count, lockInterrupted, copyFails))
  {
  }

  /** What a successful read returns: the content at the position, up to the end of an entry. */
  lemma ReadMeans(d: Device, fPos: nat, count: nat)
    ensures var b := ReadAt(Window(d), fPos, count);
            && |b| <= count
            && (b == [] <==> count == 0 || fPos >= |Content(d)|)
            && (fPos < |Content(d)| ==> fPos + |b| <= |Content(d)| && b == Content(d)[fPos..fPos + |b|])
  {
    ReadAtIsSlice(Window(d), fPos, count);
  }

  class AesdDev {
    const buf: RingBuffer
    var entry: Entry
    var bufLock: bool
    var entryLock: bool
    var heap: Heap
    ghost var owner: map<Ptr, Place>
    ghost var spec: Device

    ghost function Value(): Mem
      reads this, buf, buf.entry
    {
      Mem(heap, buf.Value(), entry, true, owner)
    }

    ghost predicate Valid()
      reads this, buf, buf.entry
    {
      !bufLock && !entryLock && spec.capacity >= 1 && MemInv(Value(), spec, None)
    }

    /** `aesd_init_module`: an empty ring, no pending entry, both locks free. */
    constructor (capacity: nat := AESDCHAR_MAX_WRITE_OPERATIONS_SUPPORTED)
      requires capacity >= 1
      ensures Valid() && spec == Fresh(capacity) && heap == map[] && fresh(buf) && fresh(buf.entry)
    {
      buf := new RingBuffer(capacity);
      entry, bufLock, entryLock := EMPTY, false, false;
      heap, owner, spec := map[], map[], Fresh(capacity);
    }

    // ----- Calls into the kernel

    method Kzalloc(p: Ptr, size: nat)
      requires p != NULL && p !in heap
      modifies this`heap, this`owner
      ensures Value() == DriverSteps.Kzalloc(old(Value()), p, size)
    {
      heap, owner := heap[p := Zeros(size)], owner[p := Local];
    }

    method Kfree(p: Ptr)
      requires p in heap
      modifies this`heap, this`owner
      ensures Value() == DriverSteps.Kfree(old(Value()), p)
    {
      heap, owner := heap - {p}, owner - {p};
    }

    /** `memcpy` and `copy_from_user` to a block. */
    method Copy(p: Ptr, at: nat, data: seq<byte>)
      requires p in heap && at + |data| <= |heap[p]|
      modifies this`heap
      ensures Value() == CopyTo(old(Value()), p, at, data)
    {
      heap := heap[p := Blit(heap[p], at, data)];
    }

    method SetPending(p: Ptr)
      modifies this`entry, this`owner
      ensures Value() == Adopt(old(Value()), p)
    {
      entry, owner := entry.(buffptr := p), owner[p := Pending];
    }

    // ----- aesd_write

    /** The first block of an entry, if the user's bytes cannot be copied: it is freed again. */
    method FreeFirst(ghost data: seq<byte>, kbuf: Ptr)
      requires MemInv(Value(), spec, At(data, WriteFresh(kbuf)))
      modifies this`heap, this`owner
      ensures MemInv(Value(), spec, At(data, WriteOut(Error(EFAULT)))) && spec.pending == []
    {
      ghost var m, m' := Value(), DriverSteps.Kfree(Value(), kbuf);
      assert kbuf in heap && spec.pending == [] && MemInv(m', spec, At(data, WriteOut(Error(EFAULT)))) by {
        WriterFreshFails(m, spec, data, kbuf, Error(EFAULT));
      }
      Kfree(kbuf);
      assert Value() == m';
    }

    /** The first block of an entry takes the user's bytes, and becomes the pending entry's. */
    method FillFirst(data: seq<byte>, kbuf: Ptr)
      requires data != [] && MemInv(Value(), spec, At(data, WriteFresh(kbuf)))
      modifies this`heap, this`owner, this`entry
      ensures MemInv(Value(), spec, At(data, WriteSize))
    {
      ghost var m, m' := Value(), Adopt(CopyTo(Value(), kbuf, 0, data), kbuf);
      assert kbuf in heap && |data| <= |heap[kbuf]| && MemInv(m', spec, At(data, WriteSize)) by {
        WriterFreshCopies(m, spec, data, kbuf);
      }
      Copy(kbuf, 0, data);
      SetPending(kbuf);
      assert Value() == m';
    }

    /** Copies the previous data to the larger block and frees the smaller one. */
    method MovePrevious(ghost data: seq<byte>, kbuf: Ptr)
      requires data != [] && MemInv(Value(), spec, At(data, WriteGrow(kbuf)))
      modifies this`heap, this`owner
      ensures MemInv(Value(), spec, At(data, WriteCopyNew(kbuf)))
    {
      WriterGrows(Value(), spec, data, kbuf);
      Copy(kbuf, 0, heap[entry.buffptr][..entry.size]);
      WriterFreesOld(Value(), spec, data, kbuf);
      Kfree(entry.buffptr);
    }

    /** Copies the new data behind the previous data. */
    method CopyFurther(data: seq<byte>, kbuf: Ptr)
      requires data != [] && MemInv(Value(), spec, At(data, WriteCopyNew(kbuf)))
      modifies this`heap, this`owner, this`entry
      ensures MemInv(Value(), spec, At(data, WriteSize))
    {
      WriterCopiesNew(Value(), spec, data, kbuf);
      Copy(kbuf, entry.size, data);
      SetPending(kbuf);
    }

    method AddSize(data: seq<byte>)
      requires MemInv(Value(), spec, At(data, WriteSize))
      modifies this`entry
      ensures MemInv(Value(), spec, At(data, WriteBufWait))
    {
      WriterSizes(Value(), spec, data);
      entry := entry.(size := entry.size + |data|);
    }

    /** Allocates the block of a new entry. */
    method AllocateFirst(data: seq<byte>, kz: Ptr)
      requires kz != NULL && kz !in heap && entry.buffptr == NULL && MemInv(Value(), spec, At(data, WriteHeld))
      modifies this`heap, this`owner
      ensures MemInv(Value(), spec, At(data, WriteFresh(kz)))
    {
      ghost var m, m' := Value(), DriverSteps.Kzalloc(Value(), kz, |data|);
      assert MemInv(m', spec, At(data, WriteFresh(kz))) by { WriterAllocates(m, spec, data, kz); }
      Kzalloc(kz, |data|);
      assert Value() == m';
    }

    /** Allocates a larger block for an entry that has one. */
    method AllocateLarger(data: seq<byte>, kz: Ptr)
      requires kz != NULL && kz !in heap && entry.buffptr != NULL && MemInv(Value(), spec, At(data, WriteHeld))
      modifies this`heap, this`owner
      ensures MemInv(Value(), spec, At(data, WriteGrow(kz)))
    {
      var size := entry.size + |data|;
      ghost var m, m' := Value(), DriverSteps.Kzalloc(Value(), kz, size);
      assert MemInv(m', spec, At(data, WriteGrow(kz))) by { WriterReallocates(m, spec, data, kz, size); }
      Kzalloc(kz, size);
      assert Value() == m';
    }

    /** Allocates a block and fills it with the previous and the new data. */
    method FillBlock(data: seq<byte>, kz: Ptr, copyFails: bool)
      requires data != [] && kz != NULL && kz !in heap
      requires copyFails ==> entry.buffptr == NULL
      requires MemInv(Value(), spec, At(data, WriteHeld))
      modifies this`heap, this`owner, this`entry
      ensures MemInv(Value(), spec, At(data, if copyFails then WriteOut(Error(EFAULT)) else WriteSize))
      ensures copyFails ==> spec.pending == []
    {
      if entry.buffptr == NULL {
        AllocateFirst(data, kz);
        if copyFails {
          FreeFirst(data, kz);
        } else {
          FillFirst(data, kz);
        }
      } else {
        AllocateLarger(data, kz);
        MovePrevious(data, kz);
        CopyFurther(data, kz);
      }
    }

    /** Puts the bytes into the pending entry, if memory can be allocated and the user's bytes copied. */
    method FillPending(data: seq<byte>, env: WriteEnv) returns (ok: bool)
      requires data != [] && !env.lockInterrupted
      requires env.kz != NULL ==> env.kz !in heap
      requires env.copyFails ==> entry.buffptr == NULL
      requires MemInv(Value(), spec, At(data, WriteHeld))
      modifies this`heap, this`owner, this`entry
      ensures ok <==> env.kz != NULL && !env.copyFails
      ensures MemInv(Value(), spec, At(data, if ok then WriteBufWait else WriteOut(WriteResult(env, data))))
      ensures !ok && env.kz != NULL ==> spec.pending == []
    {
      if env.kz == NULL {
        WriterMoves(Value(), spec, At(data, WriteHeld), At(data, WriteOut(Error(ENOMEM))));
        return false;
      }
      FillBlock(data, env.kz, env.copyFails);
      if env.copyFails {
        return false;
      }
      AddSize(data);
      return true;
    }

    /** Adds the pending entry to the ring; the block dropped, if any, is the caller's to free. */
    method AddToRing(ghost data: seq<byte>) returns (oldData: Ptr)
      requires spec.capacity >= 1 && MemInv(Value(), spec, At(data, WritePush))
      modifies this`owner, this`spec, buf, buf.entry
      ensures spec == Settle(Append(old(spec), data))
      ensures MemInv(Value(), spec, At(data, if oldData != NULL then WriteDrop(oldData) else WriteReset))
    {
      ghost var m := Value();
      assert MemInv(Commit(m), Settle(Append(spec, data)), At(data, Committed(m))) by { WriterPushes(m, spec, data); }
      owner := Commit(m).owner;
      spec := Settle(Append(spec, data));
      oldData := buf.AddEntry(entry);
      assert Value() == Commit(m);
    }

    /** Adds the pending entry to the ring, frees the block dropped, and resets the pending entry. */
    method PushPending(ghost data: seq<byte>)
      requires bufLock && spec.capacity >= 1 && MemInv(Value(), spec, At(data, WritePush))
      modifies this`heap, this`owner, this`entry, this`spec, buf, buf.entry
      ensures spec == Settle(Append(old(spec), data))
      ensures MemInv(Value(), spec, At(data, WriteBufOut))
    {
      var oldData := AddToRing(data);
      if oldData != NULL {
        WriterDrops(Value(), spec, data, oldData);
        Kfree(oldData);
      }
      WriterResets(Value(), spec, data);
      entry := EMPTY;
    }

    /** Commits the pending entry if its last byte is a newline. */
    method CommitPending(data: seq<byte>)
      requires data != [] && bufLock && spec.capacity >= 1
      requires MemInv(Value(), spec, At(data, WriteCheck))
      modifies this`heap, this`owner, this`entry, this`spec, buf, buf.entry
      ensures spec == Settle(Append(old(spec), data))
      ensures MemInv(Value(), spec, At(data, WriteBufOut))
    {
      WriterChecks(Value(), spec, data);
      if heap[entry.buffptr][entry.size - 1] == NEWLINE {
        WriterMoves(Value(), spec, At(data, WriteCheck), At(data, WritePush));
        PushPending(data);
      } else {
        WriterAppends(Value(), spec, data, WriteCheck, WriteBufOut);
        spec := Append(spec, data);
      }
    }

    /** With the bytes in the pending entry: takes the ring's lock, unless interrupted, and commits. */
    method EndWrite(data: seq<byte>, interrupted: bool, result: Result)
      requires data != [] && !bufLock && spec.capacity >= 1
      requires result == if interrupted then Error(EINTR) else Count(|data|)
      requires MemInv(Value(), spec, At(data, WriteBufWait))
      modifies this`heap, this`owner, this`entry, this`spec, this`bufLock, buf, buf.entry
      ensures !bufLock && spec == Effect(old(spec), Op.Write(data), result)
      ensures MemInv(Value(), spec, At(data, WriteOut(result)))
    {
      if interrupted {
        WriterAppends(Value(), spec, data, WriteBufWait, WriteOut(result));
        spec := Append(spec, data);
      } else {
        bufLock := true;
        WriterLocksBuf(Value(), spec, data);
        CommitPending(data);
        bufLock := false;
        WriterUnlocksBuf(Value(), spec, data, result);
      }
    }

    /** The write between taking and releasing entry_lock. */
    method WriteLocked(data: seq<byte>, env: WriteEnv) returns (result: Result)
      requires data != [] && !env.lockInterrupted && !bufLock && spec.capacity >= 1
      requires env.kz != NULL ==> env.kz !in heap
      requires env.copyFails ==> entry.buffptr == NULL
      requires MemInv(Value(), spec, At(data, WriteHeld))
      modifies this`heap, this`owner, this`entry, this`spec, this`bufLock, buf, buf.entry
      ensures !bufLock && MemInv(Value(), spec, At(data, WriteOut(result)))
      ensures result == WriteResult(env, data)
      ensures Allowed(old(spec), Op.Write(data), result) && spec == Effect(old(spec), Op.Write(data), result)
    {
      result := WriteResult(env, data);
      var ok := FillPending(data, env);
      if ok {
        EndWrite(data, env.bufLockInterrupted, result);
      }
    }

    /**
      `aesd_write`: whatever fails, the device is left as one of the outcomes that
      the sequential device allows, with both locks released.
     */
    method Write(data: seq<byte>, env: WriteEnv) returns (result: Result)
      requires Valid() && data != []
      requires env.kz != NULL ==> env.kz !in heap
      requires env.copyFails ==> entry.buffptr == NULL
      modifies this, buf, buf.entry
      ensures Valid()
      ensures result.Count? <==> !env.lockInterrupted && env.kz != NULL && !env.copyFails && !env.bufLockInterrupted
      ensures result.Count? ==> result == Count(|data|)
      ensures result == Error(ERESTARTSYS) <==> env.lockInterrupted
      ensures result == Error(ENOMEM) <==> !env.lockInterrupted && env.kz == NULL
      ensures result == Error(EFAULT) <==> !env.lockInterrupted && env.kz != NULL && env.copyFails
      ensures result == Error(EINTR) <==>
                !env.lockInterrupted && env.kz != NULL && !env.copyFails && env.bufLockInterrupted
      ensures spec.capacity == old(spec.capacity)
      ensures Flatten(spec.committed) + spec.pending ==
              old(Flatten(spec.committed) + spec.pending)
              + (if result.Count? || result == Error(EINTR) then data else [])
      ensures spec.committed == old(spec.committed)
                + (if result.Count? && data[|data| - 1] == NEWLINE then [old(spec.pending) + data] else [])
      ensures Allowed(old(spec), Op.Write(data), result) && spec == Effect(old(spec), Op.Write(data), result)
    {
      WriteMeans(spec, env, data);
      if env.lockInterrupted {
        return Error(ERESTARTSYS);
      }
      entryLock := true;
      WriterLocksEntry(Value(), spec, data);
      result := WriteLocked(data, env);
      entryLock := false;
      WriterUnlocksEntry(Value(), spec, data, result);
    }

    /** The lookup and the copy to the user, under the ring's lock. */
    method ReadLocked(fPos: nat, count: nat, copyFails: bool) returns (result: Result)
      requires buf.Valid() && Blocks(heap, Logical(buf.Value()), Window(spec))
      requires |Content(spec)| < SIZE_T_LIMIT
      ensures fPos >= |Content(spec)| ==> result == Data([])
      ensures fPos < |Content(spec)| ==>
                result == if copyFails then Error(EFAULT) else Data(ReadAt(Window(spec), fPos, count))
    {
      LookupReads(heap, buf.Value(), Window(spec), fPos, count);
      TotalIsFlattenedLength(heap, Logical(buf.Value()), Window(spec));
      var hit := buf.FindEntryOffsetForFpos(fPos);
      if hit.None? {
        return Data([]);
      }
      var found, offset := buf.entry[hit.value.slot], hit.value.offset;
      var readCount := found.size - offset;
      if readCount > count {
        readCount := count;
      }
      if copyFails {
        return Error(EFAULT);
      }
      return Data(heap[found.buffptr][offset..offset + readCount]);
    }

    /**
      `aesd_read`: the bytes at the file position, up to the end of their entry.
      Only a successful read moves the position.
     */
    method Read(fPos: nat, count: nat, lockInterrupted: bool, copyFails: bool) returns (result: Result, fPos': nat)
      requires Valid()
      requires |Content(spec)| < SIZE_T_LIMIT
      modifies this`bufLock
      ensures Valid()
      ensures result == Error(ERESTARTSYS) <==> lockInterrupted
      ensures result == Error(EFAULT) <==> !lockInterrupted && copyFails && fPos < |Content(spec)|
      ensures result.Data? <==> !lockInterrupted && !(copyFails && fPos < |Content(spec)|)
      ensures result.Data? && fPos >= |Content(spec)| ==> result.bytes == []
      ensures result.Data? && fPos < |Content(spec)| ==>
                && result.bytes == ReadAt(Window(spec), fPos, count) && |result.bytes| <= count
                && fPos + |result.bytes| <= |Content(spec)|
                && result.bytes == Content(spec)[fPos..fPos + |result.bytes|]
                && (count > 0 ==> result.bytes != [])
      ensures Allowed(spec, Op.Read(fPos, count), result)
      ensures fPos' == if result.Data? then fPos + |result.bytes| else fPos
    {
      ReadResultAllowed(spec, fPos, count, lockInterrupted, copyFails);
      ReadMeans(spec, fPos, count);
      if lockInterrupted {
        return Error(ERESTARTSYS), fPos;
      }
      bufLock := true;
      result := ReadLocked(fPos, count, copyFails);
      fPos' := if result.Data? then fPos + |result.bytes| else fPos;
      bufLock := false;
    }

    /**
      `aesd_cleanup_module`: frees the block of every slot, each of which is live
      when it is freed.  What is left is the pending entry's block, if there is one.
     */
    method Cleanup()
      requires Valid()
      modifies this`heap, this`owner
      ensures Value() == FreeSlots(old(Value()), buf.entry.Length)
      ensures heap == if entry.buffptr == NULL then map[] else map[entry.buffptr := spec.pending]
    {
      ghost var m := Value();
      CleanupLeavesPending(m, spec);
      for i := 0 to buf.entry.Length
        invariant Value() == FreeSlots(m, i)
      {
        FreeSlotsKeeps(m, i);
        var p := buf.entry[i].buffptr;
        if p != NULL {
          Kfree(p);
        }
      }
    }
  }
}
