/**
  `aesd_read` and `aesd_write` (aesd-char-driver/main.c) as a step system.

  Any number of calls are in progress at once.  Each has a program counter, and
  one step is one operation on a lock, on a block, on the pending entry or on
  the ring.  Steps of different calls interleave freely.  `Fault` is the failing
  outcome of an operation that can fail.

  `owner`, `spec` and `history` are auxiliary: no step looks at them.  `safe`
  becomes false as soon as a step uses or frees a block that is not live, or
  unlocks a mutex that its call does not hold.
 */
module DriverSteps {
  import opened Bytes
  import opened CircularBuffer
  import opened DeviceSpec
  import opened Histories
  import opened KernelHeap

  datatype Pc =
    // aesd_read
    | ReadStart                                        // about to lock buf_lock
    | ReadLocked                                       // about to look the position up
    | ReadFound(slot: nat, offset: nat, n: nat)        // about to copy to the user
    | ReadOut(result: Result)                          // about to unlock buf_lock
    // aesd_write
    | WriteStart                                       // about to lock entry_lock
    | WriteHeld                                        // about to allocate
    | WriteFresh(kbuf: Ptr)                            // first write: about to copy from the user
    | WriteGrow(kbuf: Ptr)                             // append: about to copy the previous data
    | WriteFreeOld(kbuf: Ptr)                          // append: about to free the previous block
    | WriteCopyNew(kbuf: Ptr)                          // append: about to copy from the user
    | WriteSize                                        // about to add to the pending size
    | WriteBufWait                                     // about to lock buf_lock
    | WriteCheck                                       // about to look at the last byte
    | WritePush                                        // about to add the entry to the ring
    | WriteDrop(dropped: Ptr)                          // about to free the block dropped
    | WriteReset                                       // about to reset the pending entry
    | WriteBufOut                                      // about to unlock buf_lock
    | WriteOut(result: Result)                         // about to unlock entry_lock
    // both
    | Refused                                          // first lock interrupted: about to return
    | Done(result: Result)

  datatype Call = Call(op: Op, pc: Pc)

  /** Who has to free a block; `Local` is the local pointer of the call that holds entry_lock. */
  datatype Place = Slot(i: nat) | Pending | Local

  /** What the locks protect: entry_lock the pending entry, buf_lock the ring. */
  datatype Mem = Mem(heap: Heap, ring: Ring, entry: Entry, safe: bool, owner: map<Ptr, Place>)

  datatype Sys = Sys(
    mem: Mem, entryLock: Option<nat>, bufLock: Option<nat>, calls: map<nat, Call>, spec: Device, history: History)

  /** `Go` carries the address that an allocation returns; other steps ignore it. */
  datatype Choice = Go(kz: Ptr) | Fault

  datatype LockOp = Keep | LockEntry | UnlockEntry | LockBuf | UnlockBuf

  /** One step of one call: the data and the program counter it leaves, its operation
      on a lock, and, if this is where the call takes effect, the result it will return. */
  datatype Outcome = Outcome(mem: Mem, pc: Pc, lock: LockOp, taken: Option<Result>)

  function Crash(m: Mem): Mem {
    m.(safe := false)
  }

  function Kzalloc(m: Mem, p: Ptr, size: nat): Mem {
    m.(heap := m.heap[p := Zeros(size)], owner := m.owner[p := Local])
  }

  function Kfree(m: Mem, p: Ptr): Mem {
    if p in m.heap then m.(heap := m.heap - {p}, owner := m.owner - {p}) else Crash(m)
  }

  /** Copies `data` into the block at `p`. */
  function CopyTo(m: Mem, p: Ptr, at: nat, data: seq<byte>): Mem {
    if p in m.heap && at + |data| <= |m.heap[p]|
    then m.(heap := m.heap[p := Blit(m.heap[p], at, data)])
    else Crash(m)
  }

  /** The pending entry takes the block at `p` over from the call. */
  function Adopt(m: Mem, p: Ptr): Mem {
    m.(entry := m.entry.(buffptr := p), owner := m.owner[p := Pending])
  }

  function Move(m: Mem, pc: Pc): Outcome {
    Outcome(m, pc, Keep, None)
  }

  function ReadOutcome(m: Mem, op: Op, pc: Pc, ch: Choice): Outcome
    requires op.Read?
  {
    match pc
    case ReadStart =>
      if ch.Fault? then Outcome(m, Refused, Keep, Some(Error(ERESTARTSYS)))
      else Outcome(m, ReadLocked, LockBuf, None)
    case ReadLocked =>
      if m.ring.outOffs >= |m.ring.entry| then Move(Crash(m), pc) else
      (match Lookup(m.ring, op.pos, 0)
       case None => Outcome(m, ReadOut(Data([])), Keep, Some(Data([])))
       case Some(hit) =>
         if hit.slot >= |m.ring.entry| || m.ring.entry[hit.slot].size < hit.offset then Move(Crash(m), pc) else
         Move(m, ReadFound(hit.slot, hit.offset, Min(m.ring.entry[hit.slot].size - hit.offset, op.count))))
    case ReadFound(slot, offset, n) =>
      if ch.Fault? then Outcome(m, ReadOut(Error(EFAULT)), Keep, Some(Error(EFAULT)))
      else if slot >= |m.ring.entry| then Move(Crash(m), pc)
      else
        var p := m.ring.entry[slot].buffptr;
        if p !in m.heap || offset + n > |m.heap[p]| then Move(Crash(m), pc) else
        var copied := Data(m.heap[p][offset..offset + n]);
        Outcome(m, ReadOut(copied), Keep, Some(copied))
    case ReadOut(res) => Outcome(m, Done(res), UnlockBuf, None)
    case Refused => Outcome(m, Done(Error(ERESTARTSYS)), Keep, None)
    case _ => Move(m, pc)
  }

  function WriteOutcome(m: Mem, op: Op, pc: Pc, ch: Choice): Outcome
    requires op.Write?
  {
    var data, done := op.data, Count(|op.data|);
    match pc
    case WriteStart =>
      if ch.Fault? then Outcome(m, Refused, Keep, Some(Error(ERESTARTSYS)))
      else Outcome(m, WriteHeld, LockEntry, None)
    case WriteHeld =>
      if ch.Fault? then Outcome(m, WriteOut(Error(ENOMEM)), Keep, Some(Error(ENOMEM)))
      else if m.entry.buffptr == NULL then Move(Kzalloc(m, ch.kz, |data|), WriteFresh(ch.kz))
      else Move(Kzalloc(m, ch.kz, m.entry.size + |data|), WriteGrow(ch.kz))
    case WriteFresh(kbuf) =>
      if ch.Fault? then Outcome(Kfree(m, kbuf), WriteOut(Error(EFAULT)), Keep, Some(Error(EFAULT)))
      else Move(Adopt(CopyTo(m, kbuf, 0, data), kbuf), WriteSize)
    case WriteGrow(kbuf) =>
      var p := m.entry.buffptr;
      if p !in m.heap || m.entry.size > |m.heap[p]| then Move(Crash(m), pc)
      else Move(CopyTo(m, kbuf, 0, m.heap[p][..m.entry.size]), WriteFreeOld(kbuf))
    case WriteFreeOld(kbuf) => Move(Kfree(m, m.entry.buffptr), WriteCopyNew(kbuf))
    case WriteCopyNew(kbuf) => Move(Adopt(CopyTo(m, kbuf, m.entry.size, data), kbuf), WriteSize)
    case WriteSize => Move(m.(entry := m.entry.(size := m.entry.size + |data|)), WriteBufWait)
    case WriteBufWait =>
      if ch.Fault? then Outcome(m, WriteOut(Error(EINTR)), Keep, Some(Error(EINTR)))
      else Outcome(m, WriteCheck, LockBuf, None)
    case WriteCheck =>
      var p, size := m.entry.buffptr, m.entry.size;
      if p !in m.heap || size == 0 || size > |m.heap[p]| then Move(Crash(m), pc)
      else if m.heap[p][size - 1] == NEWLINE then Move(m, WritePush)
      else Outcome(m, WriteBufOut, Keep, Some(done))
    case WritePush =>
      if m.ring.inOffs >= |m.ring.entry| || m.ring.outOffs >= |m.ring.entry| then Move(Crash(m), pc) else
      var (ring, dropped) := Add(m.ring, m.entry);
      var owner := if dropped != NULL then m.owner[dropped := Local] else m.owner;
      Outcome(m.(ring := ring, owner := owner[m.entry.buffptr := Slot(m.ring.inOffs)]),
              if dropped != NULL then WriteDrop(dropped) else WriteReset, Keep, Some(done))
    case WriteDrop(dropped) => Move(Kfree(m, dropped), WriteReset)
    case WriteReset => Move(m.(entry := EMPTY), WriteBufOut)
    case WriteBufOut => Outcome(m, WriteOut(done), UnlockBuf, None)
    case WriteOut(res) => Outcome(m, Done(res), UnlockEntry, None)
    case Refused => Outcome(m, Done(Error(ERESTARTSYS)), Keep, None)
    case _ => Move(m, pc)
  }

  function OutcomeOf(m: Mem, c: Call, ch: Choice): Outcome {
    if c.op.Read? then ReadOutcome(m, c.op, c.pc, ch) else WriteOutcome(m, c.op, c.pc, ch)
  }

  /** Which outcomes an operation can have: where it may fail, and that an allocation returns unused memory. */
  predicate CanChoose(m: Mem, pc: Pc, ch: Choice) {
    && !pc.Done?
    && (pc.WriteHeld? && ch.Go? ==> ch.kz != NULL && ch.kz !in m.heap)
    && (ch.Fault? ==>
          pc.ReadStart? || pc.ReadFound? || pc.WriteStart? || pc.WriteHeld? || pc.WriteFresh? || pc.WriteBufWait?)
  }

  /** A call whose next operation is to take a lock waits until the lock is free. */
  predicate CanStep(s: Sys, id: nat, ch: Choice) {
    && id in s.calls && CanChoose(s.mem, s.calls[id].pc, ch)
    && (OutcomeOf(s.mem, s.calls[id], ch).lock.LockEntry? ==> s.entryLock.None?)
    && (OutcomeOf(s.mem, s.calls[id], ch).lock.LockBuf? ==> s.bufLock.None?)
  }

  function Apply(s: Sys, id: nat, o: Outcome): Sys
    requires id in s.calls
  {
    var op := s.calls[id].op;
    var misuse := (o.lock.UnlockEntry? && s.entryLock != Some(id)) || (o.lock.UnlockBuf? && s.bufLock != Some(id));
    Sys(if misuse then Crash(o.mem) else o.mem,
        match o.lock case LockEntry => Some(id) case UnlockEntry => None case _ => s.entryLock,
        match o.lock case LockBuf => Some(id) case UnlockBuf => None case _ => s.bufLock,
        s.calls[id := Call(op, o.pc)],
        if o.taken.Some? then Effect(s.spec, op, o.taken.value) else s.spec,
        s.history + (if o.taken.Some? then [Take(id, op, o.taken.value)] else [])
                  + (if o.pc.Done? then [Return(id, o.pc.result)] else []))
  }

  function Step(s: Sys, id: nat, ch: Choice): Sys
    requires CanStep(s, id, ch)
  {
    Apply(s, id, OutcomeOf(s.mem, s.calls[id], ch))
  }

  datatype Label = Begin(id: nat, op: Op) | Act(id: nat, choice: Choice)

  /** A new call can begin at any time; a write has at least one byte. */
  predicate CanFollow(s: Sys, l: Label) {
    match l
    case Begin(id, op) => id !in s.calls && (op.Write? ==> op.data != [])
    case Act(id, ch) => CanStep(s, id, ch)
  }

  function Follow(s: Sys, l: Label): Sys
    requires CanFollow(s, l)
  {
    match l
    case Begin(id, op) =>
      s.(calls := s.calls[id := Call(op, if op.Read? then ReadStart else WriteStart)],
         history := s.history + [Invoke(id, op)])
    case Act(id, ch) => Step(s, id, ch)
  }

  /** The device after module initialisation. */
  function Init(n: nat): Sys {
    Sys(Mem(map[], InitRing(n), EMPTY, true, map[]), None, None, map[], Fresh(n), [])
  }

  /** The state after a run, if each of its steps was possible. */
  function Run(n: nat, labels: seq<Label>): Option<Sys> {
    if labels == [] then Some(Init(n))
    else
      match Run(n, labels[..|labels| - 1])
      case None => None
      case Some(s) =>
        if CanFollow(s, labels[|labels| - 1]) then Some(Follow(s, labels[|labels| - 1])) else None
  }
}
