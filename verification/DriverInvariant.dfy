/** What every step of the driver keeps, for any number of calls in progress. */
module DriverInvariant {
  import opened Bytes
  import opened CircularBuffer
  import opened DeviceSpec
  import opened Histories
  import opened KernelHeap
  import opened DriverSteps
  import opened DriverMemory

  // ----- Locks

  predicate HoldsEntry(pc: Pc) {
    match pc
    case ReadStart | ReadLocked | ReadFound(_, _, _) | ReadOut(_) | WriteStart | Refused | Done(_) => false
    case _ => true
  }

  predicate HoldsBuf(pc: Pc) {
    pc.ReadLocked? || pc.ReadFound? || pc.ReadOut? ||
    pc.WriteCheck? || pc.WritePush? || pc.WriteDrop? || pc.WriteReset? || pc.WriteBufOut?
  }

  predicate Fits(c: Call) {
    if c.op.Read?
    then c.pc.ReadStart? || c.pc.ReadLocked? || c.pc.ReadFound? || c.pc.ReadOut? || c.pc.Refused? || c.pc.Done?
    else c.op.data != [] && !c.pc.ReadStart? && !c.pc.ReadLocked? && !c.pc.ReadFound? && !c.pc.ReadOut?
  }

  /** A lock is held by exactly the call whose program counter says so. */
  ghost predicate Locks(s: Sys) {
    && (forall id :: id in s.calls ==>
          && Fits(s.calls[id])
          && (HoldsEntry(s.calls[id].pc) <==> s.entryLock == Some(id))
          && (HoldsBuf(s.calls[id].pc) <==> s.bufLock == Some(id)))
    && (s.entryLock.Some? ==> s.entryLock.value in s.calls)
    && (s.bufLock.Some? ==> s.bufLock.value in s.calls)
  }

  /** The call that holds entry_lock. */
  function Holder(s: Sys): Option<Call> {
    if s.entryLock.Some? && s.entryLock.value in s.calls then Some(s.calls[s.entryLock.value]) else None
  }

  // ----- Readers

  /** What the lookup gave a reader is still in the ring. */
  predicate StillFound(r: Ring, c: Call) {
    c.pc.ReadFound? ==>
      && c.op.Read? && r.outOffs < |r.entry| && c.pc.slot < |r.entry| && c.pc.offset <= r.entry[c.pc.slot].size
      && Lookup(r, c.op.pos, 0) == Some(Hit(c.pc.slot, c.pc.offset))
      && c.pc.n == Min(r.entry[c.pc.slot].size - c.pc.offset, c.op.count)
  }

  predicate ReaderInv(s: Sys) {
    s.bufLock.Some? && s.bufLock.value in s.calls ==> StillFound(s.mem.ring, s.calls[s.bufLock.value])
  }

  // ----- History

  /** The events of one call. */
  function Of(h: History, id: nat): History {
    if h == [] then []
    else Of(h[..|h| - 1], id) + if h[|h| - 1].id == id then [h[|h| - 1]] else []
  }

  /** The result with which a call has taken effect, if it has. */
  function Taken(c: Call): Option<Result> {
    match c.pc
    case ReadOut(res) => Some(res)
    case WriteOut(res) => Some(res)
    case Done(res) => Some(res)
    case Refused => Some(Error(ERESTARTSYS))
    case WriteDrop(_) | WriteReset | WriteBufOut => if c.op.Write? then Some(Count(|c.op.data|)) else None
    case _ => None
  }

  /** What the history says of a call at its program counter. */
  function Expected(id: nat, c: Call): History {
    [Invoke(id, c.op)]
    + (if Taken(c).Some? then [Take(id, c.op, Taken(c).value)] else [])
    + (if c.pc.Done? then [Return(id, c.pc.result)] else [])
  }

  ghost predicate Logged(s: Sys) {
    forall id: nat :: Of(s.history, id) == if id in s.calls then Expected(id, s.calls[id]) else []
  }

  ghost predicate Specified(s: Sys) {
    && s.spec.capacity >= 1
    && Legal(Fresh(s.spec.capacity), s.history)
    && Replay(Fresh(s.spec.capacity), s.history) == s.spec
  }

  ghost predicate Inv(s: Sys) {
    && Locks(s) && ReaderInv(s) && Logged(s) && Specified(s)
    && MemInv(s.mem, s.spec, Holder(s))
  }

  // ----- One step, without the memory

  /** How the steps of a call use the locks and when it takes effect, whatever the memory. */
  lemma StepRules(m: Mem, c: Call, ch: Choice)
    requires Fits(c) && CanChoose(m, c.pc, ch)
    ensures var o := OutcomeOf(m, c, ch);
            o.mem.safe ==>
              && Fits(Call(c.op, o.pc))
              && (HoldsEntry(o.pc) <==> o.lock.LockEntry? || (HoldsEntry(c.pc) && !o.lock.UnlockEntry?))
              && (HoldsBuf(o.pc) <==> o.lock.LockBuf? || (HoldsBuf(c.pc) && !o.lock.UnlockBuf?))
              && (o.lock.UnlockEntry? ==> HoldsEntry(c.pc))
              && (o.lock.UnlockBuf? ==> HoldsBuf(c.pc))
              && Taken(Call(c.op, o.pc)) == (if o.taken.Some? then o.taken else Taken(c))
              && (o.taken.Some? ==> Taken(c).None? && !o.pc.Done?)
              && (o.pc.Done? ==> Taken(c) == Some(o.pc.result))
  {
  }

  lemma OfSnoc(h: History, e: Event, id: nat)
    ensures Of(h + [e], id) == Of(h, id) + if e.id == id then [e] else []
  {
    assert (h + [e])[..|h|] == h;
  }

  lemma LocksKept(s: Sys, id: nat, ch: Choice)
    requires Locks(s) && CanStep(s, id, ch) && OutcomeOf(s.mem, s.calls[id], ch).mem.safe
    ensures Locks(Step(s, id, ch)) && Step(s, id, ch).mem == OutcomeOf(s.mem, s.calls[id], ch).mem
  {
    StepRules(s.mem, s.calls[id], ch);
  }

  lemma LoggedSnoc(s: Sys, s': Sys, id: nat, e: Event)
    requires Logged(s) && e.id == id && s'.history == s.history + [e]
    requires id in s'.calls && s'.calls == s.calls[id := s'.calls[id]]
    requires Expected(id, s'.calls[id]) == (if id in s.calls then Expected(id, s.calls[id]) else []) + [e]
    ensures Logged(s')
  {
    forall i: nat ensures Of(s'.history, i) == if i in s'.calls then Expected(i, s'.calls[i]) else [] {
      OfSnoc(s.history, e, i);
    }
  }

  /** The events that a step adds to the history of its call: at most one. */
  lemma ExpectedGrows(m: Mem, c: Call, ch: Choice, id: nat)
    requires Fits(c) && CanChoose(m, c.pc, ch) && OutcomeOf(m, c, ch).mem.safe
    ensures var o := OutcomeOf(m, c, ch);
            && !(o.taken.Some? && o.pc.Done?)
            && Expected(id, Call(c.op, o.pc)) ==
               if o.taken.Some? then Expected(id, c) + [Take(id, c.op, o.taken.value)]
               else if o.pc.Done? then Expected(id, c) + [Return(id, o.pc.result)]
               else Expected(id, c)
  {
    StepRules(m, c, ch);
  }

  lemma HistoryKept(s: Sys, id: nat, ch: Choice)
    requires Logged(s) && Specified(s) && CanStep(s, id, ch) && Fits(s.calls[id])
    requires var o := OutcomeOf(s.mem, s.calls[id], ch);
             o.mem.safe && (o.taken.Some? ==> Allowed(s.spec, s.calls[id].op, o.taken.value))
    ensures Logged(Step(s, id, ch)) && Specified(Step(s, id, ch))
  {
    ExpectedGrows(s.mem, s.calls[id], ch, id);
    var o := OutcomeOf(s.mem, s.calls[id], ch);
    ApplyKeepsHistory(s, id, o);
  }

  lemma ApplyKeepsHistory(s: Sys, id: nat, o: Outcome)
    requires Logged(s) && Specified(s) && id in s.calls && !(o.taken.Some? && o.pc.Done?)
    requires o.taken.Some? ==> Allowed(s.spec, s.calls[id].op, o.taken.value)
    requires Expected(id, Call(s.calls[id].op, o.pc)) ==
             if o.taken.Some? then Expected(id, s.calls[id]) + [Take(id, s.calls[id].op, o.taken.value)]
             else if o.pc.Done? then Expected(id, s.calls[id]) + [Return(id, o.pc.result)]
             else Expected(id, s.calls[id])
    ensures Logged(Apply(s, id, o)) && Specified(Apply(s, id, o))
  {
    var s' := Apply(s, id, o);
    if o.taken.Some? || o.pc.Done? {
      var e := if o.taken.Some? then Take(id, s.calls[id].op, o.taken.value) else Return(id, o.pc.result);
      assert s'.history == s.history + [e];
      assert Specified(s') by { ReplaySnoc(Fresh(s.spec.capacity), s.history, e); }
      assert Logged(s') by { LoggedSnoc(s, s', id, e); }
    } else {
      assert s'.history == s.history;
    }
  }

  // ----- One step, with the memory

  /** What a step of a read leaves and returns. */
  ghost predicate ReadKept(m: Mem, d: Device, op: Op, o: Outcome) {
    && o.mem == m && StillFound(m.ring, Call(op, o.pc))
    && (o.taken.Some? ==> Allowed(d, op, o.taken.value) && Effect(d, op, o.taken.value) == d)
  }

  lemma LookupIsAllowed(m: Mem, d: Device, op: Op, ch: Choice)
    requires RingBytes(m, d) && op.Read?
    ensures ReadKept(m, d, op, ReadOutcome(m, op, ReadLocked, ch))
  {
    LookupReads(m.heap, m.ring, Window(d), op.pos, op.count);
    match Lookup(m.ring, op.pos, 0) {
      case None => assert ReadOutcome(m, op, ReadLocked, ch).taken == Some(Data([]));
      case Some(hit) => assert ReadOutcome(m, op, ReadLocked, ch).taken == None;
    }
  }

  lemma CopyIsAllowed(m: Mem, d: Device, c: Call, ch: Choice)
    requires RingBytes(m, d) && c.op.Read? && c.pc.ReadFound? && StillFound(m.ring, c)
    ensures ReadKept(m, d, c.op, ReadOutcome(m, c.op, c.pc, ch))
  {
    LookupReads(m.heap, m.ring, Window(d), c.op.pos, c.op.count);
    if ch.Go? {
      var slot, offset, n := c.pc.slot, c.pc.offset, c.pc.n;
      var bytes := m.heap[m.ring.entry[slot].buffptr][offset..offset + n];
      assert bytes == ReadAt(Window(d), c.op.pos, c.op.count);
      assert ReadOutcome(m, c.op, c.pc, ch).taken == Some(Data(bytes));
    }
  }

  /** A read leaves the memory alone, and what it returns is what the device allows. */
  lemma ReadIsAllowed(m: Mem, d: Device, w: Option<Call>, c: Call, ch: Choice)
    requires MemInv(m, d, w) && c.op.Read? && Fits(c) && CanChoose(m, c.pc, ch) && StillFound(m.ring, c)
    ensures ReadKept(m, d, c.op, ReadOutcome(m, c.op, c.pc, ch))
  {
    match c.pc {
      case ReadLocked => LookupIsAllowed(m, d, c.op, ch);
      case ReadFound(_, _, _) => CopyIsAllowed(m, d, c, ch);
      case _ =>
    }
  }

  /** The device after a step: changed if this is where the call takes effect. */
  function After(d: Device, c: Call, o: Outcome): Device {
    if o.taken.Some? then Effect(d, c.op, o.taken.value) else d
  }

  /** The writer after a step, until it has released entry_lock. */
  function Writer(c: Call, o: Outcome): Option<Call> {
    if o.lock.UnlockEntry? then None else Some(Call(c.op, o.pc))
  }

  /** What every step of the writer keeps. */
  ghost predicate Kept(d: Device, c: Call, o: Outcome) {
    && MemInv(o.mem, After(d, c, o), Writer(c, o))
    && (o.taken.Some? ==> Allowed(d, c.op, o.taken.value))
  }

  lemma AllocateIsKept(m: Mem, d: Device, c: Call, kz: Ptr)
    requires c.op.Write? && c.pc.WriteHeld? && MemInv(m, d, Some(c))
    requires kz != NULL && kz !in m.heap && m.entry.buffptr == NULL
    ensures Kept(d, c, WriteOutcome(m, c.op, c.pc, Go(kz)))
  {
    assert WriteOutcome(m, c.op, c.pc, Go(kz)) == Move(Kzalloc(m, kz, |c.op.data|), WriteFresh(kz));
    WriterAllocates(m, d, c.op.data, kz);
  }

  lemma ReallocateIsKept(m: Mem, d: Device, c: Call, kz: Ptr)
    requires c.op.Write? && c.pc.WriteHeld? && MemInv(m, d, Some(c))
    requires kz != NULL && kz !in m.heap && m.entry.buffptr != NULL
    ensures Kept(d, c, WriteOutcome(m, c.op, c.pc, Go(kz)))
  {
    var size := m.entry.size + |c.op.data|;
    assert WriteOutcome(m, c.op, c.pc, Go(kz)) == Move(Kzalloc(m, kz, size), WriteGrow(kz));
    WriterReallocates(m, d, c.op.data, kz, size);
  }

  /** Every step of a writer that holds entry_lock: allocating a block, ... */
  lemma HeldIsKept(m: Mem, d: Device, c: Call, ch: Choice)
    requires c.op.Write? && CanChoose(m, c.pc, ch) && MemInv(m, d, Some(c)) && c.pc.WriteHeld?
    ensures Kept(d, c, WriteOutcome(m, c.op, c.pc, ch))
  {
    var o := WriteOutcome(m, c.op, c.pc, ch);
    if ch.Fault? {
      assert o == Outcome(m, WriteOut(Error(ENOMEM)), Keep, Some(Error(ENOMEM)));
      WriterMoves(m, d, Some(c), Writer(c, o));
    } else if m.entry.buffptr == NULL {
      AllocateIsKept(m, d, c, ch.kz);
    } else {
      ReallocateIsKept(m, d, c, ch.kz);
    }
  }

  /** ... the first copy into it, ... */
  lemma FreshIsKept(m: Mem, d: Device, c: Call, ch: Choice)
    requires c.op.Write? && c.op.data != [] && MemInv(m, d, Some(c)) && c.pc.WriteFresh?
    ensures Kept(d, c, WriteOutcome(m, c.op, c.pc, ch))
  {
    if ch.Go? {
      WriterFreshCopies(m, d, c.op.data, c.pc.kbuf);
    } else {
      WriterFreshFails(m, d, c.op.data, c.pc.kbuf, Error(EFAULT));
    }
  }

  /** ... moving on to a larger one, ... */
  lemma FillIsKept(m: Mem, d: Device, c: Call, ch: Choice)
    requires c.op.Write? && Fits(c) && CanChoose(m, c.pc, ch) && MemInv(m, d, Some(c))
    requires c.pc.WriteGrow? || c.pc.WriteFreeOld? || c.pc.WriteCopyNew? || c.pc.WriteSize?
    ensures Kept(d, c, WriteOutcome(m, c.op, c.pc, ch))
  {
    var data := c.op.data;
    match c.pc {
      case WriteGrow(kbuf) => WriterGrows(m, d, data, kbuf);
      case WriteFreeOld(kbuf) => WriterFreesOld(m, d, data, kbuf);
      case WriteCopyNew(kbuf) => WriterCopiesNew(m, d, data, kbuf);
      case WriteSize => WriterSizes(m, d, data);
    }
  }

  /** ... taking the ring's lock, ... */
  lemma BufWaitIsKept(m: Mem, d: Device, c: Call, ch: Choice)
    requires c.op.Write? && c.pc.WriteBufWait? && MemInv(m, d, Some(c))
    ensures Kept(d, c, WriteOutcome(m, c.op, c.pc, ch))
  {
    var o, data := WriteOutcome(m, c.op, c.pc, ch), c.op.data;
    if ch.Go? {
      assert o == Outcome(m, WriteCheck, LockBuf, None);
      WriterLocksBuf(m, d, data);
    } else {
      assert o == Outcome(m, WriteOut(Error(EINTR)), Keep, Some(Error(EINTR)));
      WriterAppends(m, d, data, c.pc, WriteOut(Error(EINTR)));
    }
  }

  /** ... looking at the last byte, ... */
  lemma CheckIsKept(m: Mem, d: Device, c: Call, ch: Choice)
    requires c.op.Write? && c.pc.WriteCheck? && MemInv(m, d, Some(c))
    ensures Kept(d, c, WriteOutcome(m, c.op, c.pc, ch))
  {
    var o, data := WriteOutcome(m, c.op, c.pc, ch), c.op.data;
    WriterChecks(m, d, data);
    if EndsEntry(d.pending + data) {
      assert o == Move(m, WritePush);
      WriterMoves(m, d, Some(c), At(data, WritePush));
    } else {
      assert o == Outcome(m, WriteBufOut, Keep, Some(Count(|data|)));
      WriterAppends(m, d, data, c.pc, WriteBufOut);
    }
  }

  /** ... and committing it. */
  lemma CommitIsKept(m: Mem, d: Device, c: Call, ch: Choice)
    requires c.op.Write? && CanChoose(m, c.pc, ch) && d.capacity >= 1 && MemInv(m, d, Some(c))
    requires c.pc.WritePush? || c.pc.WriteDrop? || c.pc.WriteReset? || c.pc.WriteBufOut? || c.pc.WriteOut?
    ensures Kept(d, c, WriteOutcome(m, c.op, c.pc, ch))
  {
    var data := c.op.data;
    match c.pc {
      case WritePush => WriterPushes(m, d, data);
      case WriteDrop(dropped) => WriterDrops(m, d, data, dropped);
      case WriteReset => WriterResets(m, d, data);
      case WriteBufOut => WriterUnlocksBuf(m, d, data, Count(|data|));
      case WriteOut(res) => WriterUnlocksEntry(m, d, data, res);
    }
  }

  lemma WriteIsKept(m: Mem, d: Device, c: Call, ch: Choice)
    requires c.op.Write? && Fits(c) && HoldsEntry(c.pc) && CanChoose(m, c.pc, ch)
    requires d.capacity >= 1 && MemInv(m, d, Some(c))
    ensures Kept(d, c, WriteOutcome(m, c.op, c.pc, ch))
  {
    match c.pc {
      case WriteHeld => HeldIsKept(m, d, c, ch);
      case WriteFresh(_) => FreshIsKept(m, d, c, ch);
      case WriteGrow(_) | WriteFreeOld(_) | WriteCopyNew(_) | WriteSize => FillIsKept(m, d, c, ch);
      case WriteBufWait => BufWaitIsKept(m, d, c, ch);
      case WriteCheck => CheckIsKept(m, d, c, ch);
      case _ => CommitIsKept(m, d, c, ch);
    }
  }

  /** A call changes the ring only while it holds buf_lock. */
  lemma RingChangesUnderLock(m: Mem, c: Call, ch: Choice)
    ensures OutcomeOf(m, c, ch).mem.ring != m.ring ==> c.pc.WritePush?
  {
  }

  lemma ReadStepLeaves(s: Sys, id: nat, ch: Choice)
    requires Inv(s) && CanStep(s, id, ch) && s.calls[id].op.Read?
    ensures var c, o, s' := s.calls[id], OutcomeOf(s.mem, s.calls[id], ch), Step(s, id, ch);
            && o.mem == s.mem && (o.taken.Some? ==> Allowed(s.spec, c.op, o.taken.value))
            && Locks(s') && ReaderInv(s') && s'.mem == s.mem && s'.spec == s.spec && Holder(s') == Holder(s)
  {
    var c := s.calls[id];
    assert StillFound(s.mem.ring, c);
    ReadIsAllowed(s.mem, s.spec, Holder(s), c, ch);
    LocksKept(s, id, ch);
  }

  lemma ReadStepKeeps(s: Sys, id: nat, ch: Choice)
    requires Inv(s) && CanStep(s, id, ch) && s.calls[id].op.Read?
    ensures Inv(Step(s, id, ch))
  {
    ReadStepLeaves(s, id, ch);
    HistoryKept(s, id, ch);
  }

  /** A writer that does not hold entry_lock has not touched the memory. */
  lemma OutsideIsKept(m: Mem, d: Device, c: Call, ch: Choice)
    requires c.op.Write? && Fits(c) && !HoldsEntry(c.pc) && CanChoose(m, c.pc, ch) && MemInv(m, d, None)
    ensures var o := WriteOutcome(m, c.op, c.pc, ch);
            && o.mem == m && After(d, c, o) == d && (o.taken.Some? ==> Allowed(d, c.op, o.taken.value))
            && MemInv(m, d, Some(Call(c.op, o.pc)))
  {
    var o := WriteOutcome(m, c.op, c.pc, ch);
    var w := Some(Call(c.op, o.pc));
    assert Owners(m, w) by { OwnersFrame(m, None, m, w, NULL); }
  }

  lemma WriterMemKept(s: Sys, id: nat, ch: Choice)
    requires Locks(s) && s.spec.capacity >= 1 && MemInv(s.mem, s.spec, Holder(s))
    requires CanStep(s, id, ch) && s.calls[id].op.Write?
    ensures var c, o := s.calls[id], OutcomeOf(s.mem, s.calls[id], ch);
            && MemInv(o.mem, After(s.spec, c, o), Holder(Step(s, id, ch)))
            && (o.taken.Some? ==> Allowed(s.spec, c.op, o.taken.value))
  {
    var c, o, s' := s.calls[id], OutcomeOf(s.mem, s.calls[id], ch), Step(s, id, ch);
    if HoldsEntry(c.pc) {
      WriteIsKept(s.mem, s.spec, c, ch);
      assert Holder(s') == Writer(c, o);
    } else if o.lock.LockEntry? {
      OutsideIsKept(s.mem, s.spec, c, ch);
      assert Holder(s') == Some(Call(c.op, o.pc));
    } else {
      assert o.mem == s.mem && Holder(s') == Holder(s);
    }
  }

  lemma ReaderKept(s: Sys, id: nat, ch: Choice)
    requires Locks(s) && ReaderInv(s) && CanStep(s, id, ch) && s.calls[id].op.Write?
    requires OutcomeOf(s.mem, s.calls[id], ch).mem.safe
    ensures ReaderInv(Step(s, id, ch))
  {
    RingChangesUnderLock(s.mem, s.calls[id], ch);
    LocksKept(s, id, ch);
  }

  lemma WriteStepKeeps(s: Sys, id: nat, ch: Choice)
    requires Inv(s) && CanStep(s, id, ch) && s.calls[id].op.Write?
    ensures Inv(Step(s, id, ch))
  {
    var s' := Step(s, id, ch);
    WriterMemKept(s, id, ch);
    LocksKept(s, id, ch);
    ReaderKept(s, id, ch);
    HistoryKept(s, id, ch);
  }

  // ----- Every run

  lemma LocksBegin(s: Sys, id: nat, op: Op)
    requires Locks(s) && ReaderInv(s) && CanFollow(s, Begin(id, op))
    ensures Locks(Follow(s, Begin(id, op))) && ReaderInv(Follow(s, Begin(id, op)))
    ensures Holder(Follow(s, Begin(id, op))) == Holder(s)
  {
  }

  lemma HistoryBegin(s: Sys, id: nat, op: Op)
    requires Logged(s) && Specified(s) && CanFollow(s, Begin(id, op))
    ensures Logged(Follow(s, Begin(id, op))) && Specified(Follow(s, Begin(id, op)))
  {
    LoggedSnoc(s, Follow(s, Begin(id, op)), id, Invoke(id, op));
    ReplaySnoc(Fresh(s.spec.capacity), s.history, Invoke(id, op));
  }

  lemma BeginKeeps(s: Sys, id: nat, op: Op)
    requires Inv(s) && CanFollow(s, Begin(id, op))
    ensures Inv(Follow(s, Begin(id, op)))
  {
    LocksBegin(s, id, op);
    HistoryBegin(s, id, op);
  }

  lemma FollowKeeps(s: Sys, l: Label)
    requires Inv(s) && CanFollow(s, l)
    ensures Inv(Follow(s, l)) && Follow(s, l).spec.capacity == s.spec.capacity
  {
    match l {
      case Begin(id, op) => BeginKeeps(s, id, op);
      case Act(id, ch) =>
        if s.calls[id].op.Read? { ReadStepKeeps(s, id, ch); } else { WriteStepKeeps(s, id, ch); }
    }
  }

  lemma {:induction false} RunKeeps(n: nat, labels: seq<Label>)
    requires n >= 1 && Run(n, labels).Some?
    ensures Inv(Run(n, labels).value) && Run(n, labels).value.spec.capacity == n
  {
    if labels == [] {
      InitIsEmpty(n);
    } else {
      RunKeeps(n, labels[..|labels| - 1]);
      FollowKeeps(Run(n, labels[..|labels| - 1]).value, labels[|labels| - 1]);
    }
  }
}
