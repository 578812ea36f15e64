/**
  What holds of every run of the driver, whatever the number of readers and
  writers, however their steps interleave, and whichever operations fail.
 */
module DriverTheorems {
  import opened Bytes
  import opened CircularBuffer
  import opened DeviceSpec
  import opened Histories
  import opened KernelHeap
  import opened DriverSteps
  import opened DriverMemory
  import opened DriverInvariant

  // ----- Linearizability

  /**
    Every run is a sequential history: the calls, in the order in which they took
    effect, each returned what the sequential device allows; the ring's blocks hold
    that device's window in every state, and its pending bytes whenever no write is
    in progress.  No step has used or freed a dead block.
   */
  lemma Linearizable(n: nat, labels: seq<Label>)
    requires n >= 1 && Run(n, labels).Some?
    ensures var s := Run(n, labels).value;
            var d := Replay(Fresh(n), s.history);
            && s.mem.safe
            && Legal(Fresh(n), s.history)
            && RingInv(s.mem.ring) && Blocks(s.mem.heap, Logical(s.mem.ring), Window(d))
            && (s.entryLock.None? ==> PendingHas(s.mem.heap, s.mem.entry, d.pending))
    ensures var s := Run(n, labels).value;
            forall id: nat :: Of(s.history, id) == if id in s.calls then Expected(id, s.calls[id]) else []
  {
    RunKeeps(n, labels);
  }

  /** The position of an event among the events of its call. */
  lemma {:induction false} RankInCall(h: History, id: nat, i: nat)
    requires i < |h| && h[i].id == id
    ensures |Of(h[..i], id)| < |Of(h, id)| && Of(h, id)[|Of(h[..i], id)|] == h[i]
    ensures forall j :: i < j <= |h| ==> |Of(h[..i], id)| < |Of(h[..j], id)|
  {
    var front := h[..|h| - 1];
    if i < |front| {
      RankInCall(front, id, i);
      assert front[..i] == h[..i];
      forall j | i < j <= |h| ensures |Of(h[..i], id)| < |Of(h[..j], id)| {
        if j < |h| {
          assert front[..j] == h[..j];
        } else {
          assert h[..j] == h;
        }
      }
    } else {
      assert h[..i] == front && h[..|h|] == h;
    }
  }

  /** Of two events of one call, the one that comes first in the call comes first in the history. */
  lemma CallOrder(s: Sys, id: nat, i: nat, j: nat)
    requires Logged(s) && id in s.calls && i < |s.history| && j < |s.history|
    requires s.history[i].id == id && s.history[j].id == id
    requires (s.history[i].Invoke? && s.history[j].Take?) || (s.history[i].Take? && s.history[j].Return?)
    ensures i < j
  {
    RankInCall(s.history, id, i);
    RankInCall(s.history, id, j);
    assert Of(s.history, id) == Expected(id, s.calls[id]);
  }

  /** The call of a `Return` event has returned: all its three events are there. */
  lemma ReturnedIsDone(s: Sys, i: nat)
    requires Logged(s) && i < |s.history| && s.history[i].Return?
    ensures var e := s.history[i];
            && e.id in s.calls
            && Of(s.history, e.id) == [Invoke(e.id, s.calls[e.id].op), Take(e.id, s.calls[e.id].op, e.res), e]
  {
    var id := s.history[i].id;
    RankInCall(s.history, id, i);
    assert Of(s.history, id) == if id in s.calls then Expected(id, s.calls[id]) else [];
  }

  lemma TakeBeforeReturn(s: Sys, i: nat) returns (k: nat)
    requires Logged(s) && i < |s.history| && s.history[i].Return?
    ensures k < i && s.history[k].Take? && s.history[k].id == s.history[i].id && s.history[k].res == s.history[i].res
  {
    var id := s.history[i].id;
    ReturnedIsDone(s, i);
    k := AtRank(s.history, id, 1);
    CallOrder(s, id, k, i);
  }

  /** A call that has returned took effect, with the result that it returned. */
  lemma ReturnedTookEffect(n: nat, labels: seq<Label>, i: nat) returns (k: nat)
    requires n >= 1 && Run(n, labels).Some?
    requires i < |Run(n, labels).value.history| && Run(n, labels).value.history[i].Return?
    ensures var h := Run(n, labels).value.history;
            k < i && h[k].Take? && h[k].id == h[i].id && h[k].res == h[i].res
  {
    var s := Run(n, labels).value;
    assert Logged(s) by { RunKeeps(n, labels); }
    k := TakeBeforeReturn(s, i);
  }

  lemma {:induction false} AtRank(h: History, id: nat, r: nat) returns (k: nat)
    requires r < |Of(h, id)|
    ensures k < |h| && h[k].id == id && Of(h, id)[r] == h[k]
  {
    var front := h[..|h| - 1];
    if r < |Of(front, id)| {
      k := AtRank(front, id, r);
    } else {
      k := |h| - 1;
    }
  }

  /** If one call returned before another was made, it also took effect before the other. */
  lemma RealTimeOrder(n: nat, labels: seq<Label>, i: nat, j: nat, k: nat, l: nat)
    requires n >= 1 && Run(n, labels).Some?
    requires var h := Run(n, labels).value.history;
             && i < j < |h| && k < |h| && l < |h|
             && h[i].Return? && h[j].Invoke?
             && h[k].Take? && h[k].id == h[i].id
             && h[l].Take? && h[l].id == h[j].id
    ensures k < i < j < l
  {
    RunKeeps(n, labels);
    var s := Run(n, labels).value;
    var a, b := s.history[i].id, s.history[j].id;
    RankInCall(s.history, a, i);
    RankInCall(s.history, b, j);
    CallOrder(s, a, k, i);
    CallOrder(s, b, j, l);
  }

  /** The three events of a call that has returned, in this order. */
  lemma ReturnedIsRecorded(n: nat, labels: seq<Label>, id: nat) returns (i: nat, j: nat, k: nat)
    requires n >= 1 && Run(n, labels).Some?
    requires id in Run(n, labels).value.calls && Run(n, labels).value.calls[id].pc.Done?
    ensures var s := Run(n, labels).value;
            var h, c := s.history, s.calls[id];
            && i < j < k < |h|
            && h[i] == Invoke(id, c.op) && h[j] == Take(id, c.op, c.pc.result) && h[k] == Return(id, c.pc.result)
            && forall l :: 0 <= l < |h| && h[l].id == id ==> l == i || l == j || l == k
  {
    var s := Run(n, labels).value;
    assert Logged(s) by { RunKeeps(n, labels); }
    assert Of(s.history, id) == Expected(id, s.calls[id]);
    i, j, k := ThreeEvents(s.history, id, s.calls[id].op, s.calls[id].pc.result);
  }

  lemma ThreeEvents(h: History, id: nat, op: Op, res: Result) returns (i: nat, j: nat, k: nat)
    requires Of(h, id) == [Invoke(id, op), Take(id, op, res), Return(id, res)]
    ensures i < j < k < |h| && h[i] == Invoke(id, op) && h[j] == Take(id, op, res) && h[k] == Return(id, res)
    ensures forall l :: 0 <= l < |h| && h[l].id == id ==> l == i || l == j || l == k
  {
    i := AtRank(h, id, 0);
    j := AtRank(h, id, 1);
    k := AtRank(h, id, 2);
    RankInCall(h, id, i);
    RankInCall(h, id, j);
    RankInCall(h, id, k);
    forall l | 0 <= l < |h| && h[l].id == id ensures l == i || l == j || l == k {
      RankInCall(h, id, l);
      SameEvent(h, id, l, i);
      SameEvent(h, id, l, j);
      SameEvent(h, id, l, k);
    }
  }

  /** Events of one call that are the same event stand at the same place, if all events of the call differ. */
  lemma SameEvent(h: History, id: nat, i: nat, j: nat)
    requires i < |h| && j < |h| && h[i].id == id && h[j].id == id
    requires forall a, b :: 0 <= a < b < |Of(h, id)| ==> Of(h, id)[a] != Of(h, id)[b]
    ensures h[i] == h[j] ==> i == j
  {
    RankInCall(h, id, i);
    RankInCall(h, id, j);
  }

  // ----- Results

  /** What a call returns that meets no failure. */
  predicate Succeeds(op: Op, res: Result) {
    match op
    case Read(_, _) => res.Data?
    case Write(data) => res == Count(|data|)
  }

  /** The error that a failure at `pc` makes the call return. */
  predicate FailsWith(pc: Pc, e: Errno) {
    || ((pc.ReadStart? || pc.WriteStart?) && e == ERESTARTSYS)
    || (pc.WriteHeld? && e == ENOMEM)
    || ((pc.WriteFresh? || pc.ReadFound?) && e == EFAULT)
    || (pc.WriteBufWait? && e == EINTR)
  }

  /** A call that has met no failure yet. */
  predicate GoingWell(c: Call) {
    match c.pc
    case ReadOut(res) => Succeeds(c.op, res)
    case WriteOut(res) => Succeeds(c.op, res)
    case Done(res) => Succeeds(c.op, res)
    case Refused => false
    case _ => true
  }

  /** A call that is going to return the error `e`. */
  predicate Failing(c: Call, e: Errno) {
    c.pc == ReadOut(Error(e)) || c.pc == WriteOut(Error(e)) || c.pc == Done(Error(e))
    || (c.pc.Refused? && e == ERESTARTSYS)
  }

  lemma OutcomeIsRight(m: Mem, c: Call, ch: Choice, e: Errno)
    requires Fits(c) && CanChoose(m, c.pc, ch)
    ensures var c' := Call(c.op, OutcomeOf(m, c, ch).pc);
            && (ch.Go? && GoingWell(c) ==> GoingWell(c'))
            && (ch.Go? && Failing(c, e) ==> Failing(c', e))
            && (ch.Fault? && FailsWith(c.pc, e) ==> Failing(c', e))
            && (ch.Fault? ==> !Failing(c, e))
  {
  }

  lemma OutcomeInRun(n: nat, labels: seq<Label>, id: nat, e: Errno)
    requires n >= 1 && labels != [] && Run(n, labels).Some? && labels[|labels| - 1].Act?
    requires labels[|labels| - 1].id == id
    ensures var s := Run(n, labels[..|labels| - 1]).value;
            var ch := labels[|labels| - 1].choice;
            && id in s.calls && id in Run(n, labels).value.calls
            && var c, c' := s.calls[id], Run(n, labels).value.calls[id];
            && c'.op == c.op
            && (ch.Go? && GoingWell(c) ==> GoingWell(c'))
            && (ch.Go? && Failing(c, e) ==> Failing(c', e))
            && (ch.Fault? && FailsWith(c.pc, e) ==> Failing(c', e))
            && (ch.Fault? ==> !Failing(c, e) && exists e' :: FailsWith(c.pc, e'))
  {
    var s, l := Run(n, labels[..|labels| - 1]).value, labels[|labels| - 1];
    assert Fits(s.calls[id]) by { RunKeeps(n, labels[..|labels| - 1]); }
    OutcomeIsRight(s.mem, s.calls[id], l.choice, e);
    if l.choice.Fault? {
      SomeError(s.mem, s.calls[id].pc);
    }
  }

  lemma SomeError(m: Mem, pc: Pc)
    requires CanChoose(m, pc, Fault)
    ensures exists e :: FailsWith(pc, e)
  {
    assert FailsWith(pc, ERESTARTSYS) || FailsWith(pc, ENOMEM) || FailsWith(pc, EFAULT) || FailsWith(pc, EINTR);
  }

  /** The state of the call that is not taking the last step. */
  lemma OthersUnchanged(n: nat, labels: seq<Label>, id: nat)
    requires n >= 1 && labels != [] && Run(n, labels).Some?
    requires labels[|labels| - 1].Act? ==> labels[|labels| - 1].id != id
    ensures var s, s' := Run(n, labels[..|labels| - 1]).value, Run(n, labels).value;
            && (id in s.calls ==> id in s'.calls && s'.calls[id] == s.calls[id])
            && (id !in s.calls && id in s'.calls ==> GoingWell(s'.calls[id]))
  {
  }

  /** Without a failure a call does not return an error. */
  lemma {:induction false} NoFailureNoError(n: nat, labels: seq<Label>, id: nat)
    requires n >= 1 && Run(n, labels).Some? && id in Run(n, labels).value.calls
    requires Act(id, Fault) !in labels
    ensures GoingWell(Run(n, labels).value.calls[id])
    ensures var c := Run(n, labels).value.calls[id];
            c.pc.Done? ==> if c.op.Read? then c.pc.result.Data? else c.pc.result == Count(|c.op.data|)
  {
    if labels != [] {
      var front, l := labels[..|labels| - 1], labels[|labels| - 1];
      if id in Run(n, front).value.calls {
        NoFailureNoError(n, front, id);
      }
      if l.Act? && l.id == id {
        OutcomeInRun(n, labels, id, EINTR);
      } else {
        OthersUnchanged(n, labels, id);
      }
    }
  }

  /** A call that has failed at step `k` is going to return the error that belongs to where it was then. */
  lemma {:induction false} FailureStays(n: nat, labels: seq<Label>, id: nat, k: nat) returns (e: Errno)
    requires n >= 1 && Run(n, labels).Some? && k < |labels| && labels[k] == Act(id, Fault)
    ensures Run(n, labels[..k]).Some? && id in Run(n, labels[..k]).value.calls && id in Run(n, labels).value.calls
    ensures FailsWith(Run(n, labels[..k]).value.calls[id].pc, e) && Failing(Run(n, labels).value.calls[id], e)
  {
    var front, l := labels[..|labels| - 1], labels[|labels| - 1];
    if k == |front| {
      OutcomeInRun(n, labels, id, EINTR);
      e :| FailsWith(Run(n, front).value.calls[id].pc, e);
      OutcomeInRun(n, labels, id, e);
    } else {
      e := FailureStays(n, front, id, k);
      assert front[..k] == labels[..k];
      if l.Act? && l.id == id {
        OutcomeInRun(n, labels, id, e);
      } else {
        OthersUnchanged(n, labels, id);
      }
    }
  }

  /** A failure decides the result: interrupted locks, memory that is not there, a user copy that fails. */
  lemma FailureDecides(n: nat, labels: seq<Label>, id: nat, k: nat)
    requires n >= 1 && Run(n, labels).Some? && k < |labels| && labels[k] == Act(id, Fault)
    requires id in Run(n, labels).value.calls && Run(n, labels).value.calls[id].pc.Done?
    ensures Run(n, labels[..k]).Some? && id in Run(n, labels[..k]).value.calls
    ensures var pc, res := Run(n, labels[..k]).value.calls[id].pc, Run(n, labels).value.calls[id].pc.result;
            || ((pc.ReadStart? || pc.WriteStart?) && res == Error(ERESTARTSYS))
            || (pc.WriteHeld? && res == Error(ENOMEM))
            || ((pc.WriteFresh? || pc.ReadFound?) && res == Error(EFAULT))
            || (pc.WriteBufWait? && res == Error(EINTR))
  {
    var e := FailureStays(n, labels, id, k);
  }

  // ----- What follows for the bytes

  /** Conservation and the window, in every reachable state. */
  lemma RunConservation(n: nat, labels: seq<Label>)
    requires n >= 1 && Run(n, labels).Some?
    ensures var s := Run(n, labels).value;
            var d := Replay(Fresh(n), s.history);
            && Flatten(d.committed) + d.pending == Appended(s.history)
            && EntriesEnd(Window(d))
            && RingInv(s.mem.ring) && |Logical(s.mem.ring)| == Min(|d.committed|, n)
  {
    StreamConservation(n, Run(n, labels).value.history) by { Linearizable(n, labels); }
    var s := Run(n, labels).value;
    assert RingInv(s.mem.ring) && |Logical(s.mem.ring)| == |Window(Replay(Fresh(n), s.history))| by {
      Linearizable(n, labels);
    }
  }

  /** Every successful read in every run returned the bytes at its absolute position. */
  lemma RunAbsolutePosition(n: nat, labels: seq<Label>, k: nat)
    requires n >= 1 && Run(n, labels).Some?
    requires var h := Run(n, labels).value.history; k < |h| && SuccessfulRead(h[k])
    ensures ReadAtPosition(Fresh(n), Run(n, labels).value.history, k)
  {
    assert Legal(Fresh(n), Run(n, labels).value.history) by { Linearizable(n, labels); }
    AbsolutePosition(Fresh(n), Run(n, labels).value.history, k);
  }

  predicate AllClean(h: History) {
    forall i :: 0 <= i < |h| ==> Clean(h[i])
  }

  /** The ring's blocks hold the last lines of `stream`, and the pending entry, between writes, what follows them. */
  predicate HoldsLines(s: Sys, n: nat, stream: seq<byte>) {
    && RingInv(s.mem.ring) && Blocks(s.mem.heap, Logical(s.mem.ring), LastN(Split(stream).0, n))
    && (s.entryLock.None? ==> PendingHas(s.mem.heap, s.mem.entry, Split(stream).1))
  }

  /**
    Framing, for every run: the entries were at all times the lines of the bytes
    written if and only if every effective write was clean; and then the blocks in
    the heap hold them.
   */
  lemma RunFraming(n: nat, labels: seq<Label>)
    requires n >= 1 && Run(n, labels).Some?
    ensures var s := Run(n, labels).value;
            && (AlwaysSplit(n, s.history) <==> AllClean(s.history))
            && (AllClean(s.history) ==> HoldsLines(s, n, Appended(s.history)))
  {
    var s := Run(n, labels).value;
    FramingIsSplitting(n, s.history);
    if AllClean(s.history) {
      assert s.history[..|s.history|] == s.history;
      Linearizable(n, labels);
      assert Window(Replay(Fresh(n), s.history)) == LastN(Split(Appended(s.history)).0, n);
    }
  }

  /** Two clean runs, however they cut the same bytes into writes, hold the same lines. */
  lemma RunChunkingIndependence(n: nat, labels1: seq<Label>, labels2: seq<Label>)
    requires n >= 1 && Run(n, labels1).Some? && Run(n, labels2).Some?
    requires AllClean(Run(n, labels1).value.history) && AllClean(Run(n, labels2).value.history)
    requires Appended(Run(n, labels1).value.history) == Appended(Run(n, labels2).value.history)
    ensures var stream := Appended(Run(n, labels1).value.history);
            HoldsLines(Run(n, labels1).value, n, stream) && HoldsLines(Run(n, labels2).value, n, stream)
    ensures var h1, h2 := Run(n, labels1).value.history, Run(n, labels2).value.history;
            Replay(Fresh(n), h1) == Replay(Fresh(n), h2)
  {
    RunFraming(n, labels1);
    RunFraming(n, labels2);
    ChunkingIndependence(n, Run(n, labels1).value.history, Run(n, labels2).value.history);
  }

  // ----- Ownership

  /**
    In every reachable state each live block is held by exactly one place -- one slot,
    the pending entry, or the local of the writer that holds entry_lock -- and
    whatever a place holds is live.
   */
  lemma EveryBlockHasOneOwner(n: nat, labels: seq<Label>)
    requires n >= 1 && Run(n, labels).Some?
    ensures var s := Run(n, labels).value;
            && (forall p :: p in s.mem.heap ==>
                  p in s.mem.owner && Holds(s.mem, Holder(s), s.mem.owner[p], p))
            && (forall o, p :: p != NULL && Holds(s.mem, Holder(s), o, p) ==> OwnedBy(s.mem, p, o))
  {
    RunKeeps(n, labels);
    var s := Run(n, labels).value;
    assert forall p :: p in s.mem.heap ==> p in s.mem.heap.Keys;
    forall o, p | p != NULL && Holds(s.mem, Holder(s), o, p) ensures OwnedBy(s.mem, p, o) {
      match o {
        case Slot(i) => assert OwnedBy(s.mem, s.mem.ring.entry[i].buffptr, Slot(i));
        case Pending =>
        case Local =>
      }
    }
  }

  /** A reader between its lookup and its copy has a live block that covers the bytes it wants. */
  lemma ReaderHasLiveBlock(n: nat, labels: seq<Label>, id: nat)
    requires n >= 1 && Run(n, labels).Some?
    requires id in Run(n, labels).value.calls && Run(n, labels).value.calls[id].pc.ReadFound?
    ensures var s := Run(n, labels).value;
            var pc := s.calls[id].pc;
            && pc.slot < |s.mem.ring.entry|
            && var p := s.mem.ring.entry[pc.slot].buffptr;
            && p in s.mem.heap && OwnedBy(s.mem, p, Slot(pc.slot))
            && pc.offset + pc.n <= |s.mem.heap[p]|
  {
    RunKeeps(n, labels);
    var s := Run(n, labels).value;
    var c := s.calls[id];
    assert StillFound(s.mem.ring, c);
    LookupReads(s.mem.heap, s.mem.ring, Window(s.spec), c.op.pos, c.op.count);
    assert OwnedBy(s.mem, s.mem.ring.entry[c.pc.slot].buffptr, Slot(c.pc.slot));
  }

  /**
    Unloading the module after any run whose calls have all returned frees the block
    of every slot once, never a dead one, and leaves only the pending entry's block.
   */
  lemma CleanupAfterRun(n: nat, labels: seq<Label>)
    requires n >= 1 && Run(n, labels).Some?
    requires var s := Run(n, labels).value; forall id :: id in s.calls ==> s.calls[id].pc.Done?
    ensures var s := Run(n, labels).value;
            var m, pending := FreeSlots(s.mem, |s.mem.ring.entry|), Replay(Fresh(n), s.history).pending;
            && m.safe
            && (forall p :: p in m.heap <==> p == s.mem.entry.buffptr != NULL)
            && (s.mem.entry.buffptr != NULL ==> m.heap == map[s.mem.entry.buffptr := pending])
            && (s.mem.entry.buffptr == NULL <==> pending == [])
  {
    RunKeeps(n, labels);
    var s := Run(n, labels).value;
    assert Holder(s).None?;
    CleanupLeavesPending(s.mem, s.spec);
  }

  // ----- Locks and progress

  /** Each lock has one holder; a writer inside the ring holds both; a call that has returned holds none. */
  lemma LockSafety(n: nat, labels: seq<Label>, id: nat)
    requires n >= 1 && Run(n, labels).Some? && id in Run(n, labels).value.calls
    ensures var s := Run(n, labels).value;
            var c := s.calls[id];
            && (c.op.Write? && s.bufLock == Some(id) ==> s.entryLock == Some(id))
            && (c.op.Read? ==> s.entryLock != Some(id))
            && (c.pc.WriteStart? ==> s.bufLock != Some(id))
            && (c.pc.Done? ==> s.entryLock != Some(id) && s.bufLock != Some(id))
            && (Taken(c).None? && c.op.Write? && !c.pc.WriteStart? ==> s.entryLock == Some(id))
  {
    RunKeeps(n, labels);
    var s := Run(n, labels).value;
    assert Fits(s.calls[id]) && (HoldsEntry(s.calls[id].pc) <==> s.entryLock == Some(id));
  }

  /** Without a failure, a call can take its next step unless that step is to take a lock that is held. */
  lemma CanGo(s: Sys, id: nat, kz: Ptr)
    requires id in s.calls && !s.calls[id].pc.Done? && kz != NULL && kz !in s.mem.heap && Fits(s.calls[id])
    requires s.calls[id].pc.WriteStart? ==> s.entryLock.None?
    requires s.calls[id].pc.ReadStart? || s.calls[id].pc.WriteBufWait? ==> s.bufLock.None?
    ensures CanStep(s, id, Go(kz))
  {
  }

  /** No deadlock: while a call is unfinished, some call can take a step without any failure. */
  lemma NoDeadlock(n: nat, labels: seq<Label>, id: nat) returns (next: nat, kz: Ptr)
    requires n >= 1 && Run(n, labels).Some?
    requires id in Run(n, labels).value.calls && !Run(n, labels).value.calls[id].pc.Done?
    ensures CanStep(Run(n, labels).value, next, Go(kz))
  {
    RunKeeps(n, labels);
    var s := Run(n, labels).value;
    kz := FreshAddress(s.mem.heap);
    next := if s.bufLock.Some? then s.bufLock.value else if s.entryLock.Some? then s.entryLock.value else id;
    assert next in s.calls && Fits(s.calls[next]);
    assert HoldsEntry(s.calls[next].pc) <==> s.entryLock == Some(next);
    assert HoldsBuf(s.calls[next].pc) <==> s.bufLock == Some(next);
    CanGo(s, next, kz);
  }

  /** The most steps that a call at `pc` still has to take. */
  function StepsLeft(pc: Pc): nat {
    match pc
    case Done(_) => 0
    case ReadOut(_) => 1
    case Refused => 1
    case ReadFound(_, _, _) => 2
    case ReadLocked => 3
    case ReadStart => 4
    case WriteOut(_) => 1
    case WriteBufOut => 2
    case WriteReset => 3
    case WriteDrop(_) => 4
    case WritePush => 5
    case WriteCheck => 6
    case WriteBufWait => 7
    case WriteSize => 8
    case WriteFresh(_) => 9
    case WriteCopyNew(_) => 9
    case WriteFreeOld(_) => 10
    case WriteGrow(_) => 11
    case WriteHeld => 12
    case WriteStart => 13
  }

  lemma OutcomeUsesUp(m: Mem, c: Call, ch: Choice)
    requires Fits(c) && CanChoose(m, c.pc, ch) && OutcomeOf(m, c, ch).mem.safe
    ensures StepsLeft(OutcomeOf(m, c, ch).pc) < StepsLeft(c.pc)
  {
  }

  lemma OwnStepUsesUp(s: Sys, l: Label)
    requires Inv(s) && CanFollow(s, l) && l.Act?
    ensures StepsLeft(OutcomeOf(s.mem, s.calls[l.id], l.choice).pc) < StepsLeft(s.calls[l.id].pc)
  {
    var safe := Follow(s, l).mem.safe;
    assert safe by { FollowKeeps(s, l); }
    OutcomeUsesUp(s.mem, s.calls[l.id], l.choice) by { assert Fits(s.calls[l.id]); }
  }

  /** What one step of a run does to the number of steps a call has left. */
  lemma FollowUsesUp(s: Sys, l: Label, id: nat)
    requires CanFollow(s, l)
    requires l.Act? ==> StepsLeft(OutcomeOf(s.mem, s.calls[l.id], l.choice).pc) < StepsLeft(s.calls[l.id].pc)
    ensures var s' := Follow(s, l);
            && (id in s.calls ==> id in s'.calls && s'.calls[id].op == s.calls[id].op)
            && (id in s.calls ==>
                  StepsLeft(s'.calls[id].pc) + (if l.Act? && l.id == id then 1 else 0) <= StepsLeft(s.calls[id].pc))
            && (id !in s.calls && id in s'.calls ==>
                  l.Begin? && StepsLeft(s'.calls[id].pc) == if s'.calls[id].op.Read? then 4 else 13)
  {
  }

  function StepsOf(labels: seq<Label>, id: nat): nat {
    if labels == [] then 0
    else
      StepsOf(labels[..|labels| - 1], id)
      + (if labels[|labels| - 1].Act? && labels[|labels| - 1].id == id then 1 else 0)
  }

  /** In every run each call takes a bounded number of steps: it never waits by running. */
  lemma {:induction false} CallsAreBounded(n: nat, labels: seq<Label>, id: nat)
    requires n >= 1 && Run(n, labels).Some?
    ensures var s := Run(n, labels).value;
            if id in s.calls
            then StepsOf(labels, id) + StepsLeft(s.calls[id].pc) <= if s.calls[id].op.Read? then 4 else 13
            else StepsOf(labels, id) == 0
  {
    if labels != [] {
      var front, l := labels[..|labels| - 1], labels[|labels| - 1];
      CallsAreBounded(n, front, id);
      if l.Act? {
        OwnStepUsesUp(Run(n, front).value, l) by { RunKeeps(n, front); }
      }
      FollowUsesUp(Run(n, front).value, l, id);
    }
  }
}
