/** What every step of the workers and the timer keeps. */
module ServerInvariant {
  import opened Bytes
  import opened DeviceSpec
  import opened Histories
  import opened Output
  import opened Worker
  import opened ServerRun

  // ----- What every step keeps

  predicate HoldsLock(pc: Pc) {
    !pc.WantReceive? && !pc.WantSend? && !pc.WantStamp? && !pc.Finished?
  }

  /** The threads that hold the lock for their own section. */
  predicate Writing(pc: Pc) {
    pc.Receiving? || pc.Received? || pc.Stamping? || pc.Stamped?
  }

  ghost predicate LockInv(s: Srv) {
    && (forall id :: id in s.threads ==> (HoldsLock(s.threads[id]) <==> s.lock == Some(id)))
    && (s.lock.Some? ==> s.lock.value in s.threads)
  }

  /** How many sections can no longer change. */
  function Frozen(s: Srv): nat {
    if s.lock.Some? && s.lock.value in s.threads && Writing(s.threads[s.lock.value]) && s.sections != []
    then |s.sections| - 1 else |s.sections|
  }

  function DataOfAll(sections: seq<Section>): seq<byte> {
    if sections == [] then [] else DataOfAll(sections[..|sections| - 1]) + sections[|sections| - 1].data
  }

  predicate FileInv(s: Srv) {
    s.out.File? ==> s.out.content == s.base + DataOfAll(s.sections)
  }

  /** A complete section is a line, and on the device it has become one entry. */
  predicate SectionInv(out: Sink, sec: Section) {
    sec.complete ==>
      && OneLine(sec.data)
      && (out.Dev? ==>
            && sec.entries < |out.device.committed|
            && out.device.committed[sec.entries] == sec.pending + sec.data)
  }

  /** Each section belongs to one thread, and each thread to at most one section. */
  ghost predicate SectionsInv(s: Srv) {
    forall j :: 0 <= j < |s.sections| ==>
      && SectionInv(s.out, s.sections[j])
      && s.sections[j].id in s.threads && SectionOf(s.threads[s.sections[j].id]) == Some(j)
  }

  /** A response as it was when it was sent. */
  predicate ResponseInv(s: Srv, j: nat, r: Response) {
    && j < r.sections <= Frozen(s)
    && (s.out.File? ==> r.bytes == s.base + DataOfAll(s.sections[..r.sections]))
    && (s.out.Dev? ==>
          && s.sections[j].entries < r.entries <= |s.out.device.committed|
          && r.bytes == Flatten(LastN(s.out.device.committed[..r.entries], s.out.device.capacity)))
  }

  predicate PcInv(s: Srv, id: nat, pc: Pc) {
    && (SectionOf(pc).Some? ==> SectionOf(pc).value < |s.sections| && s.sections[SectionOf(pc).value].id == id)
    && (Writing(pc) ==> SectionOf(pc) == Some(|s.sections| - 1))
    && match pc
       case Receiving(j) =>
         && NEWLINE !in s.sections[j].data && !s.sections[j].complete
         && Entries(s.out) == s.sections[j].entries
         && (s.out.Dev? ==> PendingOf(s.out) == s.sections[j].pending + s.sections[j].data)
       case Received(j, ok) =>
         ok ==> s.sections[j].complete && (s.out.Dev? ==> Entries(s.out) == s.sections[j].entries + 1)
       case WantSend(j) => s.sections[j].complete
       case Sending(j, sent) => s.sections[j].complete && sent <= Stored(s.out)
       case Sent(j, sent, ok) => s.sections[j].complete && (ok ==> sent == Stored(s.out))
       case WantStamp => s.out.File?
       case Stamping(j) => !s.sections[j].complete && s.out.File?
       case Finished(section, response) =>
         response.Some? ==>
           section.Some? && s.sections[section.value].complete && ResponseInv(s, section.value, response.value)
       case _ => true
  }

  ghost predicate ThreadsInv(s: Srv) {
    forall id :: id in s.threads ==> PcInv(s, id, s.threads[id])
  }

  ghost predicate Inv(s: Srv) {
    LockInv(s) && FileInv(s) && SectionsInv(s) && ThreadsInv(s)
  }

  /** A step that changes neither the output nor the sections. */
  lemma QuietKeeps(s: Srv, s': Srv, id: nat)
    requires Inv(s) && LockInv(s') && id in s'.threads
    requires s'.out == s.out && s'.sections == s.sections && s'.base == s.base
    requires s'.threads == s.threads[id := s'.threads[id]]
    requires SectionOf(s'.threads[id]) == if id in s.threads then SectionOf(s.threads[id]) else None
    requires Frozen(s) <= Frozen(s') && PcInv(s', id, s'.threads[id])
    ensures Inv(s')
  {
    forall i | i in s'.threads ensures PcInv(s', i, s'.threads[i]) {
      assert i != id ==> PcInv(s, i, s.threads[i]);
    }
  }

  lemma StartKeeps(s: Srv, id: nat, timer: bool, n: nat)
    requires Inv(s) && n >= 1 && CanFollow(s, Start(id, timer), n)
    ensures Inv(Follow(s, Start(id, timer), n))
  {
    QuietKeeps(s, Follow(s, Start(id, timer), n), id);
  }

  /** A response, at the moment at which it has been sent. */
  lemma ResponseNow(s: Srv, s': Srv, j: nat)
    requires SectionsInv(s) && j < |s.sections| && s.sections[j].complete
    requires s'.out == s.out && s'.sections == s.sections && s'.base == s.base && FileInv(s)
    requires Frozen(s') == |s.sections|
    ensures ResponseInv(s', j, Response(Stored(s.out), |s.sections|, Entries(s.out)))
  {
    assert s.sections[..|s.sections|] == s.sections;
    assert SectionInv(s.out, s.sections[j]);
    if s.out.Dev? {
      assert s.out.device.committed[..|s.out.device.committed|] == s.out.device.committed;
    }
  }

  /** A thread moves on, keeping the lock or releasing it. */
  lemma LockMoves(s: Srv, s': Srv, id: nat)
    requires LockInv(s) && s.lock == Some(id) && id in s'.threads && s'.threads == s.threads[id := s'.threads[id]]
    requires s'.lock == if HoldsLock(s'.threads[id]) then Some(id) else None
    ensures LockInv(s')
  {
  }

  lemma UnlockOwn(s: Srv, id: nat, stop: bool, n: nat)
    requires n >= 1 && CanFollow(s, Unlock(id, stop), n) && SectionsInv(s) && FileInv(s)
    requires PcInv(s, id, s.threads[id])
    ensures var s' := Follow(s, Unlock(id, stop), n);
            && PcInv(s', id, s'.threads[id])
            && Frozen(s) <= Frozen(s') && SectionOf(s'.threads[id]) == SectionOf(s.threads[id])
  {
    if s.threads[id].Sent? {
      ResponseNow(s, Follow(s, Unlock(id, stop), n), s.threads[id].j);
    }
  }

  lemma UnlockKeeps(s: Srv, id: nat, stop: bool, n: nat)
    requires Inv(s) && n >= 1 && CanFollow(s, Unlock(id, stop), n)
    ensures Inv(Follow(s, Unlock(id, stop), n))
  {
    var s' := Follow(s, Unlock(id, stop), n);
    assert PcInv(s, id, s.threads[id]) && s.lock == Some(id);
    UnlockOwn(s, id, stop, n);
    assert LockInv(s') by { LockMoves(s, s', id); }
    QuietKeeps(s, s', id);
  }

  lemma ReadOwn(s: Srv, id: nat, n: nat)
    requires n >= 1 && CanFollow(s, ReadBack(id), n) && PcInv(s, id, s.threads[id])
    ensures var s' := Follow(s, ReadBack(id), n);
            && PcInv(s', id, s'.threads[id])
            && Frozen(s) <= Frozen(s') && SectionOf(s'.threads[id]) == SectionOf(s.threads[id])
  {
    ReadFromIsSlice(s.out, |s.threads[id].sent|, n);
  }

  lemma ReadKeeps(s: Srv, id: nat, n: nat)
    requires Inv(s) && n >= 1 && CanFollow(s, ReadBack(id), n)
    ensures Inv(Follow(s, ReadBack(id), n))
  {
    var s' := Follow(s, ReadBack(id), n);
    assert PcInv(s, id, s.threads[id]) && s.lock == Some(id);
    ReadOwn(s, id, n);
    assert LockInv(s') by { LockMoves(s, s', id); }
    QuietKeeps(s, s', id);
  }

  lemma FailOwn(s: Srv, id: nat, n: nat)
    requires n >= 1 && CanFollow(s, Fail(id), n) && PcInv(s, id, s.threads[id])
    ensures var s' := Follow(s, Fail(id), n);
            && PcInv(s', id, s'.threads[id])
            && Frozen(s) <= Frozen(s') && SectionOf(s'.threads[id]) == SectionOf(s.threads[id])
  {
  }

  lemma FailKeeps(s: Srv, id: nat, n: nat)
    requires Inv(s) && n >= 1 && CanFollow(s, Fail(id), n)
    ensures Inv(Follow(s, Fail(id), n))
  {
    var s' := Follow(s, Fail(id), n);
    assert PcInv(s, id, s.threads[id]) && s.lock == Some(id);
    FailOwn(s, id, n);
    assert LockInv(s') by { LockMoves(s, s', id); }
    QuietKeeps(s, s', id);
  }

  lemma LockToSendKeeps(s: Srv, id: nat, n: nat)
    requires Inv(s) && n >= 1 && CanFollow(s, Lock(id), n) && s.threads[id].WantSend?
    ensures Inv(Follow(s, Lock(id), n))
  {
    var s' := Follow(s, Lock(id), n);
    assert PcInv(s, id, s.threads[id]);
    assert LockInv(s');
    QuietKeeps(s, s', id);
  }

  // ----- A thread takes the lock for its own section

  lemma LockToWriteKeeps(s: Srv, id: nat, n: nat)
    requires Inv(s) && n >= 1 && CanFollow(s, Lock(id), n) && !s.threads[id].WantSend?
    ensures Inv(Follow(s, Lock(id), n))
  {
    var s' := Follow(s, Lock(id), n);
    var sec := Section(id, [], Entries(s.out), PendingOf(s.out), false);
    assert s'.sections == s.sections + [sec] && SectionOf(s'.threads[id]) == Some(|s.sections|);
    assert LockInv(s');
    DataOfAllSnoc(s.sections, sec);
    assert SectionsInv(s') by { SectionsSnoc(s, s', id, sec); }
    assert PcInv(s, id, s.threads[id]);
    assert PcInv(s', id, s'.threads[id]);
    assert ThreadsInv(s') by { OthersKept(s, s', id); }
  }

  lemma DataOfAllSnoc(sections: seq<Section>, sec: Section)
    ensures DataOfAll(sections + [sec]) == DataOfAll(sections) + sec.data
  {
    assert (sections + [sec])[..|sections|] == sections;
  }

  lemma SectionsSnoc(s: Srv, s': Srv, id: nat, sec: Section)
    requires SectionsInv(s) && id in s.threads && SectionOf(s.threads[id]) == None
    requires s'.out == s.out && s'.sections == s.sections + [sec] && sec.id == id && !sec.complete
    requires id in s'.threads && s'.threads == s.threads[id := s'.threads[id]]
    requires SectionOf(s'.threads[id]) == Some(|s.sections|)
    ensures SectionsInv(s')
  {
    forall j | 0 <= j < |s'.sections|
      ensures SectionInv(s'.out, s'.sections[j])
      ensures s'.sections[j].id in s'.threads && SectionOf(s'.threads[s'.sections[j].id]) == Some(j)
    {
      if j < |s.sections| {
        assert s'.sections[j] == s.sections[j] && SectionInv(s.out, s.sections[j]);
      }
    }
  }

  /** All threads but `id` keep their invariants when none of them holds the lock. */
  lemma OthersKept(s: Srv, s': Srv, id: nat)
    requires ThreadsInv(s) && id in s'.threads && s'.threads == s.threads[id := s'.threads[id]]
    requires PcInv(s', id, s'.threads[id])
    requires forall i :: i in s.threads && i != id ==> !HoldsLock(s.threads[i])
    requires Frozen(s) <= Frozen(s') && |s.sections| <= |s'.sections| && s'.base == s.base
    requires s.sections[..Frozen(s)] == s'.sections[..Frozen(s)]
    requires forall j :: 0 <= j < |s.sections| ==> Same(s.sections[j], s'.sections[j])
    requires Extends(s.out, s'.out)
    ensures ThreadsInv(s')
  {
    forall i | i in s'.threads ensures PcInv(s', i, s'.threads[i]) {
      if i != id {
        assert PcInv(s, i, s.threads[i]);
        PrefixKept(s, s', i);
      }
    }
  }

  /** Threads that do not hold the lock are not touched by what happens behind their sections. */
  lemma PrefixKept(s: Srv, s': Srv, i: nat)
    requires i in s.threads && i in s'.threads && s'.threads[i] == s.threads[i] && !HoldsLock(s.threads[i])
    requires PcInv(s, i, s.threads[i])
    requires Frozen(s) <= Frozen(s') && |s.sections| <= |s'.sections| && s'.base == s.base
    requires s.sections[..Frozen(s)] == s'.sections[..Frozen(s)]
    requires forall j :: 0 <= j < |s.sections| ==> Same(s.sections[j], s'.sections[j])
    requires Extends(s.out, s'.out)
    ensures PcInv(s', i, s'.threads[i])
  {
    var pc := s.threads[i];
    if pc.Finished? && pc.response.Some? {
      var r := pc.response.value;
      assert s.sections[..r.sections] == s.sections[..Frozen(s)][..r.sections] == s'.sections[..r.sections];
      if s.out.Dev? {
        assert s'.out.device.committed[..r.entries] == s.out.device.committed[..r.entries];
      }
    }
  }

  /** The same section; if it was complete it still has the same bytes. */
  predicate Same(a: Section, b: Section) {
    a.id == b.id && a.entries == b.entries && a.pending == b.pending && (a.complete ==> b == a)
  }

  /** An output of the same kind, with at least the same entries. */
  predicate Extends(out: Sink, out': Sink) {
    && (out.File? <==> out'.File?)
    && (out.Dev? ==> out.device.committed <= out'.device.committed && out.device.capacity == out'.device.capacity)
  }

  // ----- A thread appends to its own section

  lemma DataOfAllExtend(sections: seq<Section>, data: seq<byte>, complete: bool)
    requires sections != []
    ensures DataOfAll(Extend(sections, data, complete)) == DataOfAll(sections) + data
  {
    var k := |sections| - 1;
    assert Extend(sections, data, complete)[..k] == sections[..k];
  }

  /** What one write does to the output of which the last section has been the only writer. */
  lemma WriteKeepsFile(s: Srv, id: nat, data: seq<byte>, written: Result, whole: bool, pc: Pc)
    requires FileInv(s) && s.sections != []
    ensures FileInv(AddData(s, id, data, written, whole, pc))
  {
    if written.Count? {
      DataOfAllExtend(s.sections, data, whole);
    }
  }

  lemma SectionsExtend(s: Srv, s': Srv, id: nat)
    requires SectionsInv(s) && |s'.sections| == |s.sections| > 0
    requires id in s.threads && id in s'.threads && s'.threads == s.threads[id := s'.threads[id]]
    requires SectionOf(s'.threads[id]) == SectionOf(s.threads[id])
    requires Extends(s.out, s'.out)
    requires forall j :: 0 <= j < |s.sections| - 1 ==> s'.sections[j] == s.sections[j]
    requires var k := |s.sections| - 1; s'.sections[k].id == s.sections[k].id && SectionInv(s'.out, s'.sections[k])
    ensures SectionsInv(s')
  {
    forall j | 0 <= j < |s'.sections|
      ensures SectionInv(s'.out, s'.sections[j])
      ensures s'.sections[j].id in s'.threads && SectionOf(s'.threads[s'.sections[j].id]) == Some(j)
    {
      assert SectionInv(s.out, s.sections[j]);
    }
  }

  /** The output never loses an entry. */
  lemma WriteExtends(out: Sink, data: seq<byte>, res: Result)
    ensures Extends(out, WriteTo(out, data, res))
  {
  }

  /** A chunk that is written, on the device, and its section afterwards. */
  lemma ReceiveOnDevice(d: Device, sec: Section, chunk: seq<byte>, written: Result, n: nat)
    requires n >= 1 && |chunk| <= n && written.Count?
    requires |d.committed| == sec.entries && d.pending == sec.pending + sec.data
    ensures var data := Portion(chunk, n);
            var d' := Effect(d, Op.Write(data), written);
            if NEWLINE in chunk
            then d'.committed == d.committed + [sec.pending + (sec.data + data)] && d'.pending == []
            else d'.committed == d.committed && d'.pending == sec.pending + (sec.data + data)
  {
    var data := Portion(chunk, n);
    assert sec.pending + (sec.data + data) == d.pending + data;
    if NEWLINE in chunk {
      PortionIsLine(chunk, n);
      LineCommits(d, data);
    } else {
      PortionIsPiece(chunk, n);
      PieceStaysPending(d, data);
    }
  }

  lemma PortionIsLine(chunk: seq<byte>, n: nat)
    requires |chunk| <= n && NEWLINE in chunk
    ensures OneLine(Portion(chunk, n))
  {
    var k := IndexOf(chunk, NEWLINE);
    assert chunk[..k + 1][..k] == chunk[..k];
  }

  lemma PortionIsPiece(chunk: seq<byte>, n: nat)
    requires 1 <= n && |chunk| <= n && NEWLINE !in chunk
    ensures Portion(chunk, n) != [] && NEWLINE !in Portion(chunk, n)
  {
    assert forall x :: x in Portion(chunk, n) ==> x in chunk || x == NUL;
  }

  /** The bytes of a section after a chunk. */
  lemma DataAfter(data: seq<byte>, chunk: seq<byte>, n: nat)
    requires 1 <= n && |chunk| <= n && NEWLINE !in data
    ensures if NEWLINE in chunk then OneLine(data + Portion(chunk, n)) else NEWLINE !in data + Portion(chunk, n)
  {
    var piece := Portion(chunk, n);
    if NEWLINE in chunk {
      PortionIsLine(chunk, n);
      assert (data + piece)[..|data + piece| - 1] == data + piece[..|piece| - 1];
    } else {
      PortionIsPiece(chunk, n);
    }
  }

  /** The section after a chunk has been written, and the thread that holds the lock. */
  lemma ReceivedOwn(s: Srv, id: nat, chunk: seq<byte>, written: Result, n: nat)
    requires n >= 1 && CanFollow(s, Receive(id, chunk, written), n)
    requires PcInv(s, id, s.threads[id])
    ensures var s' := Follow(s, Receive(id, chunk, written), n);
            && SectionInv(s'.out, s'.sections[|s.sections| - 1])
            && PcInv(s', id, s'.threads[id])
  {
    var sec := s.sections[|s.sections| - 1];
    if written.Count? {
      DataAfter(sec.data, chunk, n);
      if s.out.Dev? {
        ReceiveOnDevice(s.out.device, sec, chunk, written, n);
      }
    }
  }

  /** A write to the last section leaves the lock with its thread, and the earlier sections alone. */
  lemma AppendLeaves(s: Srv, id: nat, data: seq<byte>, written: Result, whole: bool, pc: Pc)
    requires LockInv(s) && s.lock == Some(id) && id in s.threads && Writing(s.threads[id]) && Writing(pc)
    requires s.sections != [] && !s.sections[|s.sections| - 1].complete
    ensures var s', k := AddData(s, id, data, written, whole, pc), |s.sections| - 1;
            && LockInv(s') && Frozen(s) == Frozen(s') == k && |s'.sections| == k + 1
            && s.sections[..k] == s'.sections[..k]
            && (forall j :: 0 <= j < k ==> s'.sections[j] == s.sections[j])
            && (forall j :: 0 <= j <= k ==> Same(s.sections[j], s'.sections[j]))
            && Extends(s.out, s'.out)
  {
    WriteExtends(s.out, data, written);
  }

  lemma AppendKeeps(s: Srv, id: nat, data: seq<byte>, written: Result, whole: bool, pc: Pc)
    requires Inv(s) && s.lock == Some(id) && id in s.threads && Writing(s.threads[id]) && Writing(pc)
    requires s.sections != [] && !s.sections[|s.sections| - 1].complete && SectionOf(pc) == SectionOf(s.threads[id])
    requires var s' := AddData(s, id, data, written, whole, pc);
             SectionInv(s'.out, s'.sections[|s.sections| - 1]) && PcInv(s', id, pc)
    ensures Inv(AddData(s, id, data, written, whole, pc))
  {
    var s' := AddData(s, id, data, written, whole, pc);
    AppendLeaves(s, id, data, written, whole, pc);
    assert FileInv(s') by { WriteKeepsFile(s, id, data, written, whole, pc); }
    assert SectionsInv(s') by { SectionsExtend(s, s', id); }
    assert ThreadsInv(s') by { OthersKept(s, s', id); }
  }

  lemma ReceiveKeeps(s: Srv, id: nat, chunk: seq<byte>, written: Result, n: nat)
    requires Inv(s) && n >= 1 && CanFollow(s, Receive(id, chunk, written), n)
    ensures Inv(Follow(s, Receive(id, chunk, written), n))
  {
    assert PcInv(s, id, s.threads[id]);
    ReceivedOwn(s, id, chunk, written, n);
    var pc := Follow(s, Receive(id, chunk, written), n).threads[id];
    AppendKeeps(s, id, Portion(chunk, n), written, NEWLINE in chunk, pc);
  }

  lemma StampedOwn(s: Srv, id: nat, text: seq<byte>, written: Result, n: nat)
    requires n >= 1 && CanFollow(s, Stamp(id, text, written), n)
    requires PcInv(s, id, s.threads[id])
    ensures var s', k := Follow(s, Stamp(id, text, written), n), |s.sections| - 1;
            && s.sections != [] && !s.sections[k].complete && !s'.sections[k].complete
            && PcInv(s', id, Stamped(k)) && s.threads[id] == Stamping(k)
  {
  }

  lemma StampKeeps(s: Srv, id: nat, text: seq<byte>, written: Result, n: nat)
    requires Inv(s) && n >= 1 && CanFollow(s, Stamp(id, text, written), n)
    ensures Inv(Follow(s, Stamp(id, text, written), n))
  {
    assert s.lock == Some(id);
    StampedOwn(s, id, text, written, n) by { assert PcInv(s, id, s.threads[id]); }
    AppendKeeps(s, id, text, written, false, Stamped(|s.sections| - 1));
  }

  lemma FollowKeeps(s: Srv, l: Label, n: nat)
    requires Inv(s) && n >= 1 && CanFollow(s, l, n)
    ensures Inv(Follow(s, l, n))
  {
    match l {
      case Start(id, timer) => StartKeeps(s, id, timer, n);
      case Lock(id) => if s.threads[id].WantSend? { LockToSendKeeps(s, id, n); } else { LockToWriteKeeps(s, id, n); }
      case Unlock(id, stop) => UnlockKeeps(s, id, stop, n);
      case Receive(id, chunk, written) => ReceiveKeeps(s, id, chunk, written, n);
      case Stamp(id, text, written) => StampKeeps(s, id, text, written, n);
      case ReadBack(id) => ReadKeeps(s, id, n);
      case Fail(id) => FailKeeps(s, id, n);
    }
  }

  lemma {:induction false} RunKeeps(out: Sink, labels: seq<Label>, n: nat)
    requires n >= 1 && Run(out, labels, n).Some?
    ensures Inv(Run(out, labels, n).value)
  {
    if labels != [] {
      RunKeeps(out, labels[..|labels| - 1], n);
      FollowKeeps(Run(out, labels[..|labels| - 1], n).value, labels[|labels| - 1], n);
    }
  }

  /** The output never loses an entry, nor changes its kind. */
  lemma FollowBase(s: Srv, l: Label, n: nat)
    requires n >= 1 && CanFollow(s, l, n)
    ensures Follow(s, l, n).base == s.base && Extends(s.out, Follow(s, l, n).out)
  {
  }

  lemma {:induction false} RunBase(out: Sink, labels: seq<Label>, n: nat)
    requires n >= 1 && Run(out, labels, n).Some?
    ensures var s := Run(out, labels, n).value;
            s.base == Init(out).base && Extends(out, s.out)
  {
    if labels != [] {
      RunBase(out, labels[..|labels| - 1], n);
      FollowBase(Run(out, labels[..|labels| - 1], n).value, labels[|labels| - 1], n);
    }
  }
}
