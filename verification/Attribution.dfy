/**
  Which thread wrote what: what the labels of a run say that each thread received
  and wrote, against the sections that the run kept.
 */
module Attribution {
  import opened Bytes
  import opened DeviceSpec
  import opened Histories
  import opened Output
  import opened Worker
  import opened ServerRun
  import opened ServerInvariant

  // ----- What a thread has done, by the labels alone

  function TurnOf(l: Label, id: nat): seq<Turn> {
    if l.Receive? && l.id == id then [Turn(false, Chunk(l.chunk), l.written)] else []
  }

  /** The turns of the receiving loop of thread `id`. */
  function TurnsOf(labels: seq<Label>, id: nat): seq<Turn> {
    if labels == [] then [] else TurnsOf(labels[..|labels| - 1], id) + TurnOf(labels[|labels| - 1], id)
  }

  /** What one step wrote, if it is a step of thread `id` and the write succeeded. */
  function PieceOf(l: Label, id: nat, n: nat): seq<byte> {
    if l.id != id then []
    else
      match l
      case Receive(_, chunk, written) => if written.Count? && |chunk| <= n then Portion(chunk, n) else []
      case Stamp(_, text, written) => if written.Count? then text else []
      case _ => []
  }

  /** Everything that thread `id` has written, in order. */
  function Contribution(labels: seq<Label>, id: nat, n: nat): seq<byte> {
    if labels == [] then []
    else Contribution(labels[..|labels| - 1], id, n) + PieceOf(labels[|labels| - 1], id, n)
  }

  /** The threads that have begun a section, in the order in which they took the lock. */
  function Order(sections: seq<Section>): (ids: seq<nat>)
    ensures |ids| == |sections| && forall j :: 0 <= j < |ids| ==> ids[j] == sections[j].id
  {
    seq(|sections|, j requires 0 <= j < |sections| => sections[j].id)
  }

  // ----- A thread's section is what it has written

  /** The section of a thread whose loop has had `turns` and that has written `c`. */
  predicate Owns(s: Srv, id: nat, turns: seq<Turn>, c: seq<byte>, n: nat) {
    && Fitting(turns, n)
    && match if id in s.threads then SectionOf(s.threads[id]) else None
       case None => turns == [] && c == []
       case Some(j) =>
         && j < |s.sections| && s.sections[j].data == c
         && (s.sections[j].complete <==> Completed(turns))
         && (s.threads[id].Receiving? ==> Going(turns))
         && (s.threads[id].Receiving? || Completed(turns) ==> c == DataOf(WriteCalls(turns, n)))
  }

  /** A step of another thread leaves the section alone: only the last one changes, and that is the other's. */
  lemma OthersOwn(s: Srv, l: Label, n: nat, id: nat, turns: seq<Turn>, c: seq<byte>)
    requires n >= 1 && CanFollow(s, l, n) && Owns(s, id, turns, c, n) && id != l.id
    requires id in s.threads ==> PcInv(s, id, s.threads[id])
    requires l.id in s.threads ==> PcInv(s, l.id, s.threads[l.id])
    ensures Owns(Follow(s, l, n), id, turns, c, n)
  {
    var s' := Follow(s, l, n);
    assert id in s'.threads <==> id in s.threads;
    if id in s.threads && SectionOf(s.threads[id]).Some? {
      var j := SectionOf(s.threads[id]).value;
      assert s'.threads[id] == s.threads[id];
      assert s'.sections[j] == s.sections[j] by {
        if l.Receive? || l.Stamp? {
          assert s.sections[|s.sections| - 1].id == l.id && j < |s.sections| - 1;
        }
      }
    }
  }

  /** What one turn more makes of the turns, the writes and the bytes written. */
  lemma TurnIsAdded(turns: seq<Turn>, chunk: seq<byte>, written: Result, n: nat)
    requires Fitting(turns, n) && Going(turns) && |chunk| <= n
    ensures var turns' := turns + [Turn(false, Chunk(chunk), written)];
            && Fitting(turns', n)
            && (Completed(turns') <==> written.Count? && NEWLINE in chunk)
            && (Going(turns') <==> written.Count? && NEWLINE !in chunk)
            && DataOf(WriteCalls(turns', n)) == DataOf(WriteCalls(turns, n)) + Portion(chunk, n)
  {
    var t := Turn(false, Chunk(chunk), written);
    OneTurnMore(turns, t, n);
    DataOfSnoc(WriteCalls(turns, n), WriteCall(Portion(chunk, n), written));
    assert (turns + [t])[|turns|] == t;
  }

  /** What a chunk does to its thread and that thread's section. */
  lemma ChunkIsAdded(s: Srv, l: Label, n: nat)
    requires n >= 1 && l.Receive? && CanFollow(s, l, n) && PcInv(s, l.id, s.threads[l.id])
    ensures var s', j := Follow(s, l, n), |s.sections| - 1;
            && s.threads[l.id] == Receiving(j) && SectionOf(s'.threads[l.id]) == Some(j) && |s'.sections| == j + 1
            && s'.sections[j].data == s.sections[j].data + PieceOf(l, l.id, n)
            && (s'.sections[j].complete <==> l.written.Count? && NEWLINE in l.chunk)
            && (s'.threads[l.id].Receiving? <==> l.written.Count? && NEWLINE !in l.chunk)
  {
    var data := s.sections[|s.sections| - 1].data;
    assert data + [] == data;
  }

  lemma ReceiverOwns(s: Srv, l: Label, n: nat, turns: seq<Turn>, c: seq<byte>)
    requires n >= 1 && l.Receive? && CanFollow(s, l, n) && Owns(s, l.id, turns, c, n)
    requires PcInv(s, l.id, s.threads[l.id])
    ensures Owns(Follow(s, l, n), l.id, turns + TurnOf(l, l.id), c + PieceOf(l, l.id, n), n)
  {
    ChunkIsAdded(s, l, n);
    TurnIsAdded(turns, l.chunk, l.written, n);
  }

  lemma StamperOwns(s: Srv, l: Label, n: nat, turns: seq<Turn>, c: seq<byte>)
    requires n >= 1 && l.Stamp? && CanFollow(s, l, n) && Owns(s, l.id, turns, c, n)
    requires PcInv(s, l.id, s.threads[l.id])
    ensures Owns(Follow(s, l, n), l.id, turns, c + PieceOf(l, l.id, n), n)
  {
    assert c + [] == c;
  }

  /** A step without a write. */
  lemma QuietOwns(s: Srv, l: Label, n: nat, turns: seq<Turn>, c: seq<byte>)
    requires n >= 1 && !l.Receive? && !l.Stamp? && CanFollow(s, l, n) && Owns(s, l.id, turns, c, n)
    requires l.id in s.threads ==> PcInv(s, l.id, s.threads[l.id])
    ensures Owns(Follow(s, l, n), l.id, turns, c, n)
  {
    var id := l.id;
    if l.Lock? && !s.threads[id].WantSend? {
      assert Follow(s, l, n).sections[|s.sections|].data == c == DataOf(WriteCalls(turns, n));
    } else if id in s.threads {
      assert Follow(s, l, n).sections == s.sections;
      assert SectionOf(Follow(s, l, n).threads[id]) == SectionOf(s.threads[id]);
    }
  }

  lemma FollowOwns(s: Srv, l: Label, n: nat, id: nat, turns: seq<Turn>, c: seq<byte>)
    requires n >= 1 && CanFollow(s, l, n) && Owns(s, id, turns, c, n)
    requires id in s.threads ==> PcInv(s, id, s.threads[id])
    requires l.id in s.threads ==> PcInv(s, l.id, s.threads[l.id])
    ensures Owns(Follow(s, l, n), id, turns + TurnOf(l, id), c + PieceOf(l, id, n), n)
  {
    assert turns + [] == turns && c + [] == c;
    if id != l.id {
      OthersOwn(s, l, n, id, turns, c);
    } else if l.Receive? {
      ReceiverOwns(s, l, n, turns, c);
    } else if l.Stamp? {
      StamperOwns(s, l, n, turns, c);
    } else {
      QuietOwns(s, l, n, turns, c);
    }
  }

  lemma {:induction false} RunOwns(out: Sink, labels: seq<Label>, n: nat, id: nat)
    requires n >= 1 && Run(out, labels, n).Some?
    ensures Owns(Run(out, labels, n).value, id, TurnsOf(labels, id), Contribution(labels, id, n), n)
  {
    if labels != [] {
      var front, l := labels[..|labels| - 1], labels[|labels| - 1];
      RunOwns(out, front, n, id);
      assert ThreadsInv(Run(out, front, n).value) by { RunKeeps(out, front, n); }
      FollowOwns(Run(out, front, n).value, l, n, id, TurnsOf(front, id), Contribution(front, id, n));
    }
  }

  /** Every section is what its thread has written, and complete if that thread's loop has completed. */
  lemma SectionIsContribution(out: Sink, labels: seq<Label>, n: nat, j: nat)
    requires n >= 1 && Run(out, labels, n).Some? && j < |Run(out, labels, n).value.sections|
    ensures var sec := Run(out, labels, n).value.sections[j];
            && sec.data == Contribution(labels, sec.id, n)
            && (sec.complete <==> Completed(TurnsOf(labels, sec.id)))
            && Fitting(TurnsOf(labels, sec.id), n)
            && (sec.complete ==> sec.data == DataOf(WriteCalls(TurnsOf(labels, sec.id), n)))
  {
    var s := Run(out, labels, n).value;
    var id := s.sections[j].id;
    assert SectionOf(s.threads[id]) == Some(j) by { RunKeeps(out, labels, n); }
    RunOwns(out, labels, n, id);
  }

  /**
    What a worker's packet is of what it received: the writes of its completed loop,
    with one newline, at the end.  Of a NUL-free stream it is the first line, but for
    NULs, and exactly that if and only if each earlier chunk filled the buffer.
   */
  predicate IsPacket(packet: seq<byte>, turns: seq<Turn>, n: nat) {
    && Fitting(turns, n) && Completed(turns)
    && packet == DataOf(WriteCalls(turns, n)) && OneLine(packet)
    && (NUL !in StreamOf(turns) ==>
          && NEWLINE in StreamOf(turns)
          && WithoutNul(packet) == FirstLine(StreamOf(turns))
          && (packet == FirstLine(StreamOf(turns)) <==> FullBefore(turns, n)))
  }

  lemma CompleteIsPacket(out: Sink, labels: seq<Label>, n: nat, j: nat)
    requires n >= 1 && Run(out, labels, n).Some?
    requires j < |Run(out, labels, n).value.sections| && Run(out, labels, n).value.sections[j].complete
    ensures var id := Run(out, labels, n).value.sections[j].id;
            IsPacket(Contribution(labels, id, n), TurnsOf(labels, id), n)
  {
    var id := Run(out, labels, n).value.sections[j].id;
    SectionIsContribution(out, labels, n, j);
    var turns := TurnsOf(labels, id);
    CompletedIsPacket(turns, n);
    PacketIsLine(WriteCalls(turns, n));
    if NUL !in StreamOf(turns) {
      PacketReassembly(turns, n);
    }
  }

  // ----- When a section began, and when a response was sent

  /** Steps change of a section only what was written and whether it is complete. */
  lemma FollowSections(s: Srv, l: Label, n: nat)
    requires n >= 1 && CanFollow(s, l, n)
    ensures var s' := Follow(s, l, n);
            && |s.sections| <= |s'.sections| <= |s.sections| + 1
            && (forall j :: 0 <= j < |s.sections| ==>
                  && s'.sections[j].id == s.sections[j].id
                  && s'.sections[j].entries == s.sections[j].entries
                  && s'.sections[j].pending == s.sections[j].pending)
            && (|s.sections| < |s'.sections| ==>
                  && l.Lock? && s'.sections[|s.sections|].id == l.id
                  && s'.sections[|s.sections|].entries == Entries(s.out)
                  && s'.sections[|s.sections|].pending == PendingOf(s.out))
  {
  }

  /** What a section records of the device is what the device held when its thread took the lock. */
  lemma {:induction false} SectionBegan(out: Sink, labels: seq<Label>, n: nat, j: nat) returns (k: nat)
    requires n >= 1 && Run(out, labels, n).Some? && j < |Run(out, labels, n).value.sections|
    ensures var sec := Run(out, labels, n).value.sections[j];
            && k < |labels| && labels[k] == Lock(sec.id) && Run(out, labels[..k], n).Some?
            && var before := Run(out, labels[..k], n).value;
            && |before.sections| == j
            && Entries(before.out) == sec.entries && PendingOf(before.out) == sec.pending
  {
    var front := labels[..|labels| - 1];
    var s := Run(out, front, n).value;
    FollowSections(s, labels[|labels| - 1], n);
    if j < |s.sections| {
      k := SectionBegan(out, front, n, j);
      assert front[..k] == labels[..k];
    } else {
      k := |front|;
    }
  }

  /** A thread that has sent its response. */
  predicate Responded(s: Srv, id: nat) {
    id in s.threads && s.threads[id].Finished? && s.threads[id].section.Some? && s.threads[id].response.Some?
  }

  /** The response is the whole of what the output held when its thread released the lock. */
  lemma {:induction false} ResponseSent(out: Sink, labels: seq<Label>, n: nat, id: nat) returns (k: nat)
    requires n >= 1 && Run(out, labels, n).Some? && Responded(Run(out, labels, n).value, id)
    ensures var r := Run(out, labels, n).value.threads[id].response.value;
            && k < |labels| && labels[k] == Unlock(id, false) && Run(out, labels[..k], n).Some?
            && var at := Run(out, labels[..k], n).value;
            && r.bytes == Stored(at.out) && r.entries == Entries(at.out) && r.sections == |at.sections|
  {
    var front, l := labels[..|labels| - 1], labels[|labels| - 1];
    var s := Run(out, front, n).value;
    if l.id == id {
      k := |front|;
      assert PcInv(s, id, s.threads[id]) by { RunKeeps(out, front, n); }
    } else {
      k := ResponseSent(out, front, n, id);
      assert front[..k] == labels[..k];
    }
  }

  // ----- On the device, as long as every packet is complete

  predicate AllComplete(sections: seq<Section>, k: nat)
    requires k <= |sections|
  {
    forall i :: 0 <= i < k ==> sections[i].complete
  }

  /** Complete packets leave nothing pending, and one entry each. */
  predicate Tidy(s: Srv, d: Device) {
    s.out.Dev? && d.pending == [] ==>
      && (forall j :: 0 <= j < |s.sections| && AllComplete(s.sections, j) ==>
            s.sections[j].pending == [] && s.sections[j].entries == |d.committed| + j)
      && (AllComplete(s.sections, |s.sections|) ==>
            PendingOf(s.out) == [] && Entries(s.out) == |d.committed| + |s.sections|)
  }

  lemma LockIsTidy(s: Srv, l: Label, n: nat, d: Device)
    requires n >= 1 && l.Lock? && CanFollow(s, l, n) && Tidy(s, d)
    ensures Tidy(Follow(s, l, n), d)
  {
    var s' := Follow(s, l, n);
    if s'.out.Dev? && d.pending == [] && s'.sections != s.sections {
      assert s'.sections[..|s.sections|] == s.sections && !s'.sections[|s.sections|].complete;
      forall j | 0 <= j < |s'.sections| && AllComplete(s'.sections, j)
        ensures s'.sections[j].pending == [] && s'.sections[j].entries == |d.committed| + j
      {
        assert AllComplete(s.sections, j) by {
          assert forall i :: 0 <= i < j ==> s.sections[i] == s'.sections[i];
        }
      }
    }
  }

  lemma ReceiveIsTidy(s: Srv, l: Label, n: nat, d: Device)
    requires n >= 1 && l.Receive? && CanFollow(s, l, n) && Tidy(s, d) && PcInv(s, l.id, s.threads[l.id])
    ensures Tidy(Follow(s, l, n), d)
  {
    var s', k := Follow(s, l, n), |s.sections| - 1;
    if s'.out.Dev? && d.pending == [] {
      var sec := s.sections[k];
      assert forall i :: 0 <= i < k ==> s'.sections[i] == s.sections[i];
      assert forall j :: 0 <= j <= k ==> AllComplete(s'.sections, j) == AllComplete(s.sections, j);
      if AllComplete(s'.sections, k + 1) {
        assert s'.sections[k].complete && l.written.Count? && NEWLINE in l.chunk;
        ReceiveOnDevice(s.out.device, sec, l.chunk, l.written, n);
        assert AllComplete(s.sections, k);
      }
    }
  }

  lemma FollowTidy(s: Srv, l: Label, n: nat, d: Device)
    requires Inv(s) && n >= 1 && CanFollow(s, l, n) && Tidy(s, d)
    ensures Tidy(Follow(s, l, n), d)
  {
    match l {
      case Lock(_) => LockIsTidy(s, l, n, d);
      case Receive(id, _, _) =>
        assert PcInv(s, id, s.threads[id]);
        ReceiveIsTidy(s, l, n, d);
      case Stamp(id, _, _) => assert PcInv(s, id, s.threads[id]);
      case _ => assert Follow(s, l, n).out == s.out && Follow(s, l, n).sections == s.sections;
    }
  }

  lemma {:induction false} RunTidy(d: Device, labels: seq<Label>, n: nat)
    requires n >= 1 && Run(Dev(d), labels, n).Some?
    ensures Tidy(Run(Dev(d), labels, n).value, d)
  {
    if labels != [] {
      var front := labels[..|labels| - 1];
      RunTidy(d, front, n);
      assert Inv(Run(Dev(d), front, n).value) by { RunKeeps(Dev(d), front, n); }
      FollowTidy(Run(Dev(d), front, n).value, labels[|labels| - 1], n, d);
    }
  }
}
