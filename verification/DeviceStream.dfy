/**
  What the device holds in every reachable state of the server, also while a worker
  is receiving, and after one has failed in the middle of its packet.
 */
module DeviceStream {
  import opened Bytes
  import opened DeviceSpec
  import opened Histories
  import opened Output
  import opened Worker
  import opened ServerRun
  import opened ServerInvariant
  import opened Attribution

  /** Whether the bytes of a write with this result have reached the pending entry. */
  predicate Reaches(res: Result) {
    res.Count? || res == Error(EINTR)
  }

  /** What one step has put on the device, if it is a step of thread `id`. */
  function KeptOf(l: Label, id: nat, n: nat): seq<byte> {
    if l.Receive? && l.id == id && |l.chunk| <= n && Reaches(l.written) then Portion(l.chunk, n) else []
  }

  /** Everything that thread `id` has put on the device, in order. */
  function Kept(labels: seq<Label>, id: nat, n: nat): seq<byte> {
    if labels == [] then []
    else Kept(labels[..|labels| - 1], id, n) + KeptOf(labels[|labels| - 1], id, n)
  }

  /** What the threads `ids` have put on the device, one thread after the other. */
  function AllKept(labels: seq<Label>, ids: seq<nat>, n: nat): seq<byte> {
    if ids == [] then []
    else AllKept(labels, ids[..|ids| - 1], n) + Kept(labels, ids[|ids| - 1], n)
  }

  /** What all threads have put on the device, one after the other, in the order in which they took the lock. */
  function Stream(d: Device, labels: seq<Label>, n: nat): seq<byte>
    requires n >= 1 && Run(Dev(d), labels, n).Some?
  {
    AllKept(labels, Order(Run(Dev(d), labels, n).value.sections), n)
  }

  lemma {:induction false} NothingKept(labels: seq<Label>, id: nat, n: nat)
    requires TurnsOf(labels, id) == []
    ensures Kept(labels, id, n) == []
  {
    if labels != [] {
      NothingKept(labels[..|labels| - 1], id, n);
    }
  }

  lemma {:induction false} AllKeptSame(labels: seq<Label>, ids: seq<nat>, n: nat)
    requires labels != [] && forall i :: 0 <= i < |ids| ==> KeptOf(labels[|labels| - 1], ids[i], n) == []
    ensures AllKept(labels, ids, n) == AllKept(labels[..|labels| - 1], ids, n)
  {
    if ids != [] {
      AllKeptSame(labels, ids[..|ids| - 1], n);
    }
  }

  // ----- The stream grows at its end

  lemma ReceiveGrows(labels: seq<Label>, ids: seq<nat>, n: nat)
    requires labels != [] && labels[|labels| - 1].Receive? && ids != []
    requires ids[|ids| - 1] == labels[|labels| - 1].id
    requires forall i, j :: 0 <= i < j < |ids| ==> ids[i] != ids[j]
    ensures var front, l := labels[..|labels| - 1], labels[|labels| - 1];
            AllKept(labels, ids, n) == AllKept(front, ids, n) + KeptOf(l, l.id, n)
  {
    var front, id := labels[..|labels| - 1], ids[|ids| - 1];
    var others, piece := ids[..|ids| - 1], KeptOf(labels[|labels| - 1], id, n);
    AllKeptSame(labels, others, n);
    Associates(AllKept(front, others, n), Kept(front, id, n), piece);
  }

  lemma LockGrows(labels: seq<Label>, ids: seq<nat>, id: nat, n: nat)
    requires labels != [] && !labels[|labels| - 1].Receive? && TurnsOf(labels[..|labels| - 1], id) == []
    ensures AllKept(labels, ids + [id], n) == AllKept(labels[..|labels| - 1], ids, n)
  {
    var front := labels[..|labels| - 1];
    assert (ids + [id])[..|ids|] == ids;
    AllKeptSame(labels, ids, n);
    NothingKept(front, id, n);
  }

  /** The order of the threads after a step. */
  lemma OrderGrows(s: Srv, l: Label, n: nat)
    requires n >= 1 && CanFollow(s, l, n)
    ensures var ids, ids' := Order(s.sections), Order(Follow(s, l, n).sections);
            if |ids'| == |ids| then ids' == ids
            else l.Lock? && SectionOf(s.threads[l.id]) == None && ids' == ids + [l.id]
  {
    FollowSections(s, l, n);
    var ids, ids' := Order(s.sections), Order(Follow(s, l, n).sections);
    assert |ids'| == |ids| + 1 ==> ids'[..|ids|] == ids;
  }

  lemma StreamGrows(d: Device, labels: seq<Label>, n: nat)
    requires n >= 1 && labels != [] && Run(Dev(d), labels, n).Some?
    ensures var front, l := labels[..|labels| - 1], labels[|labels| - 1];
            Stream(d, labels, n) == Stream(d, front, n) + KeptOf(l, l.id, n)
  {
    var front, l := labels[..|labels| - 1], labels[|labels| - 1];
    var s := Run(Dev(d), front, n).value;
    var ids := Order(s.sections);
    OrderGrows(s, l, n);
    if l.Receive? {
      OrderDistinct(d, front, n);
      assert PcInv(s, l.id, s.threads[l.id]) by { RunKeeps(Dev(d), front, n); }
      assert ids[|ids| - 1] == l.id;
      ReceiveGrows(labels, ids, n);
    } else {
      assert KeptOf(l, l.id, n) == [] && Stream(d, front, n) + [] == Stream(d, front, n);
      if |Order(Follow(s, l, n).sections)| == |ids| {
        AllKeptSame(labels, ids, n);
      } else {
        RunOwns(Dev(d), front, n, l.id);
        LockGrows(labels, ids, l.id, n);
      }
    }
  }

  lemma OrderDistinct(d: Device, labels: seq<Label>, n: nat)
    requires n >= 1 && Run(Dev(d), labels, n).Some?
    ensures var ids := Order(Run(Dev(d), labels, n).value.sections);
            forall i, j :: 0 <= i < j < |ids| ==> ids[i] != ids[j]
  {
    var s := Run(Dev(d), labels, n).value;
    assert SectionsInv(s) by { RunKeeps(Dev(d), labels, n); }
    var ids := Order(s.sections);
    forall i, j | 0 <= i < j < |ids| ensures ids[i] != ids[j] {
      assert SectionOf(s.threads[s.sections[i].id]) == Some(i) && SectionOf(s.threads[s.sections[j].id]) == Some(j);
    }
  }

  // ----- Conservation

  /** All bytes ever committed, then those pending. */
  function Flow(d: Device): seq<byte> {
    Flatten(d.committed) + d.pending
  }

  lemma EffectFlow(d: Device, data: seq<byte>, res: Result)
    ensures Flow(Effect(d, Op.Write(data), res)) == Flow(d) + if Reaches(res) then data else []
  {
    if Reaches(res) {
      Associates(Flatten(d.committed), d.pending, data);
      FlattenSnoc(d.committed, d.pending + data);
    }
  }

  /** What one step does to the device. */
  lemma FollowDevice(s: Srv, l: Label, n: nat)
    requires n >= 1 && CanFollow(s, l, n) && s.out.Dev?
    requires l.id in s.threads ==> PcInv(s, l.id, s.threads[l.id])
    ensures Follow(s, l, n).out ==
            if l.Receive? then Dev(Effect(s.out.device, Op.Write(Portion(l.chunk, n)), l.written)) else s.out
  {
  }

  lemma RunDevice(d: Device, labels: seq<Label>, n: nat)
    requires n >= 1 && labels != [] && Run(Dev(d), labels, n).Some?
    ensures var front, l := labels[..|labels| - 1], labels[|labels| - 1];
            var s, s' := Run(Dev(d), front, n).value, Run(Dev(d), labels, n).value;
            && s.out.Dev? && s'.out.Dev? && (l.Receive? ==> |l.chunk| <= n)
            && s'.out.device ==
               if l.Receive? then Effect(s.out.device, Op.Write(Portion(l.chunk, n)), l.written) else s.out.device
  {
    var front, l := labels[..|labels| - 1], labels[|labels| - 1];
    assert ThreadsInv(Run(Dev(d), front, n).value) by { RunKeeps(Dev(d), front, n); }
    RunBase(Dev(d), front, n);
    FollowDevice(Run(Dev(d), front, n).value, l, n);
  }

  /**
    In every reachable state the bytes ever committed and those pending are what was
    there at the start, followed by all that each thread has put on the device, one
    thread after the other, no thread broken by another, and none missing.
   */
  lemma DeviceIsSections(d: Device, labels: seq<Label>, n: nat)
    requires n >= 1 && Run(Dev(d), labels, n).Some?
    ensures var s := Run(Dev(d), labels, n).value;
            var ids := Order(s.sections);
            && s.out.Dev? && Flow(s.out.device) == Flow(d) + AllKept(labels, ids, n)
            && (forall i, j :: 0 <= i < j < |ids| ==> ids[i] != ids[j])
            && (forall id :: Kept(labels, id, n) != [] ==> id in ids)
  {
    OrderDistinct(d, labels, n);
    assert Flow(Run(Dev(d), labels, n).value.out.device) == Flow(d) + Stream(d, labels, n) by {
      FlowIsStream(d, labels, n);
    }
    forall id | Kept(labels, id, n) != [] ensures id in Order(Run(Dev(d), labels, n).value.sections) {
      KeeperHasSection(d, labels, n, id);
    }
    RunBase(Dev(d), labels, n);
  }

  lemma {:induction false} FlowIsStream(d: Device, labels: seq<Label>, n: nat)
    requires n >= 1 && Run(Dev(d), labels, n).Some?
    ensures var s := Run(Dev(d), labels, n).value;
            s.out.Dev? && Flow(s.out.device) == Flow(d) + Stream(d, labels, n)
  {
    if labels == [] {
      assert Flow(d) + [] == Flow(d);
    } else {
      var front, l := labels[..|labels| - 1], labels[|labels| - 1];
      FlowIsStream(d, front, n);
      RunDevice(d, labels, n);
      StreamGrows(d, labels, n);
      Associates(Flow(d), Stream(d, front, n), KeptOf(l, l.id, n));
      if l.Receive? {
        EffectFlow(Run(Dev(d), front, n).value.out.device, Portion(l.chunk, n), l.written);
      }
    }
  }

  lemma KeeperHasSection(d: Device, labels: seq<Label>, n: nat, id: nat)
    requires n >= 1 && Run(Dev(d), labels, n).Some? && Kept(labels, id, n) != []
    ensures id in Order(Run(Dev(d), labels, n).value.sections)
  {
    var s := Run(Dev(d), labels, n).value;
    if TurnsOf(labels, id) == [] {
      NothingKept(labels, id, n);
    }
    RunOwns(Dev(d), labels, n, id);
    assert PcInv(s, id, s.threads[id]) by { RunKeeps(Dev(d), labels, n); }
    assert Order(s.sections)[SectionOf(s.threads[id]).value] == id;
  }

  // ----- Lines

  /** The device `dev` is `d` with the lines of `stream` as further entries; what follows them is pending. */
  predicate HasLines(dev: Device, d: Device, stream: seq<byte>) {
    && dev.capacity == d.capacity
    && dev.committed == d.committed + Split(d.pending + stream).0
    && dev.pending == Split(d.pending + stream).1
  }

  /** A step that leaves a line pending: the write of its last bytes was interrupted at the ring's lock. */
  predicate LeavesLine(l: Label) {
    l.Receive? && l.written == Error(EINTR) && NEWLINE in l.chunk
  }

  /** Bytes without a newline, or a line whose write was not interrupted. */
  lemma EffectKeepsLines(dev: Device, d: Device, stream: seq<byte>, data: seq<byte>, res: Result)
    requires HasLines(dev, d, stream) && Reaches(res) && data != []
    requires NEWLINE !in data || (OneLine(data) && res.Count?)
    ensures HasLines(Effect(dev, Op.Write(data), res), d, stream + data)
  {
    var s, rest := d.pending + stream, dev.pending;
    Associates(d.pending, stream, data);
    SplitAppend(s, data);
    SplitShape(s);
    if NEWLINE in data {
      assert (rest + data)[..|rest + data| - 1] == rest + data[..|data| - 1];
      SplitLine(rest + data);
      LineCommits(dev, data);
      Associates(d.committed, Split(s).0, [rest + data]);
    } else {
      PieceStaysPending(dev, data);
      assert Split(s).0 + [] == Split(s).0;
    }
  }

  /** What stays pending of a line is no longer what follows the lines. */
  lemma PendingLineBreaks(dev: Device, d: Device, stream: seq<byte>, data: seq<byte>)
    requires NEWLINE in data
    ensures !HasLines(Append(dev, data), d, stream + data)
  {
    SplitShape(d.pending + (stream + data));
    var j := IndexOf(data, NEWLINE);
    assert (dev.pending + data)[|dev.pending| + j] == NEWLINE;
  }

  /** The device has held the lines of the stream in this state and in all earlier ones of the run. */
  ghost predicate AlwaysLines(d: Device, labels: seq<Label>, n: nat)
    requires n >= 1 && Run(Dev(d), labels, n).Some?
    decreases |labels|
  {
    var s := Run(Dev(d), labels, n).value;
    && s.out.Dev? && HasLines(s.out.device, d, Stream(d, labels, n))
    && (labels != [] ==> AlwaysLines(d, labels[..|labels| - 1], n))
  }

  lemma StepOnLines(d: Device, labels: seq<Label>, n: nat)
    requires n >= 1 && labels != [] && Run(Dev(d), labels, n).Some?
    requires var front := labels[..|labels| - 1];
             var s := Run(Dev(d), front, n).value;
             s.out.Dev? && HasLines(s.out.device, d, Stream(d, front, n))
    ensures var s := Run(Dev(d), labels, n).value;
            && s.out.Dev?
            && (HasLines(s.out.device, d, Stream(d, labels, n)) <==> !LeavesLine(labels[|labels| - 1]))
  {
    var front, l := labels[..|labels| - 1], labels[|labels| - 1];
    var dev, stream := Run(Dev(d), front, n).value.out.device, Stream(d, front, n);
    RunDevice(d, labels, n);
    StreamGrows(d, labels, n);
    assert stream + [] == stream;
    if l.Receive? && Reaches(l.written) {
      if LeavesLine(l) {
        PortionIsLine(l.chunk, n);
        PendingLineBreaks(dev, d, stream, Portion(l.chunk, n));
      } else {
        if NEWLINE in l.chunk { PortionIsLine(l.chunk, n); } else { PortionIsPiece(l.chunk, n); }
        EffectKeepsLines(dev, d, stream, Portion(l.chunk, n), l.written);
      }
    }
  }

  /**
    The entries added are at all times the lines of what the threads have put on the
    device, and what follows the last of them is pending, if and only if no line was
    pending at the start and no write that ends a line was interrupted.
   */
  lemma {:induction false} DeviceHoldsLines(d: Device, labels: seq<Label>, n: nat)
    requires n >= 1 && Run(Dev(d), labels, n).Some?
    ensures AlwaysLines(d, labels, n) <==>
            NEWLINE !in d.pending && forall i :: 0 <= i < |labels| ==> !LeavesLine(labels[i])
    decreases |labels|
  {
    if labels == [] {
      assert d.pending + [] == d.pending && d.committed + [] == d.committed;
    } else {
      var front, l := labels[..|labels| - 1], labels[|labels| - 1];
      assert labels == front + [l];
      DeviceHoldsLines(d, front, n);
      if AlwaysLines(d, front, n) {
        StepOnLines(d, labels, n);
      }
    }
  }
}
