/**
  Which workers respond to their clients: what the labels of a run say about the
  outcome of each worker, and that a worker that is left alone does respond.
 */
module WorkerOutcomes {
  import opened Bytes
  import opened DeviceSpec
  import opened Output
  import opened Worker
  import opened ServerRun
  import opened ServerInvariant
  import opened Attribution

  /** A failure of thread `id`, or the shutdown flag found set. */
  predicate Disturbs(l: Label, id: nat) {
    l == Fail(id) || l == Unlock(id, true)
  }

  predicate Disturbed(labels: seq<Label>, id: nat) {
    Fail(id) in labels || Unlock(id, true) in labels
  }

  lemma GoingOn(turns: seq<Turn>)
    requires Going(turns)
    ensures !Completed(turns)
  {
    CompletedEnds(turns);
    assert forall k :: 0 <= k < |turns| ==> !EndsPacket(turns, k);
  }

  /** What a thread with these turns has come to. */
  predicate Stage(s: Srv, id: nat, turns: seq<Turn>, disturbed: bool) {
    if id !in s.threads then turns == [] && !disturbed
    else
      match s.threads[id]
      case WantReceive => turns == [] && !disturbed
      case WantStamp => turns == [] && !disturbed
      case Receiving(_) => Going(turns) && !disturbed
      case Received(_, ok) => ok <==> Completed(turns) && !disturbed
      case WantSend(_) => Completed(turns) && !disturbed
      case Sending(_, _) => Completed(turns) && !disturbed
      case Sent(_, _, ok) => Completed(turns) && (ok <==> !disturbed)
      case Stamping(_) => turns == []
      case Stamped(_) => turns == []
      case Finished(_, response) => response.Some? <==> Completed(turns) && !disturbed
  }

  lemma ReceiveStage(s: Srv, l: Label, n: nat, turns: seq<Turn>)
    requires n >= 1 && l.Receive? && CanFollow(s, l, n) && Fitting(turns, n) && Stage(s, l.id, turns, false)
    ensures Stage(Follow(s, l, n), l.id, turns + TurnOf(l, l.id), false)
  {
    TurnIsAdded(turns, l.chunk, l.written, n);
  }

  /** A step of thread `id` other than receiving a chunk. */
  lemma OwnStage(s: Srv, l: Label, n: nat, turns: seq<Turn>, disturbed: bool)
    requires n >= 1 && !l.Receive? && CanFollow(s, l, n) && Stage(s, l.id, turns, disturbed)
    ensures Stage(Follow(s, l, n), l.id, turns, disturbed || Disturbs(l, l.id))
  {
    if Going(turns) {
      GoingOn(turns);
    }
  }

  lemma FollowStage(s: Srv, l: Label, n: nat, id: nat, turns: seq<Turn>, disturbed: bool)
    requires n >= 1 && CanFollow(s, l, n) && Fitting(turns, n) && Stage(s, id, turns, disturbed)
    ensures Stage(Follow(s, l, n), id, turns + TurnOf(l, id), disturbed || Disturbs(l, id))
  {
    assert turns + [] == turns;
    if id != l.id {
      assert id in Follow(s, l, n).threads <==> id in s.threads;
      assert id in s.threads ==> Follow(s, l, n).threads[id] == s.threads[id];
    } else if l.Receive? {
      ReceiveStage(s, l, n, turns);
    } else {
      OwnStage(s, l, n, turns, disturbed);
    }
  }

  lemma {:induction false} RunStage(out: Sink, labels: seq<Label>, n: nat, id: nat)
    requires n >= 1 && Run(out, labels, n).Some?
    ensures Stage(Run(out, labels, n).value, id, TurnsOf(labels, id), Disturbed(labels, id))
  {
    if labels != [] {
      var front, l := labels[..|labels| - 1], labels[|labels| - 1];
      assert labels == front + [l];
      RunStage(out, front, n, id);
      assert Fitting(TurnsOf(front, id), n) by { RunOwns(out, front, n, id); }
      FollowStage(Run(out, front, n).value, l, n, id, TurnsOf(front, id), Disturbed(front, id));
    }
  }

  /**
    A worker that has finished has responded if and only if it received a whole
    packet, nothing failed, and it did not find the shutdown flag set.
   */
  lemma RespondedExactly(out: Sink, labels: seq<Label>, n: nat, id: nat)
    requires n >= 1 && Run(out, labels, n).Some?
    requires id in Run(out, labels, n).value.threads && Run(out, labels, n).value.threads[id].Finished?
    ensures Responded(Run(out, labels, n).value, id) <==>
            && Completed(TurnsOf(labels, id))
            && Fail(id) !in labels && Unlock(id, true) !in labels
  {
    var s := Run(out, labels, n).value;
    RunStage(out, labels, n, id);
    assert PcInv(s, id, s.threads[id]) by { RunKeeps(out, labels, n); }
  }

  // ----- A worker that is left alone responds

  /** The run with one more step. */
  lemma OneStep(out: Sink, labels: seq<Label>, l: Label, n: nat)
    requires n >= 1 && Run(out, labels, n).Some? && CanFollow(Run(out, labels, n).value, l, n)
    ensures Run(out, labels + [l], n) == Some(Follow(Run(out, labels, n).value, l, n))
  {
    assert (labels + [l])[..|labels|] == labels;
  }

  /** Any turns of the receiving loop can happen, and write what `receive_data` writes. */
  lemma {:induction false} CanReceive(out: Sink, labels: seq<Label>, n: nat, id: nat, turns: seq<Turn>)
    returns (labels': seq<Label>)
    requires n >= 1 && Run(out, labels, n).Some? && Fitting(turns, n)
    requires id in Run(out, labels, n).value.threads && Run(out, labels, n).value.threads[id].Receiving?
    ensures labels <= labels' && Run(out, labels', n).Some?
    ensures var s, s' := Run(out, labels, n).value, Run(out, labels', n).value;
            && id in s'.threads && (Completed(turns) ==> s'.threads[id] == Received(s.threads[id].j, true))
            && s'.out == ApplyCalls(s.out, WriteCalls(turns, n))
    decreases |turns|
  {
    var s := Run(out, labels, n).value;
    if turns == [] || turns[0].shutdown || turns[0].recv.RecvFails? {
      labels' := labels;
    } else {
      var t := turns[0];
      var l := Receive(id, t.recv.bytes, t.written);
      OneStep(out, labels, l, n);
      var ends := NEWLINE in t.recv.bytes || !t.written.Count?;
      var rest := if ends then [] else WriteCalls(turns[1..], n);
      var calls := [WriteCall(Portion(t.recv.bytes, n), t.written)] + rest;
      assert WriteCalls(turns, n) == calls && calls[1..] == rest;
      assert Follow(s, l, n).out == WriteTo(s.out, Portion(t.recv.bytes, n), t.written);
      if ends {
        labels' := labels + [l];
      } else {
        labels' := CanReceive(out, labels + [l], n, id, turns[1..]);
      }
    }
  }

  lemma {:induction false} CanSend(out: Sink, labels: seq<Label>, n: nat, id: nat) returns (labels': seq<Label>)
    requires n >= 1 && Run(out, labels, n).Some?
    requires id in Run(out, labels, n).value.threads && Run(out, labels, n).value.threads[id].Sending?
    ensures labels <= labels' && Run(out, labels', n).Some?
    ensures var s, s' := Run(out, labels, n).value, Run(out, labels', n).value;
            && id in s'.threads && s'.out == s.out
            && s'.threads[id] == Sent(s.threads[id].j, Stored(s.out), true)
    decreases |Stored(Run(out, labels, n).value.out)| - |Run(out, labels, n).value.threads[id].sent|
  {
    var s, l := Run(out, labels, n).value, ReadBack(id);
    assert PcInv(s, id, s.threads[id]) by { RunKeeps(out, labels, n); }
    ReadFromIsSlice(s.out, |s.threads[id].sent|, n);
    OneStep(out, labels, l, n);
    if ReadFrom(s.out, |s.threads[id].sent|, n) == [] {
      labels' := labels + [l];
    } else {
      assert PcInv(Follow(s, l, n), id, Follow(s, l, n).threads[id]) by { RunKeeps(out, labels + [l], n); }
      labels' := CanSend(out, labels + [l], n, id);
    }
  }

  /**
    From any state in which the lock is free, a new worker whose client sends a whole
    packet can go on to its end without another thread: it writes what
    `receive_data` writes, and responds with all that the output then holds.
   */
  lemma WorkerResponds(out: Sink, labels: seq<Label>, n: nat, id: nat, turns: seq<Turn>)
    returns (labels': seq<Label>)
    requires n >= 1 && Run(out, labels, n).Some? && Completed(turns) && Fitting(turns, n)
    requires Run(out, labels, n).value.lock.None? && id !in Run(out, labels, n).value.threads
    ensures labels <= labels' && Run(out, labels', n).Some?
    ensures var s, s' := Run(out, labels, n).value, Run(out, labels', n).value;
            && s'.lock.None? && Responded(s', id)
            && s'.out == ApplyCalls(s.out, WriteCalls(turns, n))
            && s'.threads[id].response.value.bytes == Stored(s'.out)
  {
    var begun := labels + [Start(id, false)];
    OneStep(out, labels, Start(id, false), n);
    OneStep(out, begun, Lock(id), n);
    var received := CanReceive(out, begun + [Lock(id)], n, id, turns);
    OneStep(out, received, Unlock(id, false), n);
    OneStep(out, received + [Unlock(id, false)], Lock(id), n);
    var sent := CanSend(out, received + [Unlock(id, false)] + [Lock(id)], n, id);
    OneStep(out, sent, Unlock(id, false), n);
    labels' := sent + [Unlock(id, false)];
  }

  /** So can a timer tick: it appends its text, if its write succeeds. */
  lemma TimerStamps(content: seq<byte>, labels: seq<Label>, n: nat, id: nat, text: seq<byte>, written: Result)
    returns (labels': seq<Label>)
    requires n >= 1 && Run(File(content), labels, n).Some?
    requires Run(File(content), labels, n).value.lock.None? && id !in Run(File(content), labels, n).value.threads
    ensures labels <= labels' && Run(File(content), labels', n).Some?
    ensures var s, s' := Run(File(content), labels, n).value, Run(File(content), labels', n).value;
            && s.out.File? && s'.lock.None? && id in s'.threads && s'.threads[id].Finished?
            && s'.out == File(s.out.content + if written.Count? then text else [])
  {
    RunBase(File(content), labels, n);
    var begun := labels + [Start(id, true)];
    OneStep(File(content), labels, Start(id, true), n);
    OneStep(File(content), begun, Lock(id), n);
    OneStep(File(content), begun + [Lock(id)], Stamp(id, text, written), n);
    OneStep(File(content), begun + [Lock(id)] + [Stamp(id, text, written)], Unlock(id, false), n);
    labels' := begun + [Lock(id)] + [Stamp(id, text, written)] + [Unlock(id, false)];
    var was := Run(File(content), labels, n).value.out.content;
    assert was + [] == was;
  }
}
