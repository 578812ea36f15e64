/**
  What holds of every run of the server: any number of workers and timer ticks,
  however their sections interleave, and whichever operations fail.
 */
module ServerTheorems {
  import opened Bytes
  import opened DeviceSpec
  import opened Output
  import opened Worker
  import opened ServerRun
  import opened ServerInvariant
  import opened Attribution

  /** What the threads `ids` have written, one thread after the other. */
  function Contributions(labels: seq<Label>, ids: seq<nat>, n: nat): seq<byte> {
    if ids == [] then []
    else Contributions(labels, ids[..|ids| - 1], n) + Contribution(labels, ids[|ids| - 1], n)
  }

  lemma {:induction false} SectionsAreContributions(labels: seq<Label>, sections: seq<Section>, n: nat)
    requires forall j :: 0 <= j < |sections| ==> sections[j].data == Contribution(labels, sections[j].id, n)
    ensures DataOfAll(sections) == Contributions(labels, Order(sections), n)
  {
    if sections != [] {
      var front := sections[..|sections| - 1];
      SectionsAreContributions(labels, front, n);
      assert Order(sections)[..|sections| - 1] == Order(front);
    }
  }

  // ----- Plain-file mode

  /**
    In every reachable state the file is what it was at the start, followed by all
    that each thread has written, one thread after the other: no contribution is
    broken by another thread's, and none is missing.
   */
  lemma FileIsSections(content: seq<byte>, labels: seq<Label>, n: nat)
    requires n >= 1 && Run(File(content), labels, n).Some?
    ensures var s := Run(File(content), labels, n).value;
            var ids := Order(s.sections);
            && s.out == File(content + Contributions(labels, ids, n))
            && (forall i, j :: 0 <= i < j < |ids| ==> ids[i] != ids[j])
            && (forall id :: Contribution(labels, id, n) != [] ==> id in ids)
  {
    RunKeeps(File(content), labels, n);
    RunBase(File(content), labels, n);
    var s := Run(File(content), labels, n).value;
    var ids := Order(s.sections);
    forall i, j | 0 <= i < j < |ids| ensures ids[i] != ids[j] {
      assert SectionOf(s.threads[s.sections[i].id]) == Some(i);
    }
    forall j | 0 <= j < |s.sections| ensures s.sections[j].data == Contribution(labels, s.sections[j].id, n) {
      SectionIsContribution(File(content), labels, n, j);
    }
    SectionsAreContributions(labels, s.sections, n);
    forall id | Contribution(labels, id, n) != [] ensures id in ids {
      WriterHasSection(File(content), labels, n, id);
    }
  }

  lemma WriterHasSection(out: Sink, labels: seq<Label>, n: nat, id: nat)
    requires n >= 1 && Run(out, labels, n).Some? && Contribution(labels, id, n) != []
    ensures id in Order(Run(out, labels, n).value.sections)
  {
    var s := Run(out, labels, n).value;
    RunOwns(out, labels, n, id);
    assert PcInv(s, id, s.threads[id]) by { RunKeeps(out, labels, n); }
    assert Order(s.sections)[SectionOf(s.threads[id]).value] == id;
  }

  lemma {:induction false} DataOfAllPrefix(sections: seq<Section>, k: nat)
    requires k <= |sections|
    ensures DataOfAll(sections[..k]) <= DataOfAll(sections)
  {
    if k < |sections| {
      var front := sections[..|sections| - 1];
      DataOfAllPrefix(front, k);
      assert front[..k] == sections[..k];
    } else {
      assert sections[..k] == sections;
    }
  }

  /**
    A response is a prefix of the file from then on, and contains the whole packet
    of its worker, behind what the threads that were earlier have written.
   */
  lemma FileResponse(content: seq<byte>, labels: seq<Label>, n: nat, id: nat)
    requires n >= 1 && Run(File(content), labels, n).Some?
    requires Responded(Run(File(content), labels, n).value, id)
    ensures var s := Run(File(content), labels, n).value;
            var ids, j, bytes := Order(s.sections), s.threads[id].section.value, s.threads[id].response.value.bytes;
            && s.out.File? && bytes <= s.out.content
            && j < |ids| && ids[j] == id
            && content + Contributions(labels, ids[..j], n) + Contribution(labels, id, n) <= bytes
            && IsPacket(Contribution(labels, id, n), TurnsOf(labels, id), n)
  {
    var s := Run(File(content), labels, n).value;
    assert FileInv(s) && PcInv(s, id, s.threads[id]) by { RunKeeps(File(content), labels, n); }
    RunBase(File(content), labels, n);
    var j, r := s.threads[id].section.value, s.threads[id].response.value;
    assert r.bytes <= s.out.content by {
      DataOfAllPrefix(s.sections, r.sections);
      PrefixBehind(content, DataOfAll(s.sections[..r.sections]), DataOfAll(s.sections));
    }
    ResponseHasOwn(s.sections, content, j, r.sections);
    CompleteIsPacket(File(content), labels, n, j);
    assert s.sections[j].data == Contribution(labels, id, n) by { SectionIsContribution(File(content), labels, n, j); }
    EarlierSections(File(content), labels, n, j);
  }

  lemma EarlierSections(out: Sink, labels: seq<Label>, n: nat, j: nat)
    requires n >= 1 && Run(out, labels, n).Some? && j <= |Run(out, labels, n).value.sections|
    ensures var sections := Run(out, labels, n).value.sections;
            DataOfAll(sections[..j]) == Contributions(labels, Order(sections)[..j], n)
  {
    var sections := Run(out, labels, n).value.sections;
    forall i | 0 <= i < j ensures sections[..j][i].data == Contribution(labels, sections[..j][i].id, n) {
      SectionIsContribution(out, labels, n, i);
    }
    SectionsAreContributions(labels, sections[..j], n);
    assert Order(sections[..j]) == Order(sections)[..j];
  }

  lemma OwnPrefix(sections: seq<Section>, j: nat, k: nat)
    requires j < k <= |sections|
    ensures DataOfAll(sections[..j]) + sections[j].data <= DataOfAll(sections[..k])
  {
    DataOfAllUpTo(sections, j);
    DataOfAllPrefix(sections[..k], j + 1);
    assert sections[..k][..j + 1] == sections[..j + 1];
  }

  lemma ResponseHasOwn(sections: seq<Section>, base: seq<byte>, j: nat, k: nat)
    requires j < k <= |sections|
    ensures base + DataOfAll(sections[..j]) + sections[j].data <= base + DataOfAll(sections[..k])
  {
    OwnPrefix(sections, j, k);
    PrefixBehind(base, DataOfAll(sections[..j]) + sections[j].data, DataOfAll(sections[..k]));
    Associates(base, DataOfAll(sections[..j]), sections[j].data);
  }

  lemma DataOfAllUpTo(sections: seq<Section>, j: nat)
    requires j < |sections|
    ensures DataOfAll(sections[..j + 1]) == DataOfAll(sections[..j]) + sections[j].data
  {
    assert sections[..j + 1] == sections[..j] + [sections[j]];
    DataOfAllSnoc(sections[..j], sections[j]);
  }

  lemma PrefixBehind<T>(base: seq<T>, a: seq<T>, b: seq<T>)
    requires a <= b
    ensures base + a <= base + b
  {
  }

  /** Of any two responses, one is a prefix of the other. */
  lemma ResponsesAreOrdered(content: seq<byte>, labels: seq<Label>, n: nat, id1: nat, id2: nat)
    requires n >= 1 && Run(File(content), labels, n).Some?
    requires Responded(Run(File(content), labels, n).value, id1) && Responded(Run(File(content), labels, n).value, id2)
    ensures var s := Run(File(content), labels, n).value;
            var a, b := s.threads[id1].response.value.bytes, s.threads[id2].response.value.bytes;
            a <= b || b <= a
  {
    FileResponse(content, labels, n, id1);
    FileResponse(content, labels, n, id2);
    var s := Run(File(content), labels, n).value;
    var a, b := s.threads[id1].response.value.bytes, s.threads[id2].response.value.bytes;
    assert a == s.out.content[..|a|] && b == s.out.content[..|b|];
  }

  // ----- Character-device mode

  /** Every worker that was earlier received a whole packet. */
  predicate EarlierComplete(labels: seq<Label>, ids: seq<nat>, j: nat)
    requires j <= |ids|
  {
    forall i :: 0 <= i < j ==> Completed(TurnsOf(labels, ids[i]))
  }

  lemma EarlierAreComplete(out: Sink, labels: seq<Label>, n: nat, j: nat)
    requires n >= 1 && Run(out, labels, n).Some? && j <= |Run(out, labels, n).value.sections|
    requires EarlierComplete(labels, Order(Run(out, labels, n).value.sections), j)
    ensures AllComplete(Run(out, labels, n).value.sections, j)
  {
    var s := Run(out, labels, n).value;
    forall i | 0 <= i < j ensures s.sections[i].complete {
      SectionIsContribution(out, labels, n, i);
      assert Order(s.sections)[i] == s.sections[i].id;
    }
  }

  /**
    Where the entry of section `j` is on the device, and of what it consists: what
    was pending when the worker took the lock, then its packet; so it is the packet if
    and only if nothing was pending then, as is so if every earlier worker received a
    whole packet.
   */
  ghost predicate EntryIsPacket(d: Device, labels: seq<Label>, n: nat, s: Srv, j: nat) {
    && s.out.Dev? && j < |s.sections|
    && s.out.device.capacity == d.capacity && d.committed <= s.out.device.committed
    && var sec, all, packet := s.sections[j], s.out.device.committed, Contribution(labels, s.sections[j].id, n);
    && IsPacket(packet, TurnsOf(labels, sec.id), n)
    && sec.entries < |all| && all[sec.entries] == sec.pending + packet
    && (all[sec.entries] == packet <==> sec.pending == [])
    && (d.pending == [] && EarlierComplete(labels, Order(s.sections), j) ==>
          sec.entries == |d.committed| + j && all[sec.entries] == packet)
  }

  lemma CompleteEntry(d: Device, labels: seq<Label>, n: nat, j: nat)
    requires n >= 1 && Run(Dev(d), labels, n).Some?
    requires j < |Run(Dev(d), labels, n).value.sections| && Run(Dev(d), labels, n).value.sections[j].complete
    ensures EntryIsPacket(d, labels, n, Run(Dev(d), labels, n).value, j)
  {
    var s := Run(Dev(d), labels, n).value;
    RunBase(Dev(d), labels, n);
    assert SectionInv(s.out, s.sections[j]) by { RunKeeps(Dev(d), labels, n); }
    SectionIsContribution(Dev(d), labels, n, j);
    CompleteIsPacket(Dev(d), labels, n, j);
    if d.pending == [] && EarlierComplete(labels, Order(s.sections), j) {
      EarlierAreComplete(Dev(d), labels, n, j);
      RunTidy(d, labels, n);
      assert [] + s.sections[j].data == s.sections[j].data;
    }
  }

  /** Entry `i` of the window is `pending` and `packet`, and so `packet` is where that entry is in the content. */
  predicate Shows(window: seq<seq<byte>>, i: nat, pending: seq<byte>, packet: seq<byte>)
    requires i < |window|
  {
    var at := |Flatten(window[..i])| + |pending|;
    && window[i] == pending + packet
    && at + |packet| <= |Flatten(window)| && Flatten(window)[at..at + |packet|] == packet
  }

  lemma EntryShows(window: seq<seq<byte>>, i: nat, pending: seq<byte>, packet: seq<byte>)
    requires i < |window| && window[i] == pending + packet
    ensures Shows(window, i, pending, packet)
  {
    var before, after := Flatten(window[..i]), Flatten(window[i + 1..]);
    assert window == window[..i] + ([window[i]] + window[i + 1..]);
    FlattenAppend(window[..i], [window[i]] + window[i + 1..]);
    FlattenAppend([window[i]], window[i + 1..]);
    FlattenSingle(window[i]);
    assert Flatten(window) == before + ((pending + packet) + after);
  }

  /** The window over the first `k` entries shows entry `own` exactly if fewer than `capacity` came behind it. */
  lemma WindowShows(all: seq<seq<byte>>, k: nat, capacity: nat, own: nat, pending: seq<byte>, packet: seq<byte>)
    requires own < k <= |all| && all[own] == pending + packet
    ensures var window := LastN(all[..k], capacity);
            var first := k - |window|;
            && (first <= own <==> k - own - 1 < capacity)
            && (first <= own ==> Shows(window, own - first, pending, packet))
  {
    var window := LastN(all[..k], capacity);
    var first := k - |window|;
    if first <= own {
      assert window[own - first] == all[own];
      EntryShows(window, own - first, pending, packet);
    }
  }

  /**
    End to end, with this server as the only writer: a worker that has responded
    has committed its packet as one entry.  Its response is the concatenation of
    the last entries at that time; that entry is one of them, and the packet a slice
    of the response, if and only if fewer entries than the device holds had been
    added since.
   */
  lemma DeviceResponse(d: Device, labels: seq<Label>, n: nat, id: nat)
    requires n >= 1 && Run(Dev(d), labels, n).Some?
    requires Responded(Run(Dev(d), labels, n).value, id)
    ensures var s := Run(Dev(d), labels, n).value;
            var j, r := s.threads[id].section.value, s.threads[id].response.value;
            && EntryIsPacket(d, labels, n, s, j) && s.sections[j].id == id
            && var own, all := s.sections[j].entries, s.out.device.committed;
            && own < r.entries <= |all|
            && var window := LastN(all[..r.entries], d.capacity);
            && r.bytes == Flatten(window)
            && var first := r.entries - |window|;
            && (first <= own <==> r.entries - own - 1 < d.capacity)
            && (first <= own ==>
                  Shows(window, own - first, s.sections[j].pending, Contribution(labels, id, n)))
  {
    var s := Run(Dev(d), labels, n).value;
    RunBase(Dev(d), labels, n);
    assert PcInv(s, id, s.threads[id]) by { RunKeeps(Dev(d), labels, n); }
    var j, r := s.threads[id].section.value, s.threads[id].response.value;
    CompleteEntry(d, labels, n, j);
    var sec := s.sections[j];
    WindowShows(s.out.device.committed, r.entries, d.capacity, sec.entries, sec.pending, Contribution(labels, id, n));
  }

  /** A worker that has received its whole packet has committed exactly one entry. */
  lemma DevicePacketIsOneEntry(d: Device, labels: seq<Label>, n: nat, id: nat)
    requires n >= 1 && Run(Dev(d), labels, n).Some?
    requires var s := Run(Dev(d), labels, n).value;
             id in s.threads && s.threads[id].Received? && s.threads[id].ok
    ensures var s := Run(Dev(d), labels, n).value;
            var j := s.threads[id].j;
            && EntryIsPacket(d, labels, n, s, j) && s.sections[j].id == id
            && |s.out.device.committed| == s.sections[j].entries + 1
  {
    var s := Run(Dev(d), labels, n).value;
    RunBase(Dev(d), labels, n);
    assert PcInv(s, id, s.threads[id]) by { RunKeeps(Dev(d), labels, n); }
    CompleteEntry(d, labels, n, s.threads[id].j);
  }

  /** The packets of the threads `ids`, in order. */
  function Packets(labels: seq<Label>, ids: seq<nat>, n: nat): seq<seq<byte>> {
    seq(|ids|, j requires 0 <= j < |ids| => Contribution(labels, ids[j], n))
  }

  lemma PacketAt(d: Device, labels: seq<Label>, n: nat, s: Srv, j: nat)
    requires d.pending == [] && EntryIsPacket(d, labels, n, s, j)
    requires EarlierComplete(labels, Order(s.sections), |s.sections|)
    ensures |d.committed| + j < |s.out.device.committed|
    ensures s.out.device.committed[|d.committed| + j] == Packets(labels, Order(s.sections), n)[j]
  {
    assert EarlierComplete(labels, Order(s.sections), j);
    assert Order(s.sections)[j] == s.sections[j].id;
  }

  lemma DeviceCounts(d: Device, labels: seq<Label>, n: nat)
    requires n >= 1 && Run(Dev(d), labels, n).Some? && d.pending == []
    requires var ids := Order(Run(Dev(d), labels, n).value.sections); EarlierComplete(labels, ids, |ids|)
    ensures var s := Run(Dev(d), labels, n).value;
            && s.out.Dev? && s.out.device.capacity == d.capacity && d.committed <= s.out.device.committed
            && |s.out.device.committed| == |d.committed| + |s.sections| && s.out.device.pending == []
  {
    RunBase(Dev(d), labels, n);
    RunTidy(d, labels, n);
    EarlierAreComplete(Dev(d), labels, n, |Run(Dev(d), labels, n).value.sections|);
  }

  /**
    As long as every worker has received a whole packet, the device is what it was,
    with the packets as further entries, in the order of the sections.
   */
  lemma DeviceHoldsPackets(d: Device, labels: seq<Label>, n: nat)
    requires n >= 1 && Run(Dev(d), labels, n).Some? && d.pending == []
    requires var ids := Order(Run(Dev(d), labels, n).value.sections); EarlierComplete(labels, ids, |ids|)
    ensures var s := Run(Dev(d), labels, n).value;
            s.out == Dev(d.(committed := d.committed + Packets(labels, Order(s.sections), n)))
  {
    var s := Run(Dev(d), labels, n).value;
    DeviceCounts(d, labels, n);
    assert AllComplete(s.sections, |s.sections|) by { EarlierAreComplete(Dev(d), labels, n, |s.sections|); }
    var packets := Packets(labels, Order(s.sections), n);
    forall j | 0 <= j < |packets| ensures s.out.device.committed[|d.committed| + j] == packets[j] {
      CompleteEntry(d, labels, n, j);
      PacketAt(d, labels, n, s, j);
    }
    assert s.out.device.committed == d.committed + packets;
  }

  // ----- The lock

  /**
    Whether the thread can take its next step.  Only the lock makes a thread wait, and
    `recv`, which returns once the client sends, closes the connection, or fails; it is
    assumed that it does.
   */
  predicate CanGoOn(s: Srv, id: nat) {
    id in s.threads && !s.threads[id].Finished? && (HoldsLock(s.threads[id]) || s.lock.None?)
  }

  /** No deadlock, with clients that send or close: while some thread has not finished, some thread can go on. */
  lemma SomeThreadGoesOn(out: Sink, labels: seq<Label>, n: nat, id: nat) returns (next: nat)
    requires n >= 1 && Run(out, labels, n).Some?
    requires var s := Run(out, labels, n).value; id in s.threads && !s.threads[id].Finished?
    ensures CanGoOn(Run(out, labels, n).value, next)
    ensures exists l :: CanFollow(Run(out, labels, n).value, l, n) && l.id == next && !l.Fail?
  {
    RunKeeps(out, labels, n);
    var s := Run(out, labels, n).value;
    next := if s.lock.Some? then s.lock.value else id;
    assert next in s.threads && (HoldsLock(s.threads[next]) <==> s.lock == Some(next));
    var pc := s.threads[next];
    if s.lock.None? {
      assert CanFollow(s, Lock(next), n);
    } else if pc.Received? || pc.Sent? || pc.Stamped? {
      assert CanFollow(s, Unlock(next, false), n);
    } else if pc.Receiving? {
      assert CanFollow(s, Receive(next, [], Count(n)), n);
    } else if pc.Sending? {
      assert CanFollow(s, ReadBack(next), n);
    } else {
      assert CanFollow(s, Stamp(next, [], Count(0)), n);
    }
  }
}
