/**
  All workers and the timer together, over one output: any number of threads,
  each of which takes the output lock for one section in which it appends and,
  if it is a worker, later for one in which it reads everything back
  (server/src/aesd_worker.c, server/src/aesd_server.c).
 */
module ServerRun {
  import opened Bytes
  import opened DeviceSpec
  import opened Output
  import opened Worker

  /** What was sent back, and how many sections and entries there were at that time. */
  datatype Response = Response(bytes: seq<byte>, sections: nat, entries: nat)

  datatype Pc =
    | WantReceive                                 // about to take the lock in receive_data
    | Receiving(j: nat)                           // in its loop, as section j
    | Received(j: nat, ok: bool)                  // about to release the lock
    | WantSend(j: nat)                            // about to take the lock in send_response
    | Sending(j: nat, sent: seq<byte>)            // in its loop
    | Sent(j: nat, sent: seq<byte>, ok: bool)     // about to release the lock
    | WantStamp                                   // the timer, about to take the lock
    | Stamping(j: nat)                            // about to write the timestamp
    | Stamped(j: nat)                             // about to release the lock
    | Finished(section: Option<nat>, response: Option<Response>)

  /**
    The bytes that one thread has appended, with what the device held when it took
    the lock; complete if it is a whole packet.
   */
  datatype Section = Section(id: nat, data: seq<byte>, entries: nat, pending: seq<byte>, complete: bool)

  datatype Srv = Srv(base: seq<byte>, out: Sink, lock: Option<nat>, threads: map<nat, Pc>, sections: seq<Section>)

  datatype Label =
    | Start(id: nat, timer: bool)
    | Lock(id: nat)
    | Unlock(id: nat, shutdown: bool)   // and the shutdown flag, read on return
    | Receive(id: nat, chunk: seq<byte>, written: Result)
    | Stamp(id: nat, text: seq<byte>, written: Result)
    | ReadBack(id: nat)
    | Fail(id: nat)     // open, recv, read or send failed, or shutdown was found set

  function Entries(out: Sink): nat {
    if out.Dev? then |out.device.committed| else 0
  }

  function PendingOf(out: Sink): seq<byte> {
    if out.Dev? then out.device.pending else []
  }

  /** The section that a thread has begun. */
  function SectionOf(pc: Pc): Option<nat> {
    match pc
    case WantReceive => None
    case WantStamp => None
    case Receiving(j) => Some(j)
    case Received(j, _) => Some(j)
    case WantSend(j) => Some(j)
    case Sending(j, _) => Some(j)
    case Sent(j, _, _) => Some(j)
    case Stamping(j) => Some(j)
    case Stamped(j) => Some(j)
    case Finished(section, _) => section
  }

  function Goto(s: Srv, id: nat, pc: Pc): Srv {
    s.(threads := s.threads[id := pc])
  }

  /** The timer runs only if the output is a plain file. */
  predicate CanFollow(s: Srv, l: Label, n: nat) {
    if l.Start? then l.id !in s.threads && (l.timer ==> s.out.File?)
    else
      l.id in s.threads &&
      var pc := s.threads[l.id];
      match l
      case Start(_, _) => false
      case Lock(_) => s.lock.None? && (pc.WantReceive? || pc.WantSend? || pc.WantStamp?)
      case Unlock(_, _) => pc.Received? || pc.Sent? || pc.Stamped?
      case Receive(_, chunk, _) => pc.Receiving? && |chunk| <= n
      case Stamp(_, _, _) => pc.Stamping?
      case ReadBack(_) => pc.Sending?
      case Fail(_) => pc.Receiving? || pc.Sending? || pc.Stamping?
  }

  /** Adds to the last section, which is that of the thread that holds the lock. */
  function Extend(sections: seq<Section>, data: seq<byte>, complete: bool): seq<Section>
    requires sections != []
  {
    var k := |sections| - 1;
    sections[k := sections[k].(data := sections[k].data + data, complete := complete)]
  }

  function AddData(s: Srv, id: nat, data: seq<byte>, written: Result, whole: bool, pc: Pc): Srv {
    var s' := Goto(s, id, pc).(out := WriteTo(s.out, data, written));
    if written.Count? && s.sections != [] then s'.(sections := Extend(s.sections, data, whole)) else s'
  }

  function Follow(s: Srv, l: Label, n: nat): Srv
    requires CanFollow(s, l, n) && n >= 1
  {
    if l.Start? then Goto(s, l.id, if l.timer then WantStamp else WantReceive)
    else
      var id, pc := l.id, s.threads[l.id];
      match l
      case Start(_, _) => s
      case Lock(_) =>
        var s' := s.(lock := Some(id));
        if pc.WantSend? then Goto(s', id, Sending(pc.j, []))
        else
          Goto(s', id, if pc.WantReceive? then Receiving(|s.sections|) else Stamping(|s.sections|))
            .(sections := s.sections + [Section(id, [], Entries(s.out), PendingOf(s.out), false)])
      case Unlock(_, shutdown) =>
        var s' := s.(lock := None);
        if pc.Received? && pc.ok && !shutdown then Goto(s', id, WantSend(pc.j))
        else if pc.Sent? && pc.ok && !shutdown
        then Goto(s', id, Finished(Some(pc.j), Some(Response(pc.sent, |s.sections|, Entries(s.out)))))
        else Goto(s', id, Finished(SectionOf(pc), None))
      case Receive(_, chunk, written) =>
        var data, whole := Portion(chunk, n), NEWLINE in chunk;
        AddData(s, id, data, written, whole,
               if !written.Count? then Received(pc.j, false) else if whole then Received(pc.j, true) else pc)
      case Stamp(_, text, written) => AddData(s, id, text, written, false, Stamped(pc.j))
      case ReadBack(_) =>
        var piece := ReadFrom(s.out, |pc.sent|, n);
        Goto(s, id, if piece == [] then Sent(pc.j, pc.sent, true) else Sending(pc.j, pc.sent + piece))
      case Fail(_) =>
        Goto(s, id, if pc.Receiving? then Received(pc.j, false)
                    else if pc.Stamping? then Stamped(pc.j)
                    else if pc.Sending? then Sent(pc.j, pc.sent, false) else pc)
  }

  function Init(out: Sink): Srv {
    Srv(if out.File? then out.content else [], out, None, map[], [])
  }

  function Run(out: Sink, labels: seq<Label>, n: nat): Option<Srv>
    requires n >= 1
  {
    if labels == [] then Some(Init(out))
    else
      match Run(out, labels[..|labels| - 1], n)
      case None => None
      case Some(s) =>
        if CanFollow(s, labels[|labels| - 1], n) then Some(Follow(s, labels[|labels| - 1], n)) else None
  }
}
