/**
  What the character driver promises, without blocks, slots or locks.

  A device is the list of all entries ever committed, followed by the bytes of
  the entry still being collected.  Readers see the last `capacity` entries.
  `Allowed` and `Effect` give, for each system call, the results it may return
  and the device it leaves.
 */
module DeviceSpec {
  import opened Bytes

  datatype Device = Device(capacity: nat, committed: seq<seq<byte>>, pending: seq<byte>)

  datatype Errno = EINTR | ENOMEM | EFAULT | ERESTARTSYS

  /** `Write` carries the user's bytes, `Read` the file position and the count. */
  datatype Op = Read(pos: nat, count: nat) | Write(data: seq<byte>)

  /** What a call returns: the bytes read, the count written, or an error. */
  datatype Result = Data(bytes: seq<byte>) | Count(n: nat) | Error(errno: Errno)

  predicate EndsEntry(s: seq<byte>) {
    s != [] && s[|s| - 1] == NEWLINE
  }

  function Fresh(capacity: nat): Device {
    Device(capacity, [], [])
  }

  /** The entries in the ring. */
  function Window(d: Device): seq<seq<byte>> {
    LastN(d.committed, d.capacity)
  }

  /** What a reader that starts at position 0 finds. */
  function Content(d: Device): seq<byte> {
    Flatten(Window(d))
  }

  /** All bytes ever committed. */
  function Everything(d: Device): seq<byte> {
    Flatten(d.committed)
  }

  /** The number of bytes that have been dropped from the ring. */
  function Evicted(d: Device): nat {
    |Flatten(d.committed[..|d.committed| - |Window(d)|])|
  }

  /** The bytes at `pos`, at most `count`, and never beyond the end of their entry. */
  function ReadAt(w: seq<seq<byte>>, pos: nat, count: nat): seq<byte> {
    if w == [] then []
    else if pos < |w[0]| then w[0][pos..pos + Min(|w[0]| - pos, count)]
    else ReadAt(w[1..], pos - |w[0]|, count)
  }

  /** The device once `data` has been appended but not yet examined. */
  function Append(d: Device, data: seq<byte>): Device {
    d.(pending := d.pending + data)
  }

  /** Commits the pending bytes if they end an entry. */
  function Settle(d: Device): Device {
    if EndsEntry(d.pending) then d.(committed := d.committed + [d.pending], pending := []) else d
  }

  predicate Allowed(d: Device, op: Op, res: Result) {
    match op
    case Read(pos, count) =>
      (match res
       case Data(b) => b == ReadAt(Window(d), pos, count)
       case Count(_) => false
       case Error(e) => e == ERESTARTSYS || (e == EFAULT && pos < |Content(d)|))
    case Write(data) =>
      (match res
       case Data(_) => false
       case Count(n) => n == |data|
       case Error(e) => e == EFAULT ==> d.pending == [])
  }

  /** A write that cannot get the ring's lock keeps its bytes pending. */
  function Effect(d: Device, op: Op, res: Result): Device {
    match op
    case Read(_, _) => d
    case Write(data) =>
      (match res
       case Data(_) => d
       case Count(_) => Settle(Append(d, data))
       case Error(e) => if e == EINTR then Append(d, data) else d)
  }

  // ----- Reading by position

  /** A read returns a slice of the flat content; nothing exactly at its end or for count 0. */
  lemma {:induction false} ReadAtIsSlice(w: seq<seq<byte>>, pos: nat, count: nat)
    ensures var b := ReadAt(w, pos, count);
            && |b| <= count
            && (b == [] <==> count == 0 || pos >= |Flatten(w)|)
            && (b != [] ==> pos + |b| <= |Flatten(w)| && b == Flatten(w)[pos..pos + |b|])
  {
    if w != [] && pos >= |w[0]| {
      var b := ReadAt(w, pos, count);
      ReadAtIsSlice(w[1..], pos - |w[0]|, count);
      if b != [] {
        assert Flatten(w)[pos..pos + |b|] == Flatten(w[1..])[pos - |w[0]|..pos - |w[0]| + |b|];
      }
    }
  }

  /** A read from within an entry returns the rest of that entry, if that is not more than was asked for. */
  lemma {:induction false} ReadAtIsRestOfEntry(w: seq<seq<byte>>, k: nat, offset: nat, count: nat)
    requires k < |w| && offset < |w[k]|
    ensures ReadAt(w, |Flatten(w[..k])| + offset, count) == w[k][offset..offset + Min(|w[k]| - offset, count)]
  {
    if k > 0 {
      assert w[..k][1..] == w[1..][..k - 1];
      ReadAtIsRestOfEntry(w[1..], k - 1, offset, count);
    }
  }

  /** Everything committed is what was dropped followed by what the ring holds. */
  lemma HistoryIsEvictedThenContent(d: Device)
    ensures |Everything(d)| == Evicted(d) + |Content(d)|
    ensures Everything(d)[Evicted(d)..] == Content(d)
  {
    var k := |d.committed| - |Window(d)|;
    assert d.committed == d.committed[..k] + Window(d);
    FlattenAppend(d.committed[..k], Window(d));
  }
}
