/**
  Histories of a device: which calls were made, when each took effect and what
  it returned, and what follows for everything committed, pending and read.
 */
module Histories {
  import opened Bytes
  import opened DeviceSpec

  /** A call is made, takes effect (with the result it is going to return), and returns. */
  datatype Event =
    | Invoke(id: nat, op: Op)
    | Take(id: nat, op: Op, res: Result)
    | Return(id: nat, res: Result)

  type History = seq<Event>

  /** One event's effect on the device: only `Take` has one. */
  function Next(d: Device, e: Event): Device {
    if e.Take? then Effect(d, e.op, e.res) else d
  }

  /** The device after all calls of `h`, in the order in which they took effect. */
  function Replay(d: Device, h: History): Device {
    if h == [] then d else Next(Replay(d, h[..|h| - 1]), h[|h| - 1])
  }

  /** Every call of `h` returned what the device at that point allows. */
  predicate Legal(d: Device, h: History) {
    h == [] ||
    (&& Legal(d, h[..|h| - 1])
     && (h[|h| - 1].Take? ==> Allowed(Replay(d, h[..|h| - 1]), h[|h| - 1].op, h[|h| - 1].res)))
  }

  lemma ReplaySnoc(d: Device, h: History, e: Event)
    ensures Replay(d, h + [e]) == Next(Replay(d, h), e)
    ensures Legal(d, h + [e]) <==> Legal(d, h) && (e.Take? ==> Allowed(Replay(d, h), e.op, e.res))
  {
    assert (h + [e])[..|h|] == h;
  }

  lemma {:induction false} LegalPrefix(d: Device, h: History, k: nat)
    requires k < |h| && Legal(d, h) && h[k].Take?
    ensures Allowed(Replay(d, h[..k]), h[k].op, h[k].res)
  {
    if k < |h| - 1 {
      LegalPrefix(d, h[..|h| - 1], k);
      assert h[..|h| - 1][..k] == h[..k];
    }
  }

  // ----- Conservation: what was written is what is committed and pending

  /** A write whose bytes reached the pending entry, whether or not it then succeeded. */
  predicate Effective(e: Event) {
    e.Take? && e.op.Write? && (e.res.Count? || e.res == Error(EINTR))
  }

  /** The bytes of exactly those writes, in the order in which they took effect. */
  function Appended(h: History): seq<byte> {
    if h == [] then []
    else Appended(h[..|h| - 1]) + (if Effective(h[|h| - 1]) then h[|h| - 1].op.data else [])
  }

  lemma AppendedSnoc(h: History, e: Event)
    ensures Appended(h + [e]) == Appended(h) + if Effective(e) then e.op.data else []
  {
    assert (h + [e])[..|h|] == h;
  }

  predicate EntriesEnd(ss: seq<seq<byte>>) {
    forall i :: 0 <= i < |ss| ==> EndsEntry(ss[i])
  }

  /**
    Over every history the committed entries followed by the pending bytes are
    the bytes of the effective writes, and every entry in the ring is
    nonempty and ends in a newline.
   */
  lemma {:induction false} StreamConservation(n: nat, h: History)
    requires Legal(Fresh(n), h)
    ensures var d := Replay(Fresh(n), h);
            && d.capacity == n
            && Flatten(d.committed) + d.pending == Appended(h)
            && EntriesEnd(d.committed) && EntriesEnd(Window(d))
            && |Window(d)| == Min(|d.committed|, n)
  {
    if h != [] {
      var front, e := h[..|h| - 1], h[|h| - 1];
      StreamConservation(n, front);
      var d := Replay(Fresh(n), front);
      if Effective(e) {
        var d' := Append(d, e.op.data);
        assert Flatten(d'.committed) + d'.pending == Appended(h);
        FlattenSnoc(d'.committed, d'.pending);
      }
    }
  }

  // ----- Absolute positions

  lemma {:induction false} CommittedGrows(d: Device, h: History, k: nat)
    requires k <= |h|
    ensures Replay(d, h[..k]).committed <= Replay(d, h).committed
  {
    if k < |h| {
      CommittedGrows(d, h[..|h| - 1], k);
      assert h[..|h| - 1][..k] == h[..k];
    } else {
      assert h[..k] == h;
    }
  }

  lemma FlattenPrefix(a: seq<seq<byte>>, b: seq<seq<byte>>)
    requires a <= b
    ensures Flatten(a) <= Flatten(b)
  {
    FlattenAppend(a, b[|a|..]);
    assert a + b[|a|..] == b;
  }

  predicate SuccessfulRead(e: Event) {
    e.Take? && e.op.Read? && e.res.Data? && e.res.bytes != []
  }

  /**
    Event `k`, a read of n bytes at file position p made when E bytes had been
    dropped, returned bytes E+p up to E+p+n of everything committed by the end of `h`.
   */
  predicate ReadAtPosition(d: Device, h: History, k: nat)
    requires k < |h| && SuccessfulRead(h[k])
  {
    var from := Evicted(Replay(d, h[..k])) + h[k].op.pos;
    var b := h[k].res.bytes;
    from + |b| <= |Everything(Replay(d, h))| && b == Everything(Replay(d, h))[from..from + |b|]
  }

  /** Every successful read, whatever was committed and dropped before it and after it. */
  lemma AbsolutePosition(d: Device, h: History, k: nat)
    requires Legal(d, h) && k < |h| && SuccessfulRead(h[k])
    ensures ReadAtPosition(d, h, k)
  {
    var before, op, b := Replay(d, h[..k]), h[k].op, h[k].res.bytes;
    assert b == ReadAt(Window(before), op.pos, op.count) by { LegalPrefix(d, h, k); }
    ReadAtIsSlice(Window(before), op.pos, op.count);
    HistoryIsEvictedThenContent(before);
    assert Everything(before) <= Everything(Replay(d, h)) by {
      CommittedGrows(d, h, k);
      FlattenPrefix(before.committed, Replay(d, h).committed);
    }
    SliceBehind(Everything(before), Everything(Replay(d, h)), Evicted(before), op.pos, op.pos + |b|);
  }

  lemma SliceBehind<T>(s: seq<T>, t: seq<T>, from: nat, a: nat, b: nat)
    requires s <= t && from <= |s| && a <= b <= |s[from..]|
    ensures s[from..][a..b] == t[from + a..from + b]
  {
  }

  // ----- Framing: when entries are the lines of the stream

  /** The complete lines of a stream, and what follows the last newline. */
  function Split(s: seq<byte>): (seq<seq<byte>>, seq<byte>)
    decreases |s|
  {
    if NEWLINE !in s then ([], s)
    else
      var k := IndexOf(s, NEWLINE);
      var (lines, rest) := Split(s[k + 1..]);
      ([s[..k + 1]] + lines, rest)
  }

  lemma SplitFirstLine(s: seq<byte>, x: seq<byte>)
    requires NEWLINE in s
    ensures var k := IndexOf(s, NEWLINE);
            Split(s + x) == ([s[..k + 1]] + Split(s[k + 1..] + x).0, Split(s[k + 1..] + x).1)
  {
    var k := IndexOf(s, NEWLINE);
    IndexOfPrefix(s, x, NEWLINE);
    assert NEWLINE == (s + x)[k];
    assert (s + x)[k + 1..] == s[k + 1..] + x && (s + x)[..k + 1] == s[..k + 1];
  }

  /** Splitting can go on from what was left over: it needs no earlier line. */
  lemma {:induction false} SplitAppend(s: seq<byte>, x: seq<byte>)
    ensures Split(s + x).0 == Split(s).0 + Split(Split(s).1 + x).0
    ensures Split(s + x).1 == Split(Split(s).1 + x).1
    decreases |s|
  {
    if NEWLINE in s {
      var k := IndexOf(s, NEWLINE);
      var line, tail := s[..k + 1], s[k + 1..];
      SplitAppend(tail, x);
      SplitFirstLine(s, x);
      Associates([line], Split(tail).0, Split(Split(tail).1 + x).0);
    } else {
      assert [] + Split(s + x).0 == Split(s + x).0;
    }
  }

  lemma {:induction false} IndexOfPrefix(s: seq<byte>, x: seq<byte>, b: byte)
    requires b in s
    ensures IndexOf(s + x, b) == IndexOf(s, b)
  {
    if s[0] != b {
      IndexOfPrefix(s[1..], x, b);
      assert (s + x)[1..] == s[1..] + x;
    }
  }

  lemma {:induction false} SplitShape(s: seq<byte>)
    ensures NEWLINE !in Split(s).1
    ensures forall i :: 0 <= i < |Split(s).0| ==> OneLine(Split(s).0[i])
    decreases |s|
  {
    if NEWLINE in s {
      var k := IndexOf(s, NEWLINE);
      SplitShape(s[k + 1..]);
      assert s[..k + 1][..k] == s[..k];
    }
  }

  lemma SplitOnce(s: seq<byte>)
    requires NEWLINE in s
    ensures var k := IndexOf(s, NEWLINE);
            && s == s[..k + 1] + s[k + 1..]
            && Flatten(Split(s).0) == s[..k + 1] + Flatten(Split(s[k + 1..]).0)
            && Split(s).1 == Split(s[k + 1..]).1
  {
    var k := IndexOf(s, NEWLINE);
    FlattenAppend([s[..k + 1]], Split(s[k + 1..]).0);
    FlattenSingle(s[..k + 1]);
  }

  /** Splitting loses and adds nothing. */
  lemma {:induction false} SplitIsWhole(s: seq<byte>)
    ensures Flatten(Split(s).0) + Split(s).1 == s
    decreases |s|
  {
    if NEWLINE in s {
      var k := IndexOf(s, NEWLINE);
      SplitOnce(s);
      SplitIsWhole(s[k + 1..]);
      Associates(s[..k + 1], Flatten(Split(s[k + 1..]).0), Split(s[k + 1..]).1);
    }
  }

  /** A string whose only newline is its last byte. */
  predicate OneLine(s: seq<byte>) {
    EndsEntry(s) && NEWLINE !in s[..|s| - 1]
  }

  lemma SplitLine(s: seq<byte>)
    requires OneLine(s)
    ensures Split(s) == ([s], [])
  {
    var k := IndexOf(s, NEWLINE);
    assert forall j :: 0 <= j < |s| - 1 ==> s[j] == s[..|s| - 1][j] != NEWLINE;
    assert s[..k + 1] == s && s[k + 1..] == [] && Split([]) == ([], []);
    assert [s] + [] == [s];
  }

  /** A write that keeps framing: no newline, or one that is its last byte and gets committed. */
  predicate Clean(e: Event) {
    Effective(e) ==> NEWLINE !in e.op.data || (e.res.Count? && OneLine(e.op.data))
  }

  /** The device whose entries are the lines of `s`. */
  function SplitDevice(n: nat, s: seq<byte>): Device {
    Device(n, Split(s).0, Split(s).1)
  }

  lemma CleanStepSplits(n: nat, s: seq<byte>, e: Event)
    requires Effective(e) && Clean(e)
    ensures Next(SplitDevice(n, s), e) == SplitDevice(n, s + e.op.data)
  {
    var rest, data := Split(s).1, e.op.data;
    SplitAppend(s, data);
    SplitShape(s);
    if NEWLINE in data {
      assert (rest + data)[..|rest + data| - 1] == rest + data[..|data| - 1];
      SplitLine(rest + data);
    } else {
      assert !EndsEntry(rest + data);
      assert Split(s).0 + [] == Split(s).0;
    }
  }

  /** A commit whose data has an earlier newline: the entry is more than one line. */
  lemma UncleanCommit(n: nat, s: seq<byte>, data: seq<byte>)
    requires data != [] && NEWLINE in data[..|data| - 1] && EndsEntry(Split(s).1 + data)
    ensures Settle(Append(SplitDevice(n, s), data)) != SplitDevice(n, s + data)
  {
    var rest := Split(s).1;
    var entry, after := rest + data, Settle(Append(SplitDevice(n, s), data));
    SplitShape(s + data);
    var j := IndexOf(data[..|data| - 1], NEWLINE);
    assert entry[..|entry| - 1][|rest| + j] == NEWLINE;
    assert after.committed[|after.committed| - 1] == entry && !OneLine(entry);
  }

  /** Bytes with a newline that stay pending. */
  lemma UncleanPending(n: nat, s: seq<byte>, data: seq<byte>)
    requires NEWLINE in data
    ensures Append(SplitDevice(n, s), data) != SplitDevice(n, s + data)
  {
    var rest := Split(s).1;
    SplitShape(s + data);
    var j := IndexOf(data, NEWLINE);
    assert (rest + data)[|rest| + j] == NEWLINE;
  }

  lemma UncleanStepDoesNotSplit(n: nat, s: seq<byte>, e: Event)
    requires Effective(e) && !Clean(e)
    ensures Next(SplitDevice(n, s), e) != SplitDevice(n, s + e.op.data)
  {
    var rest, data := Split(s).1, e.op.data;
    var entry := rest + data;
    if e.res.Count? && EndsEntry(entry) {
      assert entry[|entry| - 1] == data[|data| - 1];
      UncleanCommit(n, s, data);
    } else {
      UncleanPending(n, s, data);
    }
  }

  /**
    Throughout a history the entries are exactly the lines of the bytes written,
    however those were cut into writes, if and only if every effective write is
    clean.
   */
  lemma {:induction false} FramingIsSplitting(n: nat, h: History)
    ensures AlwaysSplit(n, h) <==> forall i :: 0 <= i < |h| ==> Clean(h[i])
  {
    if h != [] {
      var front, e := h[..|h| - 1], h[|h| - 1];
      FramingIsSplitting(n, front);
      assert h == front + [e];
      AlwaysSplitSnoc(n, front, e);
      if AlwaysSplit(n, front) {
        SplitStep(n, front, e);
      }
    }
  }

  lemma SplitStep(n: nat, h: History, e: Event)
    requires Replay(Fresh(n), h) == SplitDevice(n, Appended(h))
    ensures Replay(Fresh(n), h + [e]) == SplitDevice(n, Appended(h + [e])) <==> Clean(e)
  {
    ReplaySnoc(Fresh(n), h, e);
    AppendedSnoc(h, e);
    if !Effective(e) {
      assert Appended(h + [e]) == Appended(h);
    } else if Clean(e) {
      CleanStepSplits(n, Appended(h), e);
    } else {
      UncleanStepDoesNotSplit(n, Appended(h), e);
    }
  }

  predicate AlwaysSplit(n: nat, h: History) {
    forall k :: 0 <= k <= |h| ==> Replay(Fresh(n), h[..k]) == SplitDevice(n, Appended(h[..k]))
  }

  lemma AlwaysSplitSnoc(n: nat, h: History, e: Event)
    ensures AlwaysSplit(n, h) ==> Replay(Fresh(n), h) == SplitDevice(n, Appended(h))
    ensures AlwaysSplit(n, h + [e]) <==>
              AlwaysSplit(n, h) && Replay(Fresh(n), h + [e]) == SplitDevice(n, Appended(h + [e]))
  {
    var h' := h + [e];
    assert h'[..|h'|] == h' && h[..|h|] == h;
    assert forall k :: 0 <= k <= |h| ==> h'[..k] == h[..k];
    if AlwaysSplit(n, h') {
      forall k | 0 <= k <= |h| ensures Replay(Fresh(n), h[..k]) == SplitDevice(n, Appended(h[..k])) {
        assert h'[..k] == h[..k];
      }
    }
  }

  /** Two clean histories that append the same bytes leave the same device. */
  lemma ChunkingIndependence(n: nat, h1: History, h2: History)
    requires forall i :: 0 <= i < |h1| ==> Clean(h1[i])
    requires forall i :: 0 <= i < |h2| ==> Clean(h2[i])
    requires Appended(h1) == Appended(h2)
    ensures Replay(Fresh(n), h1) == Replay(Fresh(n), h2)
  {
    FramingIsSplitting(n, h1);
    FramingIsSplitting(n, h2);
    assert h1[..|h1|] == h1 && h2[..|h2|] == h2;
  }

  // ----- A read session

  /** The bytes of successive reads with the given counts, each at the position the last one left. */
  function Session(w: seq<seq<byte>>, pos: nat, counts: seq<nat>): seq<byte>
    decreases |counts|
  {
    if counts == [] then []
    else
      var b := ReadAt(w, pos, counts[0]);
      b + Session(w, pos + |b|, counts[1..])
  }

  /** The bytes `got` are those of `content` at `pos`. */
  predicate Continues(content: seq<byte>, pos: nat, got: seq<byte>) {
    pos + |got| <= |content| && got == content[pos..pos + |got|]
  }

  lemma ContinuesOn(content: seq<byte>, pos: nat, b: seq<byte>, rest: seq<byte>)
    requires Continues(content, pos, b) && Continues(content, pos + |b|, rest)
    ensures Continues(content, pos, b + rest)
  {
    SliceConcat(content, pos, pos + |b|, pos + |b| + |rest|);
  }

  lemma OneRead(w: seq<seq<byte>>, pos: nat, count: nat)
    requires pos <= |Flatten(w)| && count > 0
    ensures Continues(Flatten(w), pos, ReadAt(w, pos, count))
    ensures ReadAt(w, pos, count) == [] <==> pos == |Flatten(w)|
  {
    ReadAtIsSlice(w, pos, count);
  }

  /**
    With nothing committed in between, successive reads with any positive counts
    return the content in order, without gap or repeat, and as many reads as
    bytes are always enough to reach the end.
   */
  lemma {:induction false} ReadSession(w: seq<seq<byte>>, pos: nat, counts: seq<nat>)
    requires pos <= |Flatten(w)|
    requires forall i :: 0 <= i < |counts| ==> counts[i] > 0
    ensures Continues(Flatten(w), pos, Session(w, pos, counts))
    ensures |counts| >= |Flatten(w)| - pos ==> pos + |Session(w, pos, counts)| == |Flatten(w)|
    decreases |counts|
  {
    if counts != [] {
      var b := ReadAt(w, pos, counts[0]);
      OneRead(w, pos, counts[0]);
      ReadSession(w, pos + |b|, counts[1..]);
      var rest := Session(w, pos + |b|, counts[1..]);
      ContinuesOn(Flatten(w), pos, b, rest);
      assert Session(w, pos, counts) == b + rest;
      assert |counts| >= |Flatten(w)| - pos && b != [] ==> |counts[1..]| >= |Flatten(w)| - (pos + |b|);
    }
  }
}
