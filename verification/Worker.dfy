/** The work of one connection (server/src/aesd_worker.c). */
module Worker {
  import opened Bytes
  import opened DeviceSpec
  import opened Histories
  import opened Output

  // ----- What receive_data writes

  /** What one `recv` yields: some bytes, none at all when the client has closed, or an error. */
  datatype Recv = Chunk(bytes: seq<byte>) | RecvFails

  /** One turn of the loop: the shutdown flag as it is found, what `recv` yields, what `write` returns. */
  datatype Turn = Turn(shutdown: bool, recv: Recv, written: Result)

  datatype WriteCall = WriteCall(data: seq<byte>, res: Result)

  /** The buffer after `memset` and `recv`. */
  function Filled(chunk: seq<byte>, n: nat): seq<byte>
    requires |chunk| <= n
  {
    chunk + Zeros(n - |chunk|)
  }

  /** What is written for a chunk: up to its first newline, or else the whole buffer. */
  function Portion(chunk: seq<byte>, n: nat): seq<byte>
    requires |chunk| <= n
  {
    if NEWLINE in chunk then chunk[..IndexOf(chunk, NEWLINE) + 1] else Filled(chunk, n)
  }

  /** A line, or else the chunk, and NULs that fill the buffer. */
  lemma PortionMeans(chunk: seq<byte>, n: nat)
    requires |chunk| <= n
    ensures var p := Portion(chunk, n);
            if NEWLINE in chunk then p <= chunk && OneLine(p)
            else |p| == n && p[..|chunk|] == chunk && forall i :: |chunk| <= i < n ==> p[i] == NUL
  {
    if NEWLINE in chunk {
      var k := IndexOf(chunk, NEWLINE);
      assert chunk[..k + 1][..k] == chunk[..k];
    }
  }

  predicate Fitting(turns: seq<Turn>, n: nat) {
    forall i :: 0 <= i < |turns| ==> turns[i].recv.Chunk? ==> |turns[i].recv.bytes| <= n
  }

  /** The `write` calls of the loop, up to the turn with which it ends. */
  function WriteCalls(turns: seq<Turn>, n: nat): seq<WriteCall>
    requires Fitting(turns, n)
  {
    if turns == [] || turns[0].shutdown || turns[0].recv.RecvFails? then []
    else
      var b := turns[0].recv.bytes;
      [WriteCall(Portion(b, n), turns[0].written)]
      + (if NEWLINE in b || !turns[0].written.Count? then [] else WriteCalls(turns[1..], n))
  }

  /** Whether the loop ends with a newline received and written. */
  predicate Completed(turns: seq<Turn>) {
    && turns != [] && !turns[0].shutdown && turns[0].recv.Chunk? && turns[0].written.Count?
    && (NEWLINE in turns[0].recv.bytes || Completed(turns[1..]))
  }

  /** The loop has not ended with any of these turns. */
  predicate Going(turns: seq<Turn>) {
    forall i :: 0 <= i < |turns| ==>
      && !turns[i].shutdown && turns[i].recv.Chunk? && turns[i].written.Count?
      && NEWLINE !in turns[i].recv.bytes
  }

  /** Turn `k` is the one with which the loop ends successfully. */
  predicate EndsPacket(turns: seq<Turn>, k: nat)
    requires k < |turns|
  {
    && Going(turns[..k])
    && !turns[k].shutdown && turns[k].recv.Chunk? && turns[k].written.Count? && NEWLINE in turns[k].recv.bytes
  }

  lemma {:induction false} CompletedEnds(turns: seq<Turn>)
    ensures Completed(turns) <==> exists k :: 0 <= k < |turns| && EndsPacket(turns, k)
  {
    if turns != [] {
      var rest := turns[1..];
      CompletedEnds(rest);
      if Completed(turns) {
        if NEWLINE in turns[0].recv.bytes {
          assert EndsPacket(turns, 0);
        } else {
          var k :| 0 <= k < |rest| && EndsPacket(rest, k);
          assert turns[..k + 1] == [turns[0]] + rest[..k];
          assert EndsPacket(turns, k + 1);
        }
      }
      if k :| 0 <= k < |turns| && EndsPacket(turns, k) {
        if k > 0 {
          assert turns[..k][0] == turns[0];
          assert rest[..k - 1] == turns[..k][1..];
          assert EndsPacket(rest, k - 1);
        }
      }
    }
  }

  /** One write for each turn, up to the one with which the loop ends; what is written, and which turn that is. */
  lemma {:induction false} WriteCallsAre(turns: seq<Turn>, n: nat)
    requires Fitting(turns, n)
    ensures var calls := WriteCalls(turns, n);
            && |calls| <= |turns|
            && (forall i :: 0 <= i < |calls| ==>
                  && !turns[i].shutdown && turns[i].recv.Chunk?
                  && calls[i] == WriteCall(Portion(turns[i].recv.bytes, n), turns[i].written))
            && (forall i :: 0 <= i < |calls| - 1 ==> turns[i].written.Count? && NEWLINE !in turns[i].recv.bytes)
            && (|calls| < |turns| ==>
                  || turns[|calls|].shutdown || turns[|calls|].recv.RecvFails?
                  || (calls != [] && (!turns[|calls| - 1].written.Count? || NEWLINE in turns[|calls| - 1].recv.bytes)))
  {
    if turns != [] && !turns[0].shutdown && turns[0].recv.Chunk? {
      WriteCallsAre(turns[1..], n);
    }
  }

  /** One turn more: its write comes last, and completes the packet if it has the newline and succeeds. */
  lemma {:induction false} OneTurnMore(turns: seq<Turn>, t: Turn, n: nat)
    requires Going(turns) && Fitting(turns, n)
    requires !t.shutdown && t.recv.Chunk? && |t.recv.bytes| <= n
    ensures Fitting(turns + [t], n)
    ensures WriteCalls(turns + [t], n) == WriteCalls(turns, n) + [WriteCall(Portion(t.recv.bytes, n), t.written)]
    ensures Completed(turns + [t]) <==> t.written.Count? && NEWLINE in t.recv.bytes
    ensures !Completed(turns)
  {
    if turns == [] {
      assert turns + [t] == [t] && [t][1..] == [];
    } else {
      var rest, call := turns[1..], WriteCall(Portion(turns[0].recv.bytes, n), turns[0].written);
      OneTurnMore(rest, t, n);
      assert (turns + [t])[0] == turns[0] && (turns + [t])[1..] == rest + [t];
      assert WriteCalls(turns, n) == [call] + WriteCalls(rest, n);
      assert WriteCalls(turns + [t], n) == [call] + WriteCalls(rest + [t], n);
    }
  }

  function ApplyCalls(out: Sink, calls: seq<WriteCall>): Sink
    decreases |calls|
  {
    if calls == [] then out else ApplyCalls(WriteTo(out, calls[0].data, calls[0].res), calls[1..])
  }

  lemma {:induction false} ApplyCallsSnoc(out: Sink, calls: seq<WriteCall>, c: WriteCall)
    ensures ApplyCalls(out, calls + [c]) == WriteTo(ApplyCalls(out, calls), c.data, c.res)
    decreases |calls|
  {
    if calls == [] {
      assert calls + [c] == [c] && [c][1..] == [];
    } else {
      assert (calls + [c])[1..] == calls[1..] + [c];
      ApplyCallsSnoc(WriteTo(out, calls[0].data, calls[0].res), calls[1..], c);
    }
  }

  /** The bytes of all calls. */
  function DataOf(calls: seq<WriteCall>): seq<byte> {
    if calls == [] then [] else calls[0].data + DataOf(calls[1..])
  }

  lemma {:induction false} DataOfSnoc(calls: seq<WriteCall>, c: WriteCall)
    ensures DataOf(calls + [c]) == DataOf(calls) + c.data
  {
    if calls == [] {
      assert calls + [c] == [c] && [c][1..] == [];
    } else {
      assert (calls + [c])[1..] == calls[1..] + [c];
      DataOfSnoc(calls[1..], c);
    }
  }

  /** The bytes that the client sent, as far as the loop received them. */
  function StreamOf(turns: seq<Turn>): seq<byte>
    requires Completed(turns)
  {
    var b := turns[0].recv.bytes;
    if NEWLINE in b then b else b + StreamOf(turns[1..])
  }

  /** The chunks of the turns up to the `k`-th. */
  function Chunks(turns: seq<Turn>, k: nat): seq<seq<byte>>
    requires k <= |turns| && forall i :: 0 <= i < k ==> turns[i].recv.Chunk?
  {
    seq(k, i requires 0 <= i < k => turns[i].recv.bytes)
  }

  /** The stream is everything received up to and with the turn that ends the packet. */
  lemma {:induction false} StreamIsChunks(turns: seq<Turn>, k: nat)
    requires k < |turns| && EndsPacket(turns, k)
    ensures forall i :: 0 <= i <= k ==> turns[i].recv.Chunk?
    ensures Completed(turns) && StreamOf(turns) == Flatten(Chunks(turns, k + 1))
  {
    assert forall i :: 0 <= i < k ==> turns[i] == turns[..k][i];
    if k == 0 {
      assert Chunks(turns, 1)[1..] == [];
    } else {
      var rest := turns[1..];
      assert rest[..k - 1] == turns[..k][1..];
      assert EndsPacket(rest, k - 1);
      StreamIsChunks(rest, k - 1);
      assert Chunks(turns, k + 1)[1..] == Chunks(rest, k);
    }
  }

  // ----- Packet reassembly

  /** `s` without its NUL bytes. */
  function WithoutNul(s: seq<byte>): seq<byte> {
    if s == [] then [] else (if s[0] == NUL then [] else [s[0]]) + WithoutNul(s[1..])
  }

  lemma {:induction false} WithoutNulAppend(a: seq<byte>, b: seq<byte>)
    ensures WithoutNul(a + b) == WithoutNul(a) + WithoutNul(b)
  {
    if a == [] {
      assert a + b == b;
    } else {
      assert (a + b)[1..] == a[1..] + b;
      WithoutNulAppend(a[1..], b);
    }
  }

  lemma {:induction false} WithoutNulOfNulFree(s: seq<byte>)
    requires NUL !in s
    ensures WithoutNul(s) == s
  {
    if s != [] {
      WithoutNulOfNulFree(s[1..]);
    }
  }

  lemma {:induction false} WithoutNulHasNone(s: seq<byte>)
    ensures NUL !in WithoutNul(s)
  {
    if s != [] {
      WithoutNulHasNone(s[1..]);
    }
  }

  lemma {:induction false} WithoutNulOfZeros(n: nat)
    ensures WithoutNul(Zeros(n)) == []
  {
    if n > 0 {
      assert Zeros(n)[1..] == Zeros(n - 1);
      WithoutNulOfZeros(n - 1);
    }
  }

  /** A stream's first line, newline included. */
  function FirstLine(s: seq<byte>): seq<byte>
    requires NEWLINE in s
  {
    s[..IndexOf(s, NEWLINE) + 1]
  }

  lemma FirstLineEnds(s: seq<byte>)
    requires NEWLINE in s
    ensures FirstLine(s) <= s && OneLine(FirstLine(s))
  {
    var k := IndexOf(s, NEWLINE);
    assert s[..k + 1][..k] == s[..k];
  }

  lemma FirstLineSkips(a: seq<byte>, b: seq<byte>)
    requires NEWLINE !in a && NEWLINE in b
    ensures NEWLINE in a + b && FirstLine(a + b) == a + FirstLine(b)
  {
    var k := IndexOf(b, NEWLINE);
    assert (a + b)[|a| + k] == NEWLINE;
    assert (a + b)[..|a| + k] == a + b[..k];
    IndexOfUnique(a + b, NEWLINE, |a| + k);
  }

  lemma {:induction false} IndexOfUnique(s: seq<byte>, b: byte, i: nat)
    requires i < |s| && s[i] == b && b !in s[..i]
    ensures IndexOf(s, b) == i
  {
    if i > 0 {
      assert s[0] == s[..i][0] && s[..i][1..] == s[1..][..i - 1];
      IndexOfUnique(s[1..], b, i - 1);
    }
  }

  lemma {:induction false} StreamHasLine(turns: seq<Turn>)
    requires Completed(turns)
    ensures NEWLINE in StreamOf(turns)
  {
    var b := turns[0].recv.bytes;
    if NEWLINE !in b {
      StreamHasLine(turns[1..]);
      FirstLineSkips(b, StreamOf(turns[1..]));
    }
  }

  /** Every `recv` before the one with the newline has filled the buffer. */
  predicate FullBefore(turns: seq<Turn>, n: nat)
    requires Completed(turns)
  {
    NEWLINE in turns[0].recv.bytes || (|turns[0].recv.bytes| == n && FullBefore(turns[1..], n))
  }

  /**
    However a NUL-free stream is cut into chunks, what a completed loop writes is,
    but for NUL bytes, the stream's first line; and it is exactly that line if and
    only if every chunk before the one with the newline filled the buffer.
   */
  lemma {:induction false} PacketReassembly(turns: seq<Turn>, n: nat)
    requires Completed(turns) && Fitting(turns, n) && NUL !in StreamOf(turns)
    ensures NEWLINE in StreamOf(turns)
    ensures WithoutNul(DataOf(WriteCalls(turns, n))) == FirstLine(StreamOf(turns))
    ensures DataOf(WriteCalls(turns, n)) == FirstLine(StreamOf(turns)) <==> FullBefore(turns, n)
  {
    StreamHasLine(turns);
    var b := turns[0].recv.bytes;
    var calls := WriteCalls(turns, n);
    if NEWLINE in b {
      assert calls[1..] == [] && DataOf(calls) == FirstLine(b) + [] == FirstLine(b);
      WithoutNulOfNulFree(FirstLine(b));
    } else {
      var rest, tail := turns[1..], WriteCalls(turns[1..], n);
      var stream := StreamOf(rest);
      assert forall x :: x in stream ==> x in b + stream;
      PacketReassembly(rest, n);
      FirstLineSkips(b, stream);
      assert calls[1..] == tail && DataOf(calls) == (b + Zeros(n - |b|)) + DataOf(tail);
      PaddingShows(b, n - |b|, DataOf(tail), FirstLine(stream));
    }
  }

  /** A short chunk ("a", then "b" and the newline) before the last one: what is written is not the line. */
  lemma ShortChunkIsPadded()
    ensures var a: byte, b: byte := 97, 98;
            var turns := [Turn(false, Chunk([a]), Count(4)), Turn(false, Chunk([b, NEWLINE]), Count(2))];
            && Fitting(turns, 4) && Completed(turns) && StreamOf(turns) == [a, b, NEWLINE]
            && FirstLine(StreamOf(turns)) == [a, b, NEWLINE]
            && DataOf(WriteCalls(turns, 4)) == [a, NUL, NUL, NUL, b, NEWLINE]
  {
    var a: byte, b: byte := 97, 98;
    LineIsWhole(a, b);
    var last := [Turn(false, Chunk([b, NEWLINE]), Count(2))];
    var turns := [Turn(false, Chunk([a]), Count(4))] + last;
    assert turns[1..] == last && last[1..] == [];
    assert Portion([b, NEWLINE], 4) == [b, NEWLINE] && Portion([a], 4) == [a, NUL, NUL, NUL];
    var calls := [WriteCall([b, NEWLINE], Count(2))];
    assert WriteCalls(last, 4) == calls + [] == calls;
    assert WriteCalls(turns, 4) == [WriteCall([a, NUL, NUL, NUL], Count(4))] + calls;
    assert calls[1..] == [] && WriteCalls(turns, 4)[1..] == calls;
    assert DataOf(calls) == [b, NEWLINE] + [] == [b, NEWLINE];
  }

  lemma LineIsWhole(a: byte, b: byte)
    requires a != NEWLINE && b != NEWLINE
    ensures IndexOf([b, NEWLINE], NEWLINE) == 1 && IndexOf([a, b, NEWLINE], NEWLINE) == 2
    ensures FirstLine([b, NEWLINE]) == [b, NEWLINE] && FirstLine([a, b, NEWLINE]) == [a, b, NEWLINE]
  {
    IndexOfUnique([b, NEWLINE], NEWLINE, 1);
    IndexOfUnique([a, b, NEWLINE], NEWLINE, 2);
  }

  /** Padding changes the bytes, and nothing but NULs. */
  lemma PaddingShows(b: seq<byte>, k: nat, data: seq<byte>, line: seq<byte>)
    requires NUL !in b && NUL !in line && WithoutNul(data) == line
    ensures WithoutNul((b + Zeros(k)) + data) == b + line
    ensures (b + Zeros(k)) + data == b + line <==> k == 0 && data == line
  {
    assert WithoutNul((b + Zeros(k)) + data) == b + line by { PaddingIsDropped(b, k, data); }
    var padded, plain := (b + Zeros(k)) + data, b + line;
    assert padded[|b|..] == Zeros(k) + data && plain[|b|..] == line;
    if k > 0 {
      assert (Zeros(k) + data)[0] == NUL;
    } else {
      assert Zeros(0) + data == data;
      assert b + Zeros(0) == b;
    }
  }

  lemma PaddingIsDropped(b: seq<byte>, k: nat, data: seq<byte>)
    requires NUL !in b
    ensures WithoutNul((b + Zeros(k)) + data) == b + WithoutNul(data)
  {
    assert WithoutNul(b + Zeros(k)) == b by {
      WithoutNulAppend(b, Zeros(k));
      WithoutNulOfNulFree(b);
      WithoutNulOfZeros(k);
    }
    WithoutNulAppend(b + Zeros(k), data);
  }

  // ----- A completed packet on the device and in a file

  /** The calls of a completed loop all succeed, and only the last has a newline, as its last byte. */
  predicate PacketCalls(calls: seq<WriteCall>) {
    && calls != [] && calls[0].res.Count?
    && (if |calls| == 1 then OneLine(calls[0].data)
        else calls[0].data != [] && NEWLINE !in calls[0].data && PacketCalls(calls[1..]))
  }

  lemma {:induction false} CompletedIsPacket(turns: seq<Turn>, n: nat)
    requires Completed(turns) && Fitting(turns, n) && n >= 1
    ensures PacketCalls(WriteCalls(turns, n))
  {
    var b, calls := turns[0].recv.bytes, WriteCalls(turns, n);
    if NEWLINE in b {
      var k := IndexOf(b, NEWLINE);
      assert b[..k + 1][..k] == b[..k];
    } else {
      CompletedIsPacket(turns[1..], n);
      assert calls[1..] == WriteCalls(turns[1..], n);
      assert forall x :: x in Portion(b, n) ==> x in b || x == NUL;
    }
  }

  /** A packet's bytes have their only newline at the end. */
  lemma {:induction false} PacketIsLine(calls: seq<WriteCall>)
    requires PacketCalls(calls)
    ensures OneLine(DataOf(calls))
  {
    var data := calls[0].data;
    if |calls| == 1 {
      assert DataOf(calls) == data + [] == data;
    } else {
      PacketIsLine(calls[1..]);
      var tail := DataOf(calls[1..]);
      assert (data + tail)[..|data + tail| - 1] == data + tail[..|tail| - 1];
    }
  }

  lemma PieceStaysPending(d: Device, data: seq<byte>)
    requires data != [] && NEWLINE !in data
    ensures Settle(Append(d, data)) == Append(d, data)
  {
    var pending := d.pending + data;
    assert pending[|pending| - 1] == data[|data| - 1] && data[|data| - 1] in data;
  }

  lemma LineCommits(d: Device, data: seq<byte>)
    requires EndsEntry(data)
    ensures Settle(Append(d, data)) == d.(committed := d.committed + [d.pending + data], pending := [])
  {
    var pending := d.pending + data;
    assert pending[|pending| - 1] == data[|data| - 1];
  }

  /**
    On the device a packet adds exactly one entry, whatever was pending before; if
    nothing was pending, the entry is the packet, and its only newline is its last
    byte.  Nothing is left pending.
   */
  lemma {:induction false} PacketIsOneEntry(d: Device, calls: seq<WriteCall>)
    requires PacketCalls(calls)
    ensures ApplyCalls(Dev(d), calls) ==
            Dev(d.(committed := d.committed + [d.pending + DataOf(calls)], pending := []))
    decreases |calls|
  {
    var data := calls[0].data;
    if |calls| == 1 {
      LineCommits(d, data);
      assert DataOf(calls) == data + [] == data && calls[1..] == [];
    } else {
      PieceStaysPending(d, data);
      PacketIsOneEntry(Append(d, data), calls[1..]);
      assert (d.pending + data) + DataOf(calls[1..]) == d.pending + DataOf(calls);
    }
  }

  /** In a plain file the calls that succeed append their bytes. */
  lemma {:induction false} PacketIsAppended(content: seq<byte>, calls: seq<WriteCall>)
    requires PacketCalls(calls)
    ensures ApplyCalls(File(content), calls) == File(content + DataOf(calls))
    decreases |calls|
  {
    if |calls| == 1 {
      assert DataOf(calls) == calls[0].data + [] && calls[1..] == [];
    } else {
      PacketIsAppended(content + calls[0].data, calls[1..]);
      assert (content + calls[0].data) + DataOf(calls[1..]) == content + DataOf(calls);
    }
  }

  // ----- The functions of the worker

  /** One turn of the loop in send_response: the shutdown flag as it is found, and what fails. */
  datatype SendTurn = SendTurn(shutdown: bool, readFails: bool, sendFails: bool)

  /** None of the first `m` turns fails or finds the shutdown flag set. */
  predicate Quiet(turns: seq<SendTurn>, m: nat) {
    forall k :: 0 <= k < |turns| && k < m ==> turns[k] == SendTurn(false, false, false)
  }

  lemma QuietFurther(turns: seq<SendTurn>, m: nat)
    ensures Quiet(turns, m + 1) <==> Quiet(turns, m) && (m < |turns| ==> turns[m] == SendTurn(false, false, false))
  {
  }

  lemma NotQuiet(turns: seq<SendTurn>, i: nat, m: nat)
    requires i < |turns| && i < m && turns[i] != SendTurn(false, false, false)
    ensures !Quiet(turns, m)
  {
  }

  /** The number of turns that the loop takes to find the end, reading on from `pos`. */
  function Reads(out: Sink, pos: nat, n: nat): nat
    requires n >= 1 && pos <= |Stored(out)|
    decreases |Stored(out)| - pos
  {
    ReadFromIsSlice(out, pos, n);
    var piece := ReadFrom(out, pos, n);
    if piece == [] then 1 else 1 + Reads(out, pos + |piece|, n)
  }

  /** At least one turn, and at most one more than there are bytes. */
  lemma {:induction false} ReadsBounded(out: Sink, pos: nat, n: nat)
    requires n >= 1 && pos <= |Stored(out)|
    ensures 1 <= Reads(out, pos, n) <= |Stored(out)| - pos + 1
    decreases |Stored(out)| - pos
  {
    ReadFromIsSlice(out, pos, n);
    var piece := ReadFrom(out, pos, n);
    if piece != [] {
      ReadsBounded(out, pos + |piece|, n);
    }
  }

  class AesdWorker {
    const buf: array<byte>
    var output: Sink
    var shutdown: bool
    var exited: bool

    constructor (bufSize: nat, output: Sink)
      requires bufSize >= 1
      ensures buf.Length == bufSize && fresh(buf) && this.output == output && !shutdown && !exited
    {
      buf := new byte[bufSize];
      this.output, shutdown, exited := output, false, false;
    }

    /** `memset` and `recv`: the buffer holds the chunk, then NULs. */
    method FillBuffer(chunk: seq<byte>)
      requires |chunk| <= buf.Length
      modifies buf
      ensures buf[..] == Filled(chunk, buf.Length)
    {
      forall i | 0 <= i < buf.Length { buf[i] := NUL; }
      forall i | 0 <= i < |chunk| { buf[i] := chunk[i]; }
    }

    /** `memchr` for a newline; the buffer size if there is none. */
    method FindNewline() returns (k: nat)
      ensures k <= buf.Length && NEWLINE !in buf[..k]
      ensures k < buf.Length ==> buf[k] == NEWLINE
    {
      k := 0;
      while k < buf.Length && buf[k] != NEWLINE
        invariant k <= buf.Length && NEWLINE !in buf[..k]
      {
        k := k + 1;
      }
    }

    /** How many bytes of the buffer are to be written. */
    method BytesToWrite(ghost chunk: seq<byte>) returns (n: nat, done: bool)
      requires |chunk| <= buf.Length && buf[..] == Filled(chunk, buf.Length)
      ensures n <= buf.Length && buf[..n] == Portion(chunk, buf.Length)
      ensures done <==> NEWLINE in chunk
    {
      n := buf.Length;
      var k := FindNewline();
      done := k < buf.Length;
      ghost var filled := Filled(chunk, buf.Length);
      if done {
        n := k + 1;
        assert filled[k] == NEWLINE && filled[..k] == buf[..k];
        assert k < |chunk| && chunk[k] == NEWLINE && chunk[..k] == filled[..k];
        IndexOfUnique(chunk, NEWLINE, k);
      } else {
        assert forall i :: 0 <= i < |chunk| ==> chunk[i] == filled[i] == buf[..k][i];
        assert buf[..n] == filled;
      }
    }

    /** One turn of the loop: receives a chunk and writes what of it belongs to the packet. */
    method ReceiveTurn(turn: Turn) returns (done: bool, error: bool)
      requires turn.recv.Chunk? ==> |turn.recv.bytes| <= buf.Length
      modifies buf, this`output
      ensures turn.recv.RecvFails? ==> error && output == old(output)
      ensures turn.recv.Chunk? ==>
                && output == WriteTo(old(output), Portion(turn.recv.bytes, buf.Length), turn.written)
                && error == !turn.written.Count?
                && (done <==> NEWLINE in turn.recv.bytes)
    {
      done, error := false, false;
      if turn.recv.RecvFails? {
        error := true;
        return;
      }
      FillBuffer(turn.recv.bytes);
      var n;
      n, done := BytesToWrite(turn.recv.bytes);
      output := WriteTo(output, buf[..n], turn.written);
      error := !turn.written.Count?;
    }

    /**
      `receive_data`, for any turns of its loop, if the output could be opened.  A
      loop that has not ended after these turns is one that then finds the shutdown
      flag set; `atEnd` is the flag as it is read when the function returns.
     */
    method ReceiveData(canOpen: bool, turns: seq<Turn>, atEnd: bool) returns (ok: bool)
      requires Fitting(turns, buf.Length)
      modifies buf, this`output, this`shutdown
      ensures output == (if canOpen && !old(shutdown) then ApplyCalls(old(output), WriteCalls(turns, buf.Length))
                         else old(output))
      ensures ok <==> canOpen && !old(shutdown) && Completed(turns) && !atEnd
      ensures ok <==> canOpen && !old(shutdown) && (exists k :: 0 <= k < |turns| && EndsPacket(turns, k)) && !atEnd
      ensures ok ==> !shutdown
    {
      CompletedEnds(turns);
      if !canOpen || shutdown {
        shutdown := shutdown || atEnd;
        return false;
      }
      var error, done, i := false, false, 0;
      ghost var n, last := buf.Length, ApplyCalls(output, WriteCalls(turns, buf.Length));
      shutdown := turns == [] || turns[0].shutdown;
      while !done && !error && !shutdown
        invariant i <= |turns|
        invariant done || error ==> !shutdown
        invariant done && !error ==> output == last && Completed(turns)
        invariant error || (!done && shutdown) ==> output == last && !Completed(turns)
        invariant !done && !error && !shutdown ==>
                    && i < |turns| && !turns[i].shutdown
                    && ApplyCalls(output, WriteCalls(turns[i..], n)) == last
                    && Completed(turns[i..]) == Completed(turns)
        decreases |turns| - i
      {
        assert turns[i..][0] == turns[i] && turns[i..][1..] == turns[i + 1..];
        ghost var calls := WriteCalls(turns[i..], n);
        done, error := ReceiveTurn(turns[i]);
        assert calls != [] ==> calls[1..] == (if done || error then [] else WriteCalls(turns[i + 1..], n));
        i := i + 1;
        if !done && !error {
          assert i == |turns| ==> turns[i..] == [];
          assert i < |turns| ==> turns[i..][0] == turns[i];
          shutdown := i == |turns| || turns[i].shutdown;
        }
      }
      shutdown := shutdown || atEnd;
      ok := !error && !shutdown;
    }

    /**
      `send_response`: reads the output from its start until a read yields
      nothing, and sends every piece.  What has been sent is always a prefix of
      what is stored, and on success it is all of it.  The shutdown flag is read
      before each turn, and, as `atEnd`, when the function returns.
     */
    method SendResponse(canOpen: bool, turns: seq<SendTurn>, atEnd: bool) returns (ok: bool, sent: seq<byte>)
      requires buf.Length >= 1
      modifies buf, this`shutdown
      ensures sent <= Stored(output)
      ensures ok ==> sent == Stored(output)
      ensures ok <==>
                && canOpen && !old(shutdown) && !atEnd
                && Quiet(turns, Reads(output, 0, buf.Length))
      ensures !canOpen || old(shutdown) || (turns != [] && turns[0].shutdown) ==> sent == []
    {
      sent := [];
      if !canOpen {
        return false, sent;
      }
      var done, i := false, 0;
      ghost var needed := Reads(output, 0, buf.Length);
      ReadsBounded(output, 0, buf.Length);
      shutdown := shutdown || (turns != [] && turns[0].shutdown);
      if shutdown && !old(shutdown) {
        NotQuiet(turns, 0, needed);
      }
      while !done && !shutdown
        invariant sent <= Stored(output) && (done ==> sent == Stored(output))
        invariant i + (if done then 0 else Reads(output, |sent|, buf.Length)) == needed
        invariant Quiet(turns, i)
        invariant old(shutdown) || (turns != [] && turns[0].shutdown) ==> shutdown && sent == []
        invariant shutdown ==> old(shutdown) || !Quiet(turns, needed)
        invariant !shutdown && !done && i < |turns| ==> !turns[i].shutdown
        decreases |Stored(output)| - |sent|, !done
      {
        var turn, failed := if i < |turns| then turns[i] else SendTurn(false, false, false), false;
        ReadsBounded(output, |sent|, buf.Length);
        sent, done, failed := SendPiece(sent, turn);
        if failed {
          NotQuiet(turns, i, needed);
          return false, sent;
        }
        QuietFurther(turns, i);
        i := i + 1;
        if !done {
          ReadsBounded(output, |sent|, buf.Length);
          shutdown := i < |turns| && turns[i].shutdown;
          if shutdown {
            NotQuiet(turns, i, needed);
          }
        }
      }
      shutdown := shutdown || atEnd;
      ok := !shutdown;
    }

    /** One turn of the loop: reads the next piece and sends it, if neither fails. */
    method SendPiece(sent: seq<byte>, turn: SendTurn) returns (sent': seq<byte>, done: bool, failed: bool)
      requires buf.Length >= 1 && sent <= Stored(output)
      modifies buf
      ensures sent <= sent' <= Stored(output)
      ensures failed <==> turn.readFails || turn.sendFails
      ensures failed ==> sent' == sent
      ensures !failed ==> (done <==> sent' == sent) && (done <==> sent == Stored(output))
      ensures !failed && !done ==>
                Reads(output, |sent|, buf.Length) == 1 + Reads(output, |sent'|, buf.Length)
      ensures done ==> Reads(output, |sent|, buf.Length) == 1
    {
      sent', done, failed := sent, false, turn.readFails || turn.sendFails;
      if turn.readFails {
        return;
      }
      var piece := ReadFrom(output, |sent|, buf.Length);
      ReadFromIsSlice(output, |sent|, buf.Length);
      FillBuffer(piece);
      done := piece == [];
      if !turn.sendFails {
        assert buf[..|piece|] == piece;
        SliceConcat(Stored(output), 0, |sent|, |sent| + |piece|);
        sent' := sent + buf[..|piece|];
      }
    }

    /** `aesd_worker_main`, if no other thread has the output between the two functions. */
    method RunWorker(canOpen: bool, turns: seq<Turn>, stopped: bool,
                     canReopen: bool, sendTurns: seq<SendTurn>, stoppedLater: bool)
      returns (response: Option<seq<byte>>)
      requires Fitting(turns, buf.Length) && buf.Length >= 1
      modifies buf, this
      ensures exited
      ensures output == (if canOpen && !old(shutdown) then ApplyCalls(old(output), WriteCalls(turns, buf.Length))
                         else old(output))
      ensures response.Some? <==>
                && canOpen && !old(shutdown) && Completed(turns) && !stopped
                && canReopen && !stoppedLater && Quiet(sendTurns, Reads(output, 0, buf.Length))
      ensures response.Some? ==> response.value == Stored(output)
    {
      response := None;
      var ok := ReceiveData(canOpen, turns, stopped);
      if ok {
        var data;
        ok, data := SendResponse(canReopen, sendTurns, stoppedLater);
        if ok {
          response := Some(data);
        }
      }
      exited := true;
    }
  }
}
