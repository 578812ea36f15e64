/**
  What the socket server writes to and reads back: a plain file opened for
  appending, or the character device.
 */
module Output {
  import opened Bytes
  import opened DeviceSpec

  datatype Sink = File(content: seq<byte>) | Dev(device: Device)

  /** What a reader that starts at position 0 finds. */
  function Stored(out: Sink): seq<byte> {
    match out
    case File(content) => content
    case Dev(d) => Content(d)
  }

  /** One `write`: all of `data`, or an error, which on the device may still have kept the bytes. */
  function WriteTo(out: Sink, data: seq<byte>, res: Result): Sink {
    match out
    case File(content) => if res.Count? then File(content + data) else out
    case Dev(d) => Dev(Effect(d, Op.Write(data), res))
  }

  /** One `read` at the position that the open file has reached. */
  function ReadFrom(out: Sink, pos: nat, count: nat): seq<byte> {
    match out
    case File(content) => if pos >= |content| then [] else content[pos..pos + Min(|content| - pos, count)]
    case Dev(d) => ReadAt(Window(d), pos, count)
  }

  lemma ReadFromIsSlice(out: Sink, pos: nat, count: nat)
    requires count > 0 && pos <= |Stored(out)|
    ensures var b := ReadFrom(out, pos, count);
            && |b| <= count && pos + |b| <= |Stored(out)| && b == Stored(out)[pos..pos + |b|]
            && (b == [] <==> pos == |Stored(out)|)
            && (out.File? ==> |b| == Min(|Stored(out)| - pos, count))
  {
    if out.Dev? {
      ReadAtIsSlice(Window(out.device), pos, count);
    }
  }
}
