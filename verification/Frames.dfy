/** DNS messages over TCP, section 4.2.2 of RFC 1035: the incremental decoder of `bin/src/msg.rs`
    and the framing half of `bin/src/sender.rs`. */
module Frames {
  import opened Basics

  // ---------------------------------------------------------------- message header

  /** Section 4.1.1 of RFC 1035: the ID is the first 16-bit word. */
  function MsgId(msg: seq<byte>): Id
    requires |msg| >= 2
  {
    msg[0] as int * 0x100 + msg[1] as int
  }

  /** The frame that does no more than carry an identifier. */
  function Bare(id: Id): seq<byte> {
    [id / 0x100, id % 0x100]
  }

  /** The identifier is in the first two bytes, the high one first, whatever follows. */
  lemma IdComesFirst(msg: seq<byte>, id: Id, rest: seq<byte>)
    requires |msg| >= 2
    ensures Bare(MsgId(msg)) == msg[..2]
    ensures MsgId(Bare(id) + rest) == id
    ensures MsgId(msg) == id <==> msg[..2] == Bare(id)
  {
  }

  /** Section 4.1.1 of RFC 1035: RCODE is the low half of the fourth octet. */
  function Rcode(msg: seq<byte>): (code: nat)
    requires |msg| >= 4
    ensures code < 16
  {
    msg[3] % 16
  }

  /** The code is the low half of the fourth byte, whatever stands before, beside and after it. */
  lemma CodeInFourthByte(head: seq<byte>, high: nat, code: nat, rest: seq<byte>)
    requires |head| == 3 && high < 16 && code < 16
    ensures Rcode(head + [16 * high + code] + rest) == code
  {
  }

  /** The mask the source uses and the remainder above are the same function. */
  lemma MaskIsRemainder(b: bv8)
    ensures (b & 0x0F) as int == (b as int) % 16
  {
    assert (b & 0x0F) == b % 16;
  }

  // ---------------------------------------------------------------- writing

  /** A big-endian 16-bit length; `as u16` keeps the low 16 bits. */
  function LengthPrefix(n: nat): seq<byte> {
    [n / 0x100 % 0x100, n % 0x100]
  }

  function Frame(msg: seq<byte>): seq<byte> {
    LengthPrefix(|msg|) + msg
  }

  /** The length stands before the message, its high byte first, on both sides of the wire. */
  lemma LengthComesFirst(high: byte, low: byte, msg: seq<byte>, rest: seq<byte>)
    requires |msg| % 0x1_0000 == high as int * 0x100 + low as int
    ensures Frame(msg) == [high, low] + msg
    ensures FrameLength([high, low] + rest) == |msg| % 0x1_0000
  {
    assert |msg| / 0x100 % 0x100 == high as int && |msg| % 0x100 == low as int;
  }

  /** Everything the sender has written after these messages. */
  function Wire(msgs: seq<seq<byte>>): seq<byte> {
    if msgs == [] then [] else Frame(msgs[0]) + Wire(msgs[1..])
  }

  class TcpWriter {
    var written: seq<byte>

    constructor ()
      ensures written == []
    {
      written := [];
    }

    method Send(msg: seq<byte>)
      modifies this
      ensures written == old(written) + Frame(msg)
    {
      written := written + LengthPrefix(|msg|);
      written := written + msg;
    }
  }

  // ---------------------------------------------------------------- reading

  function FrameLength(src: seq<byte>): nat
    requires |src| >= 2
  {
    src[0] as int * 0x100 + src[1] as int
  }

  /** Whether a whole frame stands at the front of the buffer. */
  predicate HasFrame(src: seq<byte>) {
    |src| >= 2 && |src| >= 2 + FrameLength(src)
  }

  datatype Parsed = Parsed(frames: seq<seq<byte>>, residue: seq<byte>)

  /** The whole stream read in one go. */
  function Parse(src: seq<byte>): Parsed
    decreases |src|
  {
    if !HasFrame(src) then Parsed([], src)
    else
      var end := 2 + FrameLength(src);
      var rest := Parse(src[end..]);
      Parsed([src[2..end]] + rest.frames, rest.residue)
  }

  /** The growable buffer the decoder consumes from the front. */
  class BytesMut {
    var bytes: seq<byte>

    constructor ()
      ensures bytes == []
    {
      bytes := [];
    }

    method Extend(chunk: seq<byte>)
      modifies this
      ensures bytes == old(bytes) + chunk
    {
      bytes := bytes + chunk;
    }

    method Advance(n: nat)
      requires n <= |bytes|
      modifies this
      ensures bytes == old(bytes)[n..]
    {
      bytes := bytes[n..];
    }

    method SplitTo(n: nat) returns (front: seq<byte>)
      requires n <= |bytes|
      modifies this
      ensures front == old(bytes)[..n] && bytes == old(bytes)[n..]
    {
      front := bytes[..n];
      bytes := bytes[n..];
    }
  }

  lemma LengthBound(msg: seq<byte>, src: seq<byte>)
    requires HasFrame(src) && |msg| == FrameLength(src)
    ensures |msg| < 0x1_0000
  {
  }

  /** One call of the decoder: nothing is consumed unless a whole frame is there, and then exactly
      that frame is. */
  method Decode(src: BytesMut) returns (frame: Option<seq<byte>>)
    modifies src
    ensures frame.Some? <==> HasFrame(old(src.bytes))
    ensures frame.None? ==> src.bytes == old(src.bytes)
    ensures frame.Some? ==>
              |frame.value| == FrameLength(old(src.bytes)) && old(src.bytes) == Frame(frame.value) + src.bytes
  {
    if |src.bytes| < 2 {
      return None;
    }
    var length := src.bytes[0] as int * 0x100 + src.bytes[1] as int;
    if |src.bytes| < 2 + length {
      return None;
    }
    hide LengthPrefix;
    ghost var before := src.bytes;
    src.Advance(2);
    var msg := src.SplitTo(length);
    LengthComesFirst(before[0], before[1], msg, []);
    assert before == [before[0], before[1]] + msg + src.bytes;
    frame := Some(msg);
  }

  /** Decoding until nothing more comes, as the framed reader does after every read. */
  method DecodeAvailable(src: BytesMut) returns (frames: seq<seq<byte>>)
    modifies src
    ensures Parse(old(src.bytes)) == Parsed(frames, src.bytes)
  {
    frames := [];
    ghost var all := src.bytes;
    var more := true;
    while more
      invariant Parse(all) == Parsed(frames + Parse(src.bytes).frames, Parse(src.bytes).residue)
      invariant !more ==> !HasFrame(src.bytes)
      decreases more, |src.bytes|
    {
      hide Frame, HasFrame, Parse, FrameLength;
      ghost var before := src.bytes;
      var frame := Decode(src);
      if frame.Some? {
        LengthBound(frame.value, before);
        ParseFrame(frame.value, src.bytes);
        assert frames + ([frame.value] + Parse(src.bytes).frames)
            == (frames + [frame.value]) + Parse(src.bytes).frames;
        frames := frames + [frame.value];
      } else {
        more := false;
      }
    }
  }

  function Concat(chunks: seq<seq<byte>>): seq<byte> {
    if chunks == [] then [] else Concat(chunks[..|chunks| - 1]) + chunks[|chunks| - 1]
  }

  /** However the stream is cut into reads, the frames and the left-over bytes are those of the whole stream. */
  method ReadChunks(chunks: seq<seq<byte>>) returns (frames: seq<seq<byte>>, residue: seq<byte>)
    ensures Parsed(frames, residue) == Parse(Concat(chunks))
  {
    var src := new BytesMut();
    frames := [];
    for k := 0 to |chunks|
      invariant fresh(src)
      invariant Parsed(frames, src.bytes) == Parse(Concat(chunks[..k]))
    {
      src.Extend(chunks[k]);
      ParseExtend(Concat(chunks[..k]), chunks[k]);
      assert chunks[..k + 1][..k] == chunks[..k];
      var more := DecodeAvailable(src);
      frames := frames + more;
    }
    assert chunks[..|chunks|] == chunks;
    residue := src.bytes;
  }

  // ---------------------------------------------------------------- what parsing means

  ghost predicate AllFit(msgs: seq<seq<byte>>) {
    forall i :: 0 <= i < |msgs| ==> |msgs[i]| < 0x1_0000
  }

  lemma Associate(a: seq<byte>, b: seq<byte>, c: seq<byte>)
    ensures a + (b + c) == (a + b) + c
  {
  }

  lemma WireCons(msg: seq<byte>, rest: seq<seq<byte>>)
    ensures Wire([msg] + rest) == Frame(msg) + Wire(rest)
  {
    assert ([msg] + rest)[1..] == rest;
  }

  lemma WireNothing(rest: seq<byte>)
    ensures Wire([]) + rest == rest
  {
  }

  lemma PrefixRoundTrip(msg: seq<byte>, rest: seq<byte>)
    requires |msg| < 0x1_0000
    ensures HasFrame(Frame(msg) + rest) && FrameLength(Frame(msg) + rest) == |msg|
    ensures (Frame(msg) + rest)[2..2 + |msg|] == msg
    ensures (Frame(msg) + rest)[2 + |msg|..] == rest
  {
    Associate(LengthPrefix(|msg|), msg, rest);
  }

  lemma ParseFrame(msg: seq<byte>, rest: seq<byte>)
    requires |msg| < 0x1_0000
    ensures Parse(Frame(msg) + rest) == Parsed([msg] + Parse(rest).frames, Parse(rest).residue)
  {
    hide Frame;
    PrefixRoundTrip(msg, rest);
  }

  lemma ParseNothing(src: seq<byte>)
    requires !HasFrame(src)
    ensures Parse(src) == Parsed([], src)
  {
  }

  lemma SplitFrame(src: seq<byte>)
    requires HasFrame(src)
    ensures var end := 2 + FrameLength(src);
            src == Frame(src[2..end]) + src[end..] && end - 2 < 0x1_0000
  {
    var end := 2 + FrameLength(src);
    assert LengthPrefix(end - 2) == src[..2];
    assert src == src[..2] + src[2..end] + src[end..];
  }

  ghost predicate Cuts(src: seq<byte>, frames: seq<seq<byte>>, residue: seq<byte>) {
    src == Wire(frames) + residue && AllFit(frames) && !HasFrame(residue)
  }

  /** Parsing loses nothing: the frames, put back on the wire, followed by the residue, are the input. */
  lemma {:induction false} ParseSound(src: seq<byte>)
    ensures Cuts(src, Parse(src).frames, Parse(src).residue)
    decreases |src|
  {
    if HasFrame(src) {
      var end := 2 + FrameLength(src);
      ParseSound(src[end..]);
      SplitFrame(src);
      ParseFrame(src[2..end], src[end..]);
      CutsCons(src[2..end], src[end..], Parse(src[end..]).frames, Parse(src[end..]).residue);
    } else {
      WireNothing(src);
    }
  }

  lemma CutsCons(msg: seq<byte>, src: seq<byte>, frames: seq<seq<byte>>, residue: seq<byte>)
    requires |msg| < 0x1_0000 && Cuts(src, frames, residue)
    ensures Cuts(Frame(msg) + src, [msg] + frames, residue)
  {
    hide Frame, Wire, HasFrame;
    WireCons(msg, frames);
    Associate(Frame(msg), Wire(frames), residue);
  }

  /** Parsing is the only way to cut a stream into whole frames and an incomplete rest. */
  lemma {:induction false} ParseComplete(src: seq<byte>, frames: seq<seq<byte>>, residue: seq<byte>)
    requires Cuts(src, frames, residue)
    ensures Parse(src) == Parsed(frames, residue)
    decreases |frames|
  {
    hide Frame, HasFrame, Parse;
    if frames == [] {
      WireNothing(residue);
      ParseNothing(residue);
    } else {
      var msg, rest := frames[0], frames[1..];
      assert frames == [msg] + rest;
      WireCons(msg, rest);
      Associate(Frame(msg), Wire(rest), residue);
      ParseComplete(Wire(rest) + residue, rest, residue);
      ParseFrame(msg, Wire(rest) + residue);
    }
  }

  /** What `Parse` means, both ways. */
  lemma ParseMeaning(src: seq<byte>, frames: seq<seq<byte>>, residue: seq<byte>)
    ensures Parse(src) == Parsed(frames, residue)
       <==> src == Wire(frames) + residue && AllFit(frames) && !HasFrame(residue)
  {
    hide Parse, Wire, HasFrame, AllFit;
    ParseSound(src);
    if Cuts(src, frames, residue) {
      ParseComplete(src, frames, residue);
    }
  }

  lemma {:induction false} WireAppend(a: seq<seq<byte>>, b: seq<seq<byte>>)
    ensures Wire(a + b) == Wire(a) + Wire(b)
  {
    if a == [] {
      assert a + b == b;
      WireNothing(Wire(b));
    } else {
      hide Frame, Wire;
      var msg, rest := a[0], a[1..];
      assert a == [msg] + rest && a + b == [msg] + (rest + b);
      WireAppend(rest, b);
      WireCons(msg, rest);
      WireCons(msg, rest + b);
      Associate(Frame(msg), Wire(rest), Wire(b));
    }
  }

  /** New bytes only ever concern the residue. */
  lemma ParseExtend(src: seq<byte>, chunk: seq<byte>)
    ensures var before, after := Parse(src), Parse(Parse(src).residue + chunk);
            Parse(src + chunk) == Parsed(before.frames + after.frames, after.residue)
  {
    hide Parse, Wire, HasFrame;
    var before := Parse(src);
    var after := Parse(before.residue + chunk);
    ParseSound(src);
    ParseSound(before.residue + chunk);
    WireAppend(before.frames, after.frames);
    Associate(Wire(before.frames), before.residue, chunk);
    Associate(Wire(before.frames), Wire(after.frames), after.residue);
    ParseComplete(src + chunk, before.frames + after.frames, after.residue);
  }

  /** Sent messages come back, all of them and nothing else, exactly when each fits its 16-bit length. */
  lemma RoundTrip(msgs: seq<seq<byte>>)
    ensures Parse(Wire(msgs)) == Parsed(msgs, []) <==> AllFit(msgs)
  {
    hide Parse, Wire;
    assert Wire(msgs) + [] == Wire(msgs);
    ParseMeaning(Wire(msgs), msgs, []);
  }

  lemma FramingInjective(a: seq<seq<byte>>, b: seq<seq<byte>>)
    requires AllFit(a) && AllFit(b)
    requires Wire(a) == Wire(b)
    ensures a == b
  {
    RoundTrip(a);
    RoundTrip(b);
  }

  /** A message of 65536 bytes is announced as empty, so its body is read as further frames. */
  lemma OversizeMessageIsMisread(msg: seq<byte>)
    requires |msg| == 0x1_0000
    ensures Parse(Wire([msg])).frames != [] && Parse(Wire([msg])).frames[0] == []
  {
    assert Wire([msg]) == Frame([]) + msg;
    ParseFrame([], msg);
  }
}
