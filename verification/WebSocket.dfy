// WebSocket framing of src/python/vscode_gpu_probe.py: ws_send, ws_recv and
// recv_exact, against sections 5.2 and 5.3 of RFC 6455.

module WebSocket {
  import opened Bytes
  import opened Sequences
  import opened Wrappers

  type Mask = m: seq<Byte> | |m| == 4 witness [0, 0, 0, 0]

  const TEXT: nat := 0x1

  function Masked(data: seq<Byte>, mask: Mask): (r: seq<Byte>)
    ensures |r| == |data|
  {
    seq(|data|, i requires 0 <= i < |data| => Xor(data[i], mask[i % 4]))
  }

  // ----- ws_send -----

  function LengthField(size: nat): seq<Byte>
    requires size < Pow256(8)
  {
    if size < 126 then [0x80 + size]
    else if size <= 0xFFFF then [0x80 + 126] + Pack(size, 2)
    else [0x80 + 127] + Pack(size, 8)
  }

  // None is the struct.error of a length that does not fit in 64 bits.
  function TextFrame(payload: seq<Byte>, mask: Mask): Option<seq<Byte>> {
    if |payload| >= Pow256(8) then None
    else Some([0x80 + TEXT] + LengthField(|payload|) + mask + Masked(payload, mask))
  }

  // ----- ws_recv, on the whole stream -----

  datatype Message = Message(opcode: nat, payload: seq<Byte>)

  datatype Parsed = Parsed(message: Message, rest: seq<Byte>)

  function LengthBytes(second: Byte): nat {
    if second % 128 == 126 then 2 else if second % 128 == 127 then 8 else 0
  }

  function MaskBytes(second: Byte): nat { if second >= 128 then 4 else 0 }

  function FieldValue(second: Byte, field: seq<Byte>): nat {
    if LengthBytes(second) == 0 then second % 128 else Unpack(field)
  }

  function BodyStart(second: Byte): nat { 2 + LengthBytes(second) + MaskBytes(second) }

  // Where the frame ends, if its header is complete.
  function FrameEnd(s: seq<Byte>): nat
    requires |s| >= 2 && |s| >= BodyStart(s[1])
  {
    BodyStart(s[1]) + FieldValue(s[1], s[2..2 + LengthBytes(s[1])])
  }

  predicate StartsWithFrame(s: seq<Byte>) { |s| >= 2 && |s| >= BodyStart(s[1]) && |s| >= FrameEnd(s) }

  function Payload(s: seq<Byte>): seq<Byte>
    requires StartsWithFrame(s)
  {
    var start := BodyStart(s[1]);
    if s[1] >= 128 then Masked(s[start..FrameEnd(s)], s[start - 4..start]) else s[start..FrameEnd(s)]
  }

  function Parse(s: seq<Byte>): Option<Parsed> {
    if StartsWithFrame(s) then Some(Parsed(Message(s[0] % 16, Payload(s)), s[FrameEnd(s)..])) else None
  }

  // ----- the same, step by step -----

  datatype Taken = Taken(bytes: seq<Byte>, rest: seq<Byte>)

  // What recv_exact(n) does to a stream: None is its RuntimeError.
  function Take(s: seq<Byte>, n: nat): Option<Taken> {
    if |s| < n then None else Some(Taken(s[..n], s[n..]))
  }

  // The payload of a frame whose two header bytes have been read.
  function ParseBody(first: Byte, second: Byte, s: seq<Byte>): Option<Parsed> {
    match Take(s, LengthBytes(second))
    case None => None
    case Some(field) =>
      match Take(field.rest, MaskBytes(second))
      case None => None
      case Some(mask) =>
        match Take(mask.rest, FieldValue(second, field.bytes))
        case None => None
        case Some(raw) =>
          var payload := if second >= 128 then Masked(raw.bytes, mask.bytes) else raw.bytes;
          Some(Parsed(Message(first % 16, payload), raw.rest))
  }

  // Reading a frame piece by piece is reading it as a whole.
  lemma ParseInSteps(first: Byte, second: Byte, s: seq<Byte>)
    ensures Parse([first, second] + s) == ParseBody(first, second, s)
  {
    var whole, fixed := [first, second] + s, LengthBytes(second) + MaskBytes(second);
    HeaderShifts(first, second, s, 0, |s|);
    if |s| >= fixed {
      SizeInSteps(first, second, s);
      if StartsWithFrame(whole) { PartsInSteps(first, second, s); }
    }
  }

  // The two header bytes shift all positions by two.
  lemma HeaderShifts(first: Byte, second: Byte, s: seq<Byte>, i: nat, j: nat)
    requires i <= j <= |s|
    ensures ([first, second] + s)[i + 2..j + 2] == s[i..j] && ([first, second] + s)[j + 2..] == s[j..]
  {
  }

  lemma SizeInSteps(first: Byte, second: Byte, s: seq<Byte>)
    requires |s| >= LengthBytes(second) + MaskBytes(second)
    ensures FrameEnd([first, second] + s) == BodyStart(second) + FieldValue(second, s[..LengthBytes(second)])
  {
    HeaderShifts(first, second, s, 0, LengthBytes(second));
  }

  lemma PartsInSteps(first: Byte, second: Byte, s: seq<Byte>)
    requires |s| >= LengthBytes(second) + MaskBytes(second)
    requires StartsWithFrame([first, second] + s)
    ensures var whole, fixed, size := [first, second] + s, LengthBytes(second) + MaskBytes(second),
                                      FieldValue(second, s[..LengthBytes(second)]);
            && fixed + size <= |s|
            && whole[BodyStart(second)..FrameEnd(whole)] == s[LengthBytes(second)..][MaskBytes(second)..][..size]
            && whole[FrameEnd(whole)..] == s[LengthBytes(second)..][MaskBytes(second)..][size..]
            && whole[2 + LengthBytes(second)..BodyStart(second)] == s[LengthBytes(second)..][..MaskBytes(second)]
  {
    var length, fixed, size := LengthBytes(second), LengthBytes(second) + MaskBytes(second), FieldValue(second, s[..LengthBytes(second)]);
    SizeInSteps(first, second, s);
    HeaderShifts(first, second, s, fixed, fixed + size);
    HeaderShifts(first, second, s, length, fixed);
    assert s[length..][MaskBytes(second)..] == s[fixed..];
  }

  lemma TakeConcat(a: seq<Byte>, b: seq<Byte>)
    ensures Take(a + b, |a|) == Some(Taken(a, b))
  {
  }

  lemma MaskingTwice(data: seq<Byte>, mask: Mask)
    ensures Masked(Masked(data, mask), mask) == data
  {
    forall i | 0 <= i < |data| ensures Masked(Masked(data, mask), mask)[i] == data[i] {
      XorCancels(data[i], mask[i % 4]);
    }
  }

  // Any first byte, length field, mask and payload that belong together parse
  // as one frame, whatever follows.
  lemma FramePartsParse(first: Byte, second: Byte, field: seq<Byte>, mask: seq<Byte>, raw: seq<Byte>, rest: seq<Byte>)
    requires |field| == LengthBytes(second) && FieldValue(second, field) == |raw| && |mask| == MaskBytes(second)
    ensures Parse([first, second] + (field + (mask + (raw + rest))))
         == Some(Parsed(Message(first % 16, if second >= 128 then Masked(raw, mask) else raw), rest))
  {
    ParseInSteps(first, second, field + (mask + (raw + rest)));
    TakeConcat(field, mask + (raw + rest));
    TakeConcat(mask, raw + rest);
    TakeConcat(raw, rest);
  }

  // The same without a mask and with the length in the second byte.
  lemma ShortFrameParses(first: Byte, raw: seq<Byte>, rest: seq<Byte>)
    requires |raw| < 126
    ensures Parse([first, |raw|] + (raw + rest)) == Some(Parsed(Message(first % 16, raw), rest))
  {
    FramePartsParse(first, |raw|, [], [], raw, rest);
    assert [] + (raw + rest) == raw + rest;
  }

  // ----- bytes on the wire -----

  // The length field of an unmasked frame in one of the three forms of section
  // 5.2; the longer forms are allowed for short payloads too.
  predicate IsLengthField(field: seq<Byte>, size: nat) {
    || (size < 126 && field == [size])
    || (size <= 0xFFFF && field == [126, size / 0x100, size % 0x100])
    || (size < 0x1_0000_0000_0000_0000 && field == [127] + BigEndian8(size))
  }

  // What a server sends: a first byte, a length in any form, the payload as it is.
  lemma ServerFrameParses(first: Byte, field: seq<Byte>, payload: seq<Byte>, rest: seq<Byte>)
    requires IsLengthField(field, |payload|)
    ensures Parse([first] + field + payload + rest) == Some(Parsed(Message(first % 16, payload), rest))
  {
    LengthFieldIsRead(field, |payload|);
    FramePartsParse(first, field[0], field[1..], [], payload, rest);
    ServerFrameParts(first, field, payload, rest);
  }

  lemma ServerFrameParts(first: Byte, field: seq<Byte>, payload: seq<Byte>, rest: seq<Byte>)
    requires field != []
    ensures [first] + field + payload + rest == [first, field[0]] + (field[1..] + ([] + (payload + rest)))
  {
    assert [] + (payload + rest) == payload + rest;
    assert [first] + field == [first, field[0]] + field[1..];
    Associates([first, field[0]] + field[1..], payload, rest);
    Associates([first, field[0]], field[1..], payload + rest);
  }

  lemma LengthFieldIsRead(field: seq<Byte>, size: nat)
    requires IsLengthField(field, size)
    ensures field != [] && field[0] < 128 && |field| == 1 + LengthBytes(field[0])
    ensures FieldValue(field[0], field[1..]) == size
  {
    PowersOf256();
    PackIsBigEndian(size);
    if size < 126 && field == [size] {
    } else if size <= 0xFFFF && field == [126, size / 0x100, size % 0x100] {
      UnpackPack(size, 2);
      assert field[1..] == Pack(size, 2);
    } else {
      UnpackPack(size, 8);
      assert field[1..] == Pack(size, 8);
    }
  }

  // What ws_send sends: FIN and opcode 1, the mask bit and the length, the four
  // bytes of the mask, and the payload with the bits of the mask flipped.
  lemma FrameOnTheWire(payload: seq<Byte>, mask: Mask)
    requires |payload| < 0x1_0000_0000_0000_0000
    ensures TextFrame(payload, mask).Some?
    ensures var frame, n, masked := TextFrame(payload, mask).value, |payload|, Masked(payload, mask);
            && (n < 126 ==> frame == [0x81, 0x80 + n] + mask + masked)
            && (126 <= n <= 0xFFFF ==> frame == [0x81, 0xFE, n / 0x100, n % 0x100] + mask + masked)
            && (0xFFFF < n ==> frame == ([0x81, 0xFF] + BigEndian8(n)) + mask + masked)
            && |masked| == n && |mask| == 4
            && forall i :: 0 <= i < n ==> Flips(masked[i], payload[i], mask[i % 4])
  {
    PowersOf256();
    var n, masked := |payload|, Masked(payload, mask);
    PackIsBigEndian(n);
    if n < 126 {
      assert [0x81] + [0x80 + n] == [0x81, 0x80 + n];
    } else if n <= 0xFFFF {
      assert [0x81] + ([0xFE] + Pack(n, 2)) == [0x81, 0xFE, n / 0x100, n % 0x100];
    } else {
      assert [0x81] + ([0xFF] + Pack(n, 8)) == [0x81, 0xFF] + BigEndian8(n);
    }
    forall i | 0 <= i < n ensures Flips(masked[i], payload[i], mask[i % 4]) { XorFlips(payload[i], mask[i % 4]); }
  }

  // Every frame that ws_send can emit parses back to a text message with the
  // same payload, and the parser stops exactly at its end.
  lemma FrameRoundTrip(payload: seq<Byte>, mask: Mask, rest: seq<Byte>)
    requires TextFrame(payload, mask).Some?
    ensures Parse(TextFrame(payload, mask).value + rest) == Some(Parsed(Message(TEXT, payload), rest))
  {
    LengthFieldReadsBack(|payload|);
    MaskingTwice(payload, mask);
    var field, masked := LengthField(|payload|), Masked(payload, mask);
    FramePartsParse(0x80 + TEXT, field[0], field[1..], mask, masked, rest);
    assert [0x80 + TEXT] + field == [0x80 + TEXT, field[0]] + field[1..];
    RightNested([0x80 + TEXT, field[0]], field[1..], mask, masked, rest);
  }

  lemma RightNested(a: seq<Byte>, b: seq<Byte>, c: seq<Byte>, d: seq<Byte>, e: seq<Byte>)
    ensures a + b + c + d + e == a + (b + (c + (d + e)))
  {
    assert (a + b) + c == a + (b + c);
    assert (a + (b + c)) + d == a + ((b + c) + d);
    assert (b + c) + d == b + (c + d);
    assert (a + (b + (c + d))) + e == a + ((b + (c + d)) + e);
    assert (b + (c + d)) + e == b + ((c + d) + e);
    assert (c + d) + e == c + (d + e);
  }

  lemma LengthFieldReadsBack(size: nat)
    requires size < Pow256(8)
    ensures var field := LengthField(size);
            && field[0] >= 128 && |field| == 1 + LengthBytes(field[0])
            && FieldValue(field[0], field[1..]) == size
  {
    PowersOf256();
    var field := LengthField(size);
    if size > 0xFFFF {
      UnpackPack(size, 8);
      assert field[1..] == Pack(size, 8);
    } else if size >= 126 {
      UnpackPack(size, 2);
      assert field[1..] == Pack(size, 2);
    }
  }

  // Bytes that arrive after a complete frame do not change how it parses.
  lemma ParseExtends(s: seq<Byte>, more: seq<Byte>)
    requires Parse(s).Some?
    ensures Parse(s + more) == Some(Parsed(Parse(s).value.message, Parse(s).value.rest + more))
  {
    var all, start, end := s + more, BodyStart(s[1]), FrameEnd(s);
    SliceExtends(s, more, 2, 2 + LengthBytes(s[1]));
    SliceExtends(s, more, start, end);
    SliceExtends(s, more, start - MaskBytes(s[1]), start);
    assert FrameEnd(all) == end;
  }

  lemma SliceExtends(s: seq<Byte>, more: seq<Byte>, i: nat, j: nat)
    requires i <= j <= |s|
    ensures (s + more)[i..j] == s[i..j] && (s + more)[j..] == s[j..] + more
  {
  }

  // A frame cut anywhere short of its end is never taken for a message.
  lemma TruncatedFrameNeverParses(payload: seq<Byte>, mask: Mask, k: nat)
    requires TextFrame(payload, mask).Some? && k < |TextFrame(payload, mask).value|
    ensures Parse(TextFrame(payload, mask).value[..k]).None?
  {
    var frame := TextFrame(payload, mask).value;
    if Parse(frame[..k]).Some? {
      ParseExtends(frame[..k], frame[k..]);
      assert frame[..k] + frame[k..] == frame == frame + [];
      FrameRoundTrip(payload, mask, []);
    }
  }

  // Section 5.2: the shortest length form. No masked byte string that parses to
  // the payload and nothing else is shorter than the emitted frame.
  lemma LengthFormIsMinimal(payload: seq<Byte>, mask: Mask, s: seq<Byte>, opcode: nat)
    requires Parse(s) == Some(Parsed(Message(opcode, payload), [])) && s[1] >= 128
    ensures TextFrame(payload, mask).Some? && |TextFrame(payload, mask).value| <= |s|
  {
    PowersOf256();
  }

  // ----- streams of frames -----

  lemma ParseConsumes(s: seq<Byte>)
    requires Parse(s).Some?
    ensures |Parse(s).value.rest| < |s|
  {
  }

  // Repeated ws_recv on a stream, up to the first incomplete frame.
  function ParseAll(s: seq<Byte>): seq<Message>
    decreases |s|
  {
    match Parse(s)
    case None => []
    case Some(p) => ParseConsumes(s); [p.message] + ParseAll(p.rest)
  }

  // What is left after the last complete frame.
  function Leftover(s: seq<Byte>): seq<Byte>
    decreases |s|
  {
    match Parse(s)
    case None => s
    case Some(p) => ParseConsumes(s); Leftover(p.rest)
  }

  datatype Outgoing = Outgoing(payload: seq<Byte>, mask: Mask)

  predicate Sendable(sends: seq<Outgoing>) {
    forall i :: 0 <= i < |sends| ==> |sends[i].payload| < Pow256(8)
  }

  function SendAll(sends: seq<Outgoing>): seq<Byte>
    requires Sendable(sends)
  {
    if sends == [] then []
    else TextFrame(sends[0].payload, sends[0].mask).value + SendAll(sends[1..])
  }

  function Texts(sends: seq<Outgoing>): (r: seq<Message>)
    ensures |r| == |sends|
  {
    seq(|sends|, i requires 0 <= i < |sends| => Message(TEXT, sends[i].payload))
  }

  lemma OneFrameThenTail(payload: seq<Byte>, mask: Mask, tail: seq<Byte>)
    requires TextFrame(payload, mask).Some?
    ensures ParseAll(TextFrame(payload, mask).value + tail) == [Message(TEXT, payload)] + ParseAll(tail)
    ensures Leftover(TextFrame(payload, mask).value + tail) == Leftover(tail)
  {
    FrameRoundTrip(payload, mask, tail);
  }

  // Any number of ws_send calls followed by any bytes: the receiver sees each
  // payload once, in order, and is then exactly at the following bytes.
  lemma {:induction false} StreamRoundTrip(sends: seq<Outgoing>, rest: seq<Byte>)
    requires Sendable(sends)
    ensures ParseAll(SendAll(sends) + rest) == Texts(sends) + ParseAll(rest)
    ensures Leftover(SendAll(sends) + rest) == Leftover(rest)
  {
    if sends == [] {
      assert SendAll(sends) + rest == rest;
      assert Texts(sends) + ParseAll(rest) == ParseAll(rest);
    } else {
      var first := TextFrame(sends[0].payload, sends[0].mask).value;
      var tail := SendAll(sends[1..]) + rest;
      assert SendAll(sends) + rest == first + tail;
      OneFrameThenTail(sends[0].payload, sends[0].mask, tail);
      StreamRoundTrip(sends[1..], rest);
      TextsSplit(sends, ParseAll(rest));
    }
  }

  lemma TextsSplit(sends: seq<Outgoing>, more: seq<Message>)
    requires sends != []
    ensures [Message(TEXT, sends[0].payload)] + (Texts(sends[1..]) + more) == Texts(sends) + more
  {
  }

  // ----- deliveries -----

  // The network cuts what it delivers: each recv consumes one entry of `cuts`.

  // How many of `size` bytes the next delivery brings: all of them, or as many as
  // the network says, but at least one.
  function CutSize(size: nat, cuts: seq<nat>): (n: nat)
    ensures n <= size && (n == 0 <==> size == 0)
  {
    if cuts != [] && 0 < cuts[0] < size then cuts[0] else size
  }

  // The two header bytes are there but the network delivers only the first.
  predicate HeaderIsSplit(incoming: seq<Byte>, cuts: seq<nat>) {
    |incoming| >= 2 && cuts != [] && cuts[0] == 1
  }

  function Later(cuts: seq<nat>): seq<nat> { if cuts == [] then [] else cuts[1..] }

  // What is left of the cuts once recv_exact has collected `need` bytes.
  function CutsAfter(need: nat, cuts: seq<nat>): seq<nat>
    decreases need
  {
    if need == 0 then cuts else CutsAfter(need - CutSize(need, cuts), Later(cuts))
  }

  // The same for the length field, the mask and the payload of a frame.
  function CutsAfterBody(second: Byte, size: nat, cuts: seq<nat>): seq<nat> {
    CutsAfter(size, CutsAfter(MaskBytes(second), CutsAfter(LengthBytes(second), cuts)))
  }

  datatype Delivered = Delivered(message: Message, rest: seq<Byte>, cuts: seq<nat>)

  // One ws_recv on a stream and its deliveries; None is the RuntimeError.
  function Deliver(s: seq<Byte>, cuts: seq<nat>): Option<Delivered> {
    match Parse(s)
    case None => None
    case Some(p) =>
      if HeaderIsSplit(s, cuts) then None
      else Some(Delivered(p.message, p.rest, CutsAfterBody(s[1], |p.message.payload|, Later(cuts))))
  }

  // The messages that ws_recv returns until it first raises.
  function Readable(s: seq<Byte>, cuts: seq<nat>): seq<Message>
    decreases |s|
  {
    match Deliver(s, cuts)
    case None => []
    case Some(d) => ParseConsumes(s); [d.message] + Readable(d.rest, d.cuts)
  }

  // The header of a complete frame is split, there or in a later frame.
  predicate LosesFrame(s: seq<Byte>, cuts: seq<nat>)
    decreases |s|
  {
    match Parse(s)
    case None => false
    case Some(p) =>
      ParseConsumes(s);
      HeaderIsSplit(s, cuts) || LosesFrame(p.rest, CutsAfterBody(s[1], |p.message.payload|, Later(cuts)))
  }

  // What can be read is a prefix of the frames, and all of them exactly when no
  // header of a complete frame is split.
  lemma {:induction false} ReadableExactly(s: seq<Byte>, cuts: seq<nat>)
    ensures Readable(s, cuts) <= ParseAll(s)
    ensures Readable(s, cuts) == ParseAll(s) <==> !LosesFrame(s, cuts)
    decreases |s|
  {
    if Deliver(s, cuts).Some? {
      var d := Deliver(s, cuts).value;
      ParseConsumes(s);
      ReadableExactly(d.rest, d.cuts);
      assert Readable(s, cuts)[1..] == Readable(d.rest, d.cuts) && ParseAll(s)[1..] == ParseAll(d.rest);
    }
  }

  // Cuts of one byte are the only ones that split a header.
  predicate NoSingles(cuts: seq<nat>) { forall i :: 0 <= i < |cuts| ==> cuts[i] != 1 }

  lemma {:induction false} CutsAfterKeepsNoSingles(need: nat, cuts: seq<nat>)
    requires NoSingles(cuts)
    ensures NoSingles(CutsAfter(need, cuts))
    decreases need
  {
    if need > 0 { CutsAfterKeepsNoSingles(need - CutSize(need, cuts), Later(cuts)); }
  }

  lemma BodyKeepsNoSingles(second: Byte, size: nat, cuts: seq<nat>)
    requires NoSingles(cuts)
    ensures NoSingles(CutsAfterBody(second, size, cuts))
  {
    CutsAfterKeepsNoSingles(LengthBytes(second), cuts);
    CutsAfterKeepsNoSingles(MaskBytes(second), CutsAfter(LengthBytes(second), cuts));
    CutsAfterKeepsNoSingles(size, CutsAfter(MaskBytes(second), CutsAfter(LengthBytes(second), cuts)));
  }

  lemma {:induction false} NoSinglesLoseNothing(s: seq<Byte>, cuts: seq<nat>)
    requires NoSingles(cuts)
    ensures !LosesFrame(s, cuts)
    decreases |s|
  {
    if Parse(s).Some? {
      var p := Parse(s).value;
      ParseConsumes(s);
      BodyKeepsNoSingles(s[1], |p.message.payload|, Later(cuts));
      NoSinglesLoseNothing(p.rest, CutsAfterBody(s[1], |p.message.payload|, Later(cuts)));
    }
  }

  // ----- sending and receiving -----

  // After some complete frames the stream goes on with `rest`.
  predicate Leaves(s: seq<Byte>, frames: nat, rest: seq<Byte>)
    decreases frames
  {
    if frames == 0 then s == rest
    else Parse(s).Some? && Leaves(Parse(s).value.rest, frames - 1, rest)
  }

  lemma {:induction false} LeavesOneMore(s: seq<Byte>, frames: nat, next: seq<Byte>)
    requires Leaves(s, frames, next) && Parse(next).Some?
    ensures Leaves(s, frames + 1, Parse(next).value.rest)
    decreases frames
  {
    if frames > 0 { LeavesOneMore(Parse(s).value.rest, frames - 1, next); }
  }

  function CutsAfterSend(send: Outgoing, cuts: seq<nat>): seq<nat>
    requires |send.payload| < Pow256(8)
  {
    CutsAfterBody(LengthField(|send.payload|)[0], |send.payload|, Later(cuts))
  }

  // The cuts left after receiving the frames of some sends, and whether any of
  // their headers came in two parts.
  function CutsAfterSends(sends: seq<Outgoing>, cuts: seq<nat>): seq<nat>
    requires Sendable(sends)
  {
    if sends == [] then cuts
    else CutsAfterSends(sends[1..], CutsAfterSend(sends[0], cuts))
  }

  predicate SplitsHeader(sends: seq<Outgoing>, cuts: seq<nat>)
    requires Sendable(sends)
  {
    sends != []
    && ((cuts != [] && cuts[0] == 1) || SplitsHeader(sends[1..], CutsAfterSend(sends[0], cuts)))
  }

  lemma SecondByte(send: Outgoing, tail: seq<Byte>)
    requires |send.payload| < Pow256(8)
    ensures (TextFrame(send.payload, send.mask).value + tail)[1] == LengthField(|send.payload|)[0]
  {
    var frame := TextFrame(send.payload, send.mask).value;
    assert frame == [0x80 + TEXT] + LengthField(|send.payload|) + send.mask + Masked(send.payload, send.mask);
  }

  lemma OneSendDelivered(send: Outgoing, tail: seq<Byte>, cuts: seq<nat>)
    requires |send.payload| < Pow256(8)
    ensures Deliver(TextFrame(send.payload, send.mask).value + tail, cuts)
         == if cuts != [] && cuts[0] == 1 then None
            else Some(Delivered(Message(TEXT, send.payload), tail, CutsAfterSend(send, cuts)))
  {
    FrameRoundTrip(send.payload, send.mask, tail);
    SecondByte(send, tail);
  }

  // While no header is split the messages are the payloads, in order, and then
  // whatever can be read of what follows.
  lemma {:induction false} WholeHeadersDeliver(sends: seq<Outgoing>, rest: seq<Byte>, cuts: seq<nat>)
    requires Sendable(sends) && !SplitsHeader(sends, cuts)
    ensures Readable(SendAll(sends) + rest, cuts) == Texts(sends) + Readable(rest, CutsAfterSends(sends, cuts))
  {
    var after := Readable(rest, CutsAfterSends(sends, cuts));
    if sends == [] {
      assert SendAll(sends) + rest == rest && Texts(sends) + after == after;
    } else {
      var first := sends[0];
      Associates(TextFrame(first.payload, first.mask).value, SendAll(sends[1..]), rest);
      OneSendDelivered(first, SendAll(sends[1..]) + rest, cuts);
      WholeHeadersDeliver(sends[1..], rest, CutsAfterSend(first, cuts));
      TextsSplit(sends, after);
    }
  }

  // With a split header they stop short.
  lemma {:induction false} SplitHeadersLose(sends: seq<Outgoing>, rest: seq<Byte>, cuts: seq<nat>)
    requires Sendable(sends) && SplitsHeader(sends, cuts)
    ensures |Readable(SendAll(sends) + rest, cuts)| < |sends|
  {
    var first := sends[0];
    Associates(TextFrame(first.payload, first.mask).value, SendAll(sends[1..]), rest);
    OneSendDelivered(first, SendAll(sends[1..]) + rest, cuts);
    if cuts == [] || cuts[0] != 1 { SplitHeadersLose(sends[1..], rest, CutsAfterSend(first, cuts)); }
  }

  lemma {:induction false} SendsLeave(sends: seq<Outgoing>, rest: seq<Byte>, after: seq<Byte>)
    requires Sendable(sends)
    ensures Leaves(SendAll(sends) + rest, |sends|, after) <==> after == rest
  {
    if sends == [] {
      assert SendAll(sends) + rest == rest;
    } else {
      var frame := TextFrame(sends[0].payload, sends[0].mask).value;
      Associates(frame, SendAll(sends[1..]), rest);
      FrameRoundTrip(sends[0].payload, sends[0].mask, SendAll(sends[1..]) + rest);
      SendsLeave(sends[1..], rest, after);
    }
  }

  // In particular whatever the deliveries are, if none brings a single byte.
  lemma {:induction false} NoSinglesSplitNothing(sends: seq<Outgoing>, cuts: seq<nat>)
    requires Sendable(sends) && NoSingles(cuts)
    ensures !SplitsHeader(sends, cuts)
  {
    if sends != [] {
      var size := |sends[0].payload|;
      BodyKeepsNoSingles(LengthField(size)[0], size, Later(cuts));
      NoSinglesSplitNothing(sends[1..], CutsAfterSend(sends[0], cuts));
    }
  }

  // ----- the socket -----

  // A connected socket: what the peer will still deliver before it closes, what
  // was sent to it, and how the network cuts the deliveries.
  class Socket {
    var incoming: seq<Byte>
    var outgoing: seq<Byte>
    var cuts: seq<nat>

    constructor (incoming: seq<Byte>, cuts: seq<nat>)
      ensures this.incoming == incoming && this.cuts == cuts && outgoing == []
    {
      this.incoming, this.cuts, outgoing := incoming, cuts, [];
    }

    // recv(n): some non-empty part of what is available, empty at the end.
    method Recv(n: nat) returns (chunk: seq<Byte>)
      modifies this`incoming, this`cuts
      ensures old(incoming) == chunk + incoming
      ensures |chunk| == CutSize(if n < |old(incoming)| then n else |old(incoming)|, old(cuts))
      ensures cuts == Later(old(cuts))
    {
      var size := CutSize(if n < |incoming| then n else |incoming|, cuts);
      cuts := Later(cuts);
      chunk, incoming := incoming[..size], incoming[size..];
    }

    method SendBytes(data: seq<Byte>)
      modifies this`outgoing
      ensures outgoing == old(outgoing) + data
    {
      outgoing := outgoing + data;
    }
  }

  // recv_exact: None is the RuntimeError of a stream that ends too early.
  method RecvExact(sock: Socket, size: nat) returns (r: Option<seq<Byte>>)
    modifies sock`incoming, sock`cuts
    ensures var taken := Take(old(sock.incoming), size);
            && (taken.None? ==> r == None && sock.incoming == [])
            && (taken.Some? ==> r == Some(taken.value.bytes) && sock.incoming == taken.value.rest)
            && (taken.Some? ==> sock.cuts == CutsAfter(size, old(sock.cuts)))
  {
    var data := [];
    while |data| < size
      invariant |data| <= size
      invariant data + sock.incoming == old(sock.incoming)
      invariant |old(sock.incoming)| >= size ==>
                  CutsAfter(size - |data|, sock.cuts) == CutsAfter(size, old(sock.cuts))
    {
      var chunk := sock.Recv(size - |data|);
      if chunk == [] { return None; }
      data := data + chunk;
    }
    return Some(data);
  }

  // Lost: the RuntimeError "closed"; `split` says that it was raised although
  // the stream goes on, because the header came in two parts.
  datatype RecvResult = Got(message: Message) | Lost(split: bool)

  method WsSend(sock: Socket, payload: seq<Byte>, mask: Mask) returns (ok: bool)
    modifies sock`outgoing
    ensures ok <==> |payload| < Pow256(8)
    ensures ok ==> sock.outgoing == old(sock.outgoing) + SendAll([Outgoing(payload, mask)])
    ensures !ok ==> sock.outgoing == old(sock.outgoing)
  {
    var size := |payload|;
    PowersOf256();
    var header;
    if size < 126 {
      header := [0x81, 0x80 + size];
    } else if size <= 0xFFFF {
      header := [0x81, 0x80 + 126] + Pack(size, 2);
    } else if size < 0x1_0000_0000_0000_0000 {
      header := [0x81, 0x80 + 127] + Pack(size, 8);
    } else {
      return false;
    }
    assert header == [0x80 + TEXT] + LengthField(size);
    sock.SendBytes(header + mask + Masked(payload, mask));
    ghost var sends := [Outgoing(payload, mask)];
    assert SendAll(sends) == TextFrame(payload, mask).value + SendAll(sends[1..]) == TextFrame(payload, mask).value;
    return true;
  }

  // The seven-bit length, or the 2 or 8 bytes it stands for.
  method RecvLength(sock: Socket, second: Byte) returns (r: Option<nat>)
    modifies sock`incoming, sock`cuts
    ensures var field := Take(old(sock.incoming), LengthBytes(second));
            && (field.None? ==> r == None)
            && (field.Some? ==> r == Some(FieldValue(second, field.value.bytes)))
            && (field.Some? ==> sock.incoming == field.value.rest)
            && (field.Some? ==> sock.cuts == CutsAfter(LengthBytes(second), old(sock.cuts)))
  {
    var length := second % 128;
    if length == 126 {
      var more := RecvExact(sock, 2);
      return if more.None? then None else Some(Unpack(more.value));
    } else if length == 127 {
      var more := RecvExact(sock, 8);
      return if more.None? then None else Some(Unpack(more.value));
    }
    assert sock.incoming[0..] == sock.incoming;
    return Some(length);
  }

  method WsRecv(sock: Socket) returns (r: RecvResult)
    modifies sock`incoming, sock`cuts
    ensures r.Got? ==> Deliver(old(sock.incoming), old(sock.cuts)) == Some(Delivered(r.message, sock.incoming, sock.cuts))
    ensures r.Lost? ==> Deliver(old(sock.incoming), old(sock.cuts)).None?
    ensures r == Lost(true) <==> HeaderIsSplit(old(sock.incoming), old(sock.cuts))
  {
    ghost var s := sock.incoming;
    var header := sock.Recv(2);
    if |header| != 2 {
      return Lost(header != [] && sock.incoming != []);
    }
    var first, second := header[0], header[1];
    assert s == [first, second] + sock.incoming;
    ParseInSteps(first, second, sock.incoming);
    r := RecvBody(sock, first, second);
  }

  method RecvBody(sock: Socket, first: Byte, second: Byte) returns (r: RecvResult)
    modifies sock`incoming, sock`cuts
    ensures r.Got? ==>
              && ParseBody(first, second, old(sock.incoming)) == Some(Parsed(r.message, sock.incoming))
              && sock.cuts == CutsAfterBody(second, |r.message.payload|, old(sock.cuts))
    ensures r.Lost? ==> !r.split && ParseBody(first, second, old(sock.incoming)).None?
  {
    var opcode := first % 16;
    var length := RecvLength(sock, second);
    if length.None? { return Lost(false); }
    var masked := second >= 128;
    var mask := [];
    if masked {
      var more := RecvExact(sock, 4);
      if more.None? { return Lost(false); }
      mask := more.value;
    }
    assert !masked ==> Take(sock.incoming, 0) == Some(Taken([], sock.incoming));
    var body := RecvExact(sock, length.value);
    if body.None? { return Lost(false); }
    var payload := body.value;
    if masked {
      payload := Unmask(payload, mask);
    }
    return Got(Message(opcode, payload));
  }

  // One of several calls of ws_recv: `frames` are the messages still to come,
  // `made` the number of calls since the stream was `start`.
  method WsRecvNext(sock: Socket, ghost frames: seq<Message>, ghost start: seq<Byte>, ghost made: nat)
    returns (r: RecvResult, ghost later: seq<Message>)
    requires frames == Readable(sock.incoming, sock.cuts) && Leaves(start, made, sock.incoming)
    modifies sock`incoming, sock`cuts
    ensures r.Got? ==> later == Readable(sock.incoming, sock.cuts) && frames == [r.message] + later
    ensures r.Got? ==> Leaves(start, made + 1, sock.incoming) && |sock.incoming| < |old(sock.incoming)|
    ensures r.Lost? ==> frames == []
  {
    r := WsRecv(sock);
    later := Readable(sock.incoming, sock.cuts);
    if r.Got? {
      ParseConsumes(old(sock.incoming));
      LeavesOneMore(start, made, old(sock.incoming));
    }
  }

  // Repeated calls of ws_recv: they all succeed if and only if that many
  // messages can be read, and then they return these and leave the rest.
  method WsRecvMany(sock: Socket, calls: nat) returns (r: Option<seq<Message>>)
    modifies sock`incoming, sock`cuts
    ensures r.Some? <==> calls <= |Readable(old(sock.incoming), old(sock.cuts))|
    ensures r.Some? ==> r.value + Readable(sock.incoming, sock.cuts) == Readable(old(sock.incoming), old(sock.cuts))
    ensures r.Some? ==> |r.value| == calls && Leaves(old(sock.incoming), calls, sock.incoming)
  {
    ghost var all, start := Readable(sock.incoming, sock.cuts), sock.incoming;
    ghost var frames := all;
    var messages := [];
    while |messages| < calls
      invariant |messages| <= calls && messages + frames == all
      invariant frames == Readable(sock.incoming, sock.cuts)
      invariant Leaves(start, |messages|, sock.incoming)
    {
      var one;
      ghost var later;
      one, later := WsRecvNext(sock, frames, start, |messages|);
      if one.Lost? { return None; }
      Associates(messages, [one.message], later);
      messages, frames := messages + [one.message], later;
    }
    return Some(messages);
  }

  // The round trip over a socket: as many ws_recv as there were ws_send return
  // the payloads and consume exactly the frames, for every way of cutting the
  // deliveries that splits no header, and for no other.
  method ReceiveSends(sock: Socket, sends: seq<Outgoing>, ghost rest: seq<Byte>) returns (r: Option<seq<Message>>)
    requires Sendable(sends) && sock.incoming == SendAll(sends) + rest
    modifies sock`incoming, sock`cuts
    ensures r.Some? <==> !SplitsHeader(sends, old(sock.cuts))
    ensures r.Some? ==> r.value == Texts(sends) && sock.incoming == rest
  {
    ghost var cuts := sock.cuts;
    if SplitsHeader(sends, cuts) {
      SplitHeadersLose(sends, rest, cuts);
    } else {
      WholeHeadersDeliver(sends, rest, cuts);
    }
    r := WsRecvMany(sock, |sends|);
    if r.Some? {
      SendsLeave(sends, rest, sock.incoming);
      assert (r.value + Readable(sock.incoming, sock.cuts))[..|sends|] == r.value;
      assert (Texts(sends) + Readable(rest, CutsAfterSends(sends, cuts)))[..|sends|] == Texts(sends);
    }
  }

  // The in-place loop over the payload bytearray.
  method Unmask(data: seq<Byte>, mask: Mask) returns (payload: seq<Byte>)
    ensures payload == Masked(data, mask)
  {
    payload := data;
    for index := 0 to |data|
      invariant |payload| == |data|
      invariant forall i :: 0 <= i < index ==> payload[i] == Masked(data, mask)[i]
      invariant forall i :: index <= i < |data| ==> payload[i] == data[i]
    {
      payload := payload[index := Xor(payload[index], mask[index % 4])];
    }
  }
}
