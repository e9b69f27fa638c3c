// The request loop cdp_system_info of src/python/vscode_gpu_probe.py, with the
// ping, pong and close rules of sections 5.5.1 to 5.5.3 of RFC 6455.

module Cdp {
  import opened Bytes
  import opened Sequences
  import opened Wrappers
  import opened WebSocket

  const BINARY: nat := 0x2
  const CLOSE: nat := 0x8
  const PING: nat := 0x9
  const PONG: nat := 0xA

  // What parsing the JSON of a text or binary frame leads to: a message with
  // another id, the result, or an exception (bad JSON, an error reply, no result).
  datatype Reply = OtherId | Result(value: seq<Byte>) | Fault

  type Classifier = seq<Byte> -> Reply

  // Disconnected: the stream ended. PongTooLong: bytes((0x8A, n)) with n > 255.
  datatype Outcome = Answered(value: seq<Byte>) | Faulted | ClosedEarly | PongTooLong | Disconnected

  function Pong(payload: seq<Byte>): Option<seq<Byte>> {
    if |payload| > 255 then None else Some([0x8A, |payload|] + payload)
  }

  datatype Transcript = Transcript(outcome: Outcome, pongs: seq<seq<Byte>>)

  // The loop over the frames that arrive; pongs are the payloads echoed.
  function Exchange(frames: seq<Message>, classify: Classifier): Transcript {
    if frames == [] then Transcript(Disconnected, [])
    else
      var m := frames[0];
      if m.opcode == PING then
        if |m.payload| > 255 then Transcript(PongTooLong, [])
        else
          var later := Exchange(frames[1..], classify);
          Transcript(later.outcome, [m.payload] + later.pongs)
      else if m.opcode == CLOSE then Transcript(ClosedEarly, [])
      else if m.opcode != TEXT && m.opcode != BINARY then Exchange(frames[1..], classify)
      else match classify(m.payload)
        case OtherId => Exchange(frames[1..], classify)
        case Result(value) => Transcript(Answered(value), [])
        case Fault => Transcript(Faulted, [])
  }

  // ----- reading the exchange off the frames -----

  // The frames that end the exchange.
  predicate Decides(m: Message, classify: Classifier) {
    || (m.opcode == PING && |m.payload| > 255)
    || m.opcode == CLOSE
    || (m.opcode in {TEXT, BINARY} && classify(m.payload) != OtherId)
  }

  function Pings(frames: seq<Message>): seq<seq<Byte>> {
    if frames == [] then []
    else (if frames[0].opcode == PING then [frames[0].payload] else []) + Pings(frames[1..])
  }

  // The outcome is settled by the first deciding frame alone, and every ping
  // before it, and no other frame, has been echoed, once and in order.
  lemma {:induction false} FirstDecidingFrameSettles(frames: seq<Message>, classify: Classifier, n: nat)
    requires n <= |frames| && forall i :: 0 <= i < n ==> !Decides(frames[i], classify)
    requires n < |frames| ==> Decides(frames[n], classify)
    ensures Exchange(frames, classify).pongs == Pings(frames[..n])
    ensures var outcome := Exchange(frames, classify).outcome;
            && (outcome == Disconnected <==> n == |frames|)
            && (n < |frames| ==>
                && (outcome == ClosedEarly <==> frames[n].opcode == CLOSE)
                && (outcome == PongTooLong <==> frames[n].opcode == PING)
                && (forall v :: outcome == Answered(v) <==>
                      frames[n].opcode in {TEXT, BINARY} && classify(frames[n].payload) == Result(v)))
  {
    if n > 0 {
      assert frames[..n][0] == frames[0] && frames[..n][1..] == frames[1..][..n-1];
      FirstDecidingFrameSettles(frames[1..], classify, n - 1);
    }
  }

  // ----- pongs on the wire -----

  lemma PongRoundTrip(payload: seq<Byte>, rest: seq<Byte>)
    requires |payload| <= 125
    ensures Parse(Pong(payload).value + rest) == Some(Parsed(Message(PONG, payload), rest))
  {
    ShortFrameParses(0x8A, payload, rest);
    Associates([0x8A, |payload|], payload, rest);
  }

  lemma ParsedSize(s: seq<Byte>)
    ensures Parse(s).Some? ==> |s| == 2 + LengthBytes(s[1]) + MaskBytes(s[1]) + |Parse(s).value.message.payload| + |Parse(s).value.rest|
  {
  }

  // A pong carries its payload exactly when section 5.5 of RFC 6455 allows the
  // ping it answers: above 125 bytes the length byte means something else.
  lemma PongFaithfulExactly(payload: seq<Byte>)
    requires Pong(payload).Some?
    ensures Pong(payload).value == [0x8A, |payload|] + payload
    ensures Parse(Pong(payload).value) == Some(Parsed(Message(PONG, payload), [])) <==> |payload| <= 125
  {
    var s := Pong(payload).value;
    assert s + [] == s;
    if |payload| <= 125 {
      PongRoundTrip(payload, []);
    } else {
      ParsedSize(s);
    }
  }

  predicate Echoable(pings: seq<seq<Byte>>) {
    forall i :: 0 <= i < |pings| ==> |pings[i]| <= 255
  }

  function PongStream(pings: seq<seq<Byte>>): seq<Byte>
    requires Echoable(pings)
  {
    if pings == [] then [] else Pong(pings[0]).value + PongStream(pings[1..])
  }

  function PongMessages(pings: seq<seq<Byte>>): (r: seq<Message>)
    ensures |r| == |pings|
  {
    seq(|pings|, i requires 0 <= i < |pings| => Message(PONG, pings[i]))
  }

  lemma {:induction false} PongStreamRoundTrip(pings: seq<seq<Byte>>, rest: seq<Byte>)
    requires forall i :: 0 <= i < |pings| ==> |pings[i]| <= 125
    ensures ParseAll(PongStream(pings) + rest) == PongMessages(pings) + ParseAll(rest)
  {
    if pings == [] {
      assert PongStream(pings) + rest == rest;
      assert PongMessages(pings) + ParseAll(rest) == ParseAll(rest);
    } else {
      var tail := PongStream(pings[1..]) + rest;
      assert PongStream(pings) + rest == Pong(pings[0]).value + tail;
      PongThenTail(pings[0], tail);
      PongStreamRoundTrip(pings[1..], rest);
      PongMessagesSplit(pings, ParseAll(rest));
    }
  }

  lemma PongThenTail(ping: seq<Byte>, tail: seq<Byte>)
    requires |ping| <= 125
    ensures ParseAll(Pong(ping).value + tail) == [Message(PONG, ping)] + ParseAll(tail)
  {
    PongRoundTrip(ping, tail);
  }

  lemma PongMessagesSplit(pings: seq<seq<Byte>>, more: seq<Message>)
    requires pings != []
    ensures [Message(PONG, pings[0])] + (PongMessages(pings[1..]) + more) == PongMessages(pings) + more
  {
  }

  // What the server reads back: the request and then one pong for each ping the
  // client saw before it stopped, all with the payload of the ping.
  lemma ServerSeesRequestThenPongs(request: seq<Byte>, mask: Mask, frames: seq<Message>, classify: Classifier)
    requires |request| < Pow256(8)
    requires forall i :: 0 <= i < |Exchange(frames, classify).pongs| ==> |Exchange(frames, classify).pongs[i]| <= 125
    ensures var pongs := Exchange(frames, classify).pongs;
            && Echoable(pongs)
            && ParseAll(TextFrame(request, mask).value + PongStream(pongs))
               == [Message(TEXT, request)] + PongMessages(pongs)
  {
    var pongs := Exchange(frames, classify).pongs;
    OneFrameThenTail(request, mask, PongStream(pongs));
    PongStreamRoundTrip(pongs, []);
    assert PongStream(pongs) + [] == PongStream(pongs);
    assert PongMessages(pongs) + ParseAll([]) == PongMessages(pongs);
  }

  lemma {:induction false} PongStreamConcat(pings: seq<seq<Byte>>, more: seq<seq<Byte>>)
    requires Echoable(pings) && Echoable(more)
    ensures Echoable(pings + more)
    ensures PongStream(pings + more) == PongStream(pings) + PongStream(more)
  {
    if pings == [] {
      assert pings + more == more;
    } else {
      assert (pings + more)[1..] == pings[1..] + more;
      PongStreamConcat(pings[1..], more);
      Associates(Pong(pings[0]).value, PongStream(pings[1..]), PongStream(more));
    }
  }

  // ----- the loop over the socket -----

  // One turn of the loop body: whether it ends the loop, and what it echoes.
  method OnMessage(sock: Socket, m: Message, classify: Classifier, ghost later: seq<Message>)
    returns (verdict: Option<Outcome>, ghost echoed: seq<seq<Byte>>)
    modifies sock`outgoing
    ensures Echoable(echoed) && sock.outgoing == old(sock.outgoing) + PongStream(echoed)
    ensures verdict.Some? <==> Decides(m, classify)
    ensures verdict.Some? ==> echoed == [] && Exchange([m] + later, classify) == Transcript(verdict.value, [])
    ensures verdict.None? ==> Exchange([m] + later, classify) == Preceded(echoed, Exchange(later, classify))
  {
    assert ([m] + later)[1..] == later;
    verdict, echoed := None, [];
    if m.opcode == PING {
      if |m.payload| > 255 { return Some(PongTooLong), []; }
      sock.SendBytes([0x8A, |m.payload|] + m.payload);
      echoed := [m.payload];
      assert echoed[1..] == [];
    } else if m.opcode == CLOSE {
      verdict := Some(ClosedEarly);
    } else if m.opcode == TEXT || m.opcode == BINARY {
      match classify(m.payload) {
        case OtherId =>
        case Result(value) => verdict := Some(Answered(value));
        case Fault => verdict := Some(Faulted);
      }
    }
  }

  lemma SentMore(sent: seq<Byte>, pongs: seq<seq<Byte>>, more: seq<seq<Byte>>)
    requires Echoable(pongs) && Echoable(more)
    ensures Echoable(pongs + more)
    ensures sent + PongStream(pongs + more) == (sent + PongStream(pongs)) + PongStream(more)
  {
    PongStreamConcat(pongs, more);
  }

  function Preceded(pongs: seq<seq<Byte>>, t: Transcript): Transcript {
    Transcript(t.outcome, pongs + t.pongs)
  }

  lemma PrecededTwice(a: seq<seq<Byte>>, b: seq<seq<Byte>>, t: Transcript)
    ensures Preceded(a, Preceded(b, t)) == Preceded(a + b, t)
  {
    Associates(a, b, t.pongs);
  }

  // One turn of the loop.
  method Turn(sock: Socket, classify: Classifier, ghost frames: seq<Message>)
    returns (verdict: Option<Outcome>, ghost echoed: seq<seq<Byte>>, ghost later: seq<Message>)
    requires frames == Readable(sock.incoming, sock.cuts)
    modifies sock
    ensures Echoable(echoed) && sock.outgoing == old(sock.outgoing) + PongStream(echoed)
    ensures verdict.Some? ==> Exchange(frames, classify) == Transcript(verdict.value, echoed)
    ensures verdict.None? ==>
      && later == Readable(sock.incoming, sock.cuts) && |sock.incoming| < |old(sock.incoming)|
      && Exchange(frames, classify) == Preceded(echoed, Exchange(later, classify))
  {
    var r;
    r, later := WsRecvNext(sock, frames, sock.incoming, 0);
    if r.Lost? {
      return Some(Disconnected), [], later;
    }
    verdict, echoed := OnMessage(sock, r.message, classify, later);
  }

  // The loop; `pongs` lists the payloads echoed.
  method AwaitAnswer(sock: Socket, classify: Classifier) returns (outcome: Outcome, ghost pongs: seq<seq<Byte>>)
    modifies sock
    ensures Echoable(pongs) && sock.outgoing == old(sock.outgoing) + PongStream(pongs)
    ensures Transcript(outcome, pongs) == Exchange(Readable(old(sock.incoming), old(sock.cuts)), classify)
  {
    ghost var frames, sent := Readable(sock.incoming, sock.cuts), sock.outgoing;
    ghost var whole := Exchange(frames, classify);
    pongs := [];
    while true
      invariant Echoable(pongs)
      invariant sock.outgoing == sent + PongStream(pongs)
      invariant frames == Readable(sock.incoming, sock.cuts)
      invariant whole == Preceded(pongs, Exchange(frames, classify))
      decreases |sock.incoming|
    {
      ghost var before := frames;
      var verdict;
      ghost var echoed;
      verdict, echoed, frames := Turn(sock, classify, before);
      SentMore(sent, pongs, echoed);
      PrecededTwice(pongs, echoed, Exchange(frames, classify));
      pongs := pongs + echoed;
      if verdict.Some? {
        return verdict.value, pongs;
      }
    }
  }

  // What the client can read decides the outcome and the pongs, for every
  // stream and every way of delivering it.
  method CdpSystemInfo(sock: Socket, request: seq<Byte>, mask: Mask, classify: Classifier)
    returns (outcome: Outcome, ghost pongs: seq<seq<Byte>>)
    requires |request| < Pow256(8)
    modifies sock
    ensures Echoable(pongs)
    ensures sock.outgoing == old(sock.outgoing) + SendAll([Outgoing(request, mask)]) + PongStream(pongs)
    ensures Transcript(outcome, pongs) == Exchange(Readable(old(sock.incoming), old(sock.cuts)), classify)
  {
    var ok := WsSend(sock, request, mask);
    outcome, pongs := AwaitAnswer(sock, classify);
  }

  // ----- when the deliveries matter -----

  // Frames that can be dropped from the end of an exchange unnoticed.
  predicate Silent(frames: seq<Message>, classify: Classifier) {
    forall i :: 0 <= i < |frames| ==> frames[i].opcode != PING && !Decides(frames[i], classify)
  }

  predicate Decided(frames: seq<Message>, classify: Classifier) {
    exists i :: 0 <= i < |frames| && Decides(frames[i], classify)
  }

  lemma {:induction false} SilentExactly(frames: seq<Message>, classify: Classifier)
    ensures Exchange(frames, classify) == Transcript(Disconnected, []) <==> Silent(frames, classify)
  {
    if frames != [] {
      SilentExactly(frames[1..], classify);
      assert frames == [frames[0]] + frames[1..];
    }
  }

  // Cutting an exchange short changes it unless it was decided before the cut,
  // or only silent frames come after it.
  lemma {:induction false} CutShortExactly(frames: seq<Message>, more: seq<Message>, classify: Classifier)
    ensures Exchange(frames, classify) == Exchange(frames + more, classify)
       <==> Decided(frames, classify) || Silent(more, classify)
  {
    if frames == [] {
      assert frames + more == more;
      SilentExactly(more, classify);
    } else {
      assert (frames + more)[1..] == frames[1..] + more;
      CutShortExactly(frames[1..], more, classify);
      FirstDecides(frames, classify);
      var short, long := Exchange(frames[1..], classify).pongs, Exchange(frames[1..] + more, classify).pongs;
      assert ([frames[0].payload] + short)[1..] == short && ([frames[0].payload] + long)[1..] == long;
    }
  }

  lemma FirstDecides(frames: seq<Message>, classify: Classifier)
    requires frames != []
    ensures Decided(frames, classify) <==> Decides(frames[0], classify) || Decided(frames[1..], classify)
  {
    if Decided(frames[1..], classify) {
      var i :| 0 <= i < |frames[1..]| && Decides(frames[1..][i], classify);
      assert Decides(frames[i + 1], classify);
    }
    if Decided(frames, classify) {
      var i :| 0 <= i < |frames| && Decides(frames[i], classify);
      assert i > 0 ==> Decides(frames[1..][i - 1], classify);
    }
  }

  // The complete frames that arrive after the last one that can be read.
  function Unread(s: seq<Byte>, cuts: seq<nat>): seq<Message> {
    ReadableExactly(s, cuts);
    ParseAll(s)[|Readable(s, cuts)|..]
  }

  // The deliveries make a difference to the exchange if and only if a header is
  // split before the deciding frame and a frame that matters is lost with it.
  lemma DeliveriesMatterExactly(s: seq<Byte>, cuts: seq<nat>, classify: Classifier)
    ensures Exchange(Readable(s, cuts), classify) == Exchange(ParseAll(s), classify)
       <==> || !LosesFrame(s, cuts)
            || Decided(Readable(s, cuts), classify)
            || Silent(Unread(s, cuts), classify)
  {
    ReadableExactly(s, cuts);
    var read, all := Readable(s, cuts), ParseAll(s);
    assert all == read + all[|read|..];
    CutShortExactly(read, all[|read|..], classify);
    if !LosesFrame(s, cuts) { assert all[|read|..] == []; }
  }

  // Without single-byte deliveries the client sees the exchange of the stream.
  lemma WholeDeliveries(s: seq<Byte>, cuts: seq<nat>, classify: Classifier)
    requires NoSingles(cuts)
    ensures Exchange(Readable(s, cuts), classify) == Exchange(ParseAll(s), classify)
  {
    NoSinglesLoseNothing(s, cuts);
    ReadableExactly(s, cuts);
  }

  // ----- what a server sends -----

  // A ping with FIN set, unmasked, of at most 125 bytes.
  function PingFrame(payload: seq<Byte>): seq<Byte>
    requires |payload| <= 125
  {
    [0x89] + [|payload|] + payload
  }

  predicate Short(pings: seq<seq<Byte>>) { forall i :: 0 <= i < |pings| ==> |pings[i]| <= 125 }

  function PingStream(pings: seq<seq<Byte>>): seq<Byte>
    requires Short(pings)
  {
    if pings == [] then [] else PingFrame(pings[0]) + PingStream(pings[1..])
  }

  // The stream is these messages, frame by frame, and then the rest.
  predicate Carries(s: seq<Byte>, messages: seq<Message>, rest: seq<Byte>)
    decreases |messages|
  {
    if messages == [] then s == rest
    else Parse(s).Some? && Parse(s).value.message == messages[0] && Carries(Parse(s).value.rest, messages[1..], rest)
  }

  lemma {:induction false} CarriedIsParsed(s: seq<Byte>, messages: seq<Message>, rest: seq<Byte>)
    requires Carries(s, messages, rest)
    ensures ParseAll(s) == messages + ParseAll(rest)
    decreases |messages|
  {
    if messages != [] {
      CarriedIsParsed(Parse(s).value.rest, messages[1..], rest);
      assert messages == [messages[0]] + messages[1..];
    }
  }

  lemma FrameFirst(first: Byte, field: seq<Byte>, payload: seq<Byte>, tail: seq<Byte>, messages: seq<Message>, rest: seq<Byte>)
    requires IsLengthField(field, |payload|) && Carries(tail, messages, rest)
    ensures Carries([first] + field + payload + tail, [Message(first % 16, payload)] + messages, rest)
  {
    ServerFrameParses(first, field, payload, tail);
    assert ([Message(first % 16, payload)] + messages)[1..] == messages;
  }

  function PingMessages(pings: seq<seq<Byte>>): seq<Message> {
    if pings == [] then [] else [Message(0x9, pings[0])] + PingMessages(pings[1..])
  }

  lemma {:induction false} PingsFirst(pings: seq<seq<Byte>>, tail: seq<Byte>, messages: seq<Message>, rest: seq<Byte>)
    requires Short(pings) && Carries(tail, messages, rest)
    ensures Carries(PingStream(pings) + tail, PingMessages(pings) + messages, rest)
  {
    if pings == [] {
      assert PingStream(pings) + tail == tail && PingMessages(pings) + messages == messages;
    } else {
      PingsFirst(pings[1..], tail, messages, rest);
      Associates(PingFrame(pings[0]), PingStream(pings[1..]), tail);
      Associates([Message(0x9, pings[0])], PingMessages(pings[1..]), messages);
      FrameFirst(0x89, [|pings[0]|], pings[0], PingStream(pings[1..]) + tail, PingMessages(pings[1..]) + messages, rest);
    }
  }

  lemma FirstPing(ping: seq<Byte>, frames: seq<Message>, classify: Classifier)
    requires |ping| <= 255
    ensures Exchange([Message(0x9, ping)] + frames, classify) == Preceded([ping], Exchange(frames, classify))
  {
    assert ([Message(0x9, ping)] + frames)[1..] == frames;
  }

  lemma {:induction false} PingsAreEchoed(pings: seq<seq<Byte>>, frames: seq<Message>, classify: Classifier)
    requires Short(pings)
    ensures Exchange(PingMessages(pings) + frames, classify) == Preceded(pings, Exchange(frames, classify))
  {
    var last := Exchange(frames, classify);
    if pings == [] {
      assert PingMessages(pings) + frames == frames && [] + last.pongs == last.pongs;
    } else {
      Associates([Message(0x9, pings[0])], PingMessages(pings[1..]), frames);
      FirstPing(pings[0], PingMessages(pings[1..]) + frames, classify);
      PingsAreEchoed(pings[1..], frames, classify);
      PrecededTwice([pings[0]], pings[1..], last);
      assert [pings[0]] + pings[1..] == pings;
    }
  }

  // Pings and then a deciding frame, over deliveries of more than single bytes.
  lemma PingsThenEnd(stream: seq<Byte>, pings: seq<seq<Byte>>, last: Message, rest: seq<Byte>, outcome: Outcome,
                     cuts: seq<nat>, classify: Classifier)
    requires Short(pings) && NoSingles(cuts) && Carries(stream, PingMessages(pings) + [last], rest)
    requires Exchange([last] + ParseAll(rest), classify) == Transcript(outcome, [])
    ensures Exchange(Readable(stream, cuts), classify) == Transcript(outcome, pings)
  {
    WholeDeliveries(stream, cuts, classify);
    CarriedIsParsed(stream, PingMessages(pings) + [last], rest);
    Associates(PingMessages(pings), [last], ParseAll(rest));
    PingsAreEchoed(pings, [last] + ParseAll(rest), classify);
    assert pings + [] == pings;
  }

  // After short pings an unmasked text or binary frame of any size with the
  // result answers the request, and each ping has been echoed: over any
  // deliveries of more than single bytes, whatever follows the frame.
  lemma AnswerArrives(pings: seq<seq<Byte>>, first: Byte, field: seq<Byte>, payload: seq<Byte>, rest: seq<Byte>,
                      value: seq<Byte>, cuts: seq<nat>, classify: Classifier)
    requires Short(pings) && first in {0x81, 0x82} && IsLengthField(field, |payload|)
    requires classify(payload) == Result(value) && NoSingles(cuts)
    ensures var stream := PingStream(pings) + ([first] + field + payload + rest);
            Exchange(Readable(stream, cuts), classify) == Transcript(Answered(value), pings)
  {
    var last := Message(first % 16, payload);
    StreamCarries(pings, first, field, payload, rest);
    FirstAnswer(last, ParseAll(rest), value, classify);
    PingsThenEnd(PingStream(pings) + ([first] + field + payload + rest), pings, last, rest, Answered(value), cuts, classify);
  }

  lemma StreamCarries(pings: seq<seq<Byte>>, first: Byte, field: seq<Byte>, payload: seq<Byte>, rest: seq<Byte>)
    requires Short(pings) && IsLengthField(field, |payload|)
    ensures Carries(PingStream(pings) + ([first] + field + payload + rest),
                    PingMessages(pings) + [Message(first % 16, payload)], rest)
  {
    var last := Message(first % 16, payload);
    FrameFirst(first, field, payload, rest, [], rest);
    assert [last] + [] == [last];
    PingsFirst(pings, [first] + field + payload + rest, [last], rest);
  }

  lemma FirstAnswer(last: Message, frames: seq<Message>, value: seq<Byte>, classify: Classifier)
    requires last.opcode in {0x1, 0x2} && classify(last.payload) == Result(value)
    ensures Exchange([last] + frames, classify) == Transcript(Answered(value), [])
  {
  }

  // A close frame instead ends the exchange without an answer.
  lemma CloseArrives(pings: seq<seq<Byte>>, first: Byte, field: seq<Byte>, payload: seq<Byte>, rest: seq<Byte>,
                     cuts: seq<nat>, classify: Classifier)
    requires Short(pings) && first == 0x88 && IsLengthField(field, |payload|) && NoSingles(cuts)
    ensures var stream := PingStream(pings) + ([first] + field + payload + rest);
            Exchange(Readable(stream, cuts), classify) == Transcript(ClosedEarly, pings)
  {
    var last := Message(first % 16, payload);
    StreamCarries(pings, first, field, payload, rest);
    FirstClose(last, ParseAll(rest), classify);
    PingsThenEnd(PingStream(pings) + ([first] + field + payload + rest), pings, last, rest, ClosedEarly, cuts, classify);
  }

  lemma FirstClose(last: Message, frames: seq<Message>, classify: Classifier)
    requires last.opcode == 0x8
    ensures Exchange([last] + frames, classify) == Transcript(ClosedEarly, [])
  {
  }

  // A single byte is enough to lose an answer that has arrived.
  lemma SplitHeaderLosesAnswer(payload: seq<Byte>, value: seq<Byte>, classify: Classifier)
    requires |payload| < 126 && classify(payload) == Result(value)
    ensures var s := [0x80 + TEXT, |payload|] + payload;
            && Exchange(ParseAll(s), classify) == Transcript(Answered(value), [])
            && Exchange(Readable(s, [1]), classify) == Transcript(Disconnected, [])
  {
    var s := [0x80 + TEXT, |payload|] + payload;
    ShortFrameParses(0x80 + TEXT, payload, []);
    assert payload + [] == payload;
    assert ParseAll([]) == [];
    assert ParseAll(s) == [Message(TEXT, payload)];
  }
}
