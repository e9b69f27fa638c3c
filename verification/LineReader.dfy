// LineReader of src/python/xrdp_vnc_bench.py: complete lines from an unbuffered
// pipe, whatever the chunking and the timeouts.

module LineReader {
  import opened Bytes
  import opened Sequences

  const NEWLINE: Byte := 10

  // What one turn of the wait sees: the deadline passes, or os.read returns a
  // chunk, which is empty at the end of the stream.
  datatype Poll = Expired | Ready(chunk: seq<Byte>)

  datatype Result = Line(bytes: seq<Byte>) | TimedOut | AtEnd(tail: seq<Byte>)

  // The bytes object the caller gets.
  function Returned(r: Result): seq<Byte> {
    match r
    case Line(bytes) => bytes
    case TimedOut => []
    case AtEnd(tail) => tail
  }

  datatype Call = Call(result: Result, buffer: seq<Byte>, used: nat)

  // ----- the specification: splitting at newlines -----

  // One newline, at the end.
  predicate IsLine(s: seq<Byte>) {
    s != [] && s[|s|-1] == NEWLINE && NEWLINE !in s[..|s|-1]
  }

  function FirstNewline(s: seq<Byte>): (i: nat)
    requires NEWLINE in s
    ensures i < |s| && s[i] == NEWLINE && NEWLINE !in s[..i]
  {
    if s[0] == NEWLINE then 0
    else
      var i := 1 + FirstNewline(s[1..]);
      assert s[..i] == [s[0]] + s[1..][..i-1];
      i
  }

  function CompleteLines(s: seq<Byte>): seq<seq<Byte>>
    decreases |s|
  {
    if NEWLINE !in s then []
    else
      var n := FirstNewline(s) + 1;
      [s[..n]] + CompleteLines(s[n..])
  }

  lemma {:induction false} FirstLine(line: seq<Byte>, rest: seq<Byte>)
    requires IsLine(line)
    ensures NEWLINE in line + rest && FirstNewline(line + rest) == |line| - 1
  {
    assert (line + rest)[|line|-1] == NEWLINE;
    if |line| > 1 {
      assert line[0] == line[..|line|-1][0];
      assert line[1..][..|line|-2] == line[..|line|-1][1..];
      assert (line + rest)[1..] == line[1..] + rest;
      FirstLine(line[1..], rest);
    }
  }

  lemma OneLineFirst(line: seq<Byte>, rest: seq<Byte>)
    requires IsLine(line)
    ensures CompleteLines(line + rest) == [line] + CompleteLines(rest)
  {
    FirstLine(line, rest);
    assert (line + rest)[..|line|] == line && (line + rest)[|line|..] == rest;
  }

  // Lines followed by anything: the splitter finds exactly these lines first.
  lemma {:induction false} SplitsBack(lines: seq<seq<Byte>>, rest: seq<Byte>)
    requires forall i :: 0 <= i < |lines| ==> IsLine(lines[i])
    ensures CompleteLines(Flatten(lines) + rest) == lines + CompleteLines(rest)
  {
    if lines == [] {
      assert Flatten(lines) + rest == rest && lines + CompleteLines(rest) == CompleteLines(rest);
    } else {
      Associates(lines[0], Flatten(lines[1..]), rest);
      OneLineFirst(lines[0], Flatten(lines[1..]) + rest);
      SplitsBack(lines[1..], rest);
      Associates([lines[0]], lines[1..], CompleteLines(rest));
      assert [lines[0]] + lines[1..] == lines;
    }
  }

  // ----- readline -----

  function ReadLine(buffer: seq<Byte>, polls: seq<Poll>): Call
    decreases |polls|
  {
    if NEWLINE in buffer then
      var n := FirstNewline(buffer) + 1;
      Call(Line(buffer[..n]), buffer[n..], 0)
    else if polls == [] || polls[0].Expired? then Call(TimedOut, buffer, if polls == [] then 0 else 1)
    else if polls[0].chunk == [] then Call(AtEnd(buffer), buffer, 1)
    else
      var c := ReadLine(buffer + polls[0].chunk, polls[1..]);
      c.(used := c.used + 1)
  }

  // All bytes that these polls delivered.
  function Delivered(polls: seq<Poll>): seq<Byte> {
    if polls == [] then []
    else (if polls[0].Ready? then polls[0].chunk else []) + Delivered(polls[1..])
  }

  // One call loses nothing: what it hands out as a line and what it keeps are
  // the old buffer and the bytes read, in order. Only a line leaves the buffer.
  lemma {:induction false} CallKeepsBytes(buffer: seq<Byte>, polls: seq<Poll>)
    ensures var c := ReadLine(buffer, polls);
            && c.used <= |polls|
            && (if c.result.Line? then c.result.bytes + c.buffer else c.buffer)
               == buffer + Delivered(polls[..c.used])
            && (c.result.Line? ==> IsLine(c.result.bytes))
            && (!c.result.Line? ==> NEWLINE !in c.buffer)
            && (c.result.AtEnd? ==> c.result.tail == c.buffer)
    decreases |polls|
  {
    if NEWLINE in buffer {
      var n := FirstNewline(buffer) + 1;
      assert buffer[..n] + buffer[n..] == buffer;
      assert buffer[..n][..n-1] == buffer[..n-1];
      assert polls[..0] == [];
    } else if polls != [] && polls[0].Ready? && polls[0].chunk != [] {
      var chunk, rest := polls[0].chunk, polls[1..];
      CallKeepsBytes(buffer + chunk, rest);
      var used := ReadLine(buffer + chunk, rest).used;
      assert polls[..used+1][1..] == rest[..used];
      Associates(buffer, chunk, Delivered(rest[..used]));
    } else if polls != [] {
      assert polls[..1][1..] == [];
      assert Delivered(polls[..1]) == [];
    }
  }

  // The polls bring data, none of it a newline.
  predicate NoLineYet(buffer: seq<Byte>, polls: seq<Poll>) {
    && (forall i :: 0 <= i < |polls| ==> polls[i].Ready? && polls[i].chunk != [])
    && 10 !in buffer + Delivered(polls)
  }

  lemma {:induction false} ReadsOn(buffer: seq<Byte>, quiet: seq<Poll>, more: seq<Poll>)
    requires NoLineYet(buffer, quiet)
    ensures var now := ReadLine(buffer + Delivered(quiet), more);
            ReadLine(buffer, quiet + more) == now.(used := |quiet| + now.used)
    decreases |quiet|
  {
    if quiet == [] {
      assert quiet + more == more && buffer + [] == buffer;
    } else {
      var chunk, rest := quiet[0].chunk, quiet[1..];
      Associates(buffer, chunk, Delivered(rest));
      assert NEWLINE !in buffer by { assert forall b :: b in buffer ==> b in buffer + Delivered(quiet); }
      assert (quiet + more)[1..] == rest + more;
      ReadsOn(buffer + chunk, rest, more);
    }
  }

  // A call that meets the deadline, or has no poll left, keeps everything; an
  // empty read gives the tail, which stays in the buffer too.
  lemma QuietCallReturns(buffer: seq<Byte>, quiet: seq<Poll>, more: seq<Poll>)
    requires NoLineYet(buffer, quiet)
    ensures var c, known := ReadLine(buffer, quiet + more), buffer + Delivered(quiet);
            && (more == [] || more[0].Expired? ==> c.result == TimedOut && c.buffer == known)
            && (more != [] && more[0] == Ready([]) ==> c.result == AtEnd(known) && c.buffer == known)
  {
    ReadsOn(buffer, quiet, more);
  }

  // A chunk with a newline completes the line; what is behind it is kept.
  lemma NewlineEndsCall(buffer: seq<Byte>, quiet: seq<Poll>, head: seq<Byte>, tail: seq<Byte>, later: seq<Poll>)
    requires NoLineYet(buffer, quiet) && 10 !in head
    ensures ReadLine(buffer, quiet + ([Ready(head + ([10] + tail))] + later))
         == Call(Line(buffer + Delivered(quiet) + head + [10]), tail, |quiet| + 1)
  {
    var known, chunk := buffer + Delivered(quiet), head + ([10] + tail);
    var line := known + head + [10];
    ReadsOn(buffer, quiet, [Ready(chunk)] + later);
    assert ([Ready(chunk)] + later)[1..] == later;
    assert known + chunk == line + tail;
    assert line[..|line|-1] == known + head;
    BufferedLineFirst(line, tail, later);
  }

  // With a line in the buffer nothing is read.
  lemma BufferedLineFirst(line: seq<Byte>, rest: seq<Byte>, polls: seq<Poll>)
    requires line != [] && line[|line|-1] == 10 && 10 !in line[..|line|-1]
    ensures ReadLine(line + rest, polls) == Call(Line(line), rest, 0)
  {
    FirstLine(line, rest);
    assert (line + rest)[..|line|] == line && (line + rest)[|line|..] == rest;
  }

  // ----- any number of calls -----

  // The lines returned so far, the buffer, everything read so far and the last
  // result.
  datatype Session = Session(lines: seq<seq<Byte>>, buffer: seq<Byte>, input: seq<Byte>, last: Result)

  function Step(s: Session, polls: seq<Poll>): Session {
    var c := ReadLine(s.buffer, polls);
    CallKeepsBytes(s.buffer, polls);
    Session(if c.result.Line? then s.lines + [c.result.bytes] else s.lines, c.buffer,
            s.input + Delivered(polls[..c.used]), c.result)
  }

  // One list of answers for each call of readline.
  function After(calls: seq<seq<Poll>>): Session {
    if calls == [] then Session([], [], [], TimedOut) else Step(After(calls[..|calls|-1]), calls[|calls|-1])
  }

  predicate KeepsBytes(s: Session) {
    && Flatten(s.lines) + s.buffer == s.input
    && (forall i :: 0 <= i < |s.lines| ==>
          var line := s.lines[i];
          line != [] && line[|line|-1] == 10 && 10 !in line[..|line|-1])
  }

  lemma StepKeepsBytes(s: Session, polls: seq<Poll>)
    requires KeepsBytes(s)
    ensures KeepsBytes(Step(s, polls))
  {
    CallKeepsBytes(s.buffer, polls);
    var c := ReadLine(s.buffer, polls);
    if c.result.Line? {
      assert IsLine(c.result.bytes) && NEWLINE == 10;
      OneLineMore(s.lines, c.result.bytes, c.buffer, s.buffer, Delivered(polls[..c.used]));
    } else {
      Associates(Flatten(s.lines), s.buffer, Delivered(polls[..c.used]));
    }
  }

  lemma OneLineMore(lines: seq<seq<Byte>>, line: seq<Byte>, rest: seq<Byte>, buffer: seq<Byte>, more: seq<Byte>)
    requires line + rest == buffer + more
    ensures Flatten(lines + [line]) + rest == (Flatten(lines) + buffer) + more
  {
    FlattenAppend(lines, line);
    Associates(Flatten(lines), line, rest);
    Associates(Flatten(lines), buffer, more);
  }

  // The lines returned, in order, followed by the buffer are all bytes read.
  lemma {:induction false} NothingIsLost(calls: seq<seq<Poll>>)
    ensures KeepsBytes(After(calls))
    ensures calls != [] && !After(calls).last.Line? ==> NEWLINE !in After(calls).buffer
  {
    if calls != [] {
      var before := After(calls[..|calls|-1]);
      NothingIsLost(calls[..|calls|-1]);
      StepKeepsBytes(before, calls[|calls|-1]);
      CallKeepsBytes(before.buffer, calls[|calls|-1]);
    }
  }

  // The reader refines the splitter: after any calls its lines are the first
  // complete lines of what was read, and after a call that found none they are
  // all of them, with the incomplete rest still in the buffer.
  lemma ReaderSplitsAtNewlines(calls: seq<seq<Poll>>)
    ensures var s := After(calls);
            && CompleteLines(s.input) == s.lines + CompleteLines(s.buffer)
            && (calls != [] && !s.last.Line? ==> CompleteLines(s.input) == s.lines)
  {
    NothingIsLost(calls);
    var s := After(calls);
    SplitsBack(s.lines, s.buffer);
  }

  // At the end of the stream the tail is returned but not taken out: every
  // further call at the end returns the same bytes again.
  lemma TailIsRepeated(calls: seq<seq<Poll>>)
    requires calls != [] && After(calls).last.AtEnd?
    ensures var s, again := After(calls), After(calls + [[Ready([])]]);
            again.last == s.last && again.buffer == s.buffer && Returned(again.last) == s.buffer
  {
    NothingIsLost(calls);
    var before := After(calls[..|calls|-1]);
    CallKeepsBytes(before.buffer, calls[|calls|-1]);
    var more := calls + [[Ready([])]];
    assert more[..|more|-1] == calls && more[|more|-1] == [Ready([])];
  }

  // ----- the object -----

  class Reader {
    var buffer: seq<Byte>
    ghost var calls: seq<seq<Poll>>

    ghost predicate Valid()
      reads this
    {
      buffer == After(calls).buffer
    }

    constructor ()
      ensures Valid() && calls == []
    {
      buffer, calls := [], [];
    }

    // `answers` is what the operating system will say; the call uses as many of
    // them as it needs.
    method Next(answers: seq<Poll>) returns (line: seq<Byte>)
      requires Valid()
      modifies this
      ensures Valid() && calls == old(calls) + [answers]
      ensures line == Returned(After(calls).last)
    {
      ghost var whole := ReadLine(buffer, answers);
      calls := calls + [answers];
      assert calls[..|calls|-1] == old(calls);
      var used := 0;
      while true
        invariant used <= |answers| && calls == old(calls) + [answers]
        invariant var c := ReadLine(buffer, answers[used..]);
                  whole.result == c.result && whole.buffer == c.buffer
        decreases |answers| - used
      {
        assert used < |answers| ==> answers[used..][0] == answers[used] && answers[used..][1..] == answers[used+1..];
        if NEWLINE in buffer {
          var n := FirstNewline(buffer) + 1;
          line, buffer := buffer[..n], buffer[n..];
          return;
        }
        if used == |answers| || answers[used].Expired? {
          return [];
        }
        var chunk := answers[used].chunk;
        if chunk == [] {
          return buffer;
        }
        buffer := buffer + chunk;
        used := used + 1;
      }
    }
  }
}
