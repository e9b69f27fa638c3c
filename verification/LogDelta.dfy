// LogDelta of src/python/xrdp_console_episode_sampler.py: counting markers in
// what was appended to a log since the last sample.
//
// A file is a string with one character for each byte. The markers are ASCII,
// and decoding UTF-8 with replacement keeps every ASCII byte as it is.

module LogDelta {
  import opened Sequences
  import opened Wrappers

  const CHUNK_LIMIT: nat := 1024 * 1024

  // ----- counting -----

  predicate At(s: string, m: string, i: nat) {
    i + |m| <= |s| && s[i..i + |m|] == m
  }

  // str.count and re.findall of a literal: scan from the left, skip a match.
  function Count(s: string, m: string): nat
    requires m != []
  {
    if |s| < |m| then 0
    else if At(s, m, 0) then 1 + Count(s[|m|..], m)
    else Count(s[1..], m)
  }

  // Positions of occurrences that do not overlap, in order.
  predicate Packing(s: string, m: string, ps: seq<nat>) {
    && (forall i :: 0 <= i < |ps| ==> At(s, m, ps[i]))
    && (forall i :: 0 <= i < |ps| - 1 ==> ps[i] + |m| <= ps[i + 1])
  }

  function Later(ps: seq<nat>, k: nat): (r: seq<nat>)
    ensures |r| == |ps|
  {
    seq(|ps|, i requires 0 <= i < |ps| => ps[i] + k)
  }

  function Earlier(ps: seq<nat>, k: nat): (r: seq<nat>)
    requires forall i :: 0 <= i < |ps| ==> k <= ps[i]
    ensures |r| == |ps|
  {
    seq(|ps|, i requires 0 <= i < |ps| => ps[i] - k)
  }

  lemma AtSuffix(s: string, m: string, k: nat, i: nat)
    requires k <= |s|
    ensures At(s[k..], m, i) <==> At(s, m, k + i)
  {
    if i + k + |m| <= |s| {
      assert s[k..][i..i + |m|] == s[k + i..k + i + |m|];
    }
  }

  lemma {:induction false} PackingIncreases(s: string, m: string, ps: seq<nat>, i: nat, j: nat)
    requires Packing(s, m, ps) && i < j < |ps|
    ensures ps[i] + |m| <= ps[j]
    decreases j - i
  {
    if i < j - 1 { PackingIncreases(s, m, ps, i, j - 1); }
    assert ps[j - 1] + |m| <= ps[j];
  }

  // Dropping the first k bytes keeps the occurrences that start later.
  lemma PackingSuffix(s: string, m: string, ps: seq<nat>, k: nat)
    requires Packing(s, m, ps) && k <= |s| && forall i :: 0 <= i < |ps| ==> k <= ps[i]
    ensures Packing(s[k..], m, Earlier(ps, k))
  {
    var qs := Earlier(ps, k);
    forall i | 0 <= i < |qs| ensures At(s[k..], m, qs[i]) {
      AtSuffix(s, m, k, qs[i]);
    }
  }

  // No choice of non-overlapping occurrences has more than the greedy scan.
  lemma {:induction false} GreedyIsOptimal(s: string, m: string, ps: seq<nat>)
    requires m != [] && Packing(s, m, ps)
    ensures |ps| <= Count(s, m)
    decreases |s|
  {
    if ps != [] {
      assert At(s, m, ps[0]);
      if At(s, m, 0) {
        var rest := ps[1..];
        forall i | 0 <= i < |rest| ensures |m| <= rest[i] { PackingIncreases(s, m, ps, 0, i + 1); }
        PackingSuffix(s, m, rest, |m|);
        GreedyIsOptimal(s[|m|..], m, Earlier(rest, |m|));
      } else {
        forall i | 0 <= i < |ps| ensures 1 <= ps[i] {
          assert At(s, m, ps[i]);
        }
        PackingSuffix(s, m, ps, 1);
        GreedyIsOptimal(s[1..], m, Earlier(ps, 1));
      }
    }
  }

  // The scan finds that many.
  lemma {:induction false} GreedyIsPacking(s: string, m: string) returns (ps: seq<nat>)
    requires m != []
    ensures Packing(s, m, ps) && |ps| == Count(s, m)
    decreases |s|
  {
    if |s| < |m| {
      ps := [];
    } else {
      var k := if At(s, m, 0) then |m| else 1;
      var later := GreedyIsPacking(s[k..], m);
      var qs := Later(later, k);
      forall i | 0 <= i < |qs| ensures At(s, m, qs[i]) { AtSuffix(s, m, k, later[i]); }
      ps := (if At(s, m, 0) then [0] else []) + Later(later, k);
    }
  }

  // Cutting a text loses no occurrence but the one across the cut.
  lemma CountOfHalves(a: string, b: string, m: string)
    requires m != []
    ensures Count(a, m) + Count(b, m) <= Count(a + b, m) <= Count(a, m) + Count(b, m) + 1
  {
    HalvesFitTogether(a, b, m);
    var ps := GreedyIsPacking(a + b, m);
    var k := EndBefore(a + b, m, ps, |a|);
    OccurrencesInLeft(a, b, m, ps[..k]);
    if k < |ps| {
      OccurrencesInRight(a, b, m, ps, k);
    }
  }

  lemma OccurrencesInRight(a: string, b: string, m: string, ps: seq<nat>, k: nat)
    requires m != [] && Packing(a + b, m, ps) && k < |ps| && ps[k] + |m| > |a|
    ensures |ps| - k - 1 <= Count(b, m)
  {
    var rest := ps[k + 1..];
    forall i | 0 <= i < |rest| ensures |a| <= rest[i] { PackingIncreases(a + b, m, ps, k, k + 1 + i); }
    assert (a + b)[|a|..] == b;
    PackingSuffix(a + b, m, rest, |a|);
    GreedyIsOptimal(b, m, Earlier(rest, |a|));
  }

  lemma HalvesFitTogether(a: string, b: string, m: string)
    requires m != []
    ensures Count(a, m) + Count(b, m) <= Count(a + b, m)
  {
    var pa := GreedyIsPacking(a, m);
    var pb := GreedyIsPacking(b, m);
    JointPacking(a, b, m, pa, pb);
    GreedyIsOptimal(a + b, m, pa + Later(pb, |a|));
  }

  lemma AtPrefix(a: string, b: string, m: string, i: nat)
    requires At(a, m, i)
    ensures At(a + b, m, i)
  {
    assert (a + b)[i..i + |m|] == a[i..i + |m|];
  }

  lemma JointPacking(a: string, b: string, m: string, pa: seq<nat>, pb: seq<nat>)
    requires Packing(a, m, pa) && Packing(b, m, pb)
    ensures Packing(a + b, m, pa + Later(pb, |a|))
  {
    var ps := pa + Later(pb, |a|);
    assert (a + b)[|a|..] == b;
    forall i | 0 <= i < |ps| ensures At(a + b, m, ps[i]) {
      if i < |pa| { AtPrefix(a, b, m, pa[i]); } else { AtSuffix(a + b, m, |a|, pb[i - |pa|]); }
    }
    if pa != [] { assert At(a, m, pa[|pa|-1]); }
  }

  // How many of the occurrences end at or before position n.
  lemma EndBefore(s: string, m: string, ps: seq<nat>, n: nat) returns (k: nat)
    requires Packing(s, m, ps)
    ensures k <= |ps|
    ensures forall i :: 0 <= i < k ==> ps[i] + |m| <= n
    ensures k < |ps| ==> ps[k] + |m| > n
  {
    k := 0;
    while k < |ps| && ps[k] + |m| <= n
      invariant k <= |ps|
      invariant forall i :: 0 <= i < k ==> ps[i] + |m| <= n
    {
      k := k + 1;
    }
  }

  lemma OccurrencesInLeft(a: string, b: string, m: string, ps: seq<nat>)
    requires m != [] && Packing(a + b, m, ps)
    requires forall i :: 0 <= i < |ps| ==> ps[i] + |m| <= |a|
    ensures |ps| <= Count(a, m)
  {
    forall i | 0 <= i < |ps| ensures At(a, m, ps[i]) {
      assert At(a + b, m, ps[i]);
      assert (a + b)[ps[i]..ps[i] + |m|] == a[ps[i]..ps[i] + |m|];
    }
    GreedyIsOptimal(a, m, ps);
  }

  // ----- counting chunk by chunk -----

  function Total(chunks: seq<string>, m: string): nat
    requires m != []
  {
    if chunks == [] then 0 else Total(chunks[..|chunks|-1], m) + Count(chunks[|chunks|-1], m)
  }

  function NonEmpty(chunks: seq<string>): nat {
    if chunks == [] then 0 else NonEmpty(chunks[..|chunks|-1]) + if chunks[|chunks|-1] == [] then 0 else 1
  }

  // The chunks that have bytes, by number.
  function Filled(chunks: seq<string>): set<nat> { set i: nat | i < |chunks| && chunks[i] != [] }

  lemma {:induction false} NonEmptyCounts(chunks: seq<string>)
    ensures NonEmpty(chunks) == |Filled(chunks)|
  {
    if chunks == [] {
      assert Filled(chunks) == {};
    } else {
      NonEmptyCounts(chunks[..|chunks|-1]);
      OneChunkMore(chunks);
    }
  }

  lemma OneChunkMore(chunks: seq<string>)
    requires chunks != []
    ensures |Filled(chunks)| == |Filled(chunks[..|chunks|-1])| + if chunks[|chunks|-1] == [] then 0 else 1
  {
    var n := |chunks| - 1;
    var init := chunks[..n];
    forall i: nat ensures i in Filled(chunks) <==> i in Filled(init) || (i == n && chunks[n] != []) {
      assert i < n ==> init[i] == chunks[i];
    }
    if chunks[n] == [] { assert Filled(chunks) == Filled(init); } else { assert Filled(chunks) == Filled(init) + {n}; }
  }

  // How many occurrences sampling can miss: one at each boundary between chunks.
  function Boundaries(chunks: seq<string>): nat {
    if NonEmpty(chunks) == 0 then 0 else NonEmpty(chunks) - 1
  }

  // Sampling never counts an occurrence that is not there, and misses at most
  // one at each boundary between two chunks that have bytes.
  lemma {:induction false} SampledTotal(chunks: seq<string>, m: string)
    requires m != []
    ensures Total(chunks, m) <= Count(Flatten(chunks), m) <= Total(chunks, m) + Boundaries(chunks)
    ensures NonEmpty(chunks) == 0 ==> Flatten(chunks) == []
  {
    if chunks != [] {
      var init, last := chunks[..|chunks|-1], chunks[|chunks|-1];
      assert chunks == init + [last];
      SampledTotal(init, m);
      FlattenAppend(init, last);
      if last == [] {
        assert Flatten(init) + last == Flatten(init);
      } else if NonEmpty(init) == 0 {
        assert Flatten(init) + last == last;
      } else {
        CountOfHalves(Flatten(init), last, m);
      }
    }
  }

  // ----- one sample -----

  // What the calls of one sample see: the size from stat, if it succeeds, and
  // the file that open and read then find, if that succeeds.
  datatype Look = Look(size: Option<nat>, content: Option<string>)

  datatype Sampled = Sampled(offset: nat, chunk: string)

  function Sample(offset: nat, look: Look): Sampled {
    match look.size
    case None => Sampled(offset, "")
    case Some(size) =>
      var start := if size < offset then 0 else offset;  // rotated or truncated
      match look.content
      case None => Sampled(start, "")
      case Some(c) =>
        var end := if start + CHUNK_LIMIT < |c| then start + CHUNK_LIMIT else |c|;
        var chunk := if start < end then c[start..end] else "";
        Sampled(start + |chunk|, chunk)
  }

  function Chunks(offset: nat, looks: seq<Look>): seq<string>
    decreases |looks|
  {
    if looks == [] then []
    else
      var s := Sample(offset, looks[0]);
      [s.chunk] + Chunks(s.offset, looks[1..])
  }

  function OffsetAfter(offset: nat, looks: seq<Look>): nat
    decreases |looks|
  {
    if looks == [] then offset else OffsetAfter(Sample(offset, looks[0]).offset, looks[1..])
  }

  // The log only grows: each file read extends what was known, and sizes are
  // taken in between. Any call may fail.
  predicate AppendOnly(known: string, looks: seq<Look>)
    decreases |looks|
  {
    looks == [] ||
    var look := looks[0];
    && (look.size.Some? ==> |known| <= look.size.value)
    && (look.content.Some? ==> known <= look.content.value)
    && AppendOnly(Known(known, look), looks[1..])
  }

  function Known(known: string, look: Look): string {
    if look.content.Some? then look.content.value else known
  }

  function LastKnown(known: string, looks: seq<Look>): string
    decreases |looks|
  {
    if looks == [] then known else LastKnown(Known(known, looks[0]), looks[1..])
  }

  lemma {:induction false} KnownIsPrefix(known: string, looks: seq<Look>)
    requires AppendOnly(known, looks)
    ensures known <= LastKnown(known, looks)
    decreases |looks|
  {
    if looks != [] { KnownIsPrefix(Known(known, looks[0]), looks[1..]); }
  }

  // The chunks of an append-only log are consecutive and without gaps: together
  // they are the log from the first offset to the last.
  lemma {:induction false} ChunksHaveNoGaps(offset: nat, known: string, looks: seq<Look>)
    requires AppendOnly(known, looks) && offset <= |known|
    ensures var whole, end := LastKnown(known, looks), OffsetAfter(offset, looks);
            offset <= end <= |whole| && Flatten(Chunks(offset, looks)) == whole[offset..end]
    decreases |looks|
  {
    if looks != [] {
      var s, now := Sample(offset, looks[0]), Known(known, looks[0]);
      SampleIsNext(offset, known, looks[0]);
      ChunksHaveNoGaps(s.offset, now, looks[1..]);
      KnownIsPrefix(now, looks[1..]);
      PartsJoin(now, LastKnown(known, looks), offset, s.offset, OffsetAfter(offset, looks));
    }
  }

  lemma PartsJoin(now: string, whole: string, a: nat, b: nat, c: nat)
    requires now <= whole && a <= b <= |now| && b <= c <= |whole|
    ensures now[a..b] + whole[b..c] == whole[a..c]
  {
    assert now[a..b] == whole[a..b];
  }

  lemma SampleIsNext(offset: nat, known: string, look: Look)
    requires offset <= |known| && (look.size.Some? ==> |known| <= look.size.value)
    requires look.content.Some? ==> known <= look.content.value
    ensures var s, now := Sample(offset, look), Known(known, look);
            offset <= s.offset <= |now| && s.chunk == now[offset..s.offset]
  {
  }

  // For every marker: the sums over the samples never exceed what is in the part
  // of the log that was read, and fall short by less than the number of samples
  // that found bytes.
  lemma SamplesCountTheLog(offset: nat, known: string, looks: seq<Look>, m: string) returns (part: string)
    requires AppendOnly(known, looks) && offset <= |known| && m != []
    ensures offset <= OffsetAfter(offset, looks) <= |LastKnown(known, looks)|
    ensures part == LastKnown(known, looks)[offset..OffsetAfter(offset, looks)]
    ensures var chunks := Chunks(offset, looks);
            Total(chunks, m) <= Count(part, m) <= Total(chunks, m) + Boundaries(chunks)
  {
    ChunksHaveNoGaps(offset, known, looks);
    part := Flatten(Chunks(offset, looks));
    SampledTotal(Chunks(offset, looks), m);
  }

  // The bound is reached: a marker written across two samples is missed.
  lemma MarkerAcrossBoundary()
    ensures var looks := [Look(Some(4), Some("[ERR")), Look(Some(7), Some("[ERROR]"))];
            && AppendOnly("", looks)
            && Total(Chunks(0, looks), "[ERROR]") == 0
            && OffsetAfter(0, looks) == 7 && LastKnown("", looks) == "[ERROR]" && Count("[ERROR]", "[ERROR]") == 1
  {
    var first, second := Look(Some(4), Some("[ERR")), Look(Some(7), Some("[ERROR]"));
    assert Sample(0, first) == Sampled(4, "[ERR");
    assert Sample(4, second) == Sampled(7, "OR]");
    assert [first, second][1..] == [second] && [second][1..] == [];
    assert Chunks(4, [second]) == ["OR]"];
    assert Chunks(0, [first, second]) == ["[ERR", "OR]"];
    assert ["[ERR", "OR]"][..1] == ["[ERR"] && ["[ERR"][..0] == [];
    assert Count("[ERR", "[ERROR]") == 0 && Count("OR]", "[ERROR]") == 0;
    assert "[ERROR]"[0..7] == "[ERROR]" && "[ERROR]"[7..] == "";
    assert At("[ERROR]", "[ERROR]", 0);
  }

  // ----- truncation -----

  // The file has become shorter than what was read of it.
  predicate Truncated(offset: nat, look: Look) { look.size.Some? && look.size.value < offset }

  lemma {:induction false} SamplesInTwoRuns(offset: nat, before: seq<Look>, looks: seq<Look>)
    ensures Chunks(offset, before + looks) == Chunks(offset, before) + Chunks(OffsetAfter(offset, before), looks)
    ensures OffsetAfter(offset, before + looks) == OffsetAfter(OffsetAfter(offset, before), looks)
    decreases |before|
  {
    if before == [] {
      assert before + looks == looks;
    } else {
      assert (before + looks)[1..] == before[1..] + looks;
      SamplesInTwoRuns(Sample(offset, before[0]).offset, before[1..], looks);
    }
  }

  lemma {:induction false} TotalOfBoth(a: seq<string>, b: seq<string>, m: string)
    requires m != []
    ensures Total(a + b, m) == Total(a, m) + Total(b, m)
  {
    if b == [] {
      assert a + b == a;
    } else {
      var init := b[..|b|-1];
      assert (a + b)[..|a + b|-1] == a + init;
      TotalOfBoth(a, init, m);
    }
  }

  lemma RestartsAtZero(offset: nat, looks: seq<Look>)
    requires looks != [] && Truncated(offset, looks[0])
    ensures Chunks(offset, looks) == Chunks(0, looks) && OffsetAfter(offset, looks) == OffsetAfter(0, looks)
  {
  }

  // A log that grows, is truncated or replaced by a shorter file, and grows
  // again. From the look that detects it, the chunks are the new file from its
  // first byte on, without gaps, and nothing of the old file is read again. The
  // counters are those of the two parts, short by at most their boundaries.
  lemma TruncationRestarts(offset: nat, known: string, before: seq<Look>, looks: seq<Look>, m: string)
    requires AppendOnly(known, before) && offset <= |known| && m != []
    requires looks != [] && Truncated(OffsetAfter(offset, before), looks[0]) && AppendOnly("", looks)
    ensures offset <= OffsetAfter(offset, before) <= |LastKnown(known, before)|
    ensures OffsetAfter(offset, before + looks) <= |LastKnown("", looks)|
    ensures var earlier := LastKnown(known, before)[offset..OffsetAfter(offset, before)];
            var newer := LastKnown("", looks)[..OffsetAfter(offset, before + looks)];
            var chunks, next := Chunks(offset, before), Chunks(OffsetAfter(offset, before), looks);
            && Chunks(offset, before + looks) == chunks + next
            && Flatten(chunks) == earlier && Flatten(next) == newer
            && var counted := Total(chunks + next, m);
               counted <= Count(earlier, m) + Count(newer, m) <= counted + Boundaries(chunks) + Boundaries(next)
  {
    SamplesInTwoRuns(offset, before, looks);
    RestartsAtZero(OffsetAfter(offset, before), looks);
    TotalOfBoth(Chunks(offset, before), Chunks(0, looks), m);
    ChunksHaveNoGaps(offset, known, before);
    ChunksHaveNoGaps(0, "", looks);
    SampledTotal(Chunks(offset, before), m);
    SampledTotal(Chunks(0, looks), m);
  }

  // ----- the object -----

  datatype Counters = Counters(resizeErrors: nat, resizeQueue: nat, gfxDepth: nat, errors: nat, warnings: nat)

  const RESIZE_ERROR := "resize_server_to_client_layout"
  const RESIZE_QUEUE := "dynamic_monitor_process_queue"
  const GFX_DEPTH := "client requested gfx protocol with insufficient color depth"
  const ERROR := "[ERROR]"
  const WARNING := "[WARN ]"

  function CountersOf(text: string): Counters {
    Counters(Count(text, RESIZE_ERROR), Count(text, RESIZE_QUEUE), Count(text, GFX_DEPTH),
             Count(text, ERROR), Count(text, WARNING))
  }

  lemma NothingCounted()
    ensures CountersOf("") == Counters(0, 0, 0, 0, 0)
  {
  }

  // What successive samples return.
  function Readings(offset: nat, looks: seq<Look>): seq<Counters>
    decreases |looks|
  {
    if looks == [] then []
    else
      var s := Sample(offset, looks[0]);
      [CountersOf(s.chunk)] + Readings(s.offset, looks[1..])
  }

  function Sum(readings: seq<Counters>): Counters {
    if readings == [] then Counters(0, 0, 0, 0, 0)
    else
      var first, rest := readings[0], Sum(readings[1..]);
      Counters(first.resizeErrors + rest.resizeErrors, first.resizeQueue + rest.resizeQueue,
               first.gfxDepth + rest.gfxDepth, first.errors + rest.errors, first.warnings + rest.warnings)
  }

  lemma {:induction false} SumIsTotal(offset: nat, looks: seq<Look>)
    ensures var sum, chunks := Sum(Readings(offset, looks)), Chunks(offset, looks);
            && sum.resizeErrors == Total(chunks, "resize_server_to_client_layout")
            && sum.resizeQueue == Total(chunks, "dynamic_monitor_process_queue")
            && sum.gfxDepth == Total(chunks, "client requested gfx protocol with insufficient color depth")
            && sum.errors == Total(chunks, "[ERROR]") && sum.warnings == Total(chunks, "[WARN ]")
    decreases |looks|
  {
    if looks != [] {
      var s := Sample(offset, looks[0]);
      var later := Chunks(s.offset, looks[1..]);
      SumIsTotal(s.offset, looks[1..]);
      OneChunkFirst(s.chunk, later, "resize_server_to_client_layout");
      OneChunkFirst(s.chunk, later, "dynamic_monitor_process_queue");
      OneChunkFirst(s.chunk, later, "client requested gfx protocol with insufficient color depth");
      OneChunkFirst(s.chunk, later, "[ERROR]");
      OneChunkFirst(s.chunk, later, "[WARN ]");
    }
  }

  lemma OneChunkFirst(chunk: string, later: seq<string>, m: string)
    requires m != []
    ensures Total([chunk] + later, m) == Count(chunk, m) + Total(later, m)
  {
    TotalOfBoth([chunk], later, m);
    assert [chunk][..0] == [];
  }

  // `counted` is the number of occurrences, short by at most the boundaries
  // between `n` chunks.
  predicate Within(counted: nat, part: string, m: string, n: nat)
    requires m != []
  {
    counted <= Count(part, m) && (n == 0 ==> Count(part, m) == 0) && (n > 0 ==> Count(part, m) - counted < n)
  }

  // Over any samples of an append-only log each counter sums up the occurrences
  // of its own marker in what was read, short by less than the number of samples
  // that found bytes.
  lemma CountersCountTheLog(offset: nat, known: string, looks: seq<Look>)
    requires AppendOnly(known, looks) && offset <= |known|
    ensures offset <= OffsetAfter(offset, looks) <= |LastKnown(known, looks)|
    ensures var part, sum := LastKnown(known, looks)[offset..OffsetAfter(offset, looks)], Sum(Readings(offset, looks));
            var chunks := Chunks(offset, looks);
            var n := |Filled(chunks)|;
            && Within(sum.resizeErrors, part, "resize_server_to_client_layout", n)
            && Within(sum.resizeQueue, part, "dynamic_monitor_process_queue", n)
            && Within(sum.gfxDepth, part, "client requested gfx protocol with insufficient color depth", n)
            && Within(sum.errors, part, "[ERROR]", n)
            && Within(sum.warnings, part, "[WARN ]", n)
  {
    SumIsTotal(offset, looks);
    OneMarker(offset, known, looks, "resize_server_to_client_layout");
    OneMarker(offset, known, looks, "dynamic_monitor_process_queue");
    OneMarker(offset, known, looks, "client requested gfx protocol with insufficient color depth");
    OneMarker(offset, known, looks, "[ERROR]");
    OneMarker(offset, known, looks, "[WARN ]");
  }

  lemma OneMarker(offset: nat, known: string, looks: seq<Look>, m: string)
    requires AppendOnly(known, looks) && offset <= |known| && m != []
    ensures offset <= OffsetAfter(offset, looks) <= |LastKnown(known, looks)|
    ensures var chunks := Chunks(offset, looks);
            Within(Total(chunks, m), LastKnown(known, looks)[offset..OffsetAfter(offset, looks)], m,
                   |Filled(chunks)|)
  {
    var part := SamplesCountTheLog(offset, known, looks, m);
    NonEmptyCounts(Chunks(offset, looks));
    SampledTotal(Chunks(offset, looks), m);
    ChunksHaveNoGaps(offset, known, looks);
  }

  // A sample reads on to the end of the file, if that is at most 1 MiB away, and
  // otherwise exactly 1 MiB.
  lemma SampleReadsOn(offset: nat, size: nat, content: string)
    requires offset <= size && offset <= |content|
    ensures var s := Sample(offset, Look(Some(size), Some(content)));
            && s.offset == (if |content| - offset <= 1_048_576 then |content| else offset + 1_048_576)
            && s.chunk == content[offset..s.offset]
  {
    assert CHUNK_LIMIT == 1_048_576;
  }

  class LogReader {
    var offset: nat

    constructor (size: Option<nat>)
      ensures offset == if size.Some? then size.value else 0
    {
      offset := if size.Some? then size.value else 0;
    }

    method TakeSample(look: Look) returns (values: Counters)
      modifies this
      ensures offset == Sample(old(offset), look).offset
      ensures values == CountersOf(Sample(old(offset), look).chunk) && Readings(old(offset), [look]) == [values]
    {
      values := Counters(0, 0, 0, 0, 0);
      NothingCounted();
      assert [look][1..] == [];
      if look.size.None? { return; }
      if look.size.value < offset { offset := 0; }
      if look.content.None? { return; }
      var content := look.content.value;
      var data := "";
      if offset < |content| {
        var end := if offset + CHUNK_LIMIT < |content| then offset + CHUNK_LIMIT else |content|;
        data := content[offset..end];
      }
      offset := offset + |data|;
      values := CountersOf(data);
    }
  }
}
