// The bounded bidirectional relay of src/python/rfb_v6_v4_proxy.py.
//
// One connection joins two endpoints. Bytes read from an endpoint are queued
// in the buffer of its peer, and every buffer is bounded. The operating system
// is the environment: a run is driven by a script that says, for each select,
// which sockets were reported and what recv and send did.

module Relay {
  import opened Bytes
  import opened Sequences
  import opened Wrappers

  const MAX_BUFFER_BYTES: nat := 16 * 1024 * 1024
  const RECV_LIMIT: nat := 65536

  datatype Endpoint = Client | Backend {
    function Peer(): Endpoint { if Client? then Backend else Client }
  }

  // A non-empty result of recv(65536).
  type Chunk = d: seq<Byte> | 1 <= |d| <= RECV_LIMIT witness [0]

  datatype RecvOutcome = WouldBlock | RecvError | EndOfStream | Received(data: Chunk)

  // Room(n): the kernel can take n bytes, so send accepts min(n, len(output)).
  datatype SendOutcome = SendError | Room(n: nat)

  // One entry of the list that select returns, and what the socket calls made
  // while handling it would answer.
  datatype Event = Event(sock: Endpoint, readable: bool, writable: bool,
                         recv: RecvOutcome, send: SendOutcome)

  type Batch = seq<Event>

  // What selector.modify(sock, events) does to the registered data: the call
  // omits the data argument, and Python's selectors then store None. DataKept
  // is the routing the registration at lines 69-70 sets up.
  datatype ModifyPolicy = DataKept | DataDropped

  datatype Reason = ReadFailed | PeerClosed | Overflow | WriteFailed | WriteStalled | RouteLost

  datatype Status = Open | Closed(reason: Reason)

  // Everything held for one endpoint: its output buffer, its registration and
  // the history of the bytes and calls that went through it.
  datatype End = End(pending: seq<Byte>, armed: bool, route: Option<Endpoint>,
                     received: seq<Byte>, sent: seq<Byte>, recvs: nat, sends: nat)

  datatype State = State(status: Status, client: End, backend: End) {
    function At(e: Endpoint): End { if e.Client? then client else backend }

    function With(e: Endpoint, v: End): State {
      if e.Client? then this.(client := v) else this.(backend := v)
    }

    // The finally block: both sockets are unregistered and closed.
    function Close(reason: Reason): State {
      State(Closed(reason),
            client.(armed := false, route := None),
            backend.(armed := false, route := None))
    }
  }

  function Registered(e: Endpoint): End {
    End([], false, Some(e.Peer()), [], [], 0, 0)
  }

  const INITIAL := State(Open, Registered(Client), Registered(Backend))

  // ----- one event -----

  function Read(st: State, sock: Endpoint, route: Option<Endpoint>, outcome: RecvOutcome): State {
    match outcome
    case WouldBlock => st
    case RecvError => st.Close(ReadFailed)
    case EndOfStream => st.Close(PeerClosed)
    case Received(data) =>
      var source := st.At(sock);
      var heard := st.With(sock, source.(received := source.received + data, recvs := source.recvs + 1));
      match route
      case None => heard.Close(RouteLost)  // pending[None] raises KeyError
      case Some(destination) =>
        var out := heard.At(destination);
        if |out.pending| + |data| > MAX_BUFFER_BYTES then heard.Close(Overflow)
        else heard.With(destination, out.(pending := out.pending + data))
  }

  function Write(st: State, sock: Endpoint, outcome: SendOutcome): State {
    var out := st.At(sock);
    if out.pending == [] then st
    else match outcome
      case SendError => st.Close(WriteFailed)
      case Room(n) =>
        var sent := if n < |out.pending| then n else |out.pending|;
        if sent == 0 then st.Close(WriteStalled)
        else st.With(sock, out.(pending := out.pending[sent..], sent := out.sent + out.pending[..sent],
                                sends := out.sends + 1))
  }

  function UpdateInterest(p: ModifyPolicy, st: State, sock: Endpoint): State {
    var e := st.At(sock);
    st.With(sock, e.(armed := e.pending != [], route := if p.DataKept? then e.route else None))
  }

  // `route` is the data of the key as select returned it, which may be older
  // than the data registered now.
  function Handle(p: ModifyPolicy, st: State, ev: Event, route: Option<Endpoint>): State {
    if !st.status.Open? then st
    else Finish(p, AfterRead(st, ev, route), ev)
  }

  // The read part of an event.
  function AfterRead(st: State, ev: Event, route: Option<Endpoint>): State {
    if ev.readable then Read(st, ev.sock, route, ev.recv) else st
  }

  // What follows the read part of an event.
  function Finish(p: ModifyPolicy, a: State, ev: Event): State {
    if !a.status.Open? then a else
      var b := if ev.writable then Write(a, ev.sock, ev.send) else a;
      if !b.status.Open? then b else UpdateInterest(p, UpdateInterest(p, b, Client), Backend)
  }

  // The keys of a batch keep the routes that were registered at `at`, the
  // state in which select was called.
  function RunBatch(p: ModifyPolicy, at: State, st: State, batch: Batch): State
    decreases |batch|
  {
    if batch == [] then st
    else Handle(p, RunBatch(p, at, st, batch[..|batch|-1]), batch[|batch|-1], at.At(batch[|batch|-1].sock).route)
  }

  function Run(p: ModifyPolicy, script: seq<Batch>): State
    decreases |script|
  {
    if script == [] then INITIAL
    else
      var st := Run(p, script[..|script|-1]);
      RunBatch(p, st, st, script[|script|-1])
  }

  // ----- what every reachable state keeps -----

  // All bytes read from d's peer are in d's history or in d's buffer, in order.
  predicate InStep(st: State, d: Endpoint) {
    st.At(d).sent + st.At(d).pending == st.At(d.Peer()).received
  }

  // At most the last read is missing from the buffer of a closed relay.
  predicate ShortByOneRead(st: State, d: Endpoint) {
    var kept := st.At(d).sent + st.At(d).pending;
    var all := st.At(d.Peer()).received;
    kept <= all && 0 < |all| - |kept| <= RECV_LIMIT
  }

  predicate Conserved(st: State) {
    || (InStep(st, Client) && InStep(st, Backend))
    || (&& st.status.Closed? && st.status.reason in {Overflow, RouteLost}
        && (|| (InStep(st, Client) && ShortByOneRead(st, Backend))
            || (InStep(st, Backend) && ShortByOneRead(st, Client))))
  }

  predicate Bounded(st: State) {
    |st.client.pending| <= MAX_BUFFER_BYTES && |st.backend.pending| <= MAX_BUFFER_BYTES
  }

  predicate WriteInterestExact(st: State) {
    && (st.client.armed <==> st.status.Open? && st.client.pending != [])
    && (st.backend.armed <==> st.status.Open? && st.backend.pending != [])
  }

  predicate RoutedToPeer(p: ModifyPolicy, st: State) {
    && (st.client.route.Some? ==> st.client.route.value == Backend)
    && (st.backend.route.Some? ==> st.backend.route.value == Client)
    && (p.DataKept? && st.status.Open? ==> st.client.route.Some? && st.backend.route.Some?)
    && (st.status.Closed? ==> st.client.route.None? && st.backend.route.None?)
  }

  // A read of k bytes pays for itself and for the sends that deliver them.
  predicate WorkPaid(st: State) {
    && st.client.recvs <= |st.client.received| && st.backend.recvs <= |st.backend.received|
    && st.client.sends <= |st.client.sent| && st.backend.sends <= |st.backend.sent|
    && st.client.recvs + st.backend.recvs + st.client.sends + st.backend.sends
         + |st.client.pending| + |st.backend.pending|
       <= 2 * (|st.client.received| + |st.backend.received|)
  }

  predicate Safe(p: ModifyPolicy, st: State) {
    && Conserved(st) && Bounded(st) && WorkPaid(st) && RoutedToPeer(p, st) && WriteInterestExact(st)
    && (p.DataKept? && st.status.Closed? ==> st.status.reason != RouteLost)
  }

  // Safe without the interest clause, which only holds again after UpdateInterest.
  predicate SafeMidway(p: ModifyPolicy, st: State) {
    && Conserved(st) && Bounded(st) && WorkPaid(st) && RoutedToPeer(p, st)
    && (st.status.Closed? ==> WriteInterestExact(st))
    && (p.DataKept? && st.status.Closed? ==> st.status.reason != RouteLost)
  }

  lemma ReadKeepsSafe(p: ModifyPolicy, st: State, sock: Endpoint, route: Option<Endpoint>, outcome: RecvOutcome)
    requires SafeMidway(p, st) && st.status.Open?
    requires route.Some? ==> route.value == sock.Peer()
    requires p.DataKept? ==> route.Some?
    ensures SafeMidway(p, Read(st, sock, route, outcome))
  {
    ReadConserves(st, sock, route, outcome);
    ReadIsPaid(st, sock, route, outcome);
    var after := Read(st, sock, route, outcome);
    assert Conserved(after);
  }

  lemma ReadIsPaid(st: State, sock: Endpoint, route: Option<Endpoint>, outcome: RecvOutcome)
    requires WorkPaid(st) && Bounded(st)
    ensures WorkPaid(Read(st, sock, route, outcome)) && Bounded(Read(st, sock, route, outcome))
  {
  }

  // Only a read that overflows or has no route leaves its bytes out.
  lemma ReadConserves(st: State, sock: Endpoint, route: Option<Endpoint>, outcome: RecvOutcome)
    requires st.status.Open? && InStep(st, Client) && InStep(st, Backend)
    requires route.Some? ==> route.value == sock.Peer()
    ensures var after, d := Read(st, sock, route, outcome), sock.Peer();
            && InStep(after, sock)
            && (InStep(after, d) || (after.status.Closed? && after.status.reason in {Overflow, RouteLost} && ShortByOneRead(after, d)))
  {
    var after, d := Read(st, sock, route, outcome), sock.Peer();
    if outcome.Received? {
      assert InStep(st, d) && InStep(st, sock);
      if after.status.Open? {
        Associates(st.At(d).sent, st.At(d).pending, outcome.data);
      } else {
        assert after.At(d).sent + after.At(d).pending == st.At(sock).received;
      }
    }
  }

  lemma WriteConserves(st: State, sock: Endpoint, outcome: SendOutcome)
    requires InStep(st, Client) && InStep(st, Backend)
    ensures InStep(Write(st, sock, outcome), Client) && InStep(Write(st, sock, outcome), Backend)
  {
    var out := st.At(sock);
    if outcome.Room? {
      var n := if outcome.n < |out.pending| then outcome.n else |out.pending|;
      assert (out.sent + out.pending[..n]) + out.pending[n..] == out.sent + out.pending;
    }
  }

  lemma WriteKeepsSafe(p: ModifyPolicy, st: State, sock: Endpoint, outcome: SendOutcome)
    requires SafeMidway(p, st) && st.status.Open?
    ensures SafeMidway(p, Write(st, sock, outcome))
  {
    WriteConserves(st, sock, outcome);
    var after := Write(st, sock, outcome);
    assert Conserved(after);
    assert WorkPaid(after);
  }

  lemma HandleKeepsSafe(p: ModifyPolicy, st: State, ev: Event, route: Option<Endpoint>)
    requires Safe(p, st)
    requires route.Some? ==> route.value == ev.sock.Peer()
    requires p.DataKept? && st.status.Open? ==> route.Some?
    ensures Safe(p, Handle(p, st, ev, route))
  {
    if st.status.Open? {
      if ev.readable { ReadKeepsSafe(p, st, ev.sock, route, ev.recv); }
      var a := AfterRead(st, ev, route);
      if a.status.Open? {
        if ev.writable { WriteKeepsSafe(p, a, ev.sock, ev.send); }
        var b := if ev.writable then Write(a, ev.sock, ev.send) else a;
        if b.status.Open? { RearmKeepsSafe(p, b); }
      }
    }
  }

  lemma RearmKeepsSafe(p: ModifyPolicy, b: State)
    requires SafeMidway(p, b) && b.status.Open?
    ensures Safe(p, UpdateInterest(p, UpdateInterest(p, b, Client), Backend))
  {
    var c := UpdateInterest(p, UpdateInterest(p, b, Client), Backend);
    assert InStep(b, Client) && InStep(b, Backend);
    assert InStep(c, Client) && InStep(c, Backend);
  }

  lemma {:induction false} BatchKeepsSafe(p: ModifyPolicy, at: State, st: State, batch: Batch)
    requires Safe(p, st) && RoutedToPeer(p, at)
    requires at.status.Closed? ==> st.status.Closed?
    ensures Safe(p, RunBatch(p, at, st, batch))
    ensures st.status.Closed? ==> RunBatch(p, at, st, batch) == st
  {
    if batch != [] {
      var prefix := batch[..|batch|-1];
      var ev := batch[|batch|-1];
      BatchKeepsSafe(p, at, st, prefix);
      HandleKeepsSafe(p, RunBatch(p, at, st, prefix), ev, at.At(ev.sock).route);
    }
  }

  // Safety over whole runs, whatever the environment does and whichever of the
  // two modify behaviours applies.
  lemma {:induction false} RunIsSafe(p: ModifyPolicy, script: seq<Batch>)
    ensures Safe(p, Run(p, script))
  {
    if script != [] {
      var prefix := script[..|script|-1];
      RunIsSafe(p, prefix);
      BatchKeepsSafe(p, Run(p, prefix), Run(p, prefix), script[|script|-1]);
    }
  }

  // The same at every point inside a batch: after i events of the batch that
  // follows the script.
  lemma MidBatchIsSafe(p: ModifyPolicy, script: seq<Batch>, batch: Batch, i: nat)
    requires i <= |batch|
    ensures var st := Run(p, script);
            Safe(p, RunBatch(p, st, st, batch[..i]))
  {
    RunIsSafe(p, script);
    BatchKeepsSafe(p, Run(p, script), Run(p, script), batch[..i]);
  }

  // Per direction: an open relay holds exactly what was read and not yet sent;
  // a closed one sent a prefix of what it read and nothing else.
  lemma DeliveryIsInOrder(p: ModifyPolicy, script: seq<Batch>, d: Endpoint)
    ensures var st := Run(p, script);
            && st.At(d).sent <= st.At(d.Peer()).received
            && |st.At(d).pending| <= 16_777_216
            && (st.status.Open? ==> st.At(d).sent + st.At(d).pending == st.At(d.Peer()).received)
  {
    RunIsSafe(p, script);
    var st := Run(p, script);
    var kept := st.At(d).sent + st.At(d).pending;
    assert kept <= st.At(d.Peer()).received;
    assert st.At(d).sent == kept[..|st.At(d).sent|];
  }

  // ----- write readiness -----

  predicate DistinctSockets(batch: Batch) {
    forall i, j :: 0 <= i < j < |batch| ==> batch[i].sock != batch[j].sock
  }

  // What select can return: each registered socket at most once, and only for
  // events that were armed when it was called.
  predicate Selectable(st: State, batch: Batch) {
    DistinctSockets(batch)
    && (forall i :: 0 <= i < |batch| && batch[i].writable ==> st.At(batch[i].sock).armed)
  }

  // Every subset of the armed events of the two sockets can be returned, in
  // either order.
  lemma SelectableExactly(st: State, a: Event, b: Event)
    ensures Selectable(st, []) && (Selectable(st, [a]) <==> a.writable ==> st.At(a.sock).armed)
    ensures Selectable(st, [a, b]) <==>
              a.sock == b.sock.Peer() && (a.writable ==> st.At(a.sock).armed) && (b.writable ==> st.At(b.sock).armed)
  {
    var two := [a, b];
    assert two[0] == a && two[1] == b && [a][0] == a;
  }

  lemma OtherSocketKeepsPending(p: ModifyPolicy, st: State, ev: Event, route: Option<Endpoint>, s: Endpoint)
    requires Safe(p, st) && ev.sock != s && st.At(s).pending != []
    ensures Handle(p, st, ev, route).status.Open? ==> Handle(p, st, ev, route).At(s).pending != []
  {
  }

  lemma {:induction false} PrefixKeepsPending(p: ModifyPolicy, st: State, batch: Batch, s: Endpoint)
    requires Safe(p, st) && st.At(s).pending != []
    requires forall i :: 0 <= i < |batch| ==> batch[i].sock != s
    ensures RunBatch(p, st, st, batch).status.Open? ==> RunBatch(p, st, st, batch).At(s).pending != []
  {
    if batch != [] {
      var prefix := batch[..|batch|-1];
      var ev := batch[|batch|-1];
      assert forall i :: 0 <= i < |prefix| ==> prefix[i] == batch[i];
      PrefixKeepsPending(p, st, prefix, s);
      BatchKeepsSafe(p, st, st, prefix);
      var mid := RunBatch(p, st, st, prefix);
      if mid.status.Open? {
        OtherSocketKeepsPending(p, mid, ev, st.At(ev.sock).route, s);
      }
    }
  }

  // A write event whose mask was taken before earlier events of the batch ran
  // still finds bytes to send, also after its own read part.
  lemma WriteEventFindsData(p: ModifyPolicy, script: seq<Batch>, batch: Batch, i: nat)
    requires Selectable(Run(p, script), batch) && i < |batch| && batch[i].writable
    ensures var at := Run(p, script);
            var before := RunBatch(p, at, at, batch[..i]);
            var ready := AfterRead(before, batch[i], at.At(batch[i].sock).route);
            before.status.Open? && ready.status.Open? ==> ready.At(batch[i].sock).pending != []
  {
    var at := Run(p, script);
    RunIsSafe(p, script);
    PrefixKeepsPending(p, at, batch[..i], batch[i].sock);
    BatchKeepsSafe(p, at, at, batch[..i]);
  }

  // ----- total work -----

  function BatchBytes(batch: Batch): nat
    decreases |batch|
  {
    if batch == [] then 0
    else
      var ev := batch[|batch|-1];
      BatchBytes(batch[..|batch|-1]) + if ev.recv.Received? then |ev.recv.data| else 0
  }

  function ScriptBytes(script: seq<Batch>): nat
    decreases |script|
  {
    if script == [] then 0 else ScriptBytes(script[..|script|-1]) + BatchBytes(script[|script|-1])
  }

  function TotalReceived(st: State): nat { |st.client.received| + |st.backend.received| }

  lemma FinishReadsNothing(p: ModifyPolicy, a: State, ev: Event)
    ensures TotalReceived(Finish(p, a, ev)) == TotalReceived(a)
  {
    var b := if ev.writable then Write(a, ev.sock, ev.send) else a;
    assert TotalReceived(b) == TotalReceived(a);
  }

  lemma StepReadsAtMost(p: ModifyPolicy, st: State, ev: Event, route: Option<Endpoint>)
    ensures TotalReceived(Handle(p, st, ev, route)) <= TotalReceived(st) + BatchBytes([ev])
  {
    assert BatchBytes([ev]) == if ev.recv.Received? then |ev.recv.data| else 0 by { assert [ev][..0] == []; }
    assert TotalReceived(AfterRead(st, ev, route)) <= TotalReceived(st) + BatchBytes([ev]);
    FinishReadsNothing(p, AfterRead(st, ev, route), ev);
  }

  lemma {:induction false} BatchReadsAtMost(p: ModifyPolicy, at: State, st: State, batch: Batch)
    ensures TotalReceived(RunBatch(p, at, st, batch)) <= TotalReceived(st) + BatchBytes(batch)
  {
    if batch != [] {
      var prefix := batch[..|batch|-1];
      var ev := batch[|batch|-1];
      BatchReadsAtMost(p, at, st, prefix);
      StepReadsAtMost(p, RunBatch(p, at, st, prefix), ev, at.At(ev.sock).route);
      assert [ev][..0] == [];
    }
  }

  lemma {:induction false} RunReadsAtMost(p: ModifyPolicy, script: seq<Batch>)
    ensures TotalReceived(Run(p, script)) <= ScriptBytes(script)
  {
    if script != [] {
      var prefix := script[..|script|-1];
      RunReadsAtMost(p, prefix);
      BatchReadsAtMost(p, Run(p, prefix), Run(p, prefix), script[|script|-1]);
    }
  }

  // With N bytes offered to it over the whole run, the relay makes at most N
  // reads that return data, at most N sends that move data, and never more than
  // 2N of both while anything is still queued.
  lemma WorkIsBounded(p: ModifyPolicy, script: seq<Batch>)
    ensures var st, n := Run(p, script), ScriptBytes(script);
            && st.client.recvs + st.backend.recvs <= n
            && st.client.sends + st.backend.sends <= n
            && st.client.recvs + st.backend.recvs + st.client.sends + st.backend.sends
                 + |st.client.pending| + |st.backend.pending| <= 2 * n
  {
    RunIsSafe(p, script);
    RunReadsAtMost(p, script);
    DeliveryIsInOrder(p, script, Client);
    DeliveryIsInOrder(p, script, Backend);
  }

  lemma {:induction false} ClosedStays(p: ModifyPolicy, st: State, batch: Batch)
    requires st.status.Closed?
    ensures RunBatch(p, st, st, batch) == st
  {
    if batch != [] { ClosedStays(p, st, batch[..|batch|-1]); }
  }

  // ----- the event loop -----

  // What the selector holds for a registered socket.
  datatype Registration = Registration(write: bool, data: Option<Endpoint>)

  class Connection {
    const policy: ModifyPolicy
    var pending: map<Endpoint, seq<Byte>>
    var registry: map<Endpoint, Registration>
    ghost var model: State  // the buffers and registrations together with the history

    ghost predicate Holds(e: Endpoint)
      reads this
    {
      && e in pending && pending[e] == model.At(e).pending
      && (e in registry <==> model.status.Open?)
      && model.At(e).armed == (e in registry && registry[e].write)
      && model.At(e).route == if e in registry then registry[e].data else None
    }

    ghost predicate Valid()
      reads this
    {
      Holds(Client) && Holds(Backend)
    }

    constructor (policy: ModifyPolicy)
      ensures this.policy == policy
      ensures Valid() && model == INITIAL
    {
      this.policy := policy;
      pending := map[Client := [], Backend := []];
      registry := map[Client := Registration(false, Some(Backend)), Backend := Registration(false, Some(Client))];
      model := INITIAL;
    }

    method ClosePair(reason: Reason)
      requires Valid()
      modifies this`registry, this`model
      ensures Valid() && model == old(model).Close(reason)
    {
      registry := registry - {Client, Backend};
      model := model.Close(reason);
    }

    method UpdateSocket(sock: Endpoint)
      requires Valid() && model.status.Open?
      modifies this`registry, this`model
      ensures Valid() && model == UpdateInterest(policy, old(model), sock)
    {
      var data := if policy.DataKept? then registry[sock].data else None;
      registry := registry[sock := Registration(pending[sock] != [], data)];
      model := UpdateInterest(policy, model, sock);
    }

    method OnReadable(sock: Endpoint, route: Option<Endpoint>, outcome: RecvOutcome) returns (ended: Option<Reason>)
      requires Valid() && model.status.Open?
      modifies this`pending, this`model
      ensures Valid() && model.status.Open?
      ensures Read(old(model), sock, route, outcome) == if ended.None? then model else model.Close(ended.value)
    {
      match outcome {
        case WouldBlock => return None;
        case RecvError => return Some(ReadFailed);
        case EndOfStream => return Some(PeerClosed);
        case Received(data) =>
          ghost var source := model.At(sock);
          model := model.With(sock, source.(received := source.received + data, recvs := source.recvs + 1));
          if route.None? {
            return Some(RouteLost);
          }
          var destination := route.value;
          assert destination.Client? || destination.Backend?;
          var output := pending[destination];
          if |output| + |data| > MAX_BUFFER_BYTES {
            return Some(Overflow);
          }
          pending := pending[destination := output + data];
          model := model.With(destination, model.At(destination).(pending := output + data));
          return None;
      }
    }

    method OnWritable(sock: Endpoint, outcome: SendOutcome) returns (ended: Option<Reason>)
      requires Valid() && model.status.Open?
      modifies this`pending, this`model
      ensures Valid() && model.status.Open?
      ensures Write(old(model), sock, outcome) == if ended.None? then model else model.Close(ended.value)
    {
      assert sock.Client? || sock.Backend?;
      var output := pending[sock];
      if output == [] { return None; }
      match outcome {
        case SendError => return Some(WriteFailed);
        case Room(n) =>
          var sent := if n < |output| then n else |output|;
          if sent == 0 { return Some(WriteStalled); }
          pending := pending[sock := output[sent..]];
          model := Write(model, sock, outcome);
          return None;
      }
    }

    method HandleEvent(ev: Event, route: Option<Endpoint>) returns (ended: Option<Reason>)
      requires Valid() && model.status.Open?
      modifies this
      ensures Valid() && model == Handle(policy, old(model), ev, route)
      ensures ended == Ended(model)
    {
      if ev.readable {
        ended := OnReadable(ev.sock, route, ev.recv);
        if ended.Some? {
          ClosePair(ended.value);
          return;
        }
      }
      if ev.writable {
        ended := OnWritable(ev.sock, ev.send);
        if ended.Some? {
          ClosePair(ended.value);
          return;
        }
      }
      UpdateSocket(Client);
      UpdateSocket(Backend);
      ended := None;
    }

    method HandleBatch(batch: Batch) returns (ended: Option<Reason>)
      requires Valid() && model.status.Open?
      modifies this
      ensures Valid() && model == RunBatch(policy, old(model), old(model), batch)
      ensures ended == Ended(model)
    {
      ended := None;
      ghost var at := model;
      var keys := map e | e in registry :: registry[e].data;
      assert forall e: Endpoint {:trigger at.At(e)} :: e.Client? || e.Backend? ==> e in keys && keys[e] == at.At(e).route;
      var i := 0;
      while i < |batch| && ended.None?
        invariant i <= |batch|
        invariant Valid() && model == RunBatch(policy, at, at, batch[..i])
        invariant ended == Ended(model)
      {
        var ev := batch[i];
        assert batch[..i+1][..|batch[..i+1]|-1] == batch[..i];
        assert ev.sock.Client? || ev.sock.Backend?;
        assert ev.sock in keys && keys[ev.sock] == at.At(ev.sock).route;
        ended := HandleEvent(ev, keys[ev.sock]);
        i := i + 1;
      }
      ClosedPrefix(policy, at, batch, i);
    }

    // relay_connection: one select per batch, until a return closes the pair.
    method RelayConnection(script: seq<Batch>) returns (ended: Option<Reason>)
      requires Valid() && model == INITIAL
      modifies this
      ensures Valid() && model == Run(policy, script)
      ensures ended == Ended(model)
    {
      ended := None;
      var n := 0;
      while n < |script|
        invariant n <= |script|
        invariant Valid() && model == Run(policy, script[..n])
        invariant ended == Ended(model)
      {
        assert script[..n+1][..|script[..n+1]|-1] == script[..n];
        if ended.None? {
          ended := HandleBatch(script[n]);
        } else {
          ClosedStays(policy, model, script[n]);
        }
        n := n + 1;
      }
      assert script[..n] == script;
    }
  }

  function Ended(st: State): Option<Reason> {
    if st.status.Open? then None else Some(st.status.reason)
  }

  lemma {:induction false} ClosedPrefix(p: ModifyPolicy, st: State, batch: Batch, i: nat)
    requires i <= |batch|
    requires i < |batch| ==> RunBatch(p, st, st, batch[..i]).status.Closed?
    ensures RunBatch(p, st, st, batch) == RunBatch(p, st, st, batch[..i])
  {
    if i == |batch| {
      assert batch[..i] == batch;
    } else {
      var prefix := batch[..|batch|-1];
      assert prefix[..i] == batch[..i];
      ClosedPrefix(p, st, prefix, i);
    }
  }
}
