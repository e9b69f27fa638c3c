// Why a run of the relay ends: the events, states and reasons of
// src/python/rfb_v6_v4_proxy.py:77-108.

module RelayEnds {
  import opened Sequences
  import opened Wrappers
  import opened Relay

  // ----- events of a run -----

  // A property of an event, the state in which it is handled and its key's data.
  type Hit = (State, Event, Option<Endpoint>) -> bool

  // Some event of the batch has it, at the point where the batch has come to it.
  predicate SomeEvent(p: ModifyPolicy, at: State, st: State, batch: Batch, hit: Hit)
    decreases |batch|
  {
    batch != [] &&
    var prefix, ev := batch[..|batch|-1], batch[|batch|-1];
    SomeEvent(p, at, st, prefix, hit) || hit(RunBatch(p, at, st, prefix), ev, at.At(ev.sock).route)
  }

  // Some event of the batches from number `first` on.
  predicate SomeEventFrom(p: ModifyPolicy, script: seq<Batch>, first: nat, hit: Hit)
    decreases |script|
  {
    first < |script| &&
    var prefix := script[..|script|-1];
    SomeEventFrom(p, prefix, first, hit) || SomeEvent(p, Run(p, prefix), Run(p, prefix), script[|script|-1], hit)
  }

  // ----- why a relay ends -----

  // Exactly which events end an open relay, and with which reason. A read part
  // that ends it leaves no write part.
  predicate ReadEnds(st: State, ev: Event, route: Option<Endpoint>, reason: Reason) {
    ev.readable &&
    match reason
    case ReadFailed => ev.recv.RecvError?
    case PeerClosed => ev.recv.EndOfStream?
    case RouteLost => ev.recv.Received? && route.None?
    case Overflow => ev.recv.Received? && route.Some? && |st.At(route.value).pending| + |ev.recv.data| > 16_777_216
    case WriteFailed => false
    case WriteStalled => false
  }

  predicate SurvivesRead(st: State, ev: Event, route: Option<Endpoint>) {
    forall reason :: !ReadEnds(st, ev, route, reason)
  }

  predicate WriteEnds(st: State, ev: Event, reason: Reason) {
    && ev.writable && st.At(ev.sock).pending != []
    && ((reason == WriteFailed && ev.send.SendError?) || (reason == WriteStalled && ev.send == Room(0)))
  }

  // An event ends an open relay in its read part, or by a send that fails or is
  // blocked. A blocked send is one that takes nothing of a buffer that holds
  // something. The code differs from its own docstring here: the relay ends
  // instead of waiting.
  predicate Ends(st: State, ev: Event, route: Option<Endpoint>, reason: Reason) {
    && st.status.Open?
    && (ReadEnds(st, ev, route, reason) || (SurvivesRead(st, ev, route) && WriteEnds(st, ev, reason)))
  }

  predicate GoesOn(st: State, ev: Event, route: Option<Endpoint>) {
    st.status.Open? && forall reason :: !Ends(st, ev, route, reason)
  }

  // The same as a property of events.
  function Ending(reason: Reason): Hit { (st: State, ev: Event, route: Option<Endpoint>) => Ends(st, ev, route, reason) }

  lemma ReadEndsExactly(st: State, ev: Event, route: Option<Endpoint>, reason: Reason)
    requires st.status.Open?
    ensures AfterRead(st, ev, route).status == Closed(reason) <==> ReadEnds(st, ev, route, reason)
  {
    assert MAX_BUFFER_BYTES == 16_777_216;
  }

  lemma ReadLeavesOpen(st: State, ev: Event, route: Option<Endpoint>)
    requires st.status.Open?
    ensures AfterRead(st, ev, route).status.Open? <==> SurvivesRead(st, ev, route)
  {
    var after := AfterRead(st, ev, route);
    forall reason ensures after.status == Closed(reason) <==> ReadEnds(st, ev, route, reason) {
      ReadEndsExactly(st, ev, route, reason);
    }
    if after.status.Closed? { assert ReadEnds(st, ev, route, after.status.reason); }
  }

  // A read part that leaves the relay open does not touch the own buffer.
  lemma ReadKeepsOwnPending(st: State, ev: Event, route: Option<Endpoint>)
    requires route.Some? ==> route.value == ev.sock.Peer()
    ensures AfterRead(st, ev, route).At(ev.sock).pending == st.At(ev.sock).pending
  {
  }

  lemma EndsInStep(p: ModifyPolicy, st: State, ev: Event, route: Option<Endpoint>, reason: Reason)
    requires route.Some? ==> route.value == ev.sock.Peer()
    ensures Handle(p, st, ev, route).status == Closed(reason) <==> st.status == Closed(reason) || Ends(st, ev, route, reason)
  {
    if st.status.Open? {
      ReadEndsExactly(st, ev, route, reason);
      ReadLeavesOpen(st, ev, route);
      ReadKeepsOwnPending(st, ev, route);
      if AfterRead(st, ev, route).status.Open? { FinishEnds(p, AfterRead(st, ev, route), ev, reason); }
    }
  }

  lemma FinishEnds(p: ModifyPolicy, a: State, ev: Event, reason: Reason)
    requires a.status.Open?
    ensures Finish(p, a, ev).status == Closed(reason) <==> WriteEnds(a, ev, reason)
  {
  }

  lemma {:induction false} EndsInBatch(p: ModifyPolicy, at: State, st: State, batch: Batch, reason: Reason)
    requires RoutedToPeer(p, at)
    ensures RunBatch(p, at, st, batch).status == Closed(reason)
       <==> st.status == Closed(reason) || SomeEvent(p, at, st, batch, Ending(reason))
  {
    if batch != [] {
      var prefix, ev := batch[..|batch|-1], batch[|batch|-1];
      EndsInBatch(p, at, st, prefix, reason);
      EndsInStep(p, RunBatch(p, at, st, prefix), ev, at.At(ev.sock).route, reason);
    }
  }

  // A run has ended for a reason if and only if some event was handled, while the
  // relay was open, that is a reason of this kind. So nothing else ends a relay,
  // a read that would block least of all.
  lemma {:induction false} EndsExactly(p: ModifyPolicy, script: seq<Batch>, reason: Reason)
    ensures Run(p, script).status == Closed(reason) <==> SomeEventFrom(p, script, 0, Ending(reason))
  {
    if script != [] {
      var prefix := script[..|script|-1];
      EndsExactly(p, prefix, reason);
      RunIsSafe(p, prefix);
      EndsInBatch(p, Run(p, prefix), Run(p, prefix), script[|script|-1], reason);
    }
  }

  // An event that does not end the relay moves exactly these bytes: what was
  // received goes behind the peer's buffer, what the kernel has room for goes from
  // the front of the own buffer.
  lemma EventMoves(p: ModifyPolicy, st: State, ev: Event, route: Option<Endpoint>)
    requires GoesOn(st, ev, route) && route == Some(ev.sock.Peer())
    ensures var me, peer := st.At(ev.sock), st.At(ev.sock.Peer());
            var after := Handle(p, st, ev, route);
            var data := if ev.readable && ev.recv.Received? then ev.recv.data else [];
            var n := if ev.writable && ev.send.Room? && me.pending != []
                     then (if ev.send.n < |me.pending| then ev.send.n else |me.pending|) else 0;
            && after.status.Open?
            && after.At(ev.sock).received == me.received + data
            && after.At(ev.sock.Peer()).pending == peer.pending + data
            && after.At(ev.sock).sent == me.sent + me.pending[..n] && after.At(ev.sock).pending == me.pending[n..]
            && after.At(ev.sock.Peer()).received == peer.received && after.At(ev.sock.Peer()).sent == peer.sent
  {
    if Handle(p, st, ev, route).status.Closed? {
      EndsInStep(p, st, ev, route, Handle(p, st, ev, route).status.reason);
    }
    var a := AfterRead(st, ev, route);
    ReadMoves(st, ev, route);
    FinishMoves(p, a, ev);
  }

  lemma ReadMoves(st: State, ev: Event, route: Option<Endpoint>)
    requires st.status.Open? && route == Some(ev.sock.Peer()) && AfterRead(st, ev, route).status.Open?
    ensures var me, peer, after := st.At(ev.sock), st.At(ev.sock.Peer()), AfterRead(st, ev, route);
            var data := if ev.readable && ev.recv.Received? then ev.recv.data else [];
            && after.At(ev.sock).received == me.received + data && after.At(ev.sock).sent == me.sent
            && after.At(ev.sock).pending == me.pending
            && after.At(ev.sock.Peer()).pending == peer.pending + data
            && after.At(ev.sock.Peer()).received == peer.received && after.At(ev.sock.Peer()).sent == peer.sent
  {
  }

  lemma FinishMoves(p: ModifyPolicy, a: State, ev: Event)
    requires a.status.Open? && Finish(p, a, ev).status.Open?
    ensures var me, peer, after := a.At(ev.sock), a.At(ev.sock.Peer()), Finish(p, a, ev);
            var n := if ev.writable && ev.send.Room? && me.pending != []
                     then (if ev.send.n < |me.pending| then ev.send.n else |me.pending|) else 0;
            && after.At(ev.sock).sent == me.sent + me.pending[..n] && after.At(ev.sock).pending == me.pending[n..]
            && after.At(ev.sock).received == me.received
            && after.At(ev.sock.Peer()).pending == peer.pending
            && after.At(ev.sock.Peer()).received == peer.received && after.At(ev.sock.Peer()).sent == peer.sent
  {
    var me := a.At(ev.sock);
    assert me.sent + me.pending[..0] == me.sent && me.pending[0..] == me.pending;
  }

  // ----- sends that would block -----

  // Of a select's events no buffer need be looked at: an armed write finds data.
  predicate RefusedSend(st: State, ev: Event, route: Option<Endpoint>) {
    st.status.Open? && SurvivesRead(st, ev, route) && ev.writable && ev.send == Room(0)
  }

  // Every batch is one that select can return.
  predicate SelectableRun(p: ModifyPolicy, script: seq<Batch>)
    decreases |script|
  {
    script != [] ==>
      var prefix := script[..|script|-1];
      SelectableRun(p, prefix) && Selectable(Run(p, prefix), script[|script|-1])
  }

  lemma {:induction false} BlockedSendEndsRelay(p: ModifyPolicy, script: seq<Batch>)
    requires SelectableRun(p, script)
    ensures Run(p, script).status == Closed(WriteStalled) <==> SomeEventFrom(p, script, 0, RefusedSend)
  {
    if script != [] {
      var prefix := script[..|script|-1];
      BlockedSendEndsRelay(p, prefix);
      RunIsSafe(p, prefix);
      EndsInBatch(p, Run(p, prefix), Run(p, prefix), script[|script|-1], WriteStalled);
      RefusedIsBlocked(p, prefix, script[|script|-1]);
    }
  }

  lemma {:induction false} RefusedIsBlocked(p: ModifyPolicy, script: seq<Batch>, batch: Batch)
    requires Selectable(Run(p, script), batch)
    ensures var at := Run(p, script);
            SomeEvent(p, at, at, batch, RefusedSend) <==> SomeEvent(p, at, at, batch, Ending(WriteStalled))
    decreases |batch|
  {
    if batch != [] {
      var n, at := |batch| - 1, Run(p, script);
      RefusedIsBlocked(p, script, batch[..n]);
      if batch[n].writable { ArmedFindsData(p, script, batch, n); }
    }
  }

  lemma ArmedFindsData(p: ModifyPolicy, script: seq<Batch>, batch: Batch, n: nat)
    requires Selectable(Run(p, script), batch) && n < |batch| && batch[n].writable
    ensures var at := Run(p, script);
            var before, route := RunBatch(p, at, at, batch[..n]), at.At(batch[n].sock).route;
            before.status.Open? && SurvivesRead(before, batch[n], route) ==> before.At(batch[n].sock).pending != []
  {
    var at := Run(p, script);
    var before, route := RunBatch(p, at, at, batch[..n]), at.At(batch[n].sock).route;
    RunIsSafe(p, script);
    WriteEventFindsData(p, script, batch, n);
    if before.status.Open? { ReadLeavesOpen(before, batch[n], route); }
    ReadKeepsOwnPending(before, batch[n], route);
  }

  // A relay that ends this way has read bytes that it will never send.
  lemma StalledLosesBytes(p: ModifyPolicy, script: seq<Batch>)
    requires Run(p, script).status == Closed(WriteStalled)
    ensures exists d: Endpoint :: Run(p, script).At(d).sent < Run(p, script).At(d.Peer()).received
  {
    var st := Run(p, script);
    RunIsSafe(p, script);
    StalledKeepsPending(p, script);
    var d := if st.client.pending != [] then Client else Backend;
    assert InStep(st, d);
    assert st.At(d).sent < st.At(d.Peer()).received;
  }

  predicate KeepsPending(st: State) { st.status == Closed(WriteStalled) ==> st.client.pending != [] || st.backend.pending != [] }

  lemma {:induction false} BatchKeepsPending(p: ModifyPolicy, at: State, st: State, batch: Batch)
    requires KeepsPending(st)
    ensures KeepsPending(RunBatch(p, at, st, batch))
  {
    if batch != [] {
      var prefix, ev := batch[..|batch|-1], batch[|batch|-1];
      BatchKeepsPending(p, at, st, prefix);
      StepKeepsPending(p, RunBatch(p, at, st, prefix), ev, at.At(ev.sock).route);
    }
  }

  lemma StepKeepsPending(p: ModifyPolicy, st: State, ev: Event, route: Option<Endpoint>)
    requires KeepsPending(st)
    ensures KeepsPending(Handle(p, st, ev, route))
  {
    var a := AfterRead(st, ev, route);
    if st.status.Open? && a.status.Open? && ev.writable {
      assert Write(a, ev.sock, ev.send).status == Closed(WriteStalled) ==> a.At(ev.sock).pending != [];
    }
  }

  lemma {:induction false} StalledKeepsPending(p: ModifyPolicy, script: seq<Batch>)
    ensures KeepsPending(Run(p, script))
  {
    if script != [] {
      var prefix := script[..|script|-1];
      StalledKeepsPending(p, prefix);
      BatchKeepsPending(p, Run(p, prefix), Run(p, prefix), script[|script|-1]);
    }
  }
}
