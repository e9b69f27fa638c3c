// The relay as written against the relay as meant: update_interest drops the data
// of the selector keys, and with it the route from a socket to its peer.

module RelayRouting {
  import opened Bytes
  import opened Sequences
  import opened Wrappers
  import opened Relay
  import opened RelayEnds

  // ----- what dropping the registered route costs -----

  function Erase(st: State): State {
    st.(client := st.client.(route := None), backend := st.backend.(route := None))
  }

  predicate RoutesGone(st: State) { st.client.route.None? && st.backend.route.None? }

  function Reads(st: State): nat { st.client.recvs + st.backend.recvs }

  lemma ReadIgnoresRegistry(s: State, t: State, sock: Endpoint, route: Option<Endpoint>, outcome: RecvOutcome)
    requires Erase(s) == Erase(t)
    ensures Erase(Read(s, sock, route, outcome)) == Erase(Read(t, sock, route, outcome))
  {
  }

  lemma ReadClosesRoutes(s: State, sock: Endpoint, route: Option<Endpoint>, outcome: RecvOutcome)
    ensures Read(s, sock, route, outcome).status.Closed? ==> s.status.Closed? || RoutesGone(Read(s, sock, route, outcome))
  {
  }

  lemma WriteIgnoresRegistry(s: State, t: State, sock: Endpoint, outcome: SendOutcome)
    requires Erase(s) == Erase(t)
    ensures Erase(Write(s, sock, outcome)) == Erase(Write(t, sock, outcome))
    ensures Reads(s) == Reads(Write(s, sock, outcome))
    ensures Write(s, sock, outcome).status.Closed? ==> s.status.Closed? || RoutesGone(Write(s, sock, outcome))
  {
  }

  lemma FinishIgnoresRegistry(s: State, t: State, ev: Event)
    requires Erase(s) == Erase(t)
    ensures Erase(Finish(DataDropped, s, ev)) == Erase(Finish(DataKept, t, ev))
    ensures Reads(t) == Reads(Finish(DataKept, t, ev))
    ensures s.status.Open? ==> RoutesGone(Finish(DataDropped, s, ev))
  {
    if ev.writable {
      WriteIgnoresRegistry(s, t, ev.sock, ev.send);
      WriteIgnoresRegistry(t, s, ev.sock, ev.send);
    }
  }

  lemma SameRouteSameStep(s: State, t: State, ev: Event, route: Option<Endpoint>)
    requires Erase(s) == Erase(t)
    ensures Erase(Handle(DataDropped, s, ev, route)) == Erase(Handle(DataKept, t, ev, route))
    ensures RoutesGone(s) || s.status.Open? ==> RoutesGone(Handle(DataDropped, s, ev, route))
  {
    if s.status.Open? {
      var a := AfterRead(s, ev, route);
      var b := AfterRead(t, ev, route);
      ReadIgnoresRegistry(s, t, ev.sock, route, ev.recv);
      ReadClosesRoutes(s, ev.sock, route, ev.recv);
      FinishIgnoresRegistry(a, b, ev);
    }
  }

  lemma {:induction false} SameRouteSameBatch(at: State, batch: Batch)
    requires Safe(DataDropped, at)
    ensures Erase(RunBatch(DataDropped, at, at, batch)) == Erase(RunBatch(DataKept, at, at, batch))
    ensures batch != [] && at.status.Open? ==> RoutesGone(RunBatch(DataDropped, at, at, batch))
  {
    if batch != [] {
      var prefix := batch[..|batch|-1];
      var ev := batch[|batch|-1];
      SameRouteSameBatch(at, prefix);
      assert prefix == [] ==> RunBatch(DataDropped, at, at, prefix) == at;
      SameRouteSameStep(RunBatch(DataDropped, at, at, prefix), RunBatch(DataKept, at, at, prefix), ev,
                        at.At(ev.sock).route);
    }
  }

  // With the route gone, an event runs as intended unless it reads data.
  lemma LostRouteStep(s: State, t: State, ev: Event, route: Option<Endpoint>)
    requires Erase(s) == Erase(t) && RoutesGone(s)
    ensures var s' := Handle(DataDropped, s, ev, None);
            var t' := Handle(DataKept, t, ev, route);
            && RoutesGone(s')
            && (if Reads(t') == Reads(t) then Erase(s') == Erase(t') else s'.status == Closed(RouteLost))
  {
    if s.status.Open? && ev.readable && ev.recv.Received? {
      var b := Read(t, ev.sock, route, ev.recv);
      FinishIgnoresRegistry(b, b, ev);
      assert Reads(b) == Reads(t) + 1;
      assert Read(s, ev.sock, None, ev.recv).status == Closed(RouteLost);
    } else if s.status.Open? {
      var b := AfterRead(t, ev, route);
      assert b == AfterRead(t, ev, None);
      SameRouteSameStep(s, t, ev, None);
      FinishIgnoresRegistry(b, b, ev);
    }
  }

  lemma {:induction false} LostRouteBatch(s: State, t: State, batch: Batch)
    requires Erase(s) == Erase(t) && RoutesGone(s)
    ensures var s' := RunBatch(DataDropped, s, s, batch);
            var t' := RunBatch(DataKept, t, t, batch);
            && RoutesGone(s') && Reads(t) <= Reads(t')
            && (if Reads(t') == Reads(t) then Erase(s') == Erase(t') else s'.status == Closed(RouteLost))
  {
    if batch != [] {
      var prefix := batch[..|batch|-1];
      var ev := batch[|batch|-1];
      LostRouteBatch(s, t, prefix);
      var s', t' := RunBatch(DataDropped, s, s, prefix), RunBatch(DataKept, t, t, prefix);
      ReadsInStep(t', ev, t.At(ev.sock).route);
      if Reads(t') == Reads(t) {
        LostRouteStep(s', t', ev, t.At(ev.sock).route);
      }
    }
  }

  // An event that reads data, handled while the relay is open.
  predicate TakesData(st: State, ev: Event, route: Option<Endpoint>) {
    st.status.Open? && ev.readable && ev.recv.Received?
  }

  lemma {:induction false} ReadsInBatch(at: State, t: State, batch: Batch)
    ensures Reads(t) <= Reads(RunBatch(DataKept, at, t, batch))
    ensures Reads(t) < Reads(RunBatch(DataKept, at, t, batch)) <==> SomeEvent(DataKept, at, t, batch, TakesData)
  {
    if batch != [] {
      var prefix, ev := batch[..|batch|-1], batch[|batch|-1];
      ReadsInBatch(at, t, prefix);
      ReadsInStep(RunBatch(DataKept, at, t, prefix), ev, at.At(ev.sock).route);
    }
  }

  lemma ReadsInStep(t: State, ev: Event, route: Option<Endpoint>)
    ensures Reads(Handle(DataKept, t, ev, route)) == Reads(t) + (if TakesData(t, ev, route) then 1 else 0)
  {
    if t.status.Open? {
      var b := AfterRead(t, ev, route);
      FinishIgnoresRegistry(b, b, ev);
      assert Reads(b) == Reads(t) + (if TakesData(t, ev, route) then 1 else 0);
    }
  }

  lemma {:induction false} ReadsAfter(script: seq<Batch>, n: nat)
    requires n <= |script|
    ensures Reads(Run(DataKept, script[..n])) <= Reads(Run(DataKept, script))
    ensures Reads(Run(DataKept, script[..n])) < Reads(Run(DataKept, script)) <==> SomeEventFrom(DataKept, script, n, TakesData)
  {
    if n == |script| {
      assert script[..n] == script;
    } else {
      var prefix := script[..|script|-1];
      assert prefix[..n] == script[..n];
      ReadsAfter(prefix, n);
      ReadsInBatch(Run(DataKept, prefix), Run(DataKept, prefix), script[|script|-1]);
    }
  }

  // The code as written against the intended routing. Let k be the first batch
  // with any event. The two runs agree, up to the route, exactly as long as no
  // event of a later batch reads data from the open relay; from the first such
  // event on, the code as written has ended with the lookup error.
  lemma AsWrittenAgreesExactly(script: seq<Batch>, k: nat)
    requires k < |script| && script[k] != [] && forall j :: 0 <= j < k ==> script[j] == []
    ensures var asWritten := Run(DataDropped, script);
            var intended := Run(DataKept, script);
            var quiet := !SomeEventFrom(DataKept, script, k + 1, TakesData);
            && (Erase(asWritten) == Erase(intended) <==> quiet)
            && (!quiet <==> asWritten.status == Closed(RouteLost))
  {
    AgreementAlongRun(script, k);
    ReadsAfter(script, k + 1);
    RunIsSafe(DataKept, script);
  }

  function ClientSends(data: Chunk): Event { Event(Client, true, false, Received(data), SendError) }

  // Two reads in two batches are enough to lose the route.
  lemma SecondReadLosesRoute()
    ensures var script := [[ClientSends([1])], [ClientSends([2])]];
            && Run(DataKept, script).backend.pending == [1, 2]
            && Run(DataDropped, script).status == Closed(RouteLost)
  {
    var a, b := [ClientSends([1])], [ClientSends([2])];
    assert [a, b][..1] == [a];
    assert Run(DataKept, [a][..0]) == Run(DataDropped, [a][..0]) == INITIAL;
    OneEvent(DataKept, INITIAL, a);
    OneEvent(DataDropped, INITIAL, a);
    OneEvent(DataKept, Run(DataKept, [a]), b);
    OneEvent(DataDropped, Run(DataDropped, [a]), b);
  }

  lemma OneEvent(p: ModifyPolicy, st: State, batch: Batch)
    requires |batch| == 1
    ensures RunBatch(p, st, st, batch) == Handle(p, st, batch[0], st.At(batch[0].sock).route)
  {
    assert batch[..0] == [];
    assert RunBatch(p, st, st, []) == st;
  }

  lemma {:induction false} AgreementAlongRun(script: seq<Batch>, k: nat)
    requires k < |script| && script[k] != [] && forall j :: 0 <= j < k ==> script[j] == []
    ensures var s, t := Run(DataDropped, script), Run(DataKept, script);
            var base := Reads(Run(DataKept, script[..k+1]));
            && RoutesGone(s) && base <= Reads(t)
            && (if Reads(t) == base then Erase(s) == Erase(t) else s.status == Closed(RouteLost))
  {
    var prefix := script[..|script|-1];
    var batch := script[|script|-1];
    if |script| == k + 1 {
      assert script[..k+1] == script;
      IdleRun(DataDropped, prefix);
      IdleRun(DataKept, prefix);
      SameRouteSameBatch(INITIAL, batch);
    } else {
      assert prefix[..k+1] == script[..k+1];
      AgreementAlongRun(prefix, k);
      var s, t := Run(DataDropped, prefix), Run(DataKept, prefix);
      if Reads(t) == Reads(Run(DataKept, script[..k+1])) {
        LostRouteBatch(s, t, batch);
      } else {
        ClosedStays(DataDropped, s, batch);
        ReadsInBatch(t, t, batch);
      }
    }
  }

  lemma {:induction false} IdleRun(p: ModifyPolicy, script: seq<Batch>)
    requires forall j :: 0 <= j < |script| ==> script[j] == []
    ensures Run(p, script) == INITIAL
  {
    if script != [] { IdleRun(p, script[..|script|-1]); }
  }

  // As written, the whole connection can deliver at most one read per
  // direction, however long the script runs.
  lemma AsWrittenRelaysOneRead(script: seq<Batch>, d: Endpoint)
    requires forall k :: 0 <= k < |script| ==> DistinctSockets(script[k])
    ensures |Run(DataDropped, script).At(d).sent| <= 65536
  {
    OneReadAlongRun(script, d);
  }

  function Carried(st: State, d: Endpoint): nat { |st.At(d).sent| + |st.At(d).pending| }

  lemma CarriedByRead(st: State, sock: Endpoint, route: Option<Endpoint>, outcome: RecvOutcome, d: Endpoint)
    ensures var more := Carried(Read(st, sock, route, outcome), d) - Carried(st, d);
            0 <= more <= (if route == Some(d) then RECV_LIMIT else 0)
  {
  }

  lemma CarriedByFinish(p: ModifyPolicy, a: State, ev: Event, d: Endpoint)
    ensures Carried(Finish(p, a, ev), d) == Carried(a, d)
  {
    var b := if ev.writable then Write(a, ev.sock, ev.send) else a;
    assert Carried(b, d) == Carried(a, d);
  }

  lemma CarriedStep(p: ModifyPolicy, st: State, ev: Event, route: Option<Endpoint>, d: Endpoint)
    ensures var more := Carried(Handle(p, st, ev, route), d) - Carried(st, d);
            0 <= more <= (if route == Some(d) then RECV_LIMIT else 0)
  {
    CarriedByRead(st, ev.sock, route, ev.recv, d);
    CarriedByFinish(p, AfterRead(st, ev, route), ev, d);
  }

  lemma {:induction false} CarriedBatch(at: State, batch: Batch, d: Endpoint)
    requires Safe(DataDropped, at) && DistinctSockets(batch)
    ensures Carried(RunBatch(DataDropped, at, at, batch), d) <= Carried(at, d)
              + (if !RoutesGone(at) && exists i :: 0 <= i < |batch| && batch[i].sock == d.Peer() then RECV_LIMIT else 0)
    ensures RoutesGone(at) || (batch != [] && at.status.Open?) ==> RoutesGone(RunBatch(DataDropped, at, at, batch))
  {
    if batch != [] {
      var prefix := batch[..|batch|-1];
      var ev := batch[|batch|-1];
      assert forall i :: 0 <= i < |prefix| ==> prefix[i] == batch[i];
      CarriedBatch(at, prefix, d);
      var mid := RunBatch(DataDropped, at, at, prefix);
      CarriedStep(DataDropped, mid, ev, at.At(ev.sock).route, d);
      SameRouteSameStep(mid, mid, ev, at.At(ev.sock).route);
      assert prefix == [] ==> mid == at;
    }
  }

  lemma {:induction false} OneReadAlongRun(script: seq<Batch>, d: Endpoint)
    requires forall k :: 0 <= k < |script| ==> DistinctSockets(script[k])
    ensures var st := Run(DataDropped, script);
            Carried(st, d) <= (if RoutesGone(st) then RECV_LIMIT else 0)
  {
    if script != [] {
      var prefix := script[..|script|-1];
      OneReadAlongRun(prefix, d);
      RunIsSafe(DataDropped, prefix);
      CarriedBatch(Run(DataDropped, prefix), script[|script|-1], d);
    }
  }
}
