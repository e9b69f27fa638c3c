// SyntheticNetwork of src/python/xrdp_vnc_bench.py: a veth pair with one end in
// a private network namespace, set up by a list of commands any of which may
// fail, and taken down again from wherever the setup stopped.

module SyntheticNetwork {
  import opened Wrappers

  // ----- the kernel -----

  // Where a link lives: the host, or a named namespace.
  datatype Home = Host | In(namespace: string)

  datatype Impairment = Impairment(delay: real, jitter: real, loss: real, rate: Option<real>)

  // A link: the other end if it is one of a veth pair, its addresses, whether it
  // is up, and its netem parameters.
  datatype Link = Link(peer: Option<Place>, addresses: set<string>, up: bool, netem: Option<Impairment>)

  datatype Place = Place(home: Home, name: string)

  // A namespace, and whether its loopback is up.
  datatype Kernel = Kernel(namespaces: map<string, bool>, links: map<Place, Link>)

  datatype Command =
    | NetnsAdd(ns: string)
    | VethAdd(name: string, peerName: string)
    | MoveLink(name: string, ns: string)
    | AddressAdd(place: Place, address: string)
    | LinkUp(place: Place)
    | LoopbackUp(ns: string)
    | QdiscReplace(place: Place, netem: Impairment)
    | NetnsDelete(ns: string)
    | LinkDelete(name: string)

  // Destroying links takes the other ends of their pairs with them.
  function Destroy(links: map<Place, Link>, gone: set<Place>): map<Place, Link> {
    map p | p in links && p !in gone && !(links[p].peer.Some? && links[p].peer.value in gone) :: links[p]
  }

  function SetLink(k: Kernel, p: Place, l: Link): Kernel { k.(links := k.links[p := l]) }

  // None: the command fails and changes nothing.
  function Execute(k: Kernel, c: Command): Option<Kernel> {
    match c
    case NetnsAdd(ns) =>
      if ns in k.namespaces then None else Some(k.(namespaces := k.namespaces[ns := false]))
    case VethAdd(name, peerName) =>
      var a, b := Place(Host, name), Place(Host, peerName);
      if a in k.links || b in k.links || a == b then None
      else Some(k.(links := k.links[a := Link(Some(b), {}, false, None)][b := Link(Some(a), {}, false, None)]))
    case MoveLink(name, ns) =>
      var was, now := Place(Host, name), Place(In(ns), name);
      if was !in k.links || now in k.links || ns !in k.namespaces then None
      else
        var l := k.links[was];
        var moved := (k.links - {was})[now := l];
        Some(k.(links := if l.peer.Some? && l.peer.value in moved
                         then moved[l.peer.value := moved[l.peer.value].(peer := Some(now))] else moved))
    case AddressAdd(p, address) =>
      if p !in k.links then None
      else Some(SetLink(k, p, k.links[p].(addresses := k.links[p].addresses + {address})))
    case LinkUp(p) =>
      if p !in k.links then None else Some(SetLink(k, p, k.links[p].(up := true)))
    case LoopbackUp(ns) =>
      if ns !in k.namespaces then None else Some(k.(namespaces := k.namespaces[ns := true]))
    case QdiscReplace(p, netem) =>
      if p !in k.links then None else Some(SetLink(k, p, k.links[p].(netem := Some(netem))))
    case NetnsDelete(ns) =>
      if ns !in k.namespaces then None
      else Some(Kernel(k.namespaces - {ns}, Destroy(k.links, set p | p in k.links && p.home == In(ns))))
    case LinkDelete(name) =>
      if Place(Host, name) !in k.links then None else Some(k.(links := Destroy(k.links, {Place(Host, name)})))
  }

  // ----- the commands of setup and cleanup -----

  datatype Config = Config(namespace: string, hostIf: string, clientIf: string, hostIp: string, clientIp: string,
                           impairment: Impairment)
  {
    function HostEnd(): Place { Place(Host, hostIf) }
    function ClientEnd(): Place { Place(In(namespace), clientIf) }
    function ClientAtFirst(): Place { Place(Host, clientIf) }
  }

  const NO_IMPAIRMENT := Impairment(0.0, 0.0, 0.0, None)

  // The arguments of the tc command.
  datatype Argument = Delay(ms: real) | Jitter(ms: real) | Loss(percent: real) | Rate(mbit: real)

  function NetemArguments(i: Impairment): seq<Argument> {
    (if i.delay != 0.0 || i.jitter != 0.0 then [Delay(i.delay)] + (if i.jitter != 0.0 then [Jitter(i.jitter)] else []) else [])
    + (if i.loss != 0.0 then [Loss(i.loss)] else [])
    + (if i.rate.Some? then [Rate(i.rate.value)] else [])
  }

  function Apply(i: Impairment, a: Argument): Impairment {
    match a
    case Delay(ms) => i.(delay := ms)
    case Jitter(ms) => i.(jitter := ms)
    case Loss(percent) => i.(loss := percent)
    case Rate(mbit) => i.(rate := Some(mbit))
  }

  // What netem makes of its arguments.
  function Configured(arguments: seq<Argument>): Impairment {
    if arguments == [] then NO_IMPAIRMENT
    else Apply(Configured(arguments[..|arguments|-1]), arguments[|arguments|-1])
  }

  function InstallNetem(i: Impairment, place: Place): seq<Command> {
    if i == NO_IMPAIRMENT then [] else [QdiscReplace(place, Configured(NetemArguments(i)))]
  }

  function SetupCommands(c: Config): seq<Command> {
    [NetnsAdd(c.namespace),
     VethAdd(c.hostIf, c.clientIf),
     MoveLink(c.clientIf, c.namespace),
     AddressAdd(c.HostEnd(), c.hostIp + "/30"),
     LinkUp(c.HostEnd()),
     AddressAdd(c.ClientEnd(), c.clientIp + "/30"),
     LoopbackUp(c.namespace),
     LinkUp(c.ClientEnd())]
    + InstallNetem(c.impairment, c.HostEnd())
    + InstallNetem(c.impairment, c.ClientEnd())
  }

  // Run the commands up to the first that fails. `faults` says which ones fail
  // for reasons of their own, such as an expired sudo ticket.
  datatype Ran = Ran(kernel: Kernel, done: bool)

  function RunCommands(k: Kernel, commands: seq<Command>, faults: seq<bool>): Ran
    decreases |commands|
  {
    if commands == [] then Ran(k, true)
    else if faults != [] && faults[0] then Ran(k, false)
    else match Execute(k, commands[0])
      case None => Ran(k, false)
      case Some(next) => RunCommands(next, commands[1..], if faults == [] then [] else faults[1..])
  }

  function OrUnchanged(k: Kernel, c: Command): Kernel {
    match Execute(k, c)
    case None => k
    case Some(next) => next
  }

  // cleanup, which ignores failures; `named` is whether self.namespace is set.
  function AfterCleanup(k: Kernel, c: Config, named: bool): Kernel {
    var a := if named then OrUnchanged(k, NetnsDelete(c.namespace)) else k;
    OrUnchanged(a, LinkDelete(c.hostIf))
  }

  // ----- netem parameters -----

  lemma OneMoreArgument(arguments: seq<Argument>, a: Argument)
    ensures Configured(arguments + [a]) == Apply(Configured(arguments), a)
  {
    assert (arguments + [a])[..|arguments|] == arguments;
  }

  // The command line carries every parameter.
  lemma ArgumentsConfigure(i: Impairment)
    ensures Configured(NetemArguments(i)) == i
  {
    var timing := if i.delay != 0.0 || i.jitter != 0.0
                  then [Delay(i.delay)] + (if i.jitter != 0.0 then [Jitter(i.jitter)] else []) else [];
    var loss := if i.loss != 0.0 then [Loss(i.loss)] else [];
    OneMoreArgument([], Delay(i.delay));
    OneMoreArgument([Delay(i.delay)], Jitter(i.jitter));
    assert [] + [Delay(i.delay)] == [Delay(i.delay)];
    assert Configured(timing) == i.(loss := 0.0, rate := None);
    OneMoreArgument(timing, Loss(i.loss));
    assert timing + [] == timing;
    assert Configured(timing + loss) == i.(rate := None);
    if i.rate.Some? {
      OneMoreArgument(timing + loss, Rate(i.rate.value));
    } else {
      assert (timing + loss) + [] == timing + loss;
    }
  }

  // On the command line the jitter has no name of its own: it is the number after
  // the delay. No parameter is given twice.
  lemma ArgumentOrder(i: Impairment, k: nat)
    requires k < |NetemArguments(i)|
    ensures var a := NetemArguments(i);
            && (a[k].Jitter? ==> k == 1 && a[0].Delay?) && (a[k].Delay? ==> k == 0)
            && (a[k].Rate? ==> k == |a| - 1)
            && forall j :: k < j < |a| ==> !(a[j].Loss? && a[k].Loss?)
  {
  }

  // ----- rollback -----

  predicate Unused(k: Kernel, c: Config) {
    && c.namespace !in k.namespaces && c.hostIf != c.clientIf
    && (forall p :: p in k.links ==> p.home != In(c.namespace))
    && c.HostEnd() !in k.links && c.ClientAtFirst() !in k.links
    && (forall p :: p in k.links && k.links[p].peer.Some? ==>
          k.links[p].peer.value !in {c.HostEnd(), c.ClientAtFirst()} && k.links[p].peer.value.home != In(c.namespace))
  }

  // Everything but the namespace and the pair is as at the start, and the pair is
  // there with both ends or not at all.
  ghost predicate Ours(start: Kernel, k: Kernel, c: Config) {
    var ends := {c.HostEnd(), c.ClientAtFirst(), c.ClientEnd()};
    && k.namespaces - {c.namespace} == start.namespaces
    && k.links - ends == start.links
    && (c.ClientEnd() in k.links ==> c.namespace in k.namespaces && c.ClientAtFirst() !in k.links)
    && (c.HostEnd() in k.links <==> c.ClientAtFirst() in k.links || c.ClientEnd() in k.links)
    && (c.HostEnd() in k.links ==>
          var client := if c.ClientEnd() in k.links then c.ClientEnd() else c.ClientAtFirst();
          k.links[c.HostEnd()].peer == Some(client) && k.links[client].peer == Some(c.HostEnd()))
  }

  predicate IsSetup(cmd: Command, c: Config) {
    || cmd == NetnsAdd(c.namespace) || cmd == VethAdd(c.hostIf, c.clientIf) || cmd == MoveLink(c.clientIf, c.namespace)
    || cmd == LoopbackUp(c.namespace)
    || ((cmd.AddressAdd? || cmd.LinkUp? || cmd.QdiscReplace?) && cmd.place in {c.HostEnd(), c.ClientEnd()})
  }

  lemma CommandKeepsOurs(start: Kernel, k: Kernel, c: Config, cmd: Command)
    requires Unused(start, c) && Ours(start, k, c) && IsSetup(cmd, c) && Execute(k, cmd).Some?
    ensures Ours(start, Execute(k, cmd).value, c)
  {
  }

  lemma {:induction false} RunKeepsOurs(start: Kernel, k: Kernel, c: Config, commands: seq<Command>, faults: seq<bool>)
    requires Unused(start, c) && Ours(start, k, c)
    requires forall i :: 0 <= i < |commands| ==> IsSetup(commands[i], c)
    ensures Ours(start, RunCommands(k, commands, faults).kernel, c)
    decreases |commands|
  {
    if commands != [] && !(faults != [] && faults[0]) && Execute(k, commands[0]).Some? {
      CommandKeepsOurs(start, k, c, commands[0]);
      RunKeepsOurs(start, Execute(k, commands[0]).value, c, commands[1..], if faults == [] then [] else faults[1..]);
    }
  }

  lemma CleanupRestores(start: Kernel, k: Kernel, c: Config)
    requires Unused(start, c) && Ours(start, k, c)
    ensures AfterCleanup(k, c, true) == start
  {
  }

  lemma CleanupOfNothing(start: Kernel, c: Config, named: bool)
    requires Unused(start, c)
    ensures AfterCleanup(start, c, named) == start
  {
  }

  lemma SetupIsOurs(start: Kernel, c: Config)
    requires Unused(start, c)
    ensures Ours(start, start, c)
    ensures forall i :: 0 <= i < |SetupCommands(c)| ==> IsSetup(SetupCommands(c)[i], c)
  {
    assert start.namespaces - {c.namespace} == start.namespaces;
  }

  // Wherever the setup stops, the cleanup brings back exactly the links and
  // namespaces there were, and a second cleanup changes nothing.
  lemma RollbackFromAnywhere(start: Kernel, c: Config, faults: seq<bool>, again: bool)
    requires Unused(start, c)
    ensures var stopped := RunCommands(start, SetupCommands(c), faults).kernel;
            && AfterCleanup(stopped, c, true) == start
            && AfterCleanup(AfterCleanup(stopped, c, true), c, again) == start
  {
    SetupIsOurs(start, c);
    RunKeepsOurs(start, start, c, SetupCommands(c), faults);
    CleanupRestores(start, RunCommands(start, SetupCommands(c), faults).kernel, c);
    CleanupOfNothing(start, c, again);
  }

  // The same for an interrupt between any two commands: the first n have run.
  lemma RollbackFromInterrupt(start: Kernel, c: Config, faults: seq<bool>, n: nat)
    requires Unused(start, c) && n <= |SetupCommands(c)|
    ensures AfterCleanup(RunCommands(start, SetupCommands(c)[..n], faults).kernel, c, true) == start
  {
    SetupIsOurs(start, c);
    RunKeepsOurs(start, start, c, SetupCommands(c)[..n], faults);
    CleanupRestores(start, RunCommands(start, SetupCommands(c)[..n], faults).kernel, c);
  }

  // ----- a setup that succeeds -----

  lemma {:induction false} DoneMeansNoFault(k: Kernel, commands: seq<Command>, faults: seq<bool>)
    requires RunCommands(k, commands, faults).done
    ensures RunCommands(k, commands, []) == RunCommands(k, commands, faults)
    decreases |commands|
  {
    if commands != [] {
      DoneMeansNoFault(Execute(k, commands[0]).value, commands[1..], if faults == [] then [] else faults[1..]);
    }
  }

  lemma OneCommand(k: Kernel, command: Command, commands: seq<Command>)
    requires Execute(k, command).Some?
    ensures RunCommands(k, [command] + commands, []) == RunCommands(Execute(k, command).value, commands, [])
  {
    assert ([command] + commands)[1..] == commands;
  }

  // The kernel with the namespace and the pair added, one end in the namespace.
  function Wired(start: Kernel, c: Config, loopback: bool, host: Link, client: Link): Kernel {
    Kernel(start.namespaces[c.namespace := loopback], start.links[c.HostEnd() := host][c.ClientEnd() := client])
  }

  function HostLink(c: Config): Link { Link(Some(c.ClientEnd()), {}, false, None) }

  function ClientLink(c: Config): Link { Link(Some(c.HostEnd()), {}, false, None) }

  // The kernel after a setup: the loopback is up, both ends are addressed and up
  // and have these netem parameters.
  function Ready(start: Kernel, c: Config, netem: Option<Impairment>): Kernel {
    Wired(start, c, true,
          HostLink(c).(addresses := {c.hostIp + "/30"}, up := true, netem := netem),
          ClientLink(c).(addresses := {c.clientIp + "/30"}, up := true, netem := netem))
  }

  lemma WiredUpdates(start: Kernel, c: Config, loopback: bool, host: Link, client: Link, l: Link)
    requires c.HostEnd() != c.ClientEnd()
    ensures var k := Wired(start, c, loopback, host, client);
            && c.namespace in k.namespaces && c.HostEnd() in k.links && c.ClientEnd() in k.links
            && k.links[c.HostEnd()] == host && k.links[c.ClientEnd()] == client
            && SetLink(k, c.HostEnd(), l) == Wired(start, c, loopback, l, client)
            && SetLink(k, c.ClientEnd(), l) == Wired(start, c, loopback, host, l)
            && k.(namespaces := k.namespaces[c.namespace := true]) == Wired(start, c, true, host, client)
  {
    var k := Wired(start, c, loopback, host, client);
    assert k.links[c.HostEnd() := l] == start.links[c.HostEnd() := l][c.ClientEnd() := client];
    assert k.links[c.ClientEnd() := l] == start.links[c.HostEnd() := host][c.ClientEnd() := l];
    assert k.namespaces[c.namespace := true] == start.namespaces[c.namespace := true];
  }

  lemma LinksAreMade(start: Kernel, c: Config, later: seq<Command>)
    requires Unused(start, c)
    ensures RunCommands(start, [NetnsAdd(c.namespace)] + ([VethAdd(c.hostIf, c.clientIf)]
              + ([MoveLink(c.clientIf, c.namespace)] + later)), [])
         == RunCommands(Wired(start, c, false, HostLink(c), ClientLink(c)), later, [])
  {
    var a, b, d := NetnsAdd(c.namespace), VethAdd(c.hostIf, c.clientIf), MoveLink(c.clientIf, c.namespace);
    var k1 := Execute(start, a).value;
    var k2 := Execute(k1, b).value;
    OneCommand(start, a, [b] + ([d] + later));
    OneCommand(k1, b, [d] + later);
    OneCommand(k2, d, later);
    assert Execute(k2, d).value.links == Wired(start, c, false, HostLink(c), ClientLink(c)).links;
  }

  lemma EndsAreConfigured(start: Kernel, c: Config, later: seq<Command>)
    requires c.HostEnd() != c.ClientEnd()
    ensures RunCommands(Wired(start, c, false, HostLink(c), ClientLink(c)),
              [AddressAdd(c.HostEnd(), c.hostIp + "/30")] + ([LinkUp(c.HostEnd())]
              + ([AddressAdd(c.ClientEnd(), c.clientIp + "/30")] + ([LoopbackUp(c.namespace)]
              + ([LinkUp(c.ClientEnd())] + later)))), [])
         == RunCommands(Ready(start, c, None), later, [])
  {
    var h0, l0 := HostLink(c), ClientLink(c);
    var h1 := h0.(addresses := h0.addresses + {c.hostIp + "/30"});
    var h2 := h1.(up := true);
    var l1 := l0.(addresses := l0.addresses + {c.clientIp + "/30"});
    var l2 := l1.(up := true);
    var c5 := [LinkUp(c.ClientEnd())] + later;
    var c4 := [LoopbackUp(c.namespace)] + c5;
    var c3 := [AddressAdd(c.ClientEnd(), c.clientIp + "/30")] + c4;
    var c2 := [LinkUp(c.HostEnd())] + c3;
    WiredUpdates(start, c, false, h0, l0, h1);
    OneCommand(Wired(start, c, false, h0, l0), AddressAdd(c.HostEnd(), c.hostIp + "/30"), c2);
    WiredUpdates(start, c, false, h1, l0, h2);
    OneCommand(Wired(start, c, false, h1, l0), LinkUp(c.HostEnd()), c3);
    WiredUpdates(start, c, false, h2, l0, l1);
    OneCommand(Wired(start, c, false, h2, l0), AddressAdd(c.ClientEnd(), c.clientIp + "/30"), c4);
    WiredUpdates(start, c, false, h2, l1, l1);
    OneCommand(Wired(start, c, false, h2, l1), LoopbackUp(c.namespace), c5);
    WiredUpdates(start, c, true, h2, l1, l2);
    OneCommand(Wired(start, c, true, h2, l1), LinkUp(c.ClientEnd()), later);
    assert {} + {c.hostIp + "/30"} == {c.hostIp + "/30"} && {} + {c.clientIp + "/30"} == {c.clientIp + "/30"};
    assert Wired(start, c, true, h2, l2) == Ready(start, c, None);
  }

  lemma NetemIsInstalled(start: Kernel, c: Config)
    requires c.HostEnd() != c.ClientEnd()
    ensures var netem := if c.impairment == NO_IMPAIRMENT then None else Some(c.impairment);
            (RunCommands(Ready(start, c, None),
                        InstallNetem(c.impairment, c.HostEnd()) + InstallNetem(c.impairment, c.ClientEnd()), [])
         == Ran(Ready(start, c, netem), true))
  {
    var i, k := c.impairment, Ready(start, c, None);
    if i != NO_IMPAIRMENT {
      ArgumentsConfigure(i);
      var a, b := QdiscReplace(c.HostEnd(), i), QdiscReplace(c.ClientEnd(), i);
      var k1 := Execute(k, a).value;
      OneCommand(k, a, [b]);
      OneCommand(k1, b, []);
      assert [b] + [] == [b];
      assert Execute(k1, b).value.links == Ready(start, c, Some(i)).links;
    }
  }

  // A setup with no fault succeeds, and one that succeeds leaves both ends of the
  // pair with the same netem parameters, the requested ones.
  lemma SetupMakesReady(start: Kernel, c: Config, faults: seq<bool>)
    requires Unused(start, c)
    ensures RunCommands(start, SetupCommands(c), []).done
    ensures var r := RunCommands(start, SetupCommands(c), faults);
            r.done ==> r.kernel == Ready(start, c, if c.impairment == NO_IMPAIRMENT then None else Some(c.impairment))
  {
    var install := InstallNetem(c.impairment, c.HostEnd()) + InstallNetem(c.impairment, c.ClientEnd());
    var ends := [AddressAdd(c.HostEnd(), c.hostIp + "/30")] + ([LinkUp(c.HostEnd())]
              + ([AddressAdd(c.ClientEnd(), c.clientIp + "/30")] + ([LoopbackUp(c.namespace)]
              + ([LinkUp(c.ClientEnd())] + install))));
    assert SetupCommands(c) == [NetnsAdd(c.namespace)] + ([VethAdd(c.hostIf, c.clientIf)]
              + ([MoveLink(c.clientIf, c.namespace)] + ends));
    LinksAreMade(start, c, ends);
    EndsAreConfigured(start, c, install);
    NetemIsInstalled(start, c);
    if RunCommands(start, SetupCommands(c), faults).done {
      DoneMeansNoFault(start, SetupCommands(c), faults);
    }
  }

  // ----- the object -----

  class Network {
    const config: Config
    const enabled: bool
    var named: bool  // self.namespace is not None
    var kernel: Kernel

    constructor (config: Config, enabled: bool, kernel: Kernel)
      ensures this.config == config && this.enabled == enabled && this.kernel == kernel && named == enabled
    {
      this.config, this.enabled, this.kernel, named := config, enabled, kernel, enabled;
    }

    // `probe` is whether sudo -n works; `ok` is false when setup raises.
    method Setup(probe: bool, faults: seq<bool>) returns (ok: bool)
      requires enabled ==> named && Unused(kernel, config)
      modifies this
      ensures !enabled ==> ok && kernel == old(kernel)
      ensures !ok ==> kernel == old(kernel)
      ensures enabled && ok ==> named && kernel == Ready(old(kernel), config,
                if config.impairment == NO_IMPAIRMENT then None else Some(config.impairment))
      ensures enabled ==> (ok <==> probe && RunCommands(old(kernel), SetupCommands(config), faults).done)
    {
      if !enabled { return true; }
      if !probe { return false; }
      RollbackFromAnywhere(kernel, config, faults, false);
      SetupMakesReady(kernel, config, faults);
      ghost var start := kernel;
      var commands, n := SetupCommands(config), 0;
      while n < |commands|
        invariant n <= |commands| && named
        invariant RunCommands(kernel, commands[n..], if n < |faults| then faults[n..] else [])
               == RunCommands(start, commands, faults)
      {
        assert commands[n..][0] == commands[n] && commands[n..][1..] == commands[n + 1..];
        var next := Execute(kernel, commands[n]);
        if (n < |faults| && faults[n]) || next.None? {
          Cleanup();
          return false;
        }
        assert n < |faults| ==> faults[n..][0] == faults[n] && faults[n..][1..] == faults[n + 1..];
        kernel := next.value;
        n := n + 1;
      }
      return true;
    }

    method Cleanup()
      modifies this
      ensures kernel == if enabled then AfterCleanup(old(kernel), config, old(named)) else old(kernel)
      ensures named == (old(named) && !enabled)
    {
      if !enabled { return; }
      if named { kernel := OrUnchanged(kernel, NetnsDelete(config.namespace)); }
      kernel := OrUnchanged(kernel, LinkDelete(config.hostIf));
      named := false;
    }
  }
}
