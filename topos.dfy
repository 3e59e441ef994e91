// The standard topologies of mininet/topo.py, each a build() that runs on a
// freshly made Topo: SingleSwitchTopo, SingleSwitchReversedTopo and
// LinearTopo.
module Topos {
  import opened Wrappers
  import opened Text
  import opened Util
  import opened Graph
  import opened Topo

  /** A Topo as __init__ leaves it, before build(). */
  predicate Blank(st: State) {
    st.g == Empty() && st.ports == map[]
  }

  /**
   * Default options that clash with no parameter of addNode or add_node and do not mark
   * hosts as switches.
   */
  predicate PlainDefaults(st: State) {
    KwargClash(st.hopts).None? && "isSwitch" !in st.hopts && KwargClash(st.sopts).None? && "isSwitch" !in st.sopts
  }

  /** The state after a step, the old one if the step raised. */
  function OkOr(r: Result<State, Exc>, st: State): State {
    if r.Ok? then r.value else st
  }

  function HostName(i: nat): string { "h" + NatToDec(i) }
  function SwitchName(i: nat): string { "s" + NatToDec(i) }

  lemma NameInjective(a: nat, b: nat)
    ensures HostName(a) == HostName(b) ==> a == b
    ensures SwitchName(a) == SwitchName(b) ==> a == b
    ensures HostName(a) != SwitchName(b)
  {
    assert HostName(a)[1..] == NatToDec(a) && HostName(b)[1..] == NatToDec(b);
    assert SwitchName(a)[1..] == NatToDec(a) && SwitchName(b)[1..] == NatToDec(b);
    assert HostName(a)[0] != SwitchName(b)[0];
    DecRoundTrip(a);
    DecRoundTrip(b);
  }

  /** h1 .. hn */
  function HostNames(n: int): set<string> {
    set j: nat | 1 <= j <= n :: HostName(j)
  }

  lemma {:induction false} HostNamesCount(n: nat)
    ensures |HostNames(n)| == n
    ensures SwitchName(1) !in HostNames(n)
  {
    HostNamesNoSwitch(n);
    if n > 0 {
      HostNamesCount(n - 1);
      HostNamesStep(n);
    } else {
      assert HostNames(n) == {};
    }
  }

  lemma HostNamesNoSwitch(n: nat)
    ensures SwitchName(1) !in HostNames(n)
  {
    forall j: nat | 1 <= j <= n ensures HostName(j) != SwitchName(1) {
      NameInjective(j, 1);
    }
  }

  /** hn is the one new name of h1 .. hn. */
  lemma HostNamesStep(n: nat)
    requires n > 0
    ensures HostNames(n) == HostNames(n - 1) + {HostName(n)} && HostName(n) !in HostNames(n - 1)
  {
    forall j: nat | 1 <= j <= n - 1 ensures HostName(j) != HostName(n) {
      NameInjective(j, n);
    }
  }

  // ------------------------------------------------- one switch, k hosts

  /** `host = self.addHost(name); self.addLink(host, switch, port1, port2)` */
  ghost function Attached(st: State, name: string, switch: string, port1: Option<int>, port2: Option<int>): State {
    var host := OkOr(HostAdded(st, name, map[]), st);
    LinkAdded(host, name, switch, port1, port2, None, map[]).st
  }

  method Attach(t: Topo, name: string, switch: string, port1: Option<int>, port2: Option<int>)
    modifies t, t.g
    ensures t.St() == Attached(old(t.St()), name, switch, port1, port2)
  {
    var host := t.AddHost(name, map[]);
    var key := t.AddLink(name, switch, port1, port2, None, map[]);
  }

  /** The switch port of host h: h, or k - h + 1 in the reversed topology. */
  function SwitchPort(k: int, h: int, reversed: bool): int {
    if reversed then k - h + 1 else h
  }

  /**
   * The state after addSwitch('s1') and the first i rounds of
   * `host = addHost('h%s' % h); addLink(host, switch[, port1=0, port2=k-h+1])`.
   */
  ghost function SingleSwitchUpTo(st0: State, k: int, reversed: bool, i: int): State
    decreases i
  {
    if i < 1 then OkOr(SwitchAdded(st0, "s1", map[]), st0)
    else
      Attached(SingleSwitchUpTo(st0, k, reversed, i - 1), HostName(i), "s1", HostPort(reversed), SwitchPortGiven(k, reversed, i))
  }

  /** Round h attaches hh to s1, with port1=0, port2=k-h+1 in the reversed topology. */
  lemma SingleSwitchNext(st0: State, k: int, reversed: bool, h: int)
    requires h >= 1
    ensures SingleSwitchUpTo(st0, k, reversed, h)
      == Attached(SingleSwitchUpTo(st0, k, reversed, h - 1), HostName(h), "s1",
                  if reversed then Some(0) else None, if reversed then Some(k - h + 1) else None)
  {
  }

  lemma SingleSwitchBelowOne(st0: State, k: int)
    ensures k < 1 ==> forall rev :: SingleSwitchUpTo(st0, k, rev, k) == SingleSwitchUpTo(st0, k, rev, 0)
  {
  }

  /** The state after addHost(name) for a name the graph does not have. */
  lemma HostedNew(st: State, name: string)
    requires name !in st.g.node && KwargClash(st.hopts).None?
    ensures HostAdded(st, name, map[]) == Ok(st.(g := WithNode(st.g, name, st.hopts)))
  {
  }

  /** addLink between two existing nodes keeps the nodes and adds one edge. */
  lemma LinkedNodes(st: State, a: string, b: string, port1: Option<int>, port2: Option<int>)
    requires Shared(st.g) && a in st.g.node && b in st.g.node
    ensures LinkAdded(st, a, b, port1, port2, None, map[]).r.Ok?
    ensures var r := LinkAdded(st, a, b, port1, port2, None, map[]).st;
      r.(g := st.g, ports := st.ports) == st
      && r.g.node == st.g.node && r.ports.Keys == st.ports.Keys + {a, b}
      && Shared(r.g) && |Edges(r.g)| == |Edges(st.g)| + 1
  {
    var o := LinkAdded(st, a, b, port1, port2, None, map[]);
    PortAddedShape(st, a, b, port1, port2);
    assert o.r.Ok?;
    LinkAddedCounts(st, a, b, port1, port2, map[]);
    var pr := PortAdded(st, a, b, port1, port2);
    var info := LinkOpts(OrDefault(map[], st.lopts), a, b, pr.r.value.0, pr.r.value.1);
    assert o.st.g == WithEdge(st.g, a, b, o.r.value, info);
    AddEdgeNodes(st.g, a, b, o.r.value, info);
    assert o.st.g.node == st.g.node;
  }

  /** The state after addSwitch(name) with the plain switch options. */
  lemma SwitchedNew(st: State, name: string)
    requires KwargClash(st.sopts).None? && "isSwitch" !in st.sopts
    ensures SwitchAdded(st, name, map[]) == Ok(st.(g := WithNode(st.g, name, st.sopts["isSwitch" := VBool(true)])))
  {
  }

  /**
   * Adding a new host and linking it to an existing switch adds the host
   * with the host options and one edge.
   */
  lemma AttachedGraph(st: State, name: string, switch: string, port1: Option<int>, port2: Option<int>)
    requires Shared(st.g) && name !in st.g.node
    requires switch in st.g.node
    requires KwargClash(st.hopts).None?
    ensures var r := Attached(st, name, switch, port1, port2);
      r.(g := st.g, ports := st.ports) == st
      && r.g.node == st.g.node[name := st.hopts] && r.ports.Keys == st.ports.Keys + {name, switch}
      && Shared(r.g) && |Edges(r.g)| == |Edges(st.g)| + 1
  {
    HostedNew(st, name);
    var host := st.(g := WithNode(st.g, name, st.hopts));
    LinkedNodes(host, name, switch, port1, port2);
  }

  /**
   * The ports after a new host is linked to a switch: the host's port 0
   * faces port dp of the switch, the given one or the switch's next.
   */
  function NewHostRows(ports: Ports, name: string, switch: string, port2: Option<int>): Ports {
    var row := PortsOf(ports, switch);
    var dp := if port2.Some? then port2.value else |row| + 1;
    ports[name := map[0 := (switch, dp)]][switch := row[dp := (name, 0)]]
  }

  /**
   * The new host gets port 0 towards the switch, and the switch the given
   * port or its next one towards the host.
   */
  lemma AttachedPorts(st: State, name: string, switch: string, port1: Option<int>, port2: Option<int>)
    requires name !in st.g.node && name !in st.ports
    requires switch in st.g.node && SwitchAttrs(st.g.node[switch])
    requires KwargClash(st.hopts).None? && "isSwitch" !in st.hopts
    requires port1 == None || port1 == Some(0)
    ensures Attached(st, name, switch, port1, port2).ports == NewHostRows(st.ports, name, switch, port2)
  {
    var host := st.(g := WithNode(st.g, name, st.hopts));
    NewHostPorts(host, name, switch, port1, port2);
    AttachedViaHost(st, host, name, switch, port1, port2, NewHostRows(st.ports, name, switch, port2));
  }

  /** Attaching a new host is addPort and add_edge on the state that has the host. */
  lemma AttachedViaHost(st: State, host: State, name: string, switch: string, port1: Option<int>, port2: Option<int>, ports: Ports)
    requires name !in st.g.node && KwargClash(st.hopts).None? && host == st.(g := WithNode(st.g, name, st.hopts))
    requires PortAdded(host, name, switch, port1, port2).st.ports == ports
    ensures Attached(st, name, switch, port1, port2).ports == ports
  {
    HostedNew(st, name);
  }

  /** addPort between a new host and a switch. */
  lemma NewHostPorts(host: State, name: string, switch: string, port1: Option<int>, port2: Option<int>)
    requires name in host.g.node && name !in host.ports && !SwitchAttrs(host.g.node[name])
    requires switch in host.g.node && switch != name && SwitchAttrs(host.g.node[switch])
    requires port1 == None || port1 == Some(0)
    ensures PortAdded(host, name, switch, port1, port2).st.ports == NewHostRows(host.ports, name, switch, port2)
  {
    var pr := PortAdded(host, name, switch, port1, port2);
    PortAddedShape(host, name, switch, port1, port2);
    PortDefaults(host, name, switch, port1, port2);
    PortsRecorded(host, name, switch, port1, port2);
    var dp := if port2.Some? then port2.value else |PortsOf(host.ports, switch)| + 1;
    assert pr.r.Ok?;
    assert PortsOf(host.ports, name) == map[];
    assert pr.r.value.0 == 0;
    assert pr.r.value.1 == dp;
    RecordNewHost(host.ports, name, switch, 0, dp);
  }

  lemma RecordNewHost(p: Ports, name: string, switch: string, sp: int, dp: int)
    requires name !in p && name != switch
    ensures Record(SetDefaults(p, name, switch), name, switch, sp, dp)
      == p[name := map[sp := (switch, dp)]][switch := PortsOf(p, switch)[dp := (name, sp)]]
  {
  }

  /** The switch's port row after i hosts: port SwitchPort(k, j) leads to hj, port 0. */
  function SwitchRow(k: int, reversed: bool, i: int): PortRow
    decreases i
  {
    if i < 1 then map[] else SwitchRow(k, reversed, i - 1)[SwitchPort(k, i, reversed) := (HostName(i), 0)]
  }

  lemma {:induction false} SwitchRowShape(k: int, reversed: bool, i: int)
    ensures |SwitchRow(k, reversed, i)| == if i < 1 then 0 else i
    ensures forall p :: p in SwitchRow(k, reversed, i) ==>
      if reversed then k - i + 1 <= p <= k else 1 <= p <= i
    decreases i
  {
    if i >= 1 {
      SwitchRowShape(k, reversed, i - 1);
    }
  }

  /** The nodes and links the single-switch build has made after i hosts. */
  ghost predicate SingleSwitchGraph(st0: State, i: nat, st: State) {
    st.(g := st0.g, ports := st0.ports) == st0
    && Shared(st.g)
    && st.g.node.Keys == {"s1"} + HostNames(i)
    && st.g.node["s1"] == st0.sopts["isSwitch" := VBool(true)]
    && (forall j: nat :: 1 <= j <= i ==> st.g.node[HostName(j)] == st0.hopts)
    && |Edges(st.g)| == i
  }

  /** The ports it has numbered: hj's port 0 faces port SwitchPort(k, j) of s1. */
  ghost predicate SingleSwitchPorts(k: int, reversed: bool, i: nat, ports: Ports) {
    ports.Keys == (if i == 0 then {} else {"s1"}) + HostNames(i)
    && PortsOf(ports, "s1") == SwitchRow(k, reversed, i)
    && (forall j: nat :: 1 <= j <= i ==> ports[HostName(j)] == map[0 := ("s1", SwitchPort(k, j, reversed))])
  }

  /** hi is none of s1, h1 .. h(i-1). */
  lemma NextHostIsNew(i: nat)
    requires i >= 1
    ensures HostName(i) !in HostNames(i - 1) && HostName(i) != "s1"
    ensures HostNames(i) == HostNames(i - 1) + {HostName(i)}
  {
    forall j: nat | 1 <= j <= i - 1 ensures HostName(j) != HostName(i) { NameInjective(j, i); }
    NameInjective(i, 1);
  }

  /** One round of the build keeps the graph shape, one host further. */
  lemma SingleSwitchGraphStep(st0: State, i: nat, prev: State, st: State)
    requires i >= 1 && SingleSwitchGraph(st0, i - 1, prev)
    requires st.(g := prev.g, ports := prev.ports) == prev
    requires st.g.node == prev.g.node[HostName(i) := prev.hopts]
    requires Shared(st.g) && |Edges(st.g)| == |Edges(prev.g)| + 1
    ensures SingleSwitchGraph(st0, i, st)
  {
    NextHostIsNew(i);
    forall j: nat | 1 <= j <= i ensures st.g.node[HostName(j)] == st0.hopts {
      NameInjective(j, 1);
    }
  }

  /** One round of the build keeps the port shape, one host further. */
  lemma SingleSwitchPortsStep(k: int, reversed: bool, i: nat, prev: Ports, ports: Ports)
    requires i >= 1 && SingleSwitchPorts(k, reversed, i - 1, prev)
    requires var dp := SwitchPort(k, i, reversed);
      ports == prev[HostName(i) := map[0 := ("s1", dp)]]["s1" := PortsOf(prev, "s1")[dp := (HostName(i), 0)]]
    ensures SingleSwitchPorts(k, reversed, i, ports)
  {
    var dp := SwitchPort(k, i, reversed);
    var row := PortsOf(prev, "s1")[dp := (HostName(i), 0)];
    assert "s1" in ports && ports["s1"] == row == SwitchRow(k, reversed, i);
    PortKeysStep(i, prev.Keys, ports.Keys);
    NextHostIsNew(i);
    HostRowsStep(k, reversed, i, prev, ports);
  }

  /** The names with ports after host i: s1 and h1 .. hi. */
  lemma PortKeysStep(i: nat, prev: set<string>, keys: set<string>)
    requires i >= 1 && prev == (if i == 1 then {} else {"s1"}) + HostNames(i - 1)
    requires keys == prev + {HostName(i), "s1"}
    ensures keys == {"s1"} + HostNames(i)
  {
    NextHostIsNew(i);
  }

  /** The rows of h1 .. hi after host i is attached. */
  lemma HostRowsStep(k: int, reversed: bool, i: nat, prev: Ports, ports: Ports)
    requires i >= 1 && HostName(i) != "s1"
    requires forall j: nat :: 1 <= j < i ==> HostName(j) in prev && prev[HostName(j)] == map[0 := ("s1", SwitchPort(k, j, reversed))]
    requires "s1" in ports && ports == prev[HostName(i) := map[0 := ("s1", SwitchPort(k, i, reversed))]]["s1" := ports["s1"]]
    ensures forall j: nat :: 1 <= j <= i ==> ports[HostName(j)] == map[0 := ("s1", SwitchPort(k, j, reversed))]
  {
    forall j: nat | 1 <= j <= i
      ensures ports[HostName(j)] == map[0 := ("s1", SwitchPort(k, j, reversed))]
    {
      NameInjective(j, 1);
      if j < i {
        NameInjective(j, i);
      }
    }
  }

  /** The port numbers a round passes to addLink. */
  function HostPort(reversed: bool): Option<int> {
    if reversed then Some(0) else None
  }

  function SwitchPortGiven(k: int, reversed: bool, i: int): Option<int> {
    if reversed then Some(k - i + 1) else None
  }

  lemma SingleSwitchRound(st0: State, k: int, reversed: bool, i: nat, prev: State)
    requires PlainDefaults(st0) && i >= 1 && SingleSwitchGraph(st0, i - 1, prev)
    requires SingleSwitchPorts(k, reversed, i - 1, prev.ports)
    ensures var st := Attached(prev, HostName(i), "s1", HostPort(reversed), SwitchPortGiven(k, reversed, i));
      SingleSwitchGraph(st0, i, st) && SingleSwitchPorts(k, reversed, i, st.ports)
  {
    var p1 := HostPort(reversed);
    var p2 := SwitchPortGiven(k, reversed, i);
    NextHostIsNew(i);
    assert SwitchAttrs(prev.g.node["s1"]);
    AttachedGraph(prev, HostName(i), "s1", p1, p2);
    SingleSwitchGraphStep(st0, i, prev, Attached(prev, HostName(i), "s1", p1, p2));
    SingleSwitchRoundPorts(st0, k, reversed, i, prev);
  }

  /** The ports of host i and of s1 after host i is attached. */
  lemma SingleSwitchRoundPorts(st0: State, k: int, reversed: bool, i: nat, prev: State)
    requires PlainDefaults(st0) && i >= 1 && SingleSwitchGraph(st0, i - 1, prev)
    requires SingleSwitchPorts(k, reversed, i - 1, prev.ports)
    ensures SingleSwitchPorts(k, reversed, i, Attached(prev, HostName(i), "s1", HostPort(reversed), SwitchPortGiven(k, reversed, i)).ports)
  {
    var p2 := SwitchPortGiven(k, reversed, i);
    var ports := Attached(prev, HostName(i), "s1", HostPort(reversed), p2).ports;
    SingleSwitchAttachedPorts(st0, k, reversed, i, prev);
    SwitchRowShape(k, reversed, i - 1);
    NewHostRowsAt(prev.ports, HostName(i), "s1", p2, SwitchPort(k, i, reversed), ports);
    SingleSwitchPortsStep(k, reversed, i, prev.ports, ports);
  }

  /** Host i is new, so attaching it to s1 adds its rows as NewHostRows says. */
  lemma SingleSwitchAttachedPorts(st0: State, k: int, reversed: bool, i: nat, prev: State)
    requires PlainDefaults(st0) && i >= 1 && SingleSwitchGraph(st0, i - 1, prev)
    requires SingleSwitchPorts(k, reversed, i - 1, prev.ports)
    ensures var p2 := SwitchPortGiven(k, reversed, i);
      Attached(prev, HostName(i), "s1", HostPort(reversed), p2).ports == NewHostRows(prev.ports, HostName(i), "s1", p2)
  {
    NextHostIsNew(i);
    assert SwitchAttrs(prev.g.node["s1"]);
    AttachedPorts(prev, HostName(i), "s1", HostPort(reversed), SwitchPortGiven(k, reversed, i));
  }

  /** NewHostRows with the switch-side port number named. */
  lemma NewHostRowsAt(ports: Ports, name: string, switch: string, port2: Option<int>, dp: int, r: Ports)
    requires dp == (if port2.Some? then port2.value else |PortsOf(ports, switch)| + 1)
    requires r == NewHostRows(ports, name, switch, port2)
    ensures r == ports[name := map[0 := (switch, dp)]][switch := PortsOf(ports, switch)[dp := (name, 0)]]
  {
  }

  /** The build before its first host: only s1. */
  lemma SingleSwitchStart(st0: State, k: int, reversed: bool)
    requires Blank(st0) && PlainDefaults(st0)
    ensures SingleSwitchGraph(st0, 0, SingleSwitchUpTo(st0, k, reversed, 0))
    ensures SingleSwitchPorts(k, reversed, 0, SingleSwitchUpTo(st0, k, reversed, 0).ports)
  {
    var st := SingleSwitchUpTo(st0, k, reversed, 0);
    assert st == st0.(g := WithNode(Empty(), "s1", st0.sopts["isSwitch" := VBool(true)]));
    assert HostNames(0) == {};
    assert |Edges(st.g)| == 0 by { assert Edges(st.g) == {}; }
  }

  lemma {:induction false} SingleSwitchFacts(st0: State, k: int, reversed: bool, i: int)
    requires Blank(st0) && PlainDefaults(st0)
    ensures var st := SingleSwitchUpTo(st0, k, reversed, i);
      SingleSwitchGraph(st0, if i < 1 then 0 else i, st) && SingleSwitchPorts(k, reversed, if i < 1 then 0 else i, st.ports)
    decreases i
  {
    if i < 1 {
      SingleSwitchStart(st0, k, reversed);
      assert SingleSwitchUpTo(st0, k, reversed, i) == SingleSwitchUpTo(st0, k, reversed, 0);
    } else {
      SingleSwitchFacts(st0, k, reversed, i - 1);
      SingleSwitchRound(st0, k, reversed, i, SingleSwitchUpTo(st0, k, reversed, i - 1));
    }
  }

  /** Port SwitchPort(k, j) of s1 leads to port 0 of hj, and no other port does. */
  lemma {:induction false} SwitchRowEntries(k: int, reversed: bool, i: int)
    ensures forall j: nat :: 1 <= j <= i ==>
      SwitchPort(k, j, reversed) in SwitchRow(k, reversed, i)
      && SwitchRow(k, reversed, i)[SwitchPort(k, j, reversed)] == (HostName(j), 0)
    ensures forall p :: p in SwitchRow(k, reversed, i) ==>
      exists j: nat :: 1 <= j <= i && p == SwitchPort(k, j, reversed) && SwitchRow(k, reversed, i)[p] == (HostName(j), 0)
    decreases i
  {
    if i >= 1 {
      SwitchRowEntries(k, reversed, i - 1);
      var row := SwitchRow(k, reversed, i);
      forall p | p in row
        ensures exists j: nat :: 1 <= j <= i && p == SwitchPort(k, j, reversed) && row[p] == (HostName(j), 0)
      {
        if p == SwitchPort(k, i, reversed) {
          assert row[p] == (HostName(i), 0);
        } else {
          var j: nat :| 1 <= j <= i - 1 && p == SwitchPort(k, j, reversed)
            && SwitchRow(k, reversed, i - 1)[p] == (HostName(j), 0);
          assert row[p] == (HostName(j), 0);
        }
      }
    }
  }

  /** The host kind of each node the single-switch build made. */
  lemma SingleSwitchKinds(g: G, hopts: Opts, i: nat)
    requires "isSwitch" !in hopts
    requires g.node.Keys == {"s1"} + HostNames(i) && SwitchAttrs(g.node["s1"])
    requires forall j: nat :: 1 <= j <= i ==> g.node[HostName(j)] == hopts
    ensures KindSet(g.node, true) == {"s1"} && KindSet(g.node, false) == HostNames(i)
  {
    HostNamesNoSwitch(i);
    assert "s1" !in HostNames(i) by { assert SwitchName(1) == "s1"; }
    forall x | x in HostNames(i)
      ensures !SwitchAttrs(g.node[x])
    {
      var j: nat :| 1 <= j <= i && x == HostName(j);
      assert g.node[x] == hopts;
    }
    assert KindSet(g.node, true) == {"s1"};
    assert KindSet(g.node, false) == HostNames(i);
  }

  /** One switch and i hosts, listed by switches() and hosts(). */
  lemma SingleSwitchCounts(st0: State, i: nat, st: State)
    requires PlainDefaults(st0) && SingleSwitchGraph(st0, i, st)
    ensures |Hosts(st.g)| == i && Switches(st.g) == ["s1"]
  {
    SingleSwitchKinds(st.g, st0.hopts, i);
    HostNamesCount(i);
    OneSwitchCounts(st.g, i);
  }

  /** A graph whose only switch is s1 lists s1 alone among its switches. */
  lemma OneSwitchCounts(g: G, n: nat)
    requires KindSet(g.node, true) == {"s1"} && |KindSet(g.node, false)| == n
    ensures |Hosts(g)| == n && Switches(g) == ["s1"]
  {
    KindCounts(g);
    HostsAndSwitches(g);
    assert "s1" in Switches(g);
    assert Switches(g)[0] in Switches(g);
  }

  /** port() between hj and s1, in both directions. */
  lemma SingleSwitchPortOf(k: int, reversed: bool, i: nat, st: State, j: nat)
    requires SingleSwitchPorts(k, reversed, i, st.ports) && 1 <= j <= i
    ensures PortOf(st, HostName(j), "s1") == Ok(One((0, SwitchPort(k, j, reversed))))
    ensures PortOf(st, "s1", HostName(j)) == Ok(One((SwitchPort(k, j, reversed), 0)))
  {
    SwitchRowEntries(k, reversed, i);
    var row := PortsOf(st.ports, "s1");
    PortOfUnique(st, HostName(j), "s1", 0, SwitchPort(k, j, reversed));
    forall q | q in row && row[q].0 == HostName(j) ensures q == SwitchPort(k, j, reversed) {
      var j2: nat :| 1 <= j2 <= i && q == SwitchPort(k, j2, reversed) && row[q] == (HostName(j2), 0);
      NameInjective(j, j2);
    }
    PortOfUnique(st, "s1", HostName(j), SwitchPort(k, j, reversed), 0);
  }

  /**
   * SingleSwitchTopo(k) and SingleSwitchReversedTopo(k): k hosts, one
   * switch, k links; hj's port 0 meets port j of s1, or port k - j + 1 in
   * the reversed topology.
   */
  lemma SingleSwitchTopoShape(st0: State, k: int, reversed: bool)
    requires Blank(st0) && PlainDefaults(st0)
    ensures var st := SingleSwitchUpTo(st0, k, reversed, k);
      var n := if k < 1 then 0 else k;
      |Hosts(st.g)| == n && Switches(st.g) == ["s1"] && |Edges(st.g)| == n
      && forall j: nat :: 1 <= j <= n ==>
           PortOf(st, HostName(j), "s1") == Ok(One((0, SwitchPort(k, j, reversed))))
           && PortOf(st, "s1", HostName(j)) == Ok(One((SwitchPort(k, j, reversed), 0)))
  {
    var st := SingleSwitchUpTo(st0, k, reversed, k);
    var n := if k < 1 then 0 else k;
    SingleSwitchFacts(st0, k, reversed, k);
    SingleSwitchCounts(st0, n, st);
    forall j: nat | 1 <= j <= n
      ensures PortOf(st, HostName(j), "s1") == Ok(One((0, SwitchPort(k, j, reversed))))
      ensures PortOf(st, "s1", HostName(j)) == Ok(One((SwitchPort(k, j, reversed), 0)))
    {
      SingleSwitchPortOf(k, reversed, n, st, j);
    }
  }

  /** SingleSwitchTopo.build(k) */
  method SingleSwitch(t: Topo, k: int)
    requires Blank(t.St()) && PlainDefaults(t.St())
    modifies t, t.g
    ensures t.St() == SingleSwitchUpTo(old(t.St()), k, false, k)
  {
    ghost var st0 := t.St();
    var switch := t.AddSwitch("s1", map[]);
    var h := 1;
    while h <= k
      invariant 1 <= h <= if k < 1 then 1 else k + 1
      invariant t.St() == SingleSwitchUpTo(st0, k, false, h - 1)
    {
      SingleSwitchNext(st0, k, false, h);
      Attach(t, HostName(h), "s1", None, None);
      h := h + 1;
    }
    assert h - 1 == k || (k < 1 && h == 1);
    SingleSwitchBelowOne(st0, k);
  }

  /** SingleSwitchReversedTopo.build(k) */
  method SingleSwitchReversed(t: Topo, k: int)
    requires Blank(t.St()) && PlainDefaults(t.St())
    modifies t, t.g
    ensures t.St() == SingleSwitchUpTo(old(t.St()), k, true, k)
  {
    ghost var st0 := t.St();
    var switch := t.AddSwitch("s1", map[]);
    var h := 1;
    while h <= k
      invariant 1 <= h <= if k < 1 then 1 else k + 1
      invariant t.St() == SingleSwitchUpTo(st0, k, true, h - 1)
    {
      SingleSwitchNext(st0, k, true, h);
      Attach(t, HostName(h), "s1", Some(0), Some(k - h + 1));
      h := h + 1;
    }
    assert h - 1 == k || (k < 1 && h == 1);
    SingleSwitchBelowOne(st0, k);
  }

  // ------------------------------------------------ k switches in a line

  /** genHostName(i, j): 'h%s' % i with one host per switch, else 'h%ss%d' % (j, i). */
  function LinearName(n: int, i: nat, j: nat): string {
    if n == 1 then HostName(i) else "h" + NatToDec(j) + "s" + NatToDec(i)
  }

  /** The first separator of a + [sep] + b is the one after a, when a has none. */
  lemma {:induction false} IndexOfSep(a: string, b: string, sep: char)
    requires sep !in a
    ensures IndexOf(a + [sep] + b, sep) == Some(|a|)
  {
    if a != [] {
      assert (a + [sep] + b)[1..] == a[1..] + [sep] + b;
      IndexOfSep(a[1..], b, sep);
    }
  }

  /** Both sides of a separator are recovered when the left side has none. */
  lemma SepUnique(a: string, b: string, c: string, d: string, sep: char)
    requires sep !in a && sep !in c && a + [sep] + b == c + [sep] + d
    ensures a == c && b == d
  {
    IndexOfSep(a, b, sep);
    IndexOfSep(c, d, sep);
    var x := a + [sep] + b;
    assert x[..|a|] == a && x[|a| + 1..] == b;
    assert x[..|c|] == c && x[|c| + 1..] == d;
  }

  lemma DecNoSep(i: nat, sep: char)
    requires !IsDigit(sep)
    ensures sep !in NatToDec(i)
  {
    var s := NatToDec(i);
    assert forall q :: 0 <= q < |s| ==> s[q] != sep;
  }

  /** "h" + x + "s" + y determines x and y when x has no 's'. */
  lemma TwoPartSplit(x1: string, y1: string, x2: string, y2: string)
    requires 's' !in x1 && 's' !in x2 && "h" + x1 + "s" + y1 == "h" + x2 + "s" + y2
    ensures x1 == x2 && y1 == y2
  {
    var left1, left2 := "h" + x1, "h" + x2;
    assert 's' !in left1 && 's' !in left2;
    SepUnique(left1, y1, left2, y2, 's');
    assert x1 == left1[1..] && x2 == left2[1..];
  }

  /** 'h%ss%d' % (j, i) determines j and i. */
  lemma TwoPartInjective(a: nat, b: nat, c: nat, d: nat)
    requires "h" + NatToDec(b) + "s" + NatToDec(a) == "h" + NatToDec(d) + "s" + NatToDec(c)
    ensures a == c && b == d
  {
    DecNoSep(b, 's');
    DecNoSep(d, 's');
    TwoPartSplit(NatToDec(b), NatToDec(a), NatToDec(d), NatToDec(c));
    DecRoundTrip(a);
    DecRoundTrip(b);
    DecRoundTrip(c);
    DecRoundTrip(d);
  }

  /** Host names of the line are distinct, and no host is named like a switch. */
  lemma LinearNameInjective(n: int, a: nat, b: nat, c: nat, d: nat)
    requires n == 1 ==> b == 1 && d == 1
    ensures LinearName(n, a, b) == LinearName(n, c, d) ==> a == c && b == d
    ensures LinearName(n, a, b) != SwitchName(c)
  {
    var x := LinearName(n, a, b);
    assert x[0] != SwitchName(c)[0];
    if n == 1 {
      NameInjective(a, c);
    } else if x == LinearName(n, c, d) {
      TwoPartInjective(a, b, c, d);
    }
  }

  /** The number of rounds of a loop `for j in irange(1, n)`. */
  function Rounds(n: int): nat {
    if n < 1 then 0 else n
  }

  /**
   * The state after the first i switches of the line, each with its n hosts
   * and its link to the previous switch.
   */
  ghost function LinearUpTo(st0: State, n: int, i: int): State
    decreases i, Rounds(n) + 2
  {
    if i < 1 then st0
    else
      var s := LinearRound(st0, n, i, n);
      if i > 1 then LinkAdded(s, SwitchName(i), SwitchName(i - 1), None, None, None, map[]).st else s
  }

  /** The state after addSwitch('s%s' % i) and the first j of its hosts. */
  ghost function LinearRound(st0: State, n: int, i: int, j: int): State
    decreases i, Rounds(j) + 1
  {
    if i < 1 then st0
    else if j < 1 then OkOr(SwitchAdded(LinearUpTo(st0, n, i - 1), SwitchName(i), map[]), LinearUpTo(st0, n, i - 1))
    else Attached(LinearRound(st0, n, i, j - 1), LinearName(n, i, j), SwitchName(i), None, None)
  }

  /** x is one of s1 .. si. */
  ghost predicate SomeSwitch(i: int, x: string) {
    exists a: nat :: 1 <= a <= i && x == SwitchName(a)
  }

  /** x is a host of the first i - 1 switches or one of the first j hosts of switch i. */
  ghost predicate EarlierHost(n: int, i: int, j: int, x: string) {
    exists a: nat, b: nat :: 1 <= a <= i && 1 <= b <= n && (a < i || b <= j) && x == LinearName(n, a, b)
  }

  /** The nodes after switch i and j of its hosts: switches s1 .. si and the hosts so far. */
  ghost predicate LinearNodes(hopts: Opts, n: int, i: nat, j: nat, node: map<string, Opts>) {
    (forall x :: x in node ==>
       (SomeSwitch(i, x) && SwitchAttrs(node[x])) || (EarlierHost(n, i, j, x) && node[x] == hopts))
    && (forall a: nat :: 1 <= a <= i ==> SwitchName(a) in node)
  }

  /** What the line has after switch i and j of its hosts, with the given number of links. */
  ghost predicate LinearShape(st0: State, n: int, i: nat, j: nat, hosts: nat, links: nat, st: State) {
    st.(g := st0.g, ports := st0.ports) == st0
    && Shared(st.g)
    && LinearNodes(st0.hopts, n, i, j, st.g.node)
    && st.ports.Keys <= st.g.node.Keys
    && |KindSet(st.g.node, true)| == i && |KindSet(st.g.node, false)| == hosts
    && |Edges(st.g)| == links
  }

  lemma LinearStart(st0: State, n: int)
    requires Blank(st0)
    ensures LinearShape(st0, n, 0, Rounds(n), 0, 0, st0)
  {
    assert KindSet(st0.g.node, true) == {} && KindSet(st0.g.node, false) == {};
    assert Edges(st0.g) == {};
  }

  lemma LiftSwitch(i: int, x: string)
    requires SomeSwitch(i - 1, x)
    ensures SomeSwitch(i, x)
  {
    var a: nat :| 1 <= a <= i - 1 && x == SwitchName(a);
  }

  lemma LiftHostToNextSwitch(n: int, i: int, x: string)
    requires EarlierHost(n, i - 1, Rounds(n), x)
    ensures EarlierHost(n, i, 0, x)
  {
    var a: nat, b: nat :| 1 <= a <= i - 1 && 1 <= b <= n && (a < i - 1 || b <= Rounds(n)) && x == LinearName(n, a, b);
  }

  lemma LiftHost(n: int, i: int, j: int, x: string)
    requires EarlierHost(n, i, j - 1, x)
    ensures EarlierHost(n, i, j, x)
  {
    var a: nat, b: nat :| 1 <= a <= i && 1 <= b <= n && (a < i || b <= j - 1) && x == LinearName(n, a, b);
  }

  /** No earlier node is named si. */
  lemma SwitchNameIsNew(n: int, i: nat, x: string)
    requires i >= 1
    requires SomeSwitch(i - 1, x) || EarlierHost(n, i - 1, Rounds(n), x)
    ensures x != SwitchName(i)
  {
    if SomeSwitch(i - 1, x) {
      var a: nat :| 1 <= a <= i - 1 && x == SwitchName(a);
      NameInjective(a, i);
    } else {
      var a: nat, b: nat :| 1 <= a <= i - 1 && 1 <= b <= n && x == LinearName(n, a, b);
      LinearNameInjective(n, a, b, i, 1);
    }
  }

  /** No earlier node is named like host j of switch i. */
  lemma HostNameIsNew(n: int, i: nat, j: nat, x: string)
    requires 1 <= j <= n
    requires SomeSwitch(i, x) || EarlierHost(n, i, j - 1, x)
    ensures x != LinearName(n, i, j)
  {
    if SomeSwitch(i, x) {
      var a: nat :| 1 <= a <= i && x == SwitchName(a);
      LinearNameInjective(n, i, j, a, 1);
    } else {
      var a: nat, b: nat :| 1 <= a <= i && 1 <= b <= n && (a < i || b <= j - 1) && x == LinearName(n, a, b);
      LinearNameInjective(n, a, b, i, j);
    }
  }

  /** The switch si is new, and joins the nodes. */
  lemma NodesAddSwitch(hopts: Opts, n: int, i: nat, node: map<string, Opts>, attrs: Opts)
    requires i >= 1 && LinearNodes(hopts, n, i - 1, Rounds(n), node) && SwitchAttrs(attrs)
    ensures SwitchName(i) !in node && LinearNodes(hopts, n, i, 0, node[SwitchName(i) := attrs])
  {
    var name := SwitchName(i);
    forall x | x in node ensures x != name {
      SwitchNameIsNew(n, i, x);
    }
    var node' := node[name := attrs];
    forall x | x in node'
      ensures (SomeSwitch(i, x) && SwitchAttrs(node'[x])) || (EarlierHost(n, i, 0, x) && node'[x] == hopts)
    {
      if x == name {
        assert SomeSwitch(i, x);
      } else if SomeSwitch(i - 1, x) && SwitchAttrs(node[x]) {
        LiftSwitch(i, x);
      } else {
        LiftHostToNextSwitch(n, i, x);
      }
    }
  }

  /** Host j of switch i is new, and joins the nodes. */
  lemma NodesAddHost(hopts: Opts, n: int, i: nat, j: nat, node: map<string, Opts>)
    requires i >= 1 && 1 <= j <= n && LinearNodes(hopts, n, i, j - 1, node)
    ensures LinearName(n, i, j) !in node && LinearNodes(hopts, n, i, j, node[LinearName(n, i, j) := hopts])
  {
    var name := LinearName(n, i, j);
    forall x | x in node ensures x != name {
      HostNameIsNew(n, i, j, x);
    }
    var node' := node[name := hopts];
    forall x | x in node'
      ensures (SomeSwitch(i, x) && SwitchAttrs(node'[x])) || (EarlierHost(n, i, j, x) && node'[x] == hopts)
    {
      if x == name {
        assert EarlierHost(n, i, j, x);
      } else if !(SomeSwitch(i, x) && SwitchAttrs(node[x])) {
        LiftHost(n, i, j, x);
      }
    }
  }

  /** addSwitch('s%s' % i) after i - 1 complete switches. */
  lemma LinearSwitchStep(st0: State, n: int, i: nat, hosts: nat, links: nat, prev: State)
    requires PlainDefaults(st0) && i >= 1 && LinearShape(st0, n, i - 1, Rounds(n), hosts, links, prev)
    ensures LinearShape(st0, n, i, 0, hosts, links, OkOr(SwitchAdded(prev, SwitchName(i), map[]), prev))
  {
    var name := SwitchName(i);
    var attrs := st0.sopts["isSwitch" := VBool(true)];
    SwitchedNew(prev, name);
    var st := prev.(g := WithNode(prev.g, name, attrs));
    assert Edges(st.g) == Edges(prev.g);
    LinearSwitchAdded(st0, n, i, hosts, links, prev, st);
  }

  /** A new switch node keeps the shape of the line, one switch more. */
  lemma LinearSwitchAdded(st0: State, n: int, i: nat, hosts: nat, links: nat, prev: State, st: State)
    requires PlainDefaults(st0) && i >= 1 && LinearShape(st0, n, i - 1, Rounds(n), hosts, links, prev)
    requires st.(g := prev.g) == prev
    requires st.g.node == prev.g.node[SwitchName(i) := st0.sopts["isSwitch" := VBool(true)]]
    requires Shared(st.g) && Edges(st.g) == Edges(prev.g)
    ensures LinearShape(st0, n, i, 0, hosts, links, st)
  {
    var attrs := st0.sopts["isSwitch" := VBool(true)];
    NodesAddSwitch(st0.hopts, n, i, prev.g.node, attrs);
    SwitchKindsAdd(prev.g.node, SwitchName(i), attrs);
  }

  /** A new switch node adds one switch and no host. */
  lemma SwitchKindsAdd(node: map<string, Opts>, name: string, attrs: Opts)
    requires name !in node && SwitchAttrs(attrs)
    ensures |KindSet(node[name := attrs], true)| == |KindSet(node, true)| + 1
    ensures |KindSet(node[name := attrs], false)| == |KindSet(node, false)|
  {
    KindSetAdd(node, name, attrs);
    assert KindSet(node[name := attrs], true) == KindSet(node, true) + {name};
  }

  /** A new host node adds one host and no switch. */
  lemma HostKindsAdd(node: map<string, Opts>, name: string, hopts: Opts)
    requires name !in node && !SwitchAttrs(hopts)
    ensures |KindSet(node[name := hopts], true)| == |KindSet(node, true)|
    ensures |KindSet(node[name := hopts], false)| == |KindSet(node, false)| + 1
  {
    KindSetAdd(node, name, hopts);
    assert KindSet(node[name := hopts], false) == KindSet(node, false) + {name};
  }

  /** A new host and one more link keep the shape of the line. */
  lemma LinearHostAdded(st0: State, n: int, i: nat, j: nat, hosts: nat, links: nat, prev: State, st: State)
    requires PlainDefaults(st0) && i >= 1 && 1 <= j <= n && LinearShape(st0, n, i, j - 1, hosts, links, prev)
    requires st.(g := prev.g, ports := prev.ports) == prev
    requires st.g.node == prev.g.node[LinearName(n, i, j) := prev.hopts]
    requires st.ports.Keys == prev.ports.Keys + {LinearName(n, i, j), SwitchName(i)}
    requires Shared(st.g) && |Edges(st.g)| == |Edges(prev.g)| + 1
    ensures LinearShape(st0, n, i, j, hosts + 1, links + 1, st)
  {
    NodesAddHost(st0.hopts, n, i, j, prev.g.node);
    HostKindsAdd(prev.g.node, LinearName(n, i, j), st0.hopts);
  }

  /** Host j of switch i and its link to the switch. */
  lemma LinearHostStep(st0: State, n: int, i: nat, j: nat, hosts: nat, links: nat, prev: State)
    requires PlainDefaults(st0) && i >= 1 && 1 <= j <= n && LinearShape(st0, n, i, j - 1, hosts, links, prev)
    ensures LinearShape(st0, n, i, j, hosts + 1, links + 1, Attached(prev, LinearName(n, i, j), SwitchName(i), None, None))
  {
    var name := LinearName(n, i, j);
    NodesAddHost(st0.hopts, n, i, j, prev.g.node);
    AttachedGraph(prev, name, SwitchName(i), None, None);
    LinearHostAdded(st0, n, i, j, hosts, links, prev, Attached(prev, name, SwitchName(i), None, None));
  }

  /** addLink(switch, lastSwitch). */
  lemma LinearLinkStep(st0: State, n: int, i: nat, hosts: nat, links: nat, prev: State)
    requires i >= 2 && LinearShape(st0, n, i, Rounds(n), hosts, links, prev)
    ensures LinearShape(st0, n, i, Rounds(n), hosts, links + 1,
                        LinkAdded(prev, SwitchName(i), SwitchName(i - 1), None, None, None, map[]).st)
  {
    var st := LinkAdded(prev, SwitchName(i), SwitchName(i - 1), None, None, None, map[]).st;
    LinkedNodes(prev, SwitchName(i), SwitchName(i - 1), None, None);
  }

  /** Hosts and links after i complete switches: i * n hosts, i * n + i - 1 links. */
  function LinearHosts(n: int, i: nat): nat { i * Rounds(n) }
  function LinearLinks(n: int, i: nat): nat { if i == 0 then 0 else i * Rounds(n) + i - 1 }

  lemma LinearCountsStep(n: int, i: nat)
    requires i >= 1
    ensures LinearHosts(n, i - 1) + Rounds(n) == LinearHosts(n, i)
    ensures LinearLinks(n, i - 1) + Rounds(n) + (if i > 1 then 1 else 0) == LinearLinks(n, i)
  {
  }

  /** Switch i and its first j hosts, on top of i - 1 complete switches. */
  lemma {:induction false} LinearRoundFacts(st0: State, n: int, i: nat, j: nat, hosts: nat, links: nat)
    requires PlainDefaults(st0) && i >= 1 && j <= Rounds(n)
    requires LinearShape(st0, n, i - 1, Rounds(n), hosts, links, LinearUpTo(st0, n, i - 1))
    ensures LinearShape(st0, n, i, j, hosts + j, links + j, LinearRound(st0, n, i, j))
    decreases j
  {
    if j == 0 {
      LinearSwitchStep(st0, n, i, hosts, links, LinearUpTo(st0, n, i - 1));
    } else {
      LinearRoundFacts(st0, n, i, j - 1, hosts, links);
      LinearHostStep(st0, n, i, j, hosts + j - 1, links + j - 1, LinearRound(st0, n, i, j - 1));
    }
  }

  lemma LinearRoundAll(st0: State, n: int, i: int)
    ensures LinearRound(st0, n, i, n) == LinearRound(st0, n, i, Rounds(n))
  {
  }

  lemma {:induction false} LinearFacts(st0: State, n: int, i: nat)
    requires Blank(st0) && PlainDefaults(st0)
    ensures LinearShape(st0, n, i, Rounds(n), LinearHosts(n, i), LinearLinks(n, i), LinearUpTo(st0, n, i))
    decreases i
  {
    if i == 0 {
      LinearStart(st0, n);
    } else {
      LinearFacts(st0, n, i - 1);
      var hosts := LinearHosts(n, i - 1);
      var links := LinearLinks(n, i - 1);
      LinearRoundFacts(st0, n, i, Rounds(n), hosts, links);
      LinearRoundAll(st0, n, i);
      LinearCountsStep(n, i);
      if i > 1 {
        LinearLinkStep(st0, n, i, hosts + Rounds(n), links + Rounds(n), LinearRound(st0, n, i, n));
      }
    }
  }

  /**
   * LinearTopo(k, n): k switches, k * n hosts, and k * n + k - 1 links
   * (n host links per switch and one link per pair of neighbouring switches).
   */
  lemma LinearTopoShape(st0: State, k: int, n: int)
    requires Blank(st0) && PlainDefaults(st0)
    ensures var st := LinearUpTo(st0, n, k);
      var switches := Rounds(k);
      |Switches(st.g)| == switches && |Hosts(st.g)| == switches * Rounds(n)
      && |Edges(st.g)| == (if switches == 0 then 0 else switches * Rounds(n) + switches - 1)
  {
    var st := LinearUpTo(st0, n, k);
    assert st == LinearUpTo(st0, n, Rounds(k));
    LinearFacts(st0, n, Rounds(k));
    KindCounts(st.g);
  }

  /** The rounds of the two loops, one call at a time. */
  lemma LinearSwitchNext(st0: State, n: int, i: int)
    requires i >= 1
    ensures LinearRound(st0, n, i, 0)
      == OkOr(SwitchAdded(LinearUpTo(st0, n, i - 1), SwitchName(i), map[]), LinearUpTo(st0, n, i - 1))
  {
  }

  lemma LinearHostNext(st0: State, n: int, i: int, j: int)
    requires i >= 1 && j >= 1
    ensures LinearRound(st0, n, i, j) == Attached(LinearRound(st0, n, i, j - 1), LinearName(n, i, j), SwitchName(i), None, None)
  {
  }

  lemma LinearLinkNext(st0: State, n: int, i: int)
    requires i >= 1
    ensures LinearUpTo(st0, n, i)
      == if i > 1 then LinkAdded(LinearRound(st0, n, i, n), SwitchName(i), SwitchName(i - 1), None, None, None, map[]).st
         else LinearRound(st0, n, i, n)
  {
  }

  /** One round of LinearTopo.build: switch i and its n hosts. */
  method LinearSwitch(t: Topo, ghost st0: State, n: int, i: int) returns (switch: string)
    requires i >= 1 && t.St() == LinearUpTo(st0, n, i - 1)
    modifies t, t.g
    ensures switch == SwitchName(i) && t.St() == LinearRound(st0, n, i, n)
  {
    LinearSwitchNext(st0, n, i);
    var added := t.AddSwitch(SwitchName(i), map[]);
    switch := SwitchName(i);
    var j := 1;
    while j <= n
      invariant 1 <= j <= if n < 1 then 1 else n + 1
      invariant t.St() == LinearRound(st0, n, i, j - 1)
    {
      LinearHostNext(st0, n, i, j);
      Attach(t, LinearName(n, i, j), switch, None, None);
      j := j + 1;
    }
    assert j - 1 == n || (n < 1 && j == 1);
    LinearRoundAll(st0, n, i);
  }

  /** LinearTopo.build(k, n) */
  method Linear(t: Topo, k: int, n: int)
    requires Blank(t.St()) && PlainDefaults(t.St())
    modifies t, t.g
    ensures t.St() == LinearUpTo(old(t.St()), n, k)
  {
    ghost var st0 := t.St();
    var lastSwitch: Option<string> := None;
    var i := 1;
    while i <= k
      invariant 1 <= i <= if k < 1 then 1 else k + 1
      invariant t.St() == LinearUpTo(st0, n, i - 1)
      invariant lastSwitch == if i == 1 then None else Some(SwitchName(i - 1))
    {
      var switch := LinearSwitch(t, st0, n, i);
      LinearLinkNext(st0, n, i);
      if lastSwitch.Some? {
        var key := t.AddLink(switch, lastSwitch.value, None, None, None, map[]);
      }
      lastSwitch := Some(switch);
      i := i + 1;
    }
    assert i - 1 == k || (k < 1 && i == 1);
  }
}
