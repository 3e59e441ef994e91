// The bookkeeping of the Mininet class in mininet/net.py: registering
// hosts, switches and controllers, the switch addresses of the routed
// control network, the ping and iperf output parsers, ping's loss
// accounting, iperf's argument checks and the built flag of build/start.
// Commands run on nodes are oracles: the text a ping leaves is a parameter.
module Net {
  import opened Wrappers
  import opened Text
  import Addr
  import Links
  import Shell

  // ------------------------------------------------------------- nodes

  datatype Kind = HostNode | SwitchNode | ControllerNode

  /** A node as the network records it: its name, its kind, for a switch
      the listenPort and datapath number it was created with, the default
      MAC and IP it was given, and uid, which stands for the object's
      identity (the network gives each node it creates a fresh one, so
      two recorded nodes are equal exactly when they are the same object). */
  datatype NetNode = NetNode(name: string, kind: Kind, listenPort: Option<int>, dp: Option<nat>,
                             mac: Option<string>, ip: Option<string>, uid: nat)

  /** listenPort after k switches: it moves on by one per switch while the
      switches share the root namespace and it is truthy (not None, not 0). */
  function PortAfter(inNamespace: bool, base: Option<int>, k: nat): Option<int> {
    if k == 0 then base else NextPort(inNamespace, PortAfter(inNamespace, base, k - 1))
  }

  /** addSwitch's update of listenPort. */
  function NextPort(inNamespace: bool, p: Option<int>): Option<int> {
    if !inNamespace && p.Some? && p.value != 0 then Some(p.value + 1) else p
  }

  /** A positive base port gives switch k the port base + k; in a
      namespace, or with no base port, every switch gets the base. */
  lemma {:induction false} PortAfterValue(inNamespace: bool, base: Option<int>, k: nat)
    ensures !inNamespace && base.Some? && base.value > 0 ==> PortAfter(inNamespace, base, k) == Some(base.value + k)
    ensures inNamespace || base.None? || base == Some(0) ==> PortAfter(inNamespace, base, k) == base
  {
    if k > 0 {
      PortAfterValue(inNamespace, base, k - 1);
    }
  }

  /** Switch i got dp i (none for user switches) and the listenPort that
      i earlier switches left. */
  predicate SwitchList(s: seq<NetNode>, userSwitch: bool, inNamespace: bool, base: Option<int>) {
    forall i :: 0 <= i < |s| ==>
      s[i].kind == SwitchNode
      && s[i].dp == (if userSwitch then None else Some(i))
      && s[i].listenPort == PortAfter(inNamespace, base, i)
  }

  lemma SwitchListSnoc(s: seq<NetNode>, userSwitch: bool, inNamespace: bool, base: Option<int>, sw: NetNode)
    requires SwitchList(s, userSwitch, inNamespace, base)
    requires sw.kind == SwitchNode && sw.dp == (if userSwitch then None else Some(|s|))
    requires sw.listenPort == PortAfter(inNamespace, base, |s|)
    ensures SwitchList(s + [sw], userSwitch, inNamespace, base)
  {
  }

  /** Nodes created in this order got strictly increasing uids, all below n. */
  predicate Created(s: seq<NetNode>, n: nat) {
    (forall i :: 0 <= i < |s| ==> s[i].uid < n)
    && forall i, j :: 0 <= i < j < |s| ==> s[i].uid < s[j].uid
  }

  lemma CreatedSnoc(s: seq<NetNode>, n: nat, x: NetNode)
    requires Created(s, n) && x.uid == n
    ensures Created(s + [x], n + 1)
  {
  }

  lemma CreatedLater(s: seq<NetNode>, n: nat, m: nat)
    requires Created(s, n) && n <= m
    ensures Created(s, m)
  {
  }

  /** Nodes created one after another are distinct objects. */
  lemma CreatedDistinct(s: seq<NetNode>, n: nat)
    requires Created(s, n)
    ensures forall i, j :: 0 <= i < j < |s| ==> s[i] != s[j]
  {
  }

  /** The invariant of a network's bookkeeping, on the values of its fields. */
  ghost predicate Inv(inNamespace: bool, userSwitch: bool, base: Option<int>, dps: nat, listenPort: Option<int>,
                      hosts: seq<NetNode>, switches: seq<NetNode>, controllers: seq<NetNode>,
                      names: map<string, NetNode>, uids: nat)
  {
    dps == |switches|
    && listenPort == PortAfter(inNamespace, base, |switches|)
    && SwitchList(switches, userSwitch, inNamespace, base)
    && (forall n :: n in names ==> names[n].name == n)
    && Created(hosts, uids) && Created(switches, uids) && Created(controllers, uids)
  }

  lemma InvHost(inNamespace: bool, userSwitch: bool, base: Option<int>, dps: nat, listenPort: Option<int>,
                hosts: seq<NetNode>, switches: seq<NetNode>, controllers: seq<NetNode>,
                names: map<string, NetNode>, uids: nat, h: NetNode)
    requires Inv(inNamespace, userSwitch, base, dps, listenPort, hosts, switches, controllers, names, uids)
    requires h.uid == uids
    ensures Inv(inNamespace, userSwitch, base, dps, listenPort, hosts + [h], switches, controllers, names[h.name := h], uids + 1)
  {
    CreatedSnoc(hosts, uids, h);
    CreatedLater(switches, uids, uids + 1);
    CreatedLater(controllers, uids, uids + 1);
  }

  lemma InvController(inNamespace: bool, userSwitch: bool, base: Option<int>, dps: nat, listenPort: Option<int>,
                      hosts: seq<NetNode>, switches: seq<NetNode>, controllers: seq<NetNode>,
                      names: map<string, NetNode>, uids: nat, c: NetNode)
    requires Inv(inNamespace, userSwitch, base, dps, listenPort, hosts, switches, controllers, names, uids)
    requires c.uid == uids
    ensures Inv(inNamespace, userSwitch, base, dps, listenPort, hosts, switches, controllers + [c], names[c.name := c], uids + 1)
  {
    CreatedSnoc(controllers, uids, c);
    CreatedLater(switches, uids, uids + 1);
    CreatedLater(hosts, uids, uids + 1);
  }

  lemma InvSwitch(inNamespace: bool, userSwitch: bool, base: Option<int>, dps: nat, listenPort: Option<int>,
                  hosts: seq<NetNode>, switches: seq<NetNode>, controllers: seq<NetNode>,
                  names: map<string, NetNode>, uids: nat, sw: NetNode)
    requires Inv(inNamespace, userSwitch, base, dps, listenPort, hosts, switches, controllers, names, uids)
    requires sw.uid == uids && sw.kind == SwitchNode && sw.listenPort == listenPort
    requires sw.dp == if userSwitch then None else Some(dps)
    ensures Inv(inNamespace, userSwitch, base, dps + 1, NextPort(inNamespace, listenPort),
                hosts, switches + [sw], controllers, names[sw.name := sw], uids + 1)
  {
    SwitchListSnoc(switches, userSwitch, inNamespace, base, sw);
    CreatedSnoc(switches, uids, sw);
    CreatedLater(hosts, uids, uids + 1);
    CreatedLater(controllers, uids, uids + 1);
  }

  // --------------------------------------------------------- topologies

  /** What buildFromTopo asks of the topology object: its host ids, switch
      ids and edges, and the name, IP and port pair it gives them. */
  datatype TopoView = TopoView(hosts: seq<int>, switches: seq<int>, edges: seq<(int, int)>,
                               name: int -> string, ip: int -> string, port: (int, int) -> (int, int))

  /** The link buildFromTopo makes for an edge: both end nodes and the two ports. */
  datatype LinkMade = LinkMade(src: NetNode, dst: NetNode, srcPort: int, dstPort: int)

  /** The MAC addNode evidently means to give a topology node:
      macColonHex(nodeId) exactly when autoSetMacs is set.  The Mininet
      class below follows the program instead (NodeMacAsWritten). */
  function NodeMac(setMacs: bool, id: int): (r: Option<string>)
    ensures r.Some? <==> setMacs
    ensures r.Some? ==> r.value == Addr.MacColonHex(id)
  {
    if setMacs then Some(Addr.MacColonHex(id)) else None
  }

  /** addNode as written tests self.setMacs, the bound method, which is
      always true: every node gets macColonHex(nodeId). */
  function NodeMacAsWritten(id: int): (r: Option<string>)
    ensures r.Some?
  {
    Some(Addr.MacColonHex(id))
  }

  /** With autoSetMacs off, the nodes still get MACs from their ids. */
  lemma SetMacsAlwaysOn(id: int)
    ensures NodeMacAsWritten(id) != NodeMac(false, id)
    ensures NodeMacAsWritten(id) == NodeMac(true, id)
  {
  }

  /** The host addNode('h', addHost, id) creates with uid u, with the MAC
      the program gives it whatever autoSetMacs says. */
  function TopoHost(tv: TopoView, id: int, u: nat): (n: NetNode)
    ensures n.kind == HostNode && n.name == "h" + tv.name(id) && n.uid == u
  {
    NetNode("h" + tv.name(id), HostNode, None, None, NodeMacAsWritten(id), Some(tv.ip(id)), u)
  }

  /** The hosts created for ids, uids from base on. */
  predicate TopoHostList(s: seq<NetNode>, tv: TopoView, ids: seq<int>, base: nat) {
    |s| == |ids| && forall i :: 0 <= i < |s| ==> s[i] == TopoHost(tv, ids[i], base + i)
  }

  /** One more id: the prefix, the id map and the name map each grow by the new node. */
  lemma NodeStep(ids: seq<int>, i: nat, added: seq<NetNode>, d: map<int, NetNode>, names: map<string, NetNode>, node: NetNode)
    requires i < |ids| && |added| == i
    ensures ids[..i + 1] == ids[..i] + [ids[i]]
    ensures Assigned(d, ids[..i + 1], added + [node]) == Assigned(d, ids[..i], added)[ids[i] := node]
    ensures Named(names, added + [node]) == Named(names, added)[node.name := node]
  {
    assert ids[..i + 1] == ids[..i] + [ids[i]];
    AssignedSnoc(d, ids[..i], added, ids[i], node);
    NamedSnoc(names, added, node);
  }

  /** The switch addNode('s', addSwitch, id) creates with uid u: named
      "s" + name(id), with the MAC the program gives it and the id's IP (its dp and listenPort are
      SwitchList's). */
  predicate TopoSwitch(n: NetNode, tv: TopoView, id: int, u: nat) {
    n.name == "s" + tv.name(id) && n.mac == NodeMacAsWritten(id) && n.ip == Some(tv.ip(id)) && n.uid == u
  }

  /** The switches created for ids, uids from base on. */
  predicate TopoSwitches(s: seq<NetNode>, tv: TopoView, ids: seq<int>, base: nat) {
    |s| == |ids| && forall i :: 0 <= i < |s| ==> TopoSwitch(s[i], tv, ids[i], base + i)
  }

  lemma TopoListsSnoc(tv: TopoView, ids: seq<int>, i: nat, base: nat, added: seq<NetNode>, node: NetNode)
    requires i < |ids|
    ensures TopoHostList(added, tv, ids[..i], base) && node == TopoHost(tv, ids[i], base + i)
            ==> TopoHostList(added + [node], tv, ids[..i + 1], base)
    ensures TopoSwitches(added, tv, ids[..i], base) && TopoSwitch(node, tv, ids[i], base + i)
            ==> TopoSwitches(added + [node], tv, ids[..i + 1], base)
  {
    assert ids[..i + 1] == ids[..i] + [ids[i]];
  }

  /** d[ids[i]] = nodes[i] for each i in turn: a later id overwrites an earlier one. */
  function Assigned(d: map<int, NetNode>, ids: seq<int>, nodes: seq<NetNode>): map<int, NetNode>
    requires |ids| == |nodes|
  {
    if ids == [] then d
    else Assigned(d, ids[..|ids| - 1], nodes[..|nodes| - 1])[ids[|ids| - 1] := nodes[|nodes| - 1]]
  }

  /** An id that is not assigned keeps its entry, or its absence. */
  lemma {:induction false} AssignedKeeps(d: map<int, NetNode>, ids: seq<int>, nodes: seq<NetNode>, k: int)
    requires |ids| == |nodes| && k !in ids
    ensures k in Assigned(d, ids, nodes) <==> k in d
    ensures k in d ==> Assigned(d, ids, nodes)[k] == d[k]
  {
    if ids != [] {
      var n := |ids| - 1;
      assert ids == ids[..n] + [ids[n]];
      AssignedKeeps(d, ids[..n], nodes[..n], k);
    }
  }

  /** An assigned id holds the node of its last occurrence. */
  lemma {:induction false} AssignedLast(d: map<int, NetNode>, ids: seq<int>, nodes: seq<NetNode>, i: int)
    requires |ids| == |nodes| && 0 <= i < |ids|
    requires forall j :: i < j < |ids| ==> ids[j] != ids[i]
    ensures ids[i] in Assigned(d, ids, nodes) && Assigned(d, ids, nodes)[ids[i]] == nodes[i]
  {
    var n := |ids| - 1;
    if i < n {
      assert forall j :: 0 <= j < n ==> ids[..n][j] == ids[j];
      AssignedLast(d, ids[..n], nodes[..n], i);
      assert nodes[..n][i] == nodes[i];
    }
  }

  /** The position of k's last occurrence in ids. */
  function LastIndex(ids: seq<int>, k: int): (i: nat)
    requires k in ids
    ensures i < |ids| && ids[i] == k && forall j :: i < j < |ids| ==> ids[j] != k
  {
    var n := |ids| - 1;
    if ids[n] == k then n
    else
      assert ids == ids[..n] + [ids[n]];
      LastIndex(ids[..n], k)
  }

  lemma AssignedSnoc(d: map<int, NetNode>, ids: seq<int>, nodes: seq<NetNode>, id: int, node: NetNode)
    requires |ids| == |nodes|
    ensures Assigned(d, ids + [id], nodes + [node]) == Assigned(d, ids, nodes)[id := node]
  {
    assert (ids + [id])[..|ids|] == ids;
    assert (nodes + [node])[..|nodes|] == nodes;
  }

  /** nameToNode[node.name] = node for each node in turn. */
  function Named(d: map<string, NetNode>, nodes: seq<NetNode>): map<string, NetNode> {
    if nodes == [] then d
    else Named(d, nodes[..|nodes| - 1])[nodes[|nodes| - 1].name := nodes[|nodes| - 1]]
  }

  lemma NamedSnoc(d: map<string, NetNode>, nodes: seq<NetNode>, node: NetNode)
    ensures Named(d, nodes + [node]) == Named(d, nodes)[node.name := node]
  {
    assert (nodes + [node])[..|nodes|] == nodes;
  }

  lemma {:induction false} NamedKeepsNames(d: map<string, NetNode>, nodes: seq<NetNode>)
    requires forall n :: n in d ==> d[n].name == n
    ensures forall n :: n in Named(d, nodes) ==> Named(d, nodes)[n].name == n
  {
    if nodes != [] {
      NamedKeepsNames(d, nodes[..|nodes| - 1]);
    }
  }

  /** Sorting keeps the members. */
  lemma SortMembers<T>(xs: seq<T>, le: (T, T) -> bool, k: T)
    ensures k in Sort(xs, le) <==> k in xs
  {
    assert k in multiset(Sort(xs, le)) <==> k in multiset(xs);
  }

  /** The switch layer of idToNode: a switch id goes to the switch made
      for it; any other id keeps what the host layer gave it. */
  lemma SwitchIdsResolve(tv: TopoView, d: map<int, NetNode>, ids: seq<int>, ss: seq<NetNode>, sb: nat, k: int)
    requires TopoSwitches(ss, tv, ids, sb)
    ensures var m := Assigned(d, ids, ss);
      && (k in ids ==>
            (k in m && m[k].name == "s" + tv.name(k) && m[k].mac == NodeMacAsWritten(k) && m[k].ip == Some(tv.ip(k))))
      && (k !in ids ==> (k in m <==> k in d) && (k in d ==> m[k] == d[k]))
  {
    if k in ids {
      var i := LastIndex(ids, k);
      AssignedLast(d, ids, ss, i);
      assert TopoSwitch(ss[i], tv, ids[i], sb + i);
    } else {
      AssignedKeeps(d, ids, ss, k);
    }
  }

  /** The host layer of idToNode: a host id goes to the host made for it;
      any other id keeps its entry. */
  lemma HostIdsResolve(tv: TopoView, d: map<int, NetNode>, ids: seq<int>, hs: seq<NetNode>, hb: nat, k: int)
    requires TopoHostList(hs, tv, ids, hb)
    ensures var m := Assigned(d, ids, hs);
      && (k in ids ==>
            (k in m && m[k].kind == HostNode && m[k].name == "h" + tv.name(k)
             && m[k].mac == NodeMacAsWritten(k) && m[k].ip == Some(tv.ip(k))))
      && (k !in ids ==> (k in m <==> k in d) && (k in d ==> m[k] == d[k]))
  {
    if k in ids {
      var i := LastIndex(ids, k);
      AssignedLast(d, ids, hs, i);
      assert hs[i] == TopoHost(tv, ids[i], hb + i);
    } else {
      AssignedKeeps(d, ids, hs, k);
    }
  }

  /** After buildFromTopo, idToNode sends a switch id to the switch made for
      it, a host id that is not also a switch id to the host made for it,
      and leaves every other id as it was. */
  lemma TopoIdsResolve(tv: TopoView, d: map<int, NetNode>, hs: seq<NetNode>, hb: nat,
                       ss: seq<NetNode>, sb: nat, k: int)
    requires TopoHostList(hs, tv, Sort(tv.hosts, IntLe), hb)
    requires TopoSwitches(ss, tv, Sort(tv.switches, IntLe), sb)
    ensures var m := Assigned(Assigned(d, Sort(tv.hosts, IntLe), hs), Sort(tv.switches, IntLe), ss);
      && (k in tv.switches ==>
            (k in m && m[k].name == "s" + tv.name(k) && m[k].mac == NodeMacAsWritten(k) && m[k].ip == Some(tv.ip(k))))
      && (k !in tv.switches && k in tv.hosts ==>
            (k in m && m[k].kind == HostNode && m[k].name == "h" + tv.name(k)
             && m[k].mac == NodeMacAsWritten(k) && m[k].ip == Some(tv.ip(k))))
      && (k !in tv.switches && k !in tv.hosts ==> (k in m <==> k in d) && (k in d ==> m[k] == d[k]))
  {
    SortMembers(tv.hosts, IntLe, k);
    SortMembers(tv.switches, IntLe, k);
    HostIdsResolve(tv, d, Sort(tv.hosts, IntLe), hs, hb, k);
    SwitchIdsResolve(tv, Assigned(d, Sort(tv.hosts, IntLe), hs), Sort(tv.switches, IntLe), ss, sb, k);
  }

  /** The links of the edges in turn; an end with no node is idToNode's KeyError. */
  function LinkPlan(edges: seq<(int, int)>, d: map<int, NetNode>, port: (int, int) -> (int, int)): (r: Result<seq<LinkMade>, Exc>)
  {
    if edges == [] then Ok([])
    else
      var e := edges[0];
      if e.0 !in d then Err(KeyError(IntToDec(e.0)))
      else if e.1 !in d then Err(KeyError(IntToDec(e.1)))
      else match LinkPlan(edges[1..], d, port)
        case Err(x) => Err(x)
        case Ok(rest) => Ok([LinkMade(d[e.0], d[e.1], port(e.0, e.1).0, port(e.0, e.1).1)] + rest)
  }

  /** Every edge is linked, in order, exactly when both ends of every edge have a node. */
  lemma {:induction false} LinkPlanSpec(edges: seq<(int, int)>, d: map<int, NetNode>, port: (int, int) -> (int, int))
    ensures LinkPlan(edges, d, port).Ok? <==> forall i :: 0 <= i < |edges| ==> edges[i].0 in d && edges[i].1 in d
    ensures LinkPlan(edges, d, port).Ok? ==> var r := LinkPlan(edges, d, port).value;
      |r| == |edges| && forall i :: 0 <= i < |edges| ==>
        r[i] == LinkMade(d[edges[i].0], d[edges[i].1], port(edges[i].0, edges[i].1).0, port(edges[i].0, edges[i].1).1)
  {
    if edges != [] {
      LinkPlanSpec(edges[1..], d, port);
      assert forall i :: 1 <= i < |edges| ==> edges[i] == edges[1..][i - 1];
    }
  }

  // ------------------------------------------------------------ sorted()

  /** Python's ordering of ints, and of pairs of ints element by element. */
  predicate IntLe(a: int, b: int) { a <= b }
  predicate PairLe(a: (int, int), b: (int, int)) { a.0 < b.0 || (a.0 == b.0 && a.1 <= b.1) }

  ghost predicate TotalPreorder<T(!new)>(le: (T, T) -> bool) {
    (forall a, b :: le(a, b) || le(b, a))
    && forall a, b, c :: le(a, b) && le(b, c) ==> le(a, c)
  }

  lemma Orders()
    ensures TotalPreorder(IntLe) && TotalPreorder(PairLe)
  {
  }

  predicate SortedLe<T>(s: seq<T>, le: (T, T) -> bool) {
    forall i, j :: 0 <= i < j < |s| ==> le(s[i], s[j])
  }

  function Insert<T>(x: T, s: seq<T>, le: (T, T) -> bool): (r: seq<T>)
    ensures multiset(r) == multiset(s) + multiset{x}
  {
    if s == [] then [x]
    else if le(x, s[0]) then [x] + s
    else
      assert s == [s[0]] + s[1..];
      [s[0]] + Insert(x, s[1..], le)
  }

  /** sorted(): insertion sort, which keeps the list's elements. */
  function Sort<T>(s: seq<T>, le: (T, T) -> bool): (r: seq<T>)
    ensures multiset(r) == multiset(s)
  {
    if s == [] then []
    else
      assert s == [s[0]] + s[1..];
      Insert(s[0], Sort(s[1..], le), le)
  }

  lemma {:induction false} InsertSorted<T(!new)>(x: T, s: seq<T>, le: (T, T) -> bool)
    requires TotalPreorder(le) && SortedLe(s, le)
    ensures SortedLe(Insert(x, s, le), le)
  {
    if s != [] {
      if le(x, s[0]) {
        var r := [x] + s;
        forall i, j | 0 <= i < j < |r| ensures le(r[i], r[j]) {
          if i == 0 && j > 1 {
            assert le(s[0], s[j - 1]);
          }
        }
      } else {
        var t := s[1..];
        assert SortedLe(t, le);
        InsertSorted(x, t, le);
        var u := Insert(x, t, le);
        var r := [s[0]] + u;
        forall i, j | 0 <= i < j < |r| ensures le(r[i], r[j]) {
          if i == 0 {
            var y := r[j];
            assert y in multiset(u);
            assert y == x || y in multiset(t);
            if y != x {
              var k :| 0 <= k < |t| && t[k] == y;
              assert le(s[0], s[k + 1]);
            }
          } else {
            assert r[i] == u[i - 1] && r[j] == u[j - 1];
          }
        }
      }
    }
  }

  /** sorted() gives a permutation in ascending order. */
  lemma {:induction false} SortSorted<T(!new)>(s: seq<T>, le: (T, T) -> bool)
    requires TotalPreorder(le)
    ensures SortedLe(Sort(s, le), le) && multiset(Sort(s, le)) == multiset(s)
  {
    if s != [] {
      SortSorted(s[1..], le);
      InsertSorted(s[0], Sort(s[1..], le), le);
    }
  }

  class Mininet {
    const inNamespace: bool
    /** self.switch == UserSwitch: such switches get no dp argument. */
    const userSwitch: bool
    const topo: Option<TopoView>
    /** Stored only: buildFromTopo tests the bound method self.setMacs instead. */
    const autoSetMacs: bool
    /** The listenPort the network was created with. */
    ghost const basePort: Option<int>

    var hosts: seq<NetNode>
    var switches: seq<NetNode>
    var controllers: seq<NetNode>
    var nameToNode: map<string, NetNode>
    var idToNode: map<int, NetNode>
    var dps: nat
    var listenPort: Option<int>
    var built: bool
    /** How many nodes the network has created: the next node's uid. */
    var uids: nat
    /** How many times build() has succeeded. */
    ghost var builds: nat

    /** dps counts the switches; switch i got dp i (none for a user switch)
        and the listenPort current when it was added; names map to a node
        of that name; each list holds fresh nodes in creation order. */
    ghost predicate Valid()
      reads this
    {
      Inv(inNamespace, userSwitch, basePort, dps, listenPort, hosts, switches, controllers, nameToNode, uids)
    }

    /** Mininet(topo, ..., inNamespace, autoSetMacs, listenPort) up to
        build: empty lists, no datapaths, not built. */
    constructor (topo: Option<TopoView>, userSwitch: bool, inNamespace: bool, autoSetMacs: bool, listenPort: Option<int>)
      ensures Valid()
      ensures this.topo == topo && this.userSwitch == userSwitch && this.inNamespace == inNamespace
      ensures this.autoSetMacs == autoSetMacs
      ensures hosts == [] && switches == [] && controllers == [] && nameToNode == map[] && idToNode == map[]
      ensures dps == 0 && this.listenPort == listenPort && basePort == listenPort && uids == 0
      ensures !built && builds == 0
    {
      this.topo := topo;
      this.userSwitch := userSwitch;
      this.inNamespace := inNamespace;
      this.autoSetMacs := autoSetMacs;
      this.listenPort := listenPort;
      basePort := listenPort;
      hosts, switches, controllers := [], [], [];
      nameToNode := map[];
      idToNode := map[];
      dps := 0;
      uids := 0;
      built := false;
      builds := 0;
    }

    /** addHost: the host is appended and its name mapped to it. */
    method AddHost(name: string, mac: Option<string>, ip: Option<string>) returns (h: NetNode)
      requires Valid()
      modifies this
      ensures Valid()
      ensures h == NetNode(name, HostNode, None, None, mac, ip, old(uids)) && uids == old(uids) + 1
      ensures hosts == old(hosts) + [h] && nameToNode == old(nameToNode)[name := h]
      ensures switches == old(switches) && controllers == old(controllers) && idToNode == old(idToNode)
      ensures dps == old(dps) && listenPort == old(listenPort) && built == old(built) && builds == old(builds)
    {
      h := NetNode(name, HostNode, None, None, mac, ip, uids);
      InvHost(inNamespace, userSwitch, basePort, dps, listenPort, hosts, switches, controllers, nameToNode, uids, h);
      uids, hosts, nameToNode := uids + 1, hosts + [h], nameToNode[name := h];
    }

    /** addSwitch: the switch gets the current listenPort and, unless it is
        a user switch, dp = dps; listenPort moves on only outside a
        namespace and when set; dps always counts up. */
    method AddSwitch(name: string, mac: Option<string>, ip: Option<string>) returns (sw: NetNode)
      requires Valid()
      modifies this
      ensures Valid()
      ensures sw == NetNode(name, SwitchNode, old(listenPort), if userSwitch then None else Some(old(dps)), mac, ip, old(uids))
      ensures uids == old(uids) + 1
      ensures switches == old(switches) + [sw] && nameToNode == old(nameToNode)[name := sw]
      ensures dps == old(dps) + 1
      ensures listenPort == (if !inNamespace && old(listenPort).Some? && old(listenPort).value != 0
                             then Some(old(listenPort).value + 1) else old(listenPort))
      ensures hosts == old(hosts) && controllers == old(controllers) && idToNode == old(idToNode)
      ensures built == old(built) && builds == old(builds)
    {
      sw := NetNode(name, SwitchNode, listenPort, if userSwitch then None else Some(dps), mac, ip, uids);
      InvSwitch(inNamespace, userSwitch, basePort, dps, listenPort, hosts, switches, controllers, nameToNode, uids, sw);
      var port := listenPort;
      if !inNamespace && port.Some? && port.value != 0 {
        port := Some(port.value + 1);
      }
      assert port == NextPort(inNamespace, listenPort);
      dps, uids, switches, nameToNode, listenPort := dps + 1, uids + 1, switches + [sw], nameToNode[name := sw], port;
    }

    /** addController: `made` says whether the controller class returned a
        truthy object; a falsy one registers nothing. */
    method AddController(name: string, made: bool) returns (c: Option<NetNode>)
      requires Valid()
      modifies this
      ensures Valid()
      ensures c == (if made then Some(NetNode(name, ControllerNode, None, None, None, None, old(uids))) else None)
      ensures uids == old(uids) + (if made then 1 else 0)
      ensures made ==> controllers == old(controllers) + [c.value] && nameToNode == old(nameToNode)[name := c.value]
      ensures !made ==> controllers == old(controllers) && nameToNode == old(nameToNode)
      ensures hosts == old(hosts) && switches == old(switches) && idToNode == old(idToNode)
      ensures dps == old(dps) && listenPort == old(listenPort) && built == old(built) && builds == old(builds)
    {
      if made {
        var n := NetNode(name, ControllerNode, None, None, None, None, uids);
        InvController(inNamespace, userSwitch, basePort, dps, listenPort, hosts, switches, controllers, nameToNode, uids, n);
        uids, controllers, nameToNode := uids + 1, controllers + [n], nameToNode[name := n];
        c := Some(n);
      } else {
        c := None;
      }
    }

    /** The switch addresses of configureRoutedControlNetwork, as numbers:
        controllers[0] must exist, ip must parse, and each switch takes the
        next number, skipping last octets 0 and 255. */
    method ControlNumbers(ip: string) returns (r: Result<seq<int>, Exc>)
      ensures controllers == [] ==> r == Err(IndexError)
      ensures controllers != [] ==> r == ControlPlan(ip, |switches|)
    {
      if controllers == [] {
        return Err(IndexError);
      }
      var p := Addr.IpParse(ip);
      if p.Err? {
        return Err(p.error);
      }
      var snum := p.value;
      var nums: seq<int> := [];
      var i := 0;
      while i < |switches|
        invariant 0 <= i <= |switches|
        invariant nums == SwitchNums(p.value, i)
        invariant snum == Last(p.value, nums)
      {
        snum := snum + 1;
        while snum % 256 == 0 || snum % 256 == 255
          invariant snum > Last(p.value, nums)
          invariant NextNum(Last(p.value, nums)) == NextNum(snum - 1)
          decreases if snum % 256 == 255 then 2 else if snum % 256 == 0 then 1 else 0
        {
          snum := snum + 1;
        }
        nums := nums + [snum];
        i := i + 1;
      }
      r := Ok(nums);
    }

    /** addNode('h', addHost, id): the host for id, by name "h" + name(id),
        recorded under its id in idToNode. */
    method AddTopoHost(tv: TopoView, id: int) returns (node: NetNode)
      requires Valid()
      modifies this
      ensures Valid()
      ensures node == TopoHost(tv, id, old(uids)) && uids == old(uids) + 1
      ensures hosts == old(hosts) + [node] && nameToNode == old(nameToNode)[node.name := node]
      ensures idToNode == old(idToNode)[id := node]
      ensures switches == old(switches) && controllers == old(controllers)
      ensures dps == old(dps) && listenPort == old(listenPort) && built == old(built) && builds == old(builds)
    {
      node := AddHost("h" + tv.name(id), NodeMacAsWritten(id), Some(tv.ip(id)));
      idToNode := idToNode[id := node];
    }

    /** The hosts of buildFromTopo: addNode('h', addHost, id) for each id in turn. */
    method AddTopoHosts(tv: TopoView, ids: seq<int>)
      requires Valid()
      modifies this
      ensures Valid()
      ensures |hosts| == |old(hosts)| + |ids| && hosts[..|old(hosts)|] == old(hosts)
      ensures TopoHostList(hosts[|old(hosts)|..], tv, ids, old(uids)) && uids == old(uids) + |ids|
      ensures idToNode == Assigned(old(idToNode), ids, hosts[|old(hosts)|..])
      ensures nameToNode == Named(old(nameToNode), hosts[|old(hosts)|..])
      ensures switches == old(switches) && controllers == old(controllers)
      ensures dps == old(dps) && listenPort == old(listenPort) && built == old(built) && builds == old(builds)
    {
      ghost var added: seq<NetNode> := [];
      for i := 0 to |ids|
        invariant Valid() && uids == old(uids) + i
        invariant hosts == old(hosts) + added
        invariant TopoHostList(added, tv, ids[..i], old(uids))
        invariant idToNode == Assigned(old(idToNode), ids[..i], added)
        invariant nameToNode == Named(old(nameToNode), added)
        invariant switches == old(switches) && controllers == old(controllers)
        invariant dps == old(dps) && listenPort == old(listenPort) && built == old(built) && builds == old(builds)
      {
        var node := AddTopoHost(tv, ids[i]);
        NodeStep(ids, i, added, old(idToNode), old(nameToNode), node);
        TopoListsSnoc(tv, ids, i, old(uids), added, node);
        added := added + [node];
      }
      assert ids[..|ids|] == ids;
      assert hosts[|old(hosts)|..] == added;
    }

    /** addNode('s', addSwitch, id): the switch for id, by name "s" + name(id),
        recorded under its id in idToNode. */
    method AddTopoSwitch(tv: TopoView, id: int) returns (node: NetNode)
      requires Valid()
      modifies this
      ensures Valid()
      ensures TopoSwitch(node, tv, id, old(uids)) && uids == old(uids) + 1
      ensures switches == old(switches) + [node] && nameToNode == old(nameToNode)[node.name := node]
      ensures idToNode == old(idToNode)[id := node]
      ensures hosts == old(hosts) && controllers == old(controllers) && built == old(built) && builds == old(builds)
    {
      node := AddSwitch("s" + tv.name(id), NodeMacAsWritten(id), Some(tv.ip(id)));
      idToNode := idToNode[id := node];
    }

    /** The switches of buildFromTopo: addNode('s', addSwitch, id) for each id in turn. */
    method AddTopoSwitches(tv: TopoView, ids: seq<int>)
      requires Valid()
      modifies this
      ensures Valid()
      ensures |switches| == |old(switches)| + |ids| && switches[..|old(switches)|] == old(switches)
      ensures TopoSwitches(switches[|old(switches)|..], tv, ids, old(uids)) && uids == old(uids) + |ids|
      ensures idToNode == Assigned(old(idToNode), ids, switches[|old(switches)|..])
      ensures nameToNode == Named(old(nameToNode), switches[|old(switches)|..])
      ensures hosts == old(hosts) && controllers == old(controllers) && built == old(built) && builds == old(builds)
    {
      ghost var added: seq<NetNode> := [];
      for i := 0 to |ids|
        invariant Valid() && uids == old(uids) + i
        invariant switches == old(switches) + added
        invariant TopoSwitches(added, tv, ids[..i], old(uids))
        invariant idToNode == Assigned(old(idToNode), ids[..i], added)
        invariant nameToNode == Named(old(nameToNode), added)
        invariant hosts == old(hosts) && controllers == old(controllers) && built == old(built) && builds == old(builds)
      {
        var node := AddTopoSwitch(tv, ids[i]);
        NodeStep(ids, i, added, old(idToNode), old(nameToNode), node);
        TopoListsSnoc(tv, ids, i, old(uids), added, node);
        added := added + [node];
      }
      assert ids[..|ids|] == ids;
      assert switches[|old(switches)|..] == added;
    }

    /** The link loop of buildFromTopo over the sorted edges. */
    method LinkTopo(tv: TopoView, edges: seq<(int, int)>) returns (r: Result<seq<LinkMade>, Exc>)
      ensures r == LinkPlan(edges, idToNode, tv.port)
    {
      var made: seq<LinkMade> := [];
      assert edges[0..] == edges;
      match LinkPlan(edges, idToNode, tv.port) {
        case Ok(all) => assert [] + all == all;
        case Err(_) =>
      }
      for i := 0 to |edges|
        invariant LinkPlan(edges[i..], idToNode, tv.port).Ok? ==>
          LinkPlan(edges, idToNode, tv.port) == Ok(made + LinkPlan(edges[i..], idToNode, tv.port).value)
        invariant LinkPlan(edges[i..], idToNode, tv.port).Err? ==>
          LinkPlan(edges, idToNode, tv.port) == LinkPlan(edges[i..], idToNode, tv.port)
      {
        var e := edges[i];
        assert edges[i..][0] == e && edges[i..][1..] == edges[i + 1..];
        if e.0 !in idToNode {
          return Err(KeyError(IntToDec(e.0)));
        }
        if e.1 !in idToNode {
          return Err(KeyError(IntToDec(e.1)));
        }
        var src, dst := idToNode[e.0], idToNode[e.1];
        var ports := tv.port(e.0, e.1);
        var link := LinkMade(src, dst, ports.0, ports.1);
        match LinkPlan(edges[i + 1..], idToNode, tv.port) {
          case Ok(rest) =>
            assert LinkPlan(edges[i..], idToNode, tv.port) == Ok([link] + rest);
            assert made + ([link] + rest) == (made + [link]) + rest;
          case Err(_) =>
        }
        made := made + [link];
      }
      assert edges[|edges|..] == [] && made + [] == made;
      r := Ok(made);
    }

    /** What buildFromTopo(tv) leaves: c0 added when the controller class
        gives one, then the sorted host ids and the sorted switch ids
        added as nodes, each id mapped to its node and each name to its
        node, later ones overwriting earlier ones. */
    twostate predicate BuiltFrom(tv: TopoView, made: bool)
      reads this
    {
      var c := if made then 1 else 0;
      var ctl := if made then [NetNode("c0", ControllerNode, None, None, None, None, old(uids))] else [];
      && controllers == old(controllers) + ctl
      && |hosts| == |old(hosts)| + |tv.hosts| && hosts[..|old(hosts)|] == old(hosts)
      && |switches| == |old(switches)| + |tv.switches| && switches[..|old(switches)|] == old(switches)
      && uids == old(uids) + c + |tv.hosts| + |tv.switches|
      && var hs, ss := hosts[|old(hosts)|..], switches[|old(switches)|..];
      TopoHostList(hs, tv, Sort(tv.hosts, IntLe), old(uids) + c)
      && TopoSwitches(ss, tv, Sort(tv.switches, IntLe), old(uids) + c + |tv.hosts|)
      && idToNode == Assigned(Assigned(old(idToNode), Sort(tv.hosts, IntLe), hs), Sort(tv.switches, IntLe), ss)
      && nameToNode == Named(Named(Named(old(nameToNode), ctl), hs), ss)
    }

    /** buildFromTopo; `made` is whether the controller class gave c0.
        createLink runs on the nodes; the links come back, or the
        KeyError of an edge end with no node. */
    method BuildFromTopo(tv: TopoView, made: bool) returns (r: Result<seq<LinkMade>, Exc>)
      requires Valid()
      modifies this
      ensures Valid() && BuiltFrom(tv, made)
      ensures r == LinkPlan(Sort(tv.edges, PairLe), idToNode, tv.port)
      ensures built == old(built) && builds == old(builds)
    {
      var c := AddController("c0", made);
      ghost var ctl := if made then [NetNode("c0", ControllerNode, None, None, None, None, old(uids))] else [];
      ghost var c1, n1, u1, h1, d1 := controllers, nameToNode, uids, hosts, idToNode;
      assert c1 == old(controllers) + ctl;
      assert n1 == Named(old(nameToNode), ctl) by {
        if made { NamedSnoc(old(nameToNode), [], c.value); }
      }
      var hostIds := Sort(tv.hosts, IntLe);
      AddTopoHosts(tv, hostIds);
      ghost var hs, n2, u2, s2, d2 := hosts[|h1|..], nameToNode, uids, switches, idToNode;
      var switchIds := Sort(tv.switches, IntLe);
      AddTopoSwitches(tv, switchIds);
      ghost var ss := switches[|s2|..];
      assert |hostIds| == |tv.hosts| && |switchIds| == |tv.switches| by {
        assert |multiset(hostIds)| == |multiset(tv.hosts)|;
        assert |multiset(switchIds)| == |multiset(tv.switches)|;
      }
      assert controllers == old(controllers) + ctl;
      assert TopoHostList(hs, tv, hostIds, u1);
      assert TopoSwitches(ss, tv, switchIds, u2);
      assert idToNode == Assigned(Assigned(old(idToNode), hostIds, hs), switchIds, ss);
      assert nameToNode == Named(Named(n1, hs), ss);
      r := LinkTopo(tv, Sort(tv.edges, PairLe));
    }

    /** build: buildFromTopo when there is a topology, then in a namespace
        the control network, which needs controllers[0]; the rest of the
        set-up happens on the nodes. built is set when all of it succeeds. */
    method Build(made: bool) returns (r: Result<seq<LinkMade>, Exc>)
      requires Valid()
      modifies this
      ensures Valid()
      ensures topo.Some? ==> BuiltFrom(topo.value, made)
      ensures topo.None? ==> (hosts == old(hosts) && switches == old(switches) && controllers == old(controllers)
        && nameToNode == old(nameToNode) && idToNode == old(idToNode) && uids == old(uids))
      ensures var links := if topo.Some? then LinkPlan(Sort(topo.value.edges, PairLe), idToNode, topo.value.port) else Ok([]);
        r == (if links.Ok? && inNamespace && controllers == [] then Err(IndexError) else links)
      ensures built == (old(built) || r.Ok?) && builds == old(builds) + (if r.Ok? then 1 else 0)
    {
      r := Ok([]);
      if topo.Some? {
        r := BuildFromTopo(topo.value, made);
        if r.Err? {
          return;
        }
      }
      if inNamespace && controllers == [] {
        return Err(IndexError);
      }
      built := true;
      builds := builds + 1;
    }

    /** start builds first, and only when the network is not built yet. */
    method Start(made: bool) returns (r: Result<seq<LinkMade>, Exc>)
      requires Valid()
      modifies this
      ensures Valid()
      ensures old(built) ==> r == Ok([]) && unchanged(this)
      ensures !old(built) && topo.Some? ==> BuiltFrom(topo.value, made)
      ensures !old(built) && topo.None? ==> (hosts == old(hosts) && switches == old(switches)
        && controllers == old(controllers) && nameToNode == old(nameToNode) && idToNode == old(idToNode) && uids == old(uids))
      ensures !old(built) ==>
        var links := if topo.Some? then LinkPlan(Sort(topo.value.edges, PairLe), idToNode, topo.value.port) else Ok([]);
        r == (if links.Ok? && inNamespace && controllers == [] then Err(IndexError) else links)
      ensures built == (old(built) || r.Ok?) && builds == old(builds) + (if !old(built) && r.Ok? then 1 else 0)
    {
      if !built {
        r := Build(made);
      } else {
        r := Ok([]);
      }
    }

    /** ping: hosts default to all hosts; out(node, dest) is what
        `ping -c1` on node towards dest printed. */
    method Ping(hs: seq<NetNode>, out: (NetNode, NetNode) -> string) returns (r: Result<int, Exc>)
      ensures r == PingResult(if hs == [] then hosts else hs, out)
    {
      r := PingAll(if hs == [] then hosts else hs, out);
    }
  }

  /** Mininet(topo, ..., build, ...): the network, and when a topology is
      given and build is set, the outcome of build(). */
  method Create(topo: Option<TopoView>, userSwitch: bool, build: bool, inNamespace: bool, autoSetMacs: bool,
                listenPort: Option<int>, made: bool) returns (net: Mininet, r: Result<seq<LinkMade>, Exc>)
    ensures fresh(net) && net.Valid() && net.topo == topo
    ensures !(topo.Some? && build) ==> r == Ok([]) && !net.built && net.hosts == [] && net.switches == []
    ensures topo.Some? && build ==> (net.built == r.Ok? && |net.hosts| == |topo.value.hosts|
      && |net.switches| == |topo.value.switches|)
  {
    net := new Mininet(topo, userSwitch, inNamespace, autoSetMacs, listenPort);
    r := Ok([]);
    if topo.Some? && build {
      r := net.Build(made);
    }
  }

  /** The two loops of ping over the chosen hosts. */
  method PingAll(all: seq<NetNode>, out: (NetNode, NetNode) -> string) returns (r: Result<int, Exc>)
    ensures r == PingResult(all, out)
  {
    var t := Tally(0, 0);
    var ploss: Option<int> := None;
    var i := 0;
    while i < |all|
      invariant 0 <= i <= |all|
      invariant PingFold(all[i..], all, Parsed(out), t, ploss) == PingResult(all, out)
    {
      var node := all[i];
      assert all[i..] == [node] + all[i + 1..];
      var row := PingRow(node, all, out, t);
      if row.Err? {
        return Err(row.error);
      }
      if row.value.packets == 0 {
        return Err(ZeroDivisionError);
      }
      t := row.value;
      ploss := Some(100 * t.lost / t.packets);
      i := i + 1;
    }
    assert all[i..] == [];
    if ploss.None? {
      return Err(TypeError);
    }
    r := Ok(ploss.value);
  }

  /** The inner loop of ping: node pings every other host in turn. */
  method PingRow(node: NetNode, all: seq<NetNode>, out: (NetNode, NetNode) -> string, t: Tally)
    returns (r: Result<Tally, Exc>)
    ensures r == RowTally(node, all, Parsed(out), t)
  {
    var j := 0;
    var row := t;
    while j < |all|
      invariant 0 <= j <= |all|
      invariant RowTally(node, all[j..], Parsed(out), row) == RowTally(node, all, Parsed(out), t)
    {
      var dest := all[j];
      assert all[j..] == [dest] + all[j + 1..];
      if node != dest {
        var sr := ParsePing(out(node, dest));
        var sent, received := sr.0, sr.1;
        if received > sent {
          return Err(Exit(1));
        }
        row := Tally(row.packets + sent, row.lost + (sent - received));
      }
      j := j + 1;
    }
    assert all[j..] == [];
    r := Ok(row);
  }

  // ---------------------------------------------- control network plan

  /** The next switch number after n: n + 1, skipping numbers whose last
      octet is 0 or 255 (Python's & 0xff is the remainder mod 256). */
  function NextNum(n: int): (m: int)
    ensures m > n && m % 256 != 0 && m % 256 != 255
  {
    var m := n + 1;
    if m % 256 == 255 then m + 2 else if m % 256 == 0 then m + 1 else m
  }

  /** It is the least such number. */
  lemma NextNumLeast(n: int, k: int)
    requires n < k < NextNum(n)
    ensures k % 256 == 0 || k % 256 == 255
  {
  }

  /** The numbers of the first k switches after the controller's n. */
  function SwitchNums(n: int, k: nat): (r: seq<int>)
    ensures |r| == k
  {
    if k == 0 then [] else var s := SwitchNums(n, k - 1); s + [NextNum(Last(n, s))]
  }

  /** The last number handed out, the controller's when none was. */
  function Last(n: int, s: seq<int>): int { if s == [] then n else s[|s| - 1] }

  /** configureRoutedControlNetwork for k switches: ipParse(ip), then the
      switch numbers. */
  function ControlPlan(ip: string, k: nat): Result<seq<int>, Exc> {
    match Addr.IpParse(ip)
      case Err(e) => Err(e)
      case Ok(n) => Ok(SwitchNums(n, k))
  }

  /** The number before switch i's: the controller's for the first. */
  function Prev(n: int, s: seq<int>, i: nat): int
    requires i < |s|
  {
    if i == 0 then n else s[i - 1]
  }

  /** Each switch number is the next one after the number before it, so
      (by NextNum and NextNumLeast) they start above the controller's,
      strictly increase, never end in octet 0 or 255, and skip only
      numbers that do. */
  predicate Chained(n: int, s: seq<int>) {
    ChainedBy(NextNum, n, s)
  }

  /** Each element is f of the one before it, the first f(n). */
  predicate ChainedBy(f: int -> int, n: int, s: seq<int>) {
    forall i :: 0 <= i < |s| ==> s[i] == f(Prev(n, s, i))
  }

  lemma {:induction false} SwitchNumsSpec(n: int, k: nat)
    ensures Chained(n, SwitchNums(n, k))
  {
    if k > 0 {
      var p := SwitchNums(n, k - 1);
      SwitchNumsSpec(n, k - 1);
      ChainedSnoc(NextNum, n, p, NextNum(Last(n, p)));
    }
  }

  lemma ChainedSnoc(f: int -> int, n: int, p: seq<int>, x: int)
    requires ChainedBy(f, n, p) && x == f(Last(n, p))
    ensures ChainedBy(f, n, p + [x])
  {
    var s := p + [x];
    forall i | 0 <= i < |s| ensures s[i] == f(Prev(n, s, i)) {
      if i < |p| {
        assert s[i] == p[i] && Prev(n, s, i) == Prev(n, p, i);
      }
    }
  }

  /** The controller at 192.168.123.1 hands its switches .2, .3, ... */
  lemma ControlPlanFirst()
    ensures SwitchNums(3232267009, 2) == [3232267010, 3232267011]
  {
  }

  /** Around an octet boundary: after x.x.x.254 comes x.x.(x+1).1. */
  lemma SwitchNumsWrap(n: int)
    requires n % 256 == 254
    ensures SwitchNums(n, 1) == [n + 3]
  {
  }

  // ------------------------------------------------------ ping parsing

  const Unreachable: string := "connect: Network is unreachable"
  const Transmitted: string := " packets transmitted, "
  const Received: string := " received"

  /** A match of (\d+) packets transmitted, (\d+) received at the start of
      s: the two digit groups. Greedy \d+ can only end where the run of
      digits ends, since a space must follow it. */
  function PingMatch(s: string): Option<(string, string)> {
    PingMatchBy(Transmitted, Received, s)
  }

  /** The same match with the two literal parts given. */
  function PingMatchBy(tr: string, rc: string, s: string): Option<(string, string)> {
    var d := Links.DigitRun(s);
    if d == 0 || !StartsWith(s[d..], tr) then None
    else
      var u := s[d + |tr|..];
      var e := Links.DigitRun(u);
      if e > 0 && StartsWith(u[e..], rc) then Some((s[..d], u[..e])) else None
  }

  /** re.search: the match at the leftmost position that has one. */
  function SearchPing(s: string): Option<(string, string)>
    decreases |s|
  {
    if s == [] then None
    else match PingMatch(s)
      case Some(p) => Some(p)
      case None => SearchPing(s[1..])
  }

  /** Both groups are digit strings. */
  lemma {:induction false} SearchPingDigits(s: string)
    requires SearchPing(s).Some?
    ensures AllDigits(SearchPing(s).value.0) && AllDigits(SearchPing(s).value.1)
    decreases |s|
  {
    if PingMatch(s).None? {
      SearchPingDigits(s[1..]);
    } else {
      Shell.DigitRunDigits(s);
      var d := Links.DigitRun(s);
      var u := s[d + |Transmitted|..];
      Shell.DigitRunDigits(u);
    }
  }

  /** _parsePing: (1, 0) for an unreachable network or text without the
      summary line, else (sent, received). */
  function ParsePing(s: string): (r: (int, int))
    ensures r.0 >= 0 && r.1 >= 0
  {
    if Contains(s, Unreachable) then (1, 0)
    else match SearchPing(s)
      case None => (1, 0)
      case Some(p) =>
        SearchPingDigits(s);
        (DecValue(p.0), DecValue(p.1))
  }

  /** Text without digits holds no match start. */
  lemma {:induction false} SearchPingSkip(pre: string, t: string)
    requires forall i :: 0 <= i < |pre| ==> !IsDigit(pre[i])
    ensures SearchPing(pre + t) == SearchPing(t)
    decreases |pre|
  {
    if pre != [] {
      assert (pre + t)[1..] == pre[1..] + t;
      SearchPingSkip(pre[1..], t);
    } else {
      assert pre + t == t;
    }
  }

  /** The summary line matches where it starts. */
  lemma PingMatchOf(a: string, b: string, post: string)
    requires a != [] && AllDigits(a) && b != [] && AllDigits(b)
    ensures PingMatch(a + Transmitted + b + Received + post) == Some((a, b))
  {
    PingMatchByOf(Transmitted, Received, a, b, post);
  }

  lemma PingMatchByOf(tr: string, rc: string, a: string, b: string, post: string)
    requires tr != [] && !IsDigit(tr[0]) && rc != [] && !IsDigit(rc[0])
    requires a != [] && AllDigits(a) && b != [] && AllDigits(b)
    ensures PingMatchBy(tr, rc, a + tr + b + rc + post) == Some((a, b))
  {
    var t := a + tr + b + rc + post;
    assert t == a + (tr + b + rc + post);
    assert Links.DigitRun(t) == |a| by {
      Links.RunOf(a, tr + b + rc + post);
    }
    assert StartsWith(t[|a|..], tr) by {
      assert t[|a|..] == tr + (b + rc + post);
    }
    var u := t[|a| + |tr|..];
    assert u == b + (rc + post);
    assert Links.DigitRun(u) == |b| by {
      Links.RunOf(b, rc + post);
    }
    assert StartsWith(u[|b|..], rc) by {
      assert u[|b|..] == rc + post;
    }
    assert t[..|a|] == a && u[..|b|] == b;
  }

  /** The summary line ping prints is read back: after text without digits,
      "N packets transmitted, M received" gives (N, M). */
  lemma ParsePingReads(pre: string, n: nat, m: nat, post: string)
    requires forall i :: 0 <= i < |pre| ==> !IsDigit(pre[i])
    requires !Contains(pre + NatToDec(n) + Transmitted + NatToDec(m) + Received + post, Unreachable)
    ensures ParsePing(pre + NatToDec(n) + Transmitted + NatToDec(m) + Received + post) == (n, m)
  {
    var a, b := NatToDec(n), NatToDec(m);
    DecRoundTrip(n);
    DecRoundTrip(m);
    assert pre + a + Transmitted + b + Received + post == pre + (a + Transmitted + b + Received + post);
    ParsePingGroups(pre, a, b, post);
  }

  lemma ParsePingGroups(pre: string, a: string, b: string, post: string)
    requires forall i :: 0 <= i < |pre| ==> !IsDigit(pre[i])
    requires a != [] && AllDigits(a) && b != [] && AllDigits(b)
    requires !Contains(pre + (a + Transmitted + b + Received + post), Unreachable)
    ensures ParsePing(pre + (a + Transmitted + b + Received + post)) == (DecValue(a), DecValue(b))
  {
    SearchPingFinds(pre, a, b, post);
  }

  /** The search finds the summary line after text without digits. */
  lemma SearchPingFinds(pre: string, a: string, b: string, post: string)
    requires forall i :: 0 <= i < |pre| ==> !IsDigit(pre[i])
    requires a != [] && AllDigits(a) && b != [] && AllDigits(b)
    ensures SearchPing(pre + (a + Transmitted + b + Received + post)) == Some((a, b))
  {
    var t := a + Transmitted + b + Received + post;
    SearchPingSkip(pre, t);
    PingMatchOf(a, b, post);
  }

  /** Text with the unreachable message counts as one packet lost, whatever
      else it holds. */
  lemma ParsePingUnreachable(pre: string, post: string)
    ensures ParsePing(pre + Unreachable + post) == (1, 0)
  {
    assert IsInfixAt(pre + Unreachable + post, Unreachable, |pre|) by {
      assert (pre + Unreachable + post)[|pre|..|pre| + |Unreachable|] == Unreachable;
    }
  }

  // ------------------------------------------------------ ping totals

  datatype Tally = Tally(packets: int, lost: int)

  /** What each ping counted: _parsePing of out(node, dest). */
  type Counts = (NetNode, NetNode) -> (int, int)

  function Parsed(out: (NetNode, NetNode) -> string): Counts {
    (x: NetNode, d: NetNode) => ParsePing(out(x, d))
  }

  /** The inner loop of ping for one node: every other destination adds
      its sent packets and its losses; receiving more than was sent exits. */
  function RowTally(node: NetNode, dests: seq<NetNode>, res: Counts, t: Tally): Result<Tally, Exc>
    decreases |dests|
  {
    if dests == [] then Ok(t)
    else if node == dests[0] then RowTally(node, dests[1..], res, t)
    else
      var sr := res(node, dests[0]);
      if sr.1 > sr.0 then Err(Exit(1))
      else RowTally(node, dests[1..], res, Tally(t.packets + sr.0, t.lost + (sr.0 - sr.1)))
  }

  /** The outer loop: after each node, ploss = 100 * lost / packets (a
      ZeroDivisionError while no packet was sent); with no node at all
      ploss stays None and formatting it fails. */
  function PingFold(rows: seq<NetNode>, all: seq<NetNode>, res: Counts, t: Tally, ploss: Option<int>): Result<int, Exc>
    decreases |rows|
  {
    if rows == [] then (if ploss.None? then Err(TypeError) else Ok(ploss.value))
    else match RowTally(rows[0], all, res, t)
      case Err(e) => Err(e)
      case Ok(t2) =>
        if t2.packets == 0 then Err(ZeroDivisionError)
        else PingFold(rows[1..], all, res, t2, Some(100 * t2.lost / t2.packets))
  }

  function PingResult(all: seq<NetNode>, out: (NetNode, NetNode) -> string): Result<int, Exc> {
    PingFold(all, all, Parsed(out), Tally(0, 0), None)
  }

  /** The packets node sent to the destinations other than itself. */
  function RowSent(node: NetNode, dests: seq<NetNode>, res: Counts): int
    decreases |dests|
  {
    if dests == [] then 0
    else (if node == dests[0] then 0 else res(node, dests[0]).0) + RowSent(node, dests[1..], res)
  }

  /** The packets of those pings that were not received. */
  function RowLost(node: NetNode, dests: seq<NetNode>, res: Counts): int
    decreases |dests|
  {
    if dests == [] then 0
    else (if node == dests[0] then 0 else res(node, dests[0]).0 - res(node, dests[0]).1) + RowLost(node, dests[1..], res)
  }

  /** No ping of node's row received more than it sent. */
  predicate RowOk(node: NetNode, dests: seq<NetNode>, res: Counts) {
    forall d :: d in dests && d != node ==> res(node, d).1 <= res(node, d).0
  }

  /** The packets sent, and lost, over all the rows. */
  function SumSent(rows: seq<NetNode>, all: seq<NetNode>, res: Counts): int
    decreases |rows|
  {
    if rows == [] then 0 else RowSent(rows[0], all, res) + SumSent(rows[1..], all, res)
  }

  function SumLost(rows: seq<NetNode>, all: seq<NetNode>, res: Counts): int
    decreases |rows|
  {
    if rows == [] then 0 else RowLost(rows[0], all, res) + SumLost(rows[1..], all, res)
  }

  /** A row ends in its sums, or exits when some ping received more than it sent. */
  lemma {:induction false} RowTallySum(node: NetNode, dests: seq<NetNode>, res: Counts, t: Tally)
    ensures RowTally(node, dests, res, t)
         == if RowOk(node, dests, res)
            then Ok(Tally(t.packets + RowSent(node, dests, res), t.lost + RowLost(node, dests, res)))
            else Err(Exit(1))
    decreases |dests|
  {
    if dests != [] {
      var d0, rest := dests[0], dests[1..];
      assert forall d :: d in dests <==> d == d0 || d in rest by {
        assert dests == [d0] + rest;
      }
      if node == d0 {
        RowTallySum(node, rest, res, t);
      } else {
        var sr := res(node, d0);
        if sr.1 <= sr.0 {
          RowTallySum(node, rest, res, Tally(t.packets + sr.0, t.lost + (sr.0 - sr.1)));
        }
      }
    }
  }

  lemma {:induction false} RowSentNonneg(node: NetNode, dests: seq<NetNode>, res: Counts)
    requires forall x, d :: res(x, d).0 >= 0
    ensures RowSent(node, dests, res) >= 0
    decreases |dests|
  {
    if dests != [] {
      RowSentNonneg(node, dests[1..], res);
    }
  }

  /** The outer loop succeeds exactly when no row exits and the first row
      sent a packet, and then reports 100 * lost / sent over all rows. */
  lemma {:induction false} PingFoldSum(rows: seq<NetNode>, all: seq<NetNode>, res: Counts, t: Tally, ploss: Option<int>)
    requires forall x, d :: res(x, d).0 >= 0
    requires rows != [] && t.packets >= 0
    ensures PingFold(rows, all, res, t, ploss).Ok?
        <==> (forall x :: x in rows ==> RowOk(x, all, res)) && t.packets + RowSent(rows[0], all, res) > 0
    ensures PingFold(rows, all, res, t, ploss).Ok? ==>
      (t.packets + SumSent(rows, all, res) > 0
       && PingFold(rows, all, res, t, ploss).value
          == 100 * (t.lost + SumLost(rows, all, res)) / (t.packets + SumSent(rows, all, res)))
    decreases |rows|
  {
    var x, rest := rows[0], rows[1..];
    assert forall y :: y in rows <==> y == x || y in rest by {
      assert rows == [x] + rest;
    }
    RowTallySum(x, all, res, t);
    RowSentNonneg(x, all, res);
    if RowOk(x, all, res) {
      var t2 := Tally(t.packets + RowSent(x, all, res), t.lost + RowLost(x, all, res));
      if t2.packets != 0 && rest != [] {
        RowSentNonneg(rest[0], all, res);
        PingFoldSum(rest, all, res, t2, Some(100 * t2.lost / t2.packets));
      }
    }
  }

  /** ping's loss: with at least one host, it is reported exactly when no
      ping received more than it sent and the first host sent something,
      and it is then 100 * (packets lost) / (packets sent) over every
      ordered pair of distinct hosts. */
  lemma PingLoss(all: seq<NetNode>, out: (NetNode, NetNode) -> string)
    requires all != []
    ensures PingResult(all, out).Ok?
        <==> (forall x :: x in all ==> RowOk(x, all, Parsed(out))) && RowSent(all[0], all, Parsed(out)) > 0
    ensures PingResult(all, out).Ok? ==>
      (SumSent(all, all, Parsed(out)) > 0
       && PingResult(all, out).value == 100 * SumLost(all, all, Parsed(out)) / SumSent(all, all, Parsed(out)))
  {
    forall x, d ensures Parsed(out)(x, d).0 >= 0 {
      var r := ParsePing(out(x, d));
    }
    PingFoldSum(all, all, Parsed(out), Tally(0, 0), None);
  }

  /** Nodes other than x in a list. */
  function Others(x: NetNode, s: seq<NetNode>): nat {
    if s == [] then 0 else (if s[0] == x then 0 else 1) + Others(x, s[1..])
  }

  /** When every ping sends one packet and receives c of them (c is 0 or
      1), a row adds a packet and 1 - c losses per other node. */
  lemma {:induction false} RowTallyConst(node: NetNode, dests: seq<NetNode>, res: Counts, t: Tally, c: int)
    requires c == 0 || c == 1
    requires forall d :: d in dests && d != node ==> res(node, d) == (1, c)
    ensures RowTally(node, dests, res, t) == Ok(Tally(t.packets + Others(node, dests), t.lost + Others(node, dests) * (1 - c)))
    decreases |dests|
  {
    if dests != [] {
      RowTallyConst(node, dests[1..], res, if node == dests[0] then t else Tally(t.packets + 1, t.lost + (1 - c)), c);
    }
  }

  /** In a list without repeats, a member has all the others beside it. */
  lemma {:induction false} OthersDistinct(x: NetNode, s: seq<NetNode>)
    requires x in s
    requires forall i, j :: 0 <= i < j < |s| ==> s[i] != s[j]
    ensures Others(x, s) == |s| - 1
  {
    if s[0] != x {
      OthersDistinct(x, s[1..]);
    } else {
      OthersNone(x, s[1..]);
    }
  }

  lemma {:induction false} OthersNone(x: NetNode, s: seq<NetNode>)
    requires x !in s
    ensures Others(x, s) == |s|
  {
    if s != [] {
      OthersNone(x, s[1..]);
    }
  }

  /** A node of the list pings the |all| - 1 others. */
  lemma RowConst(x: NetNode, all: seq<NetNode>, res: Counts, t: Tally, c: int)
    requires c == 0 || c == 1
    requires x in all && forall i, j :: 0 <= i < j < |all| ==> all[i] != all[j]
    requires forall d :: d in all && x != d ==> res(x, d) == (1, c)
    ensures RowTally(x, all, res, t) == Ok(Tally(t.packets + |all| - 1, t.lost + (|all| - 1) * (1 - c)))
  {
    OthersDistinct(x, all);
    RowTallyConst(x, all, res, t, c);
  }

  /** Losses of (1 - c) per packet make a loss of 100 * (1 - c) percent. */
  lemma PercentConst(lost: int, packets: int, c: int)
    requires c == 0 || c == 1
    requires packets > 0 && lost == packets * (1 - c)
    ensures 100 * lost / packets == 100 * (1 - c)
  {
    if c == 0 {
      assert 100 * lost == 100 * packets;
    }
  }

  /** The outer loop under the same pings, from a tally whose losses are
      (1 - c) per packet. */
  lemma {:induction false} PingFoldConst(rows: seq<NetNode>, all: seq<NetNode>, res: Counts,
                                         t: Tally, ploss: Option<int>, c: int)
    requires c == 0 || c == 1
    requires |all| >= 2 && forall i, j :: 0 <= i < j < |all| ==> all[i] != all[j]
    requires forall x :: x in rows ==> x in all
    requires forall x, d :: x in all && d in all && x != d ==> res(x, d) == (1, c)
    requires t.packets >= 0 && t.lost == t.packets * (1 - c)
    requires rows == [] ==> ploss == Some(100 * (1 - c))
    ensures PingFold(rows, all, res, t, ploss) == Ok(100 * (1 - c))
    decreases |rows|
  {
    if rows != [] {
      var x := rows[0];
      RowConst(x, all, res, t, c);
      var k := |all| - 1;
      var t2 := Tally(t.packets + k, t.lost + k * (1 - c));
      PercentConst(t2.lost, t2.packets, c);
      assert forall y :: y in rows[1..] ==> y in rows;
      PingFoldConst(rows[1..], all, res, t2, Some(100 * (1 - c)), c);
    }
  }

  /** Among two or more distinct hosts, all pings answered means 0% loss
      and none answered means 100%. */
  lemma PingAllOrNothing(all: seq<NetNode>, out: (NetNode, NetNode) -> string, c: int)
    requires c == 0 || c == 1
    requires |all| >= 2 && forall i, j :: 0 <= i < j < |all| ==> all[i] != all[j]
    requires forall x, d :: x in all && d in all && x != d ==> ParsePing(out(x, d)) == (1, c)
    ensures PingResult(all, out) == Ok(100 * (1 - c))
  {
    PingFoldConst(all, all, Parsed(out), Tally(0, 0), None, c);
  }

  /** The reported loss is a percentage. */
  lemma {:induction false} PingFoldBounds(rows: seq<NetNode>, all: seq<NetNode>, res: Counts,
                                          t: Tally, ploss: Option<int>)
    requires forall x, d :: res(x, d).1 >= 0
    requires 0 <= t.lost <= t.packets
    requires ploss.Some? ==> 0 <= ploss.value <= 100
    ensures PingFold(rows, all, res, t, ploss).Ok? ==> 0 <= PingFold(rows, all, res, t, ploss).value <= 100
    decreases |rows|
  {
    if rows != [] {
      RowTallyBounds(rows[0], all, res, t);
      var r := RowTally(rows[0], all, res, t);
      if r.Ok? && r.value.packets != 0 {
        var t2 := r.value;
        PercentBounds(t2.lost, t2.packets);
        PingFoldBounds(rows[1..], all, res, t2, Some(100 * t2.lost / t2.packets));
      }
    }
  }

  lemma PercentBounds(lost: int, packets: int)
    requires 0 <= lost <= packets && packets > 0
    ensures 0 <= 100 * lost / packets <= 100
  {
    assert 100 * lost <= 100 * packets;
  }

  lemma {:induction false} RowTallyBounds(node: NetNode, dests: seq<NetNode>, res: Counts, t: Tally)
    requires forall x, d :: res(x, d).1 >= 0
    requires 0 <= t.lost <= t.packets
    ensures var r := RowTally(node, dests, res, t); r.Ok? ==> 0 <= r.value.lost <= r.value.packets
    decreases |dests|
  {
    if dests != [] {
      if node == dests[0] {
        RowTallyBounds(node, dests[1..], res, t);
      } else {
        var sr := res(node, dests[0]);
        if sr.1 <= sr.0 {
          RowTallyBounds(node, dests[1..], res, Tally(t.packets + sr.0, t.lost + (sr.0 - sr.1)));
        }
      }
    }
  }

  lemma PingBounds(all: seq<NetNode>, out: (NetNode, NetNode) -> string)
    ensures PingResult(all, out).Ok? ==> 0 <= PingResult(all, out).value <= 100
  {
    forall x, d ensures Parsed(out)(x, d).1 >= 0 {
      var r := ParsePing(out(x, d));
    }
    PingFoldBounds(all, all, Parsed(out), Tally(0, 0), None);
  }

  /** One host pings nobody, so dividing by the packet count fails; no
      host at all leaves nothing to report. */
  lemma PingTooFew(h: NetNode, out: (NetNode, NetNode) -> string)
    ensures PingResult([h], out) == Err(ZeroDivisionError)
    ensures PingResult([], out) == Err(TypeError)
  {
    assert [h][1..] == [];
    assert RowTally(h, [h], Parsed(out), Tally(0, 0)) == Ok(Tally(0, 0));
  }

  // ------------------------------------------------------ iperf parsing

  predicate IsNumChar(c: char) { IsDigit(c) || c == '.' }

  /** The length of the run of [\d.] at the start of s. */
  function NumRun(s: string): (n: nat)
    ensures n <= |s|
  {
    if s != [] && IsNumChar(s[0]) then 1 + NumRun(s[1..]) else 0
  }

  /** The length of the run of \w at the start of s. */
  function WordRun(s: string): (n: nat)
    ensures n <= |s|
  {
    if s != [] && IsWord(s[0]) then 1 + WordRun(s[1..]) else 0
  }

  const PerSec: string := "/sec"

  /** The length of a match of [\d.]+ \w+/sec at the start of s. Each
      greedy run can only end where the run of its characters ends, since
      a space or a '/' must follow. */
  function RateLen(s: string): (e: Option<nat>)
    ensures e.Some? ==> 0 < e.value <= |s|
  {
    var a := NumRun(s);
    if a == 0 || a >= |s| || s[a] != ' ' then None
    else
      var w := WordRun(s[a + 1..]);
      if w > 0 && StartsWith(s[a + 1 + w..], PerSec) then Some(a + 1 + w + |PerSec|) else None
  }

  /** re.findall: the matches left to right, each search resuming after
      the previous match. */
  function FindRates(s: string): (r: seq<string>)
    decreases |s|
  {
    if s == [] then []
    else match RateLen(s)
      case Some(e) => [s[..e]] + FindRates(s[e..])
      case None => FindRates(s[1..])
  }

  /** _parseIperf: the last match, or '' when there is none. */
  function ParseIperf(s: string): string {
    var m := FindRates(s);
    if m != [] then m[|m| - 1] else ""
  }

  /** Each match found is a whole match of the pattern by itself. */
  lemma {:induction false} FindRatesShape(s: string)
    ensures forall m :: m in FindRates(s) ==> RateLen(m) == Some(|m|) && EndsWith(m, PerSec)
    decreases |s|
  {
    if s != [] {
      match RateLen(s)
      case Some(e) =>
        FindRatesShape(s[e..]);
        RateLenPrefix(s);
      case None =>
        FindRatesShape(s[1..]);
    }
  }

  lemma {:induction false} NumRunPrefix(s: string, k: nat)
    requires NumRun(s) < k <= |s|
    ensures NumRun(s[..k]) == NumRun(s)
  {
    if NumRun(s) > 0 {
      assert s[..k][1..] == s[1..][..k - 1];
      NumRunPrefix(s[1..], k - 1);
    }
  }

  lemma {:induction false} WordRunPrefix(s: string, k: nat)
    requires WordRun(s) <= k <= |s|
    ensures WordRun(s[..k]) == WordRun(s)
  {
    if WordRun(s) > 0 {
      assert s[..k][1..] == s[1..][..k - 1];
      WordRunPrefix(s[1..], k - 1);
    } else if k > 0 {
      assert s[..k][0] == s[0];
    }
  }

  /** The text a match covers matches the pattern on its own. */
  lemma RateLenPrefix(s: string)
    requires RateLen(s).Some?
    ensures var m := s[..RateLen(s).value]; RateLen(m) == Some(|m|) && EndsWith(m, PerSec)
  {
    var e := RateLen(s).value;
    var m := s[..e];
    var a := NumRun(s);
    NumRunPrefix(s, e);
    var w := WordRun(s[a + 1..]);
    assert m[a + 1..] == s[a + 1..][..e - a - 1];
    WordRunPrefix(s[a + 1..], e - a - 1);
    assert m[a + 1 + w..] == s[a + 1 + w..][..|PerSec|];
  }

  /** No match at all exactly when the result is ''. */
  lemma ParseIperfEmpty(s: string)
    ensures ParseIperf(s) == "" <==> FindRates(s) == []
  {
    FindRatesShape(s);
    if FindRates(s) != [] {
      assert FindRates(s)[|FindRates(s)| - 1] in FindRates(s);
    }
  }

  /** A rate such as "9.5 Mbits/sec" on its own reads back as itself. */
  lemma ParseIperfRate(num: string, unit: string)
    requires num != [] && forall i :: 0 <= i < |num| ==> IsNumChar(num[i])
    requires unit != [] && forall i :: 0 <= i < |unit| ==> IsWord(unit[i])
    ensures ParseIperf(num + " " + unit + PerSec) == num + " " + unit + PerSec
  {
    var s := num + " " + unit + PerSec;
    NumRunOf(num, " " + unit + PerSec);
    assert s == num + (" " + unit + PerSec);
    assert s[|num|] == ' ';
    assert s[|num| + 1..] == unit + PerSec;
    WordRunOf(unit, PerSec);
    assert s[|num| + 1..][|unit|..] == PerSec;
    assert s[|num| + 1 + |unit|..] == PerSec;
    assert RateLen(s) == Some(|s|);
    assert s[|s|..] == [] && s[..|s|] == s;
    assert FindRates(s) == [s] + FindRates([]);
  }

  lemma {:induction false} NumRunOf(a: string, rest: string)
    requires forall i :: 0 <= i < |a| ==> IsNumChar(a[i])
    requires rest == [] || !IsNumChar(rest[0])
    ensures NumRun(a + rest) == |a|
  {
    if a != [] {
      assert (a + rest)[1..] == a[1..] + rest;
      NumRunOf(a[1..], rest);
    } else {
      assert a + rest == rest;
    }
  }

  lemma {:induction false} WordRunOf(a: string, rest: string)
    requires forall i :: 0 <= i < |a| ==> IsWord(a[i])
    requires rest == [] || !IsWord(rest[0])
    ensures WordRun(a + rest) == |a|
  {
    if a != [] {
      assert (a + rest)[1..] == a[1..] + rest;
      WordRunOf(a[1..], rest);
    } else {
      assert a + rest == rest;
    }
  }

  // ------------------------------------------------------ iperf set-up

  /** What iperf settles before running anything: client and server, the
      iperf options and the bandwidth option. */
  datatype IperfPlan = IperfPlan(client: NetNode, server: NetNode, iperfArgs: string, bwArgs: string)

  /** iperf's checks: no telnet returns None; hosts default to the first
      and last host (an IndexError with no hosts); explicit hosts must be
      exactly two; UDP adds -u and -b, and a type other than TCP or UDP
      raises. */
  function IperfSetup(hs: seq<NetNode>, netHosts: seq<NetNode>, l4Type: string, udpBw: string, haveTelnet: bool)
    : (r: Result<Option<IperfPlan>, Exc>)
    ensures r.Ok? && r.value.Some? ==> l4Type in {"TCP", "UDP"}
    ensures hs != [] && |hs| != 2 && haveTelnet ==> r == Err(AssertionError)
    ensures r.Ok? && r.value.Some? && hs != [] ==> |hs| == 2 && r.value.value.client == hs[0] && r.value.value.server == hs[1]
    ensures r.Ok? && r.value.Some? && hs == [] ==>
      netHosts != [] && r.value.value.client == netHosts[0] && r.value.value.server == netHosts[|netHosts| - 1]
  {
    if !haveTelnet then Ok(None)
    else if hs == [] && netHosts == [] then Err(IndexError)
    else if hs != [] && |hs| != 2 then Err(AssertionError)
    else
      var pair := if hs == [] then [netHosts[0], netHosts[|netHosts| - 1]] else hs;
      if l4Type == "UDP" then Ok(Some(IperfPlan(pair[0], pair[1], "iperf -u ", "-b " + udpBw + " ")))
      else if l4Type != "TCP" then Err(Raised("Unexpected l4 type: " + l4Type))
      else Ok(Some(IperfPlan(pair[0], pair[1], "iperf ", "")))
  }

  /** The result list: the server's and client's rates, after udpBw for UDP. */
  function IperfResult(l4Type: string, udpBw: string, servout: string, cliout: string): (r: seq<string>)
    ensures |r| == (if l4Type == "UDP" then 3 else 2)
    ensures r[|r| - 2] == ParseIperf(servout) && r[|r| - 1] == ParseIperf(cliout)
  {
    var res := [ParseIperf(servout), ParseIperf(cliout)];
    if l4Type == "UDP" then [udpBw] + res else res
  }
}
