// The placement side of MininetCluster (mininet/cluster/net.py:111-256,
// with the same constructor defaults and placeNodes in
// examples/cluster.py:742-841): the server defaults, placeNodes writing the
// chosen server into each node's info dict, and the options addLink hands
// to its link class.
module Cluster {
  import opened Wrappers
  import opened Placement

  /** A value in a node-info dict, as far as placeNodes looks at it. */
  datatype CVal = CNone | CStr(s: string)

  type Config = map<string, CVal>

  predicate Truthy(v: CVal) { v.CStr? && v.s != "" }

  /** dict.setdefault(k, v): the dict afterwards and the value returned. */
  function SetDefault<V>(d: map<string, V>, k: string, v: V): (r: (map<string, V>, V))
    ensures k in r.0 && r.1 == r.0[k]
    ensures k in d ==> r.0 == d
    ensures k !in d ==> r.0 == d[k := v]
  {
    if k in d then (d, d[k]) else (d[k := v], v)
  }

  /** setdefault keeps every entry and adds at most its key. */
  lemma SetDefaultGrows<V>(d: map<string, V>, k: string, v: V)
    ensures var r := SetDefault(d, k, v).0;
            (forall x :: x in d ==> x in r && r[x] == d[x]) && (forall x :: x in r ==> x in d || x == k)
  { }

  // ------------------------------------------------------------------
  // Constructor defaults (net.py:121-127, cluster.py:752-758)
  // ------------------------------------------------------------------

  /** params.pop('servers', ['localhost']), then
      [s if s else 'localhost' for s in servers]. */
  function ServerList(servers: Option<seq<Option<string>>>): (r: seq<string>)
    ensures servers.None? ==> r == ["localhost"]
    ensures servers.Some? ==> |r| == |servers.value|
    ensures forall i :: 0 <= i < |r| ==> r[i] != ""
    ensures servers.Some? ==> forall i :: 0 <= i < |r| ==>
              (if servers.value[i].Some? && servers.value[i].value != ""
               then r[i] == servers.value[i].value else r[i] == "localhost")
  {
    match servers
    case None => ["localhost"]
    case Some(ss) =>
      seq(|ss|, i requires 0 <= i < |ss| =>
        if ss[i].Some? && ss[i].value != "" then ss[i].value else "localhost")
  }

  /** The normalised list has nothing left to normalise. */
  lemma ServerListStable(servers: Option<seq<Option<string>>>)
    ensures var r := ServerList(servers);
            ServerList(Some(seq(|r|, i requires 0 <= i < |r| => Some(r[i])))) == r
  {
    var r := ServerList(servers);
    var again := ServerList(Some(seq(|r|, i requires 0 <= i < |r| => Some(r[i]))));
    assert |again| == |r|;
    forall i | 0 <= i < |r| ensures again[i] == r[i] { }
  }

  /** The serverIP option; without one (None or empty) each server's
      address is looked up with `find`. */
  function ServerIPs(given: Option<map<string, string>>, servers: seq<string>, find: string -> string)
    : (r: map<string, string>)
    ensures given.Some? && given.value != map[] ==> r == given.value
    ensures (given.None? || given.value == map[]) ==>
              (forall s :: s in r <==> s in servers) && (forall s :: s in r ==> r[s] == find(s))
  {
    if given.Some? && given.value != map[] then given.value
    else map s | s in servers :: find(s)
  }

  // ------------------------------------------------------------------
  // placeNodes (net.py:186-211, cluster.py:816-841)
  // ------------------------------------------------------------------

  /** `if 'server' in config and config['server'] is None:
          config['server'] = 'localhost'` */
  function NoneToLocal(config: Config): Config {
    if "server" in config && config["server"] == CNone then config["server" := CStr("localhost")]
    else config
  }

  /** The rest of one iteration once placer.place(node) answered `placed`:
      the config afterwards and the KeyError a missing serverIP raises. */
  function Configure(config: Config, placed: string, serverIP: map<string, string>,
                     connections: map<string, string>): (Config, Option<Exc>)
  {
    var (c1, server) := SetDefault(config, "server", CStr(placed));
    if Truthy(server) && server.s !in serverIP then (c1, Some(KeyError(server.s)))
    else
      var c2 := if Truthy(server) then SetDefault(c1, "serverIP", CStr(serverIP[server.s])).0 else c1;
      var cfile := if server.CStr? && server.s in connections then connections[server.s] else "";
      (if cfile != "" then SetDefault(c2, "controlPath", CStr(cfile)).0 else c2, None)
  }

  /** The node-info dicts, the placer's counters and the exception raised,
      if any, part-way through placeNodes. */
  datatype Placed = Placed(info: map<string, Config>, ctr: Counters, err: Option<Exc>)

  /** One iteration of the loop over nodes. */
  function PlaceNode(f: Conf, serverIP: map<string, string>, connections: map<string, string>,
                     st: Placed, node: string, pick: nat): Placed
    requires f.Valid() && (f.kind == Random && |f.servers| > 0 ==> pick < |f.servers|)
    requires node in st.info
  {
    var c := NoneToLocal(st.info[node]);
    var (r, ctr) := PlaceOne(f, st.ctr, node, pick);
    if r.Err? then Placed(st.info[node := c], st.ctr, Some(r.error))
    else
      var (c', e) := Configure(c, r.value, serverIP, connections);
      Placed(st.info[node := c'], ctr, e)
  }

  /** The loop over nodes, stopping at the first exception. */
  function PlaceAll(f: Conf, serverIP: map<string, string>, connections: map<string, string>,
                    info: map<string, Config>, ctr: Counters, nodes: seq<string>, picks: seq<nat>): (r: Placed)
    requires f.Valid() && |picks| == |nodes| && Picks(f, picks)
    requires forall n :: n in nodes ==> n in info
    ensures forall n :: n in info <==> n in r.info
  {
    if nodes == [] then Placed(info, ctr, None)
    else
      var k := |nodes| - 1;
      var prev := PlaceAll(f, serverIP, connections, info, ctr, nodes[..k], picks[..k]);
      if prev.err.Some? then prev
      else PlaceNode(f, serverIP, connections, prev, nodes[k], picks[k])
  }

  datatype TopoView = TopoView(nodes: seq<string>, hosts: seq<string>, switches: seq<string>,
                               links: seq<(string, string)>)

  /** placeNodes: nothing without servers or a topology; otherwise build the
      placer (which may raise) and run the loop over topo.nodes(). */
  function PlaceNodesSpec(servers: seq<string>, placement: Kind, topo: Option<TopoView>,
                          serverIP: map<string, string>, connections: map<string, string>,
                          info: map<string, Config>, picks: seq<nat>): Placed
    requires topo.Some? ==> |picks| == |topo.value.nodes| && forall n :: n in topo.value.nodes ==> n in info
    requires placement == Random ==> forall k :: 0 <= k < |picks| ==> picks[k] < |servers|
  {
    var zero := Counters(0, 0, 0, 0);
    if servers == [] || topo.None? then Placed(info, zero, None)
    else
      var t := topo.value;
      match PlacerSetup(placement, servers, t.hosts, t.switches, [], t.links)
      case Err(e) => Placed(info, zero, Some(e))
      case Ok(f) => PlaceAll(f, serverIP, connections, info, zero, t.nodes, picks)
  }

  /** placeNodes past its guard: the placer's constructor raises, or the
      loop runs with the placer it built. */
  lemma SpecCases(servers: seq<string>, placement: Kind, topo: Option<TopoView>,
                  serverIP: map<string, string>, connections: map<string, string>,
                  info: map<string, Config>, picks: seq<nat>)
    requires topo.Some? ==> |picks| == |topo.value.nodes| && forall n :: n in topo.value.nodes ==> n in info
    requires placement == Random ==> forall k :: 0 <= k < |picks| ==> picks[k] < |servers|
    requires servers != [] && topo.Some?
    ensures var t := topo.value;
            var s := PlacerSetup(placement, servers, t.hosts, t.switches, [], t.links);
            (s.Err? ==> PlaceNodesSpec(servers, placement, topo, serverIP, connections, info, picks) ==
                          Placed(info, Counters(0, 0, 0, 0), Some(s.error))) &&
            (s.Ok? ==> PlaceNodesSpec(servers, placement, topo, serverIP, connections, info, picks) ==
                         PlaceAll(s.value, serverIP, connections, info, Counters(0, 0, 0, 0), t.nodes, picks))
  { }

  /** What one iteration leaves in a node's dict when place answered
      `placed`. */
  function NodeAfter(config: Config, placed: string, serverIP: map<string, string>,
                     connections: map<string, string>): (Config, Option<Exc>)
  {
    Configure(NoneToLocal(config), placed, serverIP, connections)
  }

  /** One node's dict after placeNodes: an explicit server None becomes
      'localhost', any other explicit server is kept and a missing one is
      the placer's answer; serverIP is filled in for a truthy server and
      controlPath from a live connection, never replacing a value the dict
      already has; nothing else changes. */
  lemma NodeAfterRules(config: Config, placed: string, serverIP: map<string, string>,
                       connections: map<string, string>)
    ensures var (c, e) := NodeAfter(config, placed, serverIP, connections);
            var server := if "server" !in config then CStr(placed)
                          else if config["server"] == CNone then CStr("localhost")
                          else config["server"];
            "server" in c && c["server"] == server &&
            (e.Some? <==> Truthy(server) && server.s !in serverIP) &&
            (e.Some? ==> e == Some(KeyError(server.s))) &&
            (e.None? ==>
               ("serverIP" in c <==> "serverIP" in config || Truthy(server)) &&
               ("serverIP" in config ==> c["serverIP"] == config["serverIP"]) &&
               ("serverIP" !in config && Truthy(server) ==> c["serverIP"] == CStr(serverIP[server.s])) &&
               ("controlPath" in config ==> "controlPath" in c && c["controlPath"] == config["controlPath"])) &&
            (forall k :: k in config && k != "server" ==> k in c && c[k] == config[k]) &&
            (forall k :: k in c ==> k in config || k in {"server", "serverIP", "controlPath"})
  { }

  lemma PlaceAllStep(f: Conf, serverIP: map<string, string>, connections: map<string, string>,
                     info: map<string, Config>, ctr: Counters, nodes: seq<string>, picks: seq<nat>)
    requires f.Valid() && |picks| == |nodes| && Picks(f, picks) && nodes != []
    requires forall n :: n in nodes ==> n in info
    ensures var k := |nodes| - 1;
            var prev := PlaceAll(f, serverIP, connections, info, ctr, nodes[..k], picks[..k]);
            PlaceAll(f, serverIP, connections, info, ctr, nodes, picks) ==
              if prev.err.Some? then prev
              else PlaceNode(f, serverIP, connections, prev, nodes[k], picks[k])
  { }

  /** The loop touches only the dicts of the nodes it visits. */
  lemma {:induction false} PlaceAllFrame(f: Conf, serverIP: map<string, string>,
                                         connections: map<string, string>, info: map<string, Config>,
                                         ctr: Counters, nodes: seq<string>, picks: seq<nat>)
    requires f.Valid() && |picks| == |nodes| && Picks(f, picks)
    requires forall n :: n in nodes ==> n in info
    ensures var r := PlaceAll(f, serverIP, connections, info, ctr, nodes, picks);
            forall n :: n in info && n !in nodes ==> r.info[n] == info[n]
  {
    if nodes != [] {
      var k := |nodes| - 1;
      var init := nodes[..k];
      forall n | n in init ensures n in nodes && n in info { assert n in nodes; }
      PlaceAllFrame(f, serverIP, connections, info, ctr, init, picks[..k]);
      PlaceAllStep(f, serverIP, connections, info, ctr, nodes, picks);
      forall n | n in info && n !in nodes ensures n !in init { }
    }
  }

  /** The whole loop, for distinct node names: it calls placer.place once
      for every node, in order, whatever server a node already names, so
      the placer ends where a run over all the nodes leaves it; each node's
      dict is NodeAfter of its own dict and the placer's answer for it; and
      it succeeds exactly when every place call does and every truthy
      server has an address. */
  lemma {:induction false} PlaceAllCorrect(f: Conf, serverIP: map<string, string>,
                                           connections: map<string, string>, info: map<string, Config>,
                                           ctr: Counters, nodes: seq<string>, picks: seq<nat>)
    requires f.Valid() && |picks| == |nodes| && Picks(f, picks)
    requires forall n :: n in nodes ==> n in info
    requires Distinct(nodes)
    ensures var r := PlaceAll(f, serverIP, connections, info, ctr, nodes, picks);
            var run := PlaceRun(f, ctr, nodes, picks);
            (r.err.None? <==>
               run.0.Ok? &&
               forall i :: 0 <= i < |nodes| ==> NodeAfter(info[nodes[i]], run.0.value[i], serverIP, connections).1.None?) &&
            (r.err.None? ==>
               r.ctr == run.1 &&
               (forall i :: 0 <= i < |nodes| ==>
                  r.info[nodes[i]] == NodeAfter(info[nodes[i]], run.0.value[i], serverIP, connections).0))
  {
    if nodes != [] {
      var k := |nodes| - 1;
      var init := nodes[..k];
      var last := nodes[k];
      assert Distinct(init) by {
        forall a, b | 0 <= a < b < |init| ensures init[a] != init[b] {
          assert init[a] == nodes[a] && init[b] == nodes[b];
        }
      }
      forall n | n in init ensures n in info { assert n in nodes; }
      PlaceAllCorrect(f, serverIP, connections, info, ctr, init, picks[..k]);
      PlaceAllFrame(f, serverIP, connections, info, ctr, init, picks[..k]);
      PlaceAllStep(f, serverIP, connections, info, ctr, nodes, picks);
      PlaceRunStep(f, ctr, nodes, picks);
      var prev := PlaceAll(f, serverIP, connections, info, ctr, init, picks[..k]);
      var run0 := PlaceRun(f, ctr, init, picks[..k]);
      forall i | 0 <= i < k ensures init[i] == nodes[i] && nodes[i] != last { }
      if prev.err.None? {
        assert prev.info[last] == info[last];
        ExtendOk(f, serverIP, connections, info, nodes, picks[k], prev, run0,
                 PlaceAll(f, serverIP, connections, info, ctr, nodes, picks), PlaceRun(f, ctr, nodes, picks));
      } else {
        ExtendErr(f, serverIP, connections, info, nodes, picks[k], prev, run0,
                  PlaceAll(f, serverIP, connections, info, ctr, nodes, picks), PlaceRun(f, ctr, nodes, picks));
      }
    }
  }

  /** The induction step of PlaceAllCorrect, on the states before and after
      the last node, when the loop got that far. */
  lemma ExtendOk(f: Conf, serverIP: map<string, string>, connections: map<string, string>,
               info: map<string, Config>, nodes: seq<string>, pick: nat,
               prev: Placed, run0: (Result<seq<string>, Exc>, Counters),
               r: Placed, run: (Result<seq<string>, Exc>, Counters))
    requires f.Valid() && (f.kind == Random && |f.servers| > 0 ==> pick < |f.servers|)
    requires prev.err.None?
    requires nodes != [] && (forall n :: n in nodes ==> n in info && n in prev.info)
    requires forall i :: 0 <= i < |nodes| - 1 ==> nodes[i] != nodes[|nodes| - 1]
    requires prev.err.None? ==> prev.info[nodes[|nodes| - 1]] == info[nodes[|nodes| - 1]]
    requires run0.0.Ok? ==> |run0.0.value| == |nodes| - 1
    requires prev.err.None? <==>
               run0.0.Ok? &&
               forall i :: 0 <= i < |nodes| - 1 ==> NodeAfter(info[nodes[i]], run0.0.value[i], serverIP, connections).1.None?
    requires prev.err.None? ==>
               prev.ctr == run0.1 &&
               (forall i :: 0 <= i < |nodes| - 1 ==>
                  prev.info[nodes[i]] == NodeAfter(info[nodes[i]], run0.0.value[i], serverIP, connections).0)
    requires r == PlaceNode(f, serverIP, connections, prev, nodes[|nodes| - 1], pick)
    requires run == if run0.0.Err? then run0
                    else
                      var one := PlaceOne(f, run0.1, nodes[|nodes| - 1], pick);
                      if one.0.Err? then (Err(one.0.error), run0.1) else (Ok(run0.0.value + [one.0.value]), one.1)
    ensures run.0.Ok? ==> |run.0.value| == |nodes|
    ensures (r.err.None? <==>
               run.0.Ok? &&
               forall i :: 0 <= i < |nodes| ==> NodeAfter(info[nodes[i]], run.0.value[i], serverIP, connections).1.None?)
    ensures r.err.None? ==>
               r.ctr == run.1 &&
               (forall i :: 0 <= i < |nodes| ==>
                  r.info[nodes[i]] == NodeAfter(info[nodes[i]], run.0.value[i], serverIP, connections).0)
  {
    var k := |nodes| - 1;
    LastNode(f, serverIP, connections, prev, nodes[k], pick, run0);
    if run.0.Ok? {
      forall i | 0 <= i < k ensures run.0.value[i] == run0.0.value[i] { }
    }
  }

  /** ... and when an earlier node raised. */
  lemma ExtendErr(f: Conf, serverIP: map<string, string>, connections: map<string, string>,
               info: map<string, Config>, nodes: seq<string>, pick: nat,
               prev: Placed, run0: (Result<seq<string>, Exc>, Counters),
               r: Placed, run: (Result<seq<string>, Exc>, Counters))
    requires f.Valid() && (f.kind == Random && |f.servers| > 0 ==> pick < |f.servers|)
    requires prev.err.Some?
    requires nodes != [] && (forall n :: n in nodes ==> n in info && n in prev.info)
    requires forall i :: 0 <= i < |nodes| - 1 ==> nodes[i] != nodes[|nodes| - 1]
    requires run0.0.Ok? ==> |run0.0.value| == |nodes| - 1
    requires prev.err.None? <==>
               run0.0.Ok? &&
               forall i :: 0 <= i < |nodes| - 1 ==> NodeAfter(info[nodes[i]], run0.0.value[i], serverIP, connections).1.None?
    requires r == prev
    requires run == if run0.0.Err? then run0
                    else
                      var one := PlaceOne(f, run0.1, nodes[|nodes| - 1], pick);
                      if one.0.Err? then (Err(one.0.error), run0.1) else (Ok(run0.0.value + [one.0.value]), one.1)
    ensures run.0.Ok? ==> |run.0.value| == |nodes|
    ensures (r.err.None? <==>
               run.0.Ok? &&
               forall i :: 0 <= i < |nodes| ==> NodeAfter(info[nodes[i]], run.0.value[i], serverIP, connections).1.None?)
    ensures r.err.Some?
  {
    var k := |nodes| - 1;
    if run0.0.Ok? && run.0.Ok? {
      var i :| 0 <= i < k && NodeAfter(info[nodes[i]], run0.0.value[i], serverIP, connections).1.Some?;
      assert run.0.value[i] == run0.0.value[i];
    }
  }

  /** The last iteration, in terms of the run before it. */
  lemma LastNode(f: Conf, serverIP: map<string, string>, connections: map<string, string>,
                 prev: Placed, last: string, pick: nat, run0: (Result<seq<string>, Exc>, Counters))
    requires f.Valid() && (f.kind == Random && |f.servers| > 0 ==> pick < |f.servers|)
    requires last in prev.info && prev.err.None? && run0.0.Ok? && run0.1 == prev.ctr
    ensures var r := PlaceNode(f, serverIP, connections, prev, last, pick);
            var one := PlaceOne(f, prev.ctr, last, pick);
            (r.err.None? <==> one.0.Ok? && NodeAfter(prev.info[last], one.0.value, serverIP, connections).1.None?) &&
            (r.err.None? ==>
               (r.ctr == one.1 &&
                r.info == prev.info[last := NodeAfter(prev.info[last], one.0.value, serverIP, connections).0]))
  { }

  // ------------------------------------------------------------------
  // addLink (net.py:222-256)
  // ------------------------------------------------------------------

  datatype LVal = LInt(i: int) | LStr(s: string)

  /** A node given by name, or a node object (named here by its name). */
  datatype NodeRef = ByName(name: string) | ByObject(obj: string)

  /** The link object: its class and the arguments it was built with. */
  datatype LinkRec = LinkRec(cls: string, node1: string, node2: string, options: map<string, LVal>)

  /** self[name] for a name; an object passes through. */
  function Resolve(names: set<string>, n: NodeRef): (r: Result<string, Exc>)
    ensures n.ByObject? ==> r == Ok(n.obj)
    ensures n.ByName? ==> (r.Ok? <==> n.name in names) && (r.Ok? ==> r.value == n.name)
    ensures n.ByName? && r.Err? ==> r == Err(KeyError(n.name))
  {
    match n
    case ByObject(o) => Ok(o)
    case ByName(s) => if s in names then Ok(s) else Err(KeyError(s))
  }

  /** dict(params) with the ports that were given, two MAC addresses (from
      randMac) and the tunnelling mechanism set by default. */
  function LinkOptions(params: map<string, LVal>, port1: Option<int>, port2: Option<int>,
                       mac1: string, mac2: string, tunneling: string): map<string, LVal>
  {
    var o1 := if port1.Some? then SetDefault(params, "port1", LInt(port1.value)).0 else params;
    var o2 := if port2.Some? then SetDefault(o1, "port2", LInt(port2.value)).0 else o1;
    var o3 := SetDefault(o2, "addr1", LStr(mac1)).0;
    var o4 := SetDefault(o3, "addr2", LStr(mac2)).0;
    SetDefault(o4, "tunneling", LStr(tunneling)).0
  }

  /** addLink never overrides an option the caller passed and adds only
      the ports, the two addresses and the tunnelling mechanism. */
  lemma LinkOptionsKeep(params: map<string, LVal>, port1: Option<int>, port2: Option<int>,
                        mac1: string, mac2: string, tunneling: string)
    ensures var o := LinkOptions(params, port1, port2, mac1, mac2, tunneling);
            (forall k :: k in params ==> k in o && o[k] == params[k]) &&
            (forall k :: k in o ==> k in params || k in {"port1", "port2", "addr1", "addr2", "tunneling"})
  {
    var o1 := if port1.Some? then SetDefault(params, "port1", LInt(port1.value)).0 else params;
    var o2 := if port2.Some? then SetDefault(o1, "port2", LInt(port2.value)).0 else o1;
    var o3 := SetDefault(o2, "addr1", LStr(mac1)).0;
    var o4 := SetDefault(o3, "addr2", LStr(mac2)).0;
    if port1.Some? { SetDefaultGrows(params, "port1", LInt(port1.value)); }
    if port2.Some? { SetDefaultGrows(o1, "port2", LInt(port2.value)); }
    SetDefaultGrows(o2, "addr1", LStr(mac1));
    SetDefaultGrows(o3, "addr2", LStr(mac2));
    SetDefaultGrows(o4, "tunneling", LStr(tunneling));
  }

  /** It adds a port only when one was given. */
  lemma LinkOptionsPorts(params: map<string, LVal>, port1: Option<int>, port2: Option<int>,
                         mac1: string, mac2: string, tunneling: string)
    ensures var o := LinkOptions(params, port1, port2, mac1, mac2, tunneling);
            ("port1" in o <==> "port1" in params || port1.Some?) &&
            ("port2" in o <==> "port2" in params || port2.Some?) &&
            ("port1" !in params && port1.Some? ==> o["port1"] == LInt(port1.value)) &&
            ("port2" !in params && port2.Some? ==> o["port2"] == LInt(port2.value))
  { }

  /** It always supplies both addresses and the tunnelling mechanism. */
  lemma LinkOptionsDefaults(params: map<string, LVal>, port1: Option<int>, port2: Option<int>,
                            mac1: string, mac2: string, tunneling: string)
    ensures var o := LinkOptions(params, port1, port2, mac1, mac2, tunneling);
            "addr1" in o && "addr2" in o && "tunneling" in o &&
            ("addr1" !in params ==> o["addr1"] == LStr(mac1)) &&
            ("addr2" !in params ==> o["addr2"] == LStr(mac2)) &&
            ("tunneling" !in params ==> o["tunneling"] == LStr(tunneling))
  { }

  /** The link addLink builds, or the KeyError of the first unknown name. */
  function NewLink(names: set<string>, defaultCls: string, tunneling: string, node1: NodeRef, node2: NodeRef,
                   port1: Option<int>, port2: Option<int>, cls: Option<string>, params: map<string, LVal>,
                   mac1: string, mac2: string): Result<LinkRec, Exc>
  {
    match Resolve(names, node1)
    case Err(e) => Err(e)
    case Ok(n1) =>
      match Resolve(names, node2)
      case Err(e) => Err(e)
      case Ok(n2) =>
        Ok(LinkRec(if cls.Some? then cls.value else defaultCls, n1, n2,
                   LinkOptions(params, port1, port2, mac1, mac2, tunneling)))
  }

  /** addLink fails exactly on an unknown node name, node1's first; else it
      links the resolved nodes with the given class, or the network's link
      class when none is given. */
  lemma NewLinkRules(names: set<string>, defaultCls: string, tunneling: string, node1: NodeRef, node2: NodeRef,
                     port1: Option<int>, port2: Option<int>, cls: Option<string>, params: map<string, LVal>,
                     mac1: string, mac2: string)
    ensures var r := NewLink(names, defaultCls, tunneling, node1, node2, port1, port2, cls, params, mac1, mac2);
            (r.Err? <==> Resolve(names, node1).Err? || Resolve(names, node2).Err?) &&
            (Resolve(names, node1).Err? ==> r == Err(Resolve(names, node1).error)) &&
            (Resolve(names, node1).Ok? && Resolve(names, node2).Err? ==> r == Err(Resolve(names, node2).error)) &&
            (r.Ok? ==>
               r.value.node1 == Resolve(names, node1).value && r.value.node2 == Resolve(names, node2).value &&
               r.value.cls == (if cls.None? then defaultCls else cls.value))
  { }

  // ------------------------------------------------------------------
  // The cluster object
  // ------------------------------------------------------------------

  class MininetCluster {
    const servers: seq<string>
    const serverIP: map<string, string>
    const placement: Kind
    const tunneling: string
    const link: string
    const topo: Option<TopoView>
    /** connections[(None, server)]'s control file, by server. */
    var connections: map<string, string>
    /** topo.nodeInfo(node), by node. */
    var info: map<string, Config>
    /** The names self[name] resolves. */
    var names: set<string>
    var links: seq<LinkRec>

    /** The defaults __init__ applies; `find` stands for findServerIP, which
        asks the server over ssh.  `link` is the keyword passed on to
        Mininet.__init__ through params, RemoteLink when none is given. */
    constructor (servers: Option<seq<Option<string>>>, serverIP: Option<map<string, string>>,
                 find: string -> string, placement: Option<Kind>, tunneling: Option<string>,
                 link: Option<string>, topo: Option<TopoView>, info: map<string, Config>, names: set<string>)
      ensures this.servers == ServerList(servers)
      ensures this.serverIP == ServerIPs(serverIP, this.servers, find)
      ensures this.placement == (if placement.Some? then placement.value else SwitchBin)
      ensures this.tunneling == (if tunneling.Some? then tunneling.value else "ssh")
      ensures this.link == (if link.Some? then link.value else "RemoteLink")
      ensures this.topo == topo && this.info == info && this.names == names
      ensures connections == map[] && links == []
    {
      this.servers := ServerList(servers);
      this.serverIP := ServerIPs(serverIP, ServerList(servers), find);
      this.placement := if placement.Some? then placement.value else SwitchBin;
      this.tunneling := if tunneling.Some? then tunneling.value else "ssh";
      this.link := if link.Some? then link.value else "RemoteLink";
      this.topo := topo;
      this.info := info;
      this.names := names;
      connections := map[];
      links := [];
    }

    ghost predicate Valid() reads this {
      topo.Some? ==> forall n :: n in topo.value.nodes ==> n in info
    }

    /** placeNodes; picks[k] is what randrange returns for the k-th node
        under RandomPlacer. */
    method PlaceNodes(picks: seq<nat>) returns (err: Option<Exc>)
      requires Valid()
      requires topo.Some? ==> |picks| == |topo.value.nodes|
      requires placement == Random ==> forall k :: 0 <= k < |picks| ==> picks[k] < |servers|
      modifies this
      ensures var r := PlaceNodesSpec(servers, placement, topo, serverIP, old(connections), old(info), picks);
              info == r.info && err == r.err
      ensures connections == old(connections) && names == old(names) && links == old(links)
    {
      if servers == [] || topo.None? {
        return None;
      }
      var t := topo.value;
      var placer := new Placer(placement, servers, t.nodes, t.hosts, t.switches, [], t.links);
      SpecCases(servers, placement, topo, serverIP, connections, info, picks);
      if placer.raised.Some? {
        return placer.raised;
      }
      err := RunLoop(placer, placer.Setup(), t.nodes, picks);
    }

    /** The loop over nodes with a placer that was built. */
    method RunLoop(placer: Placer, f: Conf, nodes: seq<string>, picks: seq<nat>) returns (err: Option<Exc>)
      requires placer.Setup() == f && placer.raised == None && f.Valid()
      requires placer.Progress() == Counters(0, 0, 0, 0)
      requires |picks| == |nodes| && Picks(f, picks) && forall n :: n in nodes ==> n in info
      modifies this, placer
      ensures var r := PlaceAll(f, serverIP, old(connections), old(info), Counters(0, 0, 0, 0), nodes, picks);
              info == r.info && err == r.err
      ensures connections == old(connections) && names == old(names) && links == old(links)
    {
      var i := 0;
      err := None;
      assert nodes[..0] == [] && picks[..0] == [];
      while i < |nodes|
        invariant i <= |nodes|
        invariant placer.Setup() == f && placer.raised == None
        invariant connections == old(connections) && names == old(names) && links == old(links)
        invariant Going(f, old(info), nodes, picks, i, placer) && err.None?
      {
        err := Advance(placer, f, nodes, picks, i, old(info));
        if err.Some? {
          PlaceAllStop(f, serverIP, connections, old(info), nodes, picks, i + 1);
          return;
        }
        i := i + 1;
      }
      assert nodes[..i] == nodes && picks[..i] == picks;
    }

    /** placeNodes after i nodes, none of which raised. */
    ghost predicate Going(f: Conf, info0: map<string, Config>, nodes: seq<string>, picks: seq<nat>,
                          i: nat, placer: Placer)
      reads this, placer
    {
      f.Valid() && i <= |nodes| && |picks| == |nodes| && Picks(f, picks) &&
      (forall n :: n in nodes ==> n in info0) &&
      var r := PlaceAll(f, serverIP, connections, info0, Counters(0, 0, 0, 0), nodes[..i], picks[..i]);
      r.err.None? && info == r.info && placer.Progress() == r.ctr
    }

    /** Iteration i of placeNodes. */
    method Advance(placer: Placer, f: Conf, nodes: seq<string>, picks: seq<nat>, i: nat,
                   ghost info0: map<string, Config>) returns (err: Option<Exc>)
      requires placer.Setup() == f && placer.raised == None && i < |nodes|
      requires Going(f, info0, nodes, picks, i, placer)
      modifies this, placer
      ensures placer.Setup() == f
      ensures connections == old(connections) && names == old(names) && links == old(links)
      ensures err.None? ==> Going(f, info0, nodes, picks, i + 1, placer)
      ensures err.Some? ==>
                var r := PlaceAll(f, serverIP, connections, info0, Counters(0, 0, 0, 0), nodes[..i + 1], picks[..i + 1]);
                r.err == err && r.info == info
      ensures forall n :: n in old(info) ==> n in info
    {
      ghost var st := Placed(info, placer.Progress(), None);
      assert nodes[..i + 1][..i] == nodes[..i] && picks[..i + 1][..i] == picks[..i];
      PlaceAllStep(f, serverIP, connections, info0, Counters(0, 0, 0, 0), nodes[..i + 1], picks[..i + 1]);
      assert nodes[i] in info0;
      assert picks[i] == picks[..i + 1][i];
      err := PlaceOneNode(placer, nodes[i], picks[i], st);
    }

    /** One iteration of placeNodes. */
    method PlaceOneNode(placer: Placer, node: string, pick: nat, ghost st: Placed) returns (err: Option<Exc>)
      requires placer.raised == None && placer.Setup().Valid() && node in info
      requires placer.kind == Random && |placer.servers| > 0 ==> pick < |placer.servers|
      requires st == Placed(info, placer.Progress(), None)
      modifies this, placer
      ensures var r := PlaceNode(placer.Setup(), serverIP, connections, st, node, pick);
              info == r.info && err == r.err && (err.None? ==> placer.Progress() == r.ctr)
      ensures connections == old(connections) && names == old(names) && links == old(links)
      ensures forall n :: n in old(info) ==> n in info
    {
      var config := info[node];
      if "server" in config && config["server"] == CNone {
        config := config["server" := CStr("localhost")];
      }
      var placed := placer.Place(node, pick);
      if placed.Err? {
        info := info[node := config];
        return Some(placed.error);
      }
      var e;
      config, e := ConfigureNode(config, placed.value);
      info := info[node := config];
      return e;
    }

    /** The part of one iteration after the placer answered. */
    method ConfigureNode(config0: Config, placed: string) returns (config: Config, err: Option<Exc>)
      ensures (config, err) == Configure(config0, placed, serverIP, connections)
    {
      var server;
      config, server := SetDefault(config0, "server", CStr(placed)).0, SetDefault(config0, "server", CStr(placed)).1;
      if Truthy(server) {
        if server.s !in serverIP {
          return config, Some(KeyError(server.s));
        }
        config := SetDefault(config, "serverIP", CStr(serverIP[server.s])).0;
      }
      var cfile := if server.CStr? && server.s in connections then connections[server.s] else "";
      if cfile != "" {
        config := SetDefault(config, "controlPath", CStr(cfile)).0;
      }
      return config, None;
    }

    /** addLink; mac1 and mac2 are the two randMac() results. */
    method AddLink(node1: NodeRef, node2: NodeRef, port1: Option<int>, port2: Option<int>,
                   cls: Option<string>, params: map<string, LVal>, mac1: string, mac2: string)
        returns (r: Result<LinkRec, Exc>)
      modifies this
      ensures r == NewLink(names, link, tunneling, node1, node2, port1, port2, cls, params, mac1, mac2)
      ensures links == if r.Ok? then old(links) + [r.value] else old(links)
      ensures info == old(info) && connections == old(connections) && names == old(names)
    {
      var n1 := Resolve(names, node1);
      if n1.Err? {
        return Err(n1.error);
      }
      var n2 := Resolve(names, node2);
      if n2.Err? {
        return Err(n2.error);
      }
      var options := LinkOptions(params, port1, port2, mac1, mac2, tunneling);
      var c := if cls.None? then link else cls.value;
      var l := LinkRec(c, n1.value, n2.value, options);
      links := links + [l];
      return Ok(l);
    }
  }

  /** The loop's preconditions hold of every prefix. */
  lemma PlaceAllPrefix(f: Conf, info: map<string, Config>, nodes: seq<string>, picks: seq<nat>, k: nat)
    requires |picks| == |nodes| && Picks(f, picks)
    requires forall n :: n in nodes ==> n in info
    requires k <= |nodes|
    ensures |picks[..k]| == |nodes[..k]| && Picks(f, picks[..k])
    ensures forall n :: n in nodes[..k] ==> n in info
  {
    assert forall n :: n in nodes[..k] ==> n in nodes;
  }

  /** An exception in the prefix is the result of one more iteration. */
  lemma PlaceAllKeep(f: Conf, serverIP: map<string, string>, connections: map<string, string>,
                     info: map<string, Config>, a: seq<string>, pa: seq<nat>, b: seq<string>, pb: seq<nat>)
    requires f.Valid() && |pa| == |a| && Picks(f, pa) && a != []
    requires forall n :: n in a ==> n in info
    requires b == a[..|a| - 1] && pb == pa[..|a| - 1]
    requires |pb| == |b| && Picks(f, pb) && forall n :: n in b ==> n in info
    requires PlaceAll(f, serverIP, connections, info, Counters(0, 0, 0, 0), b, pb).err.Some?
    ensures PlaceAll(f, serverIP, connections, info, Counters(0, 0, 0, 0), a, pa) ==
            PlaceAll(f, serverIP, connections, info, Counters(0, 0, 0, 0), b, pb)
  {
    PlaceAllStep(f, serverIP, connections, info, Counters(0, 0, 0, 0), a, pa);
  }

  /** An exception at iteration k ends the loop with it. */
  lemma PlaceAllStop(f: Conf, serverIP: map<string, string>, connections: map<string, string>,
                     info: map<string, Config>, nodes: seq<string>, picks: seq<nat>, k: nat)
    requires f.Valid() && |picks| == |nodes| && Picks(f, picks)
    requires forall n :: n in nodes ==> n in info
    requires k <= |nodes|
    requires PlaceAll(f, serverIP, connections, info, Counters(0, 0, 0, 0), nodes[..k], picks[..k]).err.Some?
    ensures PlaceAll(f, serverIP, connections, info, Counters(0, 0, 0, 0), nodes, picks) ==
            PlaceAll(f, serverIP, connections, info, Counters(0, 0, 0, 0), nodes[..k], picks[..k])
    decreases |nodes| - k
  {
    if k < |nodes| {
      var a, pa := nodes[..k + 1], picks[..k + 1];
      PlaceAllPrefix(f, info, nodes, picks, k + 1);
      PlaceAllPrefix(f, info, a, pa, k);
      assert a[..k] == nodes[..k] && pa[..k] == picks[..k];
      PlaceAllKeep(f, serverIP, connections, info, a, pa, nodes[..k], picks[..k]);
      PlaceAllStop(f, serverIP, connections, info, nodes, picks, k + 1);
    } else {
      assert nodes[..k] == nodes && picks[..k] == picks;
    }
  }
}
