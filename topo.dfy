// Topo of mininet/topo.py: a MultiGraph of hosts, switches and links, the
// default option dictionaries for each kind, and the legacy port map
// ports[src][sport] = (dst, dport).  The pure functions below give each
// operation's effect on the whole state; the Topo class performs them in
// place.
module Topo {
  import opened Wrappers
  import opened Text
  import opened Util
  import opened Graph

  type PortRow = map<int, (string, int)>
  type Ports = map<string, PortRow>

  datatype State = State(g: G, hopts: Opts, sopts: Opts, lopts: Opts, ports: Ports)

  /** A state after an operation that may raise part-way. */
  datatype Outcome<T> = Outcome(st: State, r: Result<T, Exc>)

  /** Python's truth value of an attribute. */
  predicate Truthy(v: Val) {
    match v
      case VStr(s) => s != []
      case VInt(i) => i != 0
      case VBool(b) => b
  }

  /** g.node[n].get('isSwitch', False), as a truth value. */
  predicate SwitchAttrs(attrs: Opts) {
    "isSwitch" in attrs && Truthy(attrs["isSwitch"])
  }

  /** isSwitch(n): a KeyError for an unknown node. */
  function IsSwitch(st: State, n: string): Result<bool, Exc> {
    if n in st.g.node then Ok(SwitchAttrs(st.g.node[n])) else Err(KeyError(n))
  }

  /** `if not opts and default: opts = default` */
  function OrDefault(opts: Opts, default: Opts): (r: Opts)
    ensures r == opts || (opts == map[] && r == default)
  {
    if opts == map[] && default != map[] then default else opts
  }

  // ---------------------------------------------------------- nodes

  /**
   * The exception addNode(name, **opts) raises before anything is added:
   * a 'name' or 'self' keyword collides with addNode's parameters and a
   * 'node' keyword with add_node's (TypeError); an 'attr_dict' keyword
   * becomes add_node's attribute dictionary, and no option value (a str,
   * int or bool) has the update() it then calls (AttributeError).
   */
  function KwargClash(opts: Opts): Option<Exc> {
    if "name" in opts || "self" in opts || "node" in opts then Some(TypeError)
    else if "attr_dict" in opts then Some(AttributeError)
    else None
  }

  /** addNode(name, **opts): the graph's node gets exactly opts, unless a keyword clashes. */
  function NodeAdded(st: State, name: string, opts: Opts): (r: Result<State, Exc>)
    ensures r.Err? <==> "name" in opts || "self" in opts || "node" in opts || "attr_dict" in opts
    ensures r.Err? ==> r.error == (if "attr_dict" in opts && "name" !in opts && "self" !in opts && "node" !in opts
                                   then AttributeError else TypeError)
    ensures r.Ok? ==> r.value.g.node.Keys == st.g.node.Keys + {name} && r.value.g.node[name] == opts
    ensures r.Ok? ==> forall n :: n in st.g.node && n != name ==> r.value.g.node[n] == st.g.node[n]
    ensures r.Ok? ==> r.value.(g := st.g) == st && r.value.g.edge == st.g.edge
  {
    match KwargClash(opts)
    case Some(e) => Err(e)
    case None => Ok(st.(g := WithNode(st.g, name, opts)))
  }

  /** addHost: the host options replace empty options. */
  function HostAdded(st: State, name: string, opts: Opts): (r: Result<State, Exc>)
    ensures r.Ok? ==> name in r.value.g.node && r.value.g.node[name] == (if opts == map[] then st.hopts else opts)
  {
    NodeAdded(st, name, OrDefault(opts, st.hopts))
  }

  /**
   * addSwitch: the switch options replace empty options and isSwitch=True
   * is added; an isSwitch keyword among the options is a TypeError.
   */
  function SwitchAdded(st: State, name: string, opts: Opts): (r: Result<State, Exc>)
    ensures r.Ok? ==> name in r.value.g.node && SwitchAttrs(r.value.g.node[name])
    ensures r.Ok? ==> "isSwitch" !in OrDefault(opts, st.sopts)
    ensures r.Ok? ==> r.value.g.node[name] == OrDefault(opts, st.sopts)["isSwitch" := VBool(true)]
  {
    var o := OrDefault(opts, st.sopts);
    if "isSwitch" in o then Err(TypeError) else NodeAdded(st, name, o["isSwitch" := VBool(true)])
  }

  // ---------------------------------------------------------- ports

  /** ports.setdefault(n, {}) */
  function PortsOf(ports: Ports, n: string): PortRow {
    if n in ports then ports[n] else map[]
  }

  /** The default port of n: its number of ports, plus 1 on a switch. */
  function NextPort(st: State, ports: Ports, n: string): (r: Result<int, Exc>)
    ensures r.Err? <==> n !in st.g.node
    ensures r.Ok? ==> r.value == |PortsOf(ports, n)| + (if SwitchAttrs(st.g.node[n]) then 1 else 0)
  {
    match IsSwitch(st, n)
      case Err(e) => Err(e)
      case Ok(sw) => Ok(|PortsOf(ports, n)| + (if sw then 1 else 0))
  }

  /** ports.setdefault(src, {}); ports.setdefault(dst, {}) */
  function SetDefaults(ports: Ports, src: string, dst: string): (p: Ports)
    ensures p.Keys == ports.Keys + {src, dst}
    ensures forall n :: n in ports ==> p[n] == ports[n]
    ensures PortsOf(p, src) == PortsOf(ports, src) && PortsOf(p, dst) == PortsOf(ports, dst)
  {
    var p1 := ports[src := PortsOf(ports, src)];
    p1[dst := PortsOf(p1, dst)]
  }

  /** The given port number, or the node's default. */
  function PortChoice(st: State, ports: Ports, n: string, given: Option<int>): Result<int, Exc> {
    if given.Some? then Ok(given.value) else NextPort(st, ports, n)
  }

  /** ports[src][sport] = (dst, dport); ports[dst][dport] = (src, sport) */
  function Record(p: Ports, src: string, dst: string, sp: int, dp: int): (r: Ports)
    requires src in p && dst in p
    ensures r.Keys == p.Keys
  {
    var p3 := p[src := p[src][sp := (dst, dp)]];
    p3[dst := p3[dst][dp := (src, sp)]]
  }

  /**
   * addPort(src, dst, sport, dport): both rows are created first; a missing
   * port number is the default of its node, which raises KeyError for a
   * node the graph does not have; then each side records the other.
   */
  function PortAdded(st: State, src: string, dst: string, sport: Option<int>, dport: Option<int>)
    : (o: Outcome<(int, int)>)
  {
    var p := SetDefaults(st.ports, src, dst);
    var s := PortChoice(st, p, src, sport);
    var d := PortChoice(st, p, dst, dport);
    if s.Err? then Outcome(st.(ports := p), Err(s.error))
    else if d.Err? then Outcome(st.(ports := p), Err(d.error))
    else Outcome(st.(ports := Record(p, src, dst, s.value, d.value)), Ok((s.value, d.value)))
  }

  /**
   * addPort touches only the port map, always creates both rows, and fails
   * exactly when a default port is needed for a node the graph lacks.
   */
  lemma PortAddedShape(st: State, src: string, dst: string, sport: Option<int>, dport: Option<int>)
    ensures var o := PortAdded(st, src, dst, sport, dport);
      o.st.(ports := st.ports) == st
      && o.st.ports.Keys == st.ports.Keys + {src, dst}
      && (o.r.Err? <==> (sport.None? && src !in st.g.node) || (dport.None? && dst !in st.g.node))
      && (o.r.Err? ==> forall n :: n in st.ports ==> o.st.ports[n] == st.ports[n])
  {
    var p := SetDefaults(st.ports, src, dst);
    var s := PortChoice(st, p, src, sport);
    var d := PortChoice(st, p, dst, dport);
    var o := PortAdded(st, src, dst, sport, dport);
    assert s.Err? <==> sport.None? && src !in st.g.node;
    assert d.Err? <==> dport.None? && dst !in st.g.node;
    if s.Err? || d.Err? {
      assert o.st == st.(ports := p);
    } else {
      assert o.st == st.(ports := Record(p, src, dst, s.value, d.value));
    }
  }

  /** A missing port number defaults to the node's port count, plus 1 on a switch. */
  lemma PortDefaults(st: State, src: string, dst: string, sport: Option<int>, dport: Option<int>)
    ensures var o := PortAdded(st, src, dst, sport, dport);
      o.r.Ok? ==>
        o.r.value.0 == (if sport.Some? then sport.value
                        else |PortsOf(st.ports, src)| + (if SwitchAttrs(st.g.node[src]) then 1 else 0))
        && o.r.value.1 == (if dport.Some? then dport.value
                           else |PortsOf(st.ports, dst)| + (if SwitchAttrs(st.g.node[dst]) then 1 else 0))
  {
  }

  /** A successful addPort writes the two chosen ports into the defaulted rows. */
  lemma PortsRecorded(st: State, src: string, dst: string, sport: Option<int>, dport: Option<int>)
    ensures var o := PortAdded(st, src, dst, sport, dport);
      o.r.Ok? ==> o.st.ports == Record(SetDefaults(st.ports, src, dst), src, dst, o.r.value.0, o.r.value.1)
  {
    var p := SetDefaults(st.ports, src, dst);
    var s := PortChoice(st, p, src, sport);
    var d := PortChoice(st, p, dst, dport);
    if s.Ok? && d.Ok? {
      assert PortAdded(st, src, dst, sport, dport) == Outcome(st.(ports := Record(p, src, dst, s.value, d.value)), Ok((s.value, d.value)));
    }
  }

  /**
   * After addPort each side records the other, ports[src][sport] = (dst, dport)
   * and ports[dst][dport] = (src, sport), and every other port is as it was.
   */
  lemma PortsSymmetric(st: State, src: string, dst: string, sport: Option<int>, dport: Option<int>)
    ensures var o := PortAdded(st, src, dst, sport, dport);
      o.r.Ok? ==> var (sp, dp) := o.r.value;
        o.st.ports[src][sp] == (dst, dp) && o.st.ports[dst][dp] == (src, sp)
        && (forall n, q :: n in o.st.ports && q in o.st.ports[n] ==>
              (n == src && q == sp) || (n == dst && q == dp) || (n in st.ports && q in st.ports[n]))
        && (forall n, q :: n in st.ports && q in st.ports[n] && !(n == src && q == sp) && !(n == dst && q == dp) ==>
              q in o.st.ports[n] && o.st.ports[n][q] == st.ports[n][q])
  {
    var o := PortAdded(st, src, dst, sport, dport);
    if o.r.Ok? {
      RecordEffect(SetDefaults(st.ports, src, dst), st.ports, src, dst, o.r.value.0, o.r.value.1);
    }
  }

  lemma RecordEffect(p: Ports, before: Ports, src: string, dst: string, sp: int, dp: int)
    requires p.Keys == before.Keys + {src, dst} && forall n :: n in before ==> p[n] == before[n]
    requires PortsOf(p, src) == PortsOf(before, src) && PortsOf(p, dst) == PortsOf(before, dst)
    ensures var r := Record(p, src, dst, sp, dp);
      r[src][sp] == (dst, dp) && r[dst][dp] == (src, sp)
      && (forall n, q :: n in r && q in r[n] ==>
            (n == src && q == sp) || (n == dst && q == dp) || (n in before && q in before[n]))
      && (forall n, q :: n in before && q in before[n] && !(n == src && q == sp) && !(n == dst && q == dp) ==>
            q in r[n] && r[n][q] == before[n][q])
  {
  }

  // ---------------------------------------------------------- links

  /** dict(opts) updated with node1, node2, port1, port2. */
  function LinkOpts(opts: Opts, node1: string, node2: string, port1: int, port2: int): Opts {
    opts["node1" := VStr(node1)]["node2" := VStr(node2)]["port1" := VInt(port1)]["port2" := VInt(port2)]
  }

  /**
   * addLink(node1, node2, port1, port2, key, **opts): the link options
   * replace empty options, the ports are allocated, and the edge records
   * both names and both ports; the result is the edge key.
   */
  ghost function LinkAdded(st: State, node1: string, node2: string, port1: Option<int>, port2: Option<int>,
                           key: Option<EKey>, opts: Opts): (o: Outcome<EKey>)
    ensures o.r.Err? <==> PortAdded(st, node1, node2, port1, port2).r.Err?
    ensures o.st.ports == PortAdded(st, node1, node2, port1, port2).st.ports
    ensures o.st.(g := st.g, ports := st.ports) == st
    ensures o.r.Err? ==> o.st.g == st.g
    ensures o.r.Ok? ==> o.r.value == ChosenKey(st.g, node1, node2, key)
  {
    var p := PortAdded(st, node1, node2, port1, port2);
    match p.r
      case Err(e) => Outcome(p.st, Err(e))
      case Ok((sp, dp)) =>
        var k := ChosenKey(st.g, node1, node2, key);
        var info := LinkOpts(OrDefault(opts, st.lopts), node1, node2, sp, dp);
        Outcome(p.st.(g := WithEdge(st.g, node1, node2, k, info)), Ok(k))
  }

  /** The attributes addLink gives the edge once the ports are allocated. */
  ghost function AddedInfo(st: State, a: string, b: string, port1: Option<int>, port2: Option<int>, opts: Opts): Opts
    requires PortAdded(st, a, b, port1, port2).r.Ok?
  {
    var pr := PortAdded(st, a, b, port1, port2).r.value;
    LinkOpts(OrDefault(opts, st.lopts), a, b, pr.0, pr.1)
  }

  /** A successful addLink adds its edge, which names both ends in the given order. */
  lemma LinkAddedGraph(st: State, a: string, b: string, port1: Option<int>, port2: Option<int>, key: Option<EKey>, opts: Opts)
    ensures var o := LinkAdded(st, a, b, port1, port2, key, opts);
      o.r.Ok? ==> o.st.g == WithEdge(st.g, a, b, o.r.value, AddedInfo(st, a, b, port1, port2, opts))
                  && Ends(AddedInfo(st, a, b, port1, port2, opts)) == Some((a, b))
  {
    var p := PortAdded(st, a, b, port1, port2);
    if p.r.Ok? {
      var info := AddedInfo(st, a, b, port1, port2, opts);
      PortAddedShape(st, a, b, port1, port2);
      assert p.st.g == st.g;
      LinkOptsEnds(OrDefault(opts, st.lopts), a, b, p.r.value.0, p.r.value.1);
    }
  }

  /** The link options name both ends, node1 first. */
  lemma LinkOptsEnds(opts: Opts, a: string, b: string, p1: int, p2: int)
    ensures Ends(LinkOpts(opts, a, b, p1, p2)) == Some((a, b))
  {
    assert "node1" != "node2" && "node1" != "port1" && "node1" != "port2";
    assert "node2" != "port1" && "node2" != "port2";
  }

  /** A fresh ordinal key is none of the pair's keys. */
  lemma FreshKeyNotIn(g: G, a: string, b: string)
    ensures ChosenKey(g, a, b, None) !in EntryOf(g, a, b)
  {
    var k := ChosenKey(g, a, b, None);
    assert IsNextKey(EntryOf(g, a, b), k.n);
  }

  /** A fresh ordinal key never collides with the pair's existing keys. */
  lemma FreshKeyIsNew(g: G, a: string, b: string)
    requires Shared(g)
    ensures Orient(a, b, ChosenKey(g, a, b, None)) !in Edges(g)
  {
    var k := ChosenKey(g, a, b, None);
    assert k !in EntryOf(g, a, b);
    EntrySymmetric(g, a, b);
    assert (b, a, k) in Edges(g) ==> k in EntryOf(g, b, a);
  }

  /** Every addLink with no key adds exactly one edge to the listing. */
  lemma LinkAddedCounts(st: State, a: string, b: string, port1: Option<int>, port2: Option<int>, opts: Opts)
    requires Shared(st.g)
    ensures var o := LinkAdded(st, a, b, port1, port2, None, opts);
      Shared(o.st.g)
      && (o.r.Ok? ==> Edges(o.st.g) == Edges(st.g) + {Orient(a, b, o.r.value)}
                      && |Edges(o.st.g)| == |Edges(st.g)| + 1)
  {
    var o := LinkAdded(st, a, b, port1, port2, None, opts);
    if o.r.Ok? {
      var info := AddedInfo(st, a, b, port1, port2, opts);
      LinkAddedGraph(st, a, b, port1, port2, None, opts);
      AddEdgeShared(st.g, a, b, o.r.value, info);
      EdgesAfterAddEdge(st.g, a, b, o.r.value, info);
      FreshKeyIsNew(st.g, a, b);
    }
  }

  /** info['node1'], info['node2'] of an edge made by addLink. */
  function Ends(info: Opts): Option<(string, string)> {
    if "node1" in info && "node2" in info && info["node1"].VStr? && info["node2"].VStr?
    then Some((info["node1"].s, info["node2"].s))
    else None
  }

  /** The attributes of an edge triple. */
  function InfoAt(g: G, t: (string, string, EKey)): Opts {
    var e := EntryOf(g, t.0, t.1);
    if t.2 in e then e[t.2] else map[]
  }

  /** links(withKeys=True): (node1, node2, key) of every listed edge. */
  function Links(g: G): set<(string, string, EKey)> {
    set t | t in Edges(g) && Ends(InfoAt(g, t)).Some? ::
      (Ends(InfoAt(g, t)).value.0, Ends(InfoAt(g, t)).value.1, t.2)
  }

  /**
   * A new link is listed once, with the endpoints in the order addLink was
   * given them, whichever orientation edges_iter walks it in.
   */
  lemma LinksAfterAddLink(st: State, a: string, b: string, port1: Option<int>, port2: Option<int>, opts: Opts)
    requires Shared(st.g)
    ensures var o := LinkAdded(st, a, b, port1, port2, None, opts);
      o.r.Ok? ==> Links(o.st.g) == Links(st.g) + {(a, b, o.r.value)}
  {
    var o := LinkAdded(st, a, b, port1, port2, None, opts);
    if o.r.Ok? {
      LinkAddedGraph(st, a, b, port1, port2, None, opts);
      FreshKeyNotIn(st.g, a, b);
      LinksAfterEdge(st.g, a, b, o.r.value, AddedInfo(st, a, b, port1, port2, opts));
    }
  }

  lemma LinksAfterEdge(g: G, a: string, b: string, k: EKey, info: Opts)
    requires Shared(g) && k !in EntryOf(g, a, b) && Ends(info) == Some((a, b))
    ensures Links(WithEdge(g, a, b, k, info)) == Links(g) + {(a, b, k)}
  {
    var g2 := WithEdge(g, a, b, k, info);
    AddEdgeShared(g, a, b, k, info);
    EdgesAfterAddEdge(g, a, b, k, info);
    assert InfoAt(g2, Orient(a, b, k)) == info by {
      EntrySymmetric(g2, a, b);
    }
    InfoKept(g, a, b, k, info);
    LinksFromEdges(g, g2, Orient(a, b, k), (a, b, k));
  }

  /**
   * One more edge triple whose attributes name (a, b, k), the others
   * keeping theirs, adds (a, b, k) to the links.
   */
  lemma LinksFromEdges(g: G, g2: G, t: (string, string, EKey), l: (string, string, EKey))
    requires Edges(g2) == Edges(g) + {t}
    requires Ends(InfoAt(g2, t)) == Some((l.0, l.1)) && t.2 == l.2
    requires forall u :: u in Edges(g) ==> InfoAt(g2, u) == InfoAt(g, u)
    ensures Links(g2) == Links(g) + {l}
  {
    forall x | x in Links(g2) ensures x in Links(g) + {l} {
      var u :| u in Edges(g2) && Ends(InfoAt(g2, u)).Some? &&
        x == (Ends(InfoAt(g2, u)).value.0, Ends(InfoAt(g2, u)).value.1, u.2);
      if u != t {
        assert u in Edges(g);
      }
    }
    forall x | x in Links(g) + {l} ensures x in Links(g2) {
      if x in Links(g) {
        var u :| u in Edges(g) && Ends(InfoAt(g, u)).Some? &&
          x == (Ends(InfoAt(g, u)).value.0, Ends(InfoAt(g, u)).value.1, u.2);
        assert u in Edges(g2);
      } else {
        assert t in Edges(g2);
      }
    }
  }

  /** Adding a key leaves the attributes of every existing edge as they were. */
  lemma InfoKept(g: G, a: string, b: string, k: EKey, info: Opts)
    requires Shared(g) && k !in EntryOf(g, a, b)
    ensures forall t :: t in Edges(g) ==> InfoAt(WithEdge(g, a, b, k, info), t) == InfoAt(g, t)
  {
    var g2 := WithEdge(g, a, b, k, info);
    forall t | t in Edges(g) ensures InfoAt(g2, t) == InfoAt(g, t) {
      if (t.0 == a && t.1 == b) || (t.0 == b && t.1 == a) {
        EntrySymmetric(g, a, b);
        AddEdgeShared(g, a, b, k, info);
        EntrySymmetric(g2, a, b);
        assert t.2 in EntryOf(g, t.0, t.1);
      } else {
        AddEdgeOthers(g, a, b, k, info, t.0, t.1);
      }
    }
  }

  // ---------------------------------------------------------- port()

  /** port(src, dst): one pair, or the list of them when there are none or several. */
  datatype PortAnswer = One(pair: (int, int)) | Many(pairs: set<(int, int)>)

  /** (sport, dport) for every port of src leading to dst. */
  function Pairs(row: PortRow, dst: string): set<(int, int)> {
    set sp | sp in row && row[sp].0 == dst :: (sp, row[sp].1)
  }

  lemma SingletonUnique<T>(s: set<T>, x: T, y: T)
    requires |s| == 1 && x in s && y in s
    ensures x == y
  {
    assert |s - {x}| == 0;
    assert y in s - {x} || y == x;
  }

  ghost function PortOf(st: State, src: string, dst: string): (r: Result<PortAnswer, Exc>)
    ensures r.Err? <==> src !in st.ports
    ensures r.Ok? && r.value.One? ==> var (sp, dp) := r.value.pair;
      sp in st.ports[src] && st.ports[src][sp] == (dst, dp)
      && forall q :: q in st.ports[src] && st.ports[src][q].0 == dst ==> q == sp
    ensures r.Ok? && r.value.Many? ==> r.value.pairs == Pairs(st.ports[src], dst) && |r.value.pairs| != 1
  {
    if src !in st.ports then Err(KeyError(src))
    else
      var row := st.ports[src];
      var ps := Pairs(row, dst);
      if |ps| == 1 then
        var p :| p in ps;
        assert forall q :: q in row && row[q].0 == dst ==> q == p.0 by {
          forall q | q in row && row[q].0 == dst ensures q == p.0 {
            SingletonUnique(ps, p, (q, row[q].1));
          }
        }
        Ok(One(p))
      else Ok(Many(ps))
  }

  /** A single port of src leading to dst is what port() answers. */
  lemma PortOfUnique(st: State, src: string, dst: string, sp: int, dp: int)
    requires src in st.ports && sp in st.ports[src] && st.ports[src][sp] == (dst, dp)
    requires forall q :: q in st.ports[src] && st.ports[src][q].0 == dst ==> q == sp
    ensures PortOf(st, src, dst) == Ok(One((sp, dp)))
  {
    var ps := Pairs(st.ports[src], dst);
    assert ps == {(sp, dp)};
  }

  // ---------------------------------------------------------- linkInfo()

  /** Python 2 order on edge keys: numbers before strings. */
  predicate KeyBefore(a: EKey, b: EKey) {
    match (a, b)
      case (IntKey(x), IntKey(y)) => x < y
      case (IntKey(_), StrKey(_)) => true
      case (StrKey(_), IntKey(_)) => false
      case (StrKey(x), StrKey(y)) => StrLess(x, y)
  }

  ghost predicate IsMinKey(ks: set<EKey>, k: EKey) {
    k in ks && forall j :: j in ks ==> !KeyBefore(j, k)
  }

  lemma KeyBeforeOrder(a: EKey, b: EKey, c: EKey)
    ensures !KeyBefore(a, a)
    ensures a == b || KeyBefore(a, b) || KeyBefore(b, a)
    ensures KeyBefore(a, b) && KeyBefore(b, c) ==> KeyBefore(a, c)
  {
    if a.StrKey? {
      StrLessTotal(a.s, a.s);
      if b.StrKey? {
        StrLessTotal(a.s, b.s);
        if c.StrKey? && StrLess(a.s, b.s) && StrLess(b.s, c.s) { StrLessTrans(a.s, b.s, c.s); }
      }
    }
  }

  lemma {:induction false} MinKeyExists(ks: set<EKey>)
    requires ks != {}
    ensures exists k :: IsMinKey(ks, k)
    decreases |ks|
  {
    var x :| x in ks;
    KeyBeforeOrder(x, x, x);
    if ks - {x} == {} {
      assert ks == {x};
      assert IsMinKey(ks, x);
    } else {
      MinKeyExists(ks - {x});
      var m :| IsMinKey(ks - {x}, m);
      KeyBeforeOrder(x, m, x);
      if KeyBefore(x, m) {
        forall j | j in ks ensures !KeyBefore(j, x) {
          if j != x {
            KeyBeforeOrder(j, x, m);
            KeyBeforeOrder(j, m, x);
          }
        }
        assert IsMinKey(ks, x);
      } else {
        assert IsMinKey(ks, m);
      }
    }
  }

  /** min(entry) */
  ghost function MinKey(e: Entry): (k: EKey)
    requires e != map[]
    ensures IsMinKey(e.Keys, k)
  {
    assert exists j :: j in e;
    MinKeyExists(e.Keys);
    var k :| IsMinKey(e.Keys, k);
    k
  }

  /** The KeyError text of a key. */
  function KeyText(k: EKey): string {
    match k
      case IntKey(n) => IntToDec(n)
      case StrKey(s) => s
  }

  /**
   * linkInfo(src, dst, key): the attributes of the given key, or of the
   * lowest key when none is given.
   */
  ghost function LinkInfo(g: G, src: string, dst: string, key: Option<EKey>): (r: Result<Opts, Exc>)
    ensures r.Ok? <==> (src in g.edge && dst in g.edge[src]
      && (if key.Some? then key.value in g.edge[src][dst] else g.edge[src][dst] != map[]))
    ensures r.Ok? && key.Some? ==> r.value == g.edge[src][dst][key.value]
    ensures r.Ok? && key.None? ==> exists k :: IsMinKey(g.edge[src][dst].Keys, k) && r.value == g.edge[src][dst][k]
  {
    if src !in g.edge then Err(KeyError(src))
    else if dst !in g.edge[src] then Err(KeyError(dst))
    else
      var e := g.edge[src][dst];
      if key.Some? then
        if key.value in e then Ok(e[key.value]) else Err(KeyError(KeyText(key.value)))
      else if e == map[] then Err(ValueError)
      else Ok(e[MinKey(e)])
  }

  /** Both directions of a link report the same attributes. */
  lemma LinkInfoSymmetric(g: G, a: string, b: string, key: Option<EKey>)
    requires Shared(g)
    ensures LinkInfo(g, a, b, key).Ok? ==> LinkInfo(g, b, a, key) == LinkInfo(g, a, b, key)
  {
  }

  /** The first link between two nodes is what linkInfo reports, in both directions. */
  lemma LinkInfoOfFirstLink(st: State, a: string, b: string, opts: Opts)
    requires Shared(st.g) && a in st.g.node && b in st.g.node && EntryOf(st.g, a, b) == map[]
    ensures var o := LinkAdded(st, a, b, None, None, None, opts);
      o.r.Ok? && o.r.value == IntKey(1)
      && var p := PortAdded(st, a, b, None, None).r.value;
      var info := LinkOpts(OrDefault(opts, st.lopts), a, b, p.0, p.1);
      LinkInfo(o.st.g, a, b, None) == Ok(info) && LinkInfo(o.st.g, b, a, None) == Ok(info)
  {
    PortAddedShape(st, a, b, None, None);
    FirstKeyIsOne(st.g, a, b);
    var p := PortAdded(st, a, b, None, None).r.value;
    LinkInfoOfFirstEdge(st.g, a, b, LinkOpts(OrDefault(opts, st.lopts), a, b, p.0, p.1));
  }

  lemma LinkInfoOfFirstEdge(g: G, a: string, b: string, info: Opts)
    requires Shared(g) && EntryOf(g, a, b) == map[]
    ensures var g2 := WithEdge(g, a, b, IntKey(1), info);
      LinkInfo(g2, a, b, None) == Ok(info) && LinkInfo(g2, b, a, None) == Ok(info)
  {
    var g2 := WithEdge(g, a, b, IntKey(1), info);
    AddEdgeShared(g, a, b, IntKey(1), info);
    var e := g2.edge[a][b];
    assert e == map[IntKey(1) := info];
    assert IsMinKey(e.Keys, IntKey(1));
  }

  // ---------------------------------------------------------- nodes()

  /** nodes(): sorted(g.nodes(), key=natural). */
  ghost function Nodes(g: G): seq<string> {
    NaturalSort(Enumerate(g.node.Keys))
  }

  /** The nodes of one kind, in the given order. */
  function OfKind(g: G, s: seq<string>, switch: bool): (r: seq<string>)
    ensures forall x :: x in r <==> x in s && x in g.node && SwitchAttrs(g.node[x]) == switch
  {
    if s == [] then []
    else
      assert s == [s[0]] + s[1..];
      (if s[0] in g.node && SwitchAttrs(g.node[s[0]]) == switch then [s[0]] else []) + OfKind(g, s[1..], switch)
  }

  ghost function Switches(g: G): seq<string> { OfKind(g, Nodes(g), true) }
  ghost function Hosts(g: G): seq<string> { OfKind(g, Nodes(g), false) }

  lemma {:induction false} OfKindSorted(g: G, s: seq<string>, switch: bool, key: string -> seq<Piece>)
    requires SortedBy(s, key)
    ensures SortedBy(OfKind(g, s, switch), key)
  {
    if s != [] {
      SortedTail(s, key);
      OfKindSorted(g, s[1..], switch, key);
      var rest := OfKind(g, s[1..], switch);
      if s[0] in g.node && SwitchAttrs(g.node[s[0]]) == switch {
        assert OfKind(g, s, switch) == [s[0]] + rest;
        SortedCons(s[0], rest, key);
      } else {
        assert OfKind(g, s, switch) == rest;
      }
    }
  }

  /** The tail of a sorted list is sorted, and no key in it is below the head's. */
  lemma SortedTail(s: seq<string>, key: string -> seq<Piece>)
    requires s != [] && SortedBy(s, key)
    ensures SortedBy(s[1..], key) && forall x :: x in s[1..] ==> !KeyLess(key(x), key(s[0]))
  {
    var tail := s[1..];
    forall i, j | 0 <= i < j < |tail| ensures !KeyLess(key(tail[j]), key(tail[i])) {
      assert tail[i] == s[i + 1] && tail[j] == s[j + 1];
    }
    forall x | x in tail ensures !KeyLess(key(x), key(s[0])) {
      var m :| 0 <= m < |tail| && tail[m] == x;
      assert s[m + 1] == x;
    }
  }

  /** A head whose key is not above any in a sorted tail gives a sorted list. */
  lemma SortedCons(x: string, rest: seq<string>, key: string -> seq<Piece>)
    requires SortedBy(rest, key) && forall y :: y in rest ==> !KeyLess(key(y), key(x))
    ensures SortedBy([x] + rest, key)
  {
    var r := [x] + rest;
    forall i, j | 0 <= i < j < |r| ensures !KeyLess(key(r[j]), key(r[i])) {
      assert r[j] == rest[j - 1];
      if i > 0 {
        assert r[i] == rest[i - 1];
      }
    }
  }

  /** Of names that are all nodes, each is either a switch or a host. */
  lemma {:induction false} OfKindSplit(g: G, s: seq<string>)
    requires forall i :: 0 <= i < |s| ==> s[i] in g.node
    ensures multiset(OfKind(g, s, true)) + multiset(OfKind(g, s, false)) == multiset(s)
  {
    if s != [] {
      var t := s[1..];
      OfKindSplit(g, t);
      var sw := SwitchAttrs(g.node[s[0]]);
      assert OfKind(g, s, true) == (if sw then [s[0]] else []) + OfKind(g, t, true);
      assert OfKind(g, s, false) == (if sw then [] else [s[0]]) + OfKind(g, t, false);
      SplitCons(s, sw, OfKind(g, s, true), OfKind(g, s, false), OfKind(g, t, true), OfKind(g, t, false));
    }
  }

  /** Putting the head of s on one side keeps a split of its tail a split of s. */
  lemma SplitCons(s: seq<string>, left: bool, a: seq<string>, b: seq<string>, ta: seq<string>, tb: seq<string>)
    requires s != [] && multiset(ta) + multiset(tb) == multiset(s[1..])
    requires a == (if left then [s[0]] else []) + ta && b == (if left then [] else [s[0]]) + tb
    ensures multiset(a) + multiset(b) == multiset(s)
  {
    assert s == [s[0]] + s[1..];
    assert multiset(s) == multiset{s[0]} + multiset(s[1..]);
  }

  /** nodes() lists every node exactly once, in natural order. */
  lemma NodesListed(g: G)
    ensures forall x :: multiset(Nodes(g))[x] == if x in g.node then 1 else 0
    ensures SortedBy(Nodes(g), Natural)
  {
    SortByCorrect(Enumerate(g.node.Keys), Natural);
  }

  /** hosts() and switches() split nodes() by the isSwitch attribute, each in natural order. */
  lemma HostsAndSwitches(g: G)
    ensures multiset(Hosts(g)) + multiset(Switches(g)) == multiset(Nodes(g))
    ensures forall x :: x in Switches(g) <==> x in g.node && SwitchAttrs(g.node[x])
    ensures forall x :: x in Hosts(g) <==> x in g.node && !SwitchAttrs(g.node[x])
    ensures SortedBy(Hosts(g), Natural) && SortedBy(Switches(g), Natural)
  {
    var ns := Nodes(g);
    NodesListed(g);
    assert forall i :: 0 <= i < |ns| ==> ns[i] in g.node by {
      forall i | 0 <= i < |ns| ensures ns[i] in g.node {
        assert ns[i] in multiset(ns);
      }
    }
    OfKindSplit(g, ns);
    OfKindSorted(g, ns, true, Natural);
    OfKindSorted(g, ns, false, Natural);
  }

  /** A list that holds each element of e once, and nothing else, has |e| elements. */
  lemma {:induction false} DistinctCount(s: seq<string>, e: set<string>)
    requires forall x :: multiset(s)[x] == if x in e then 1 else 0
    ensures |s| == |e|
    decreases |s|
  {
    if s == [] {
      assert forall x :: x in e ==> multiset(s)[x] == 1;
    } else {
      var x := s[|s| - 1];
      var init := s[..|s| - 1];
      assert s == init + [x];
      assert multiset(s) == multiset(init) + multiset{x};
      assert x in e by { assert multiset(s)[x] >= 1; }
      forall y ensures multiset(init)[y] == if y in e - {x} then 1 else 0 {
        assert multiset(s)[y] == multiset(init)[y] + (if y == x then 1 else 0);
      }
      DistinctCount(init, e - {x});
    }
  }

  /** The names of one kind. */
  ghost function KindSet(node: map<string, Opts>, switch: bool): set<string> {
    set x | x in node && SwitchAttrs(node[x]) == switch
  }

  /** A new node joins the names of its kind. */
  lemma KindSetAdd(node: map<string, Opts>, x: string, attrs: Opts)
    requires x !in node
    ensures forall sw :: KindSet(node[x := attrs], sw) == KindSet(node, sw) + (if SwitchAttrs(attrs) == sw then {x} else {})
    ensures forall sw :: x !in KindSet(node, sw)
  {
  }

  /** hosts() and switches() list each node of their kind once. */
  lemma KindCounts(g: G)
    ensures |Hosts(g)| == |KindSet(g.node, false)| && |Switches(g)| == |KindSet(g.node, true)|
  {
    HostsAndSwitches(g);
    NodesListed(g);
    forall x
      ensures multiset(Hosts(g))[x] == (if x in KindSet(g.node, false) then 1 else 0)
      ensures multiset(Switches(g))[x] == (if x in KindSet(g.node, true) then 1 else 0)
    {
      assert multiset(Hosts(g))[x] + multiset(Switches(g))[x] == multiset(Nodes(g))[x];
      assert x in Hosts(g) <==> multiset(Hosts(g))[x] > 0;
      assert x in Switches(g) <==> multiset(Switches(g))[x] > 0;
    }
    DistinctCount(Hosts(g), KindSet(g.node, false));
    DistinctCount(Switches(g), KindSet(g.node, true));
  }

  /** addLink is addPort followed, when that succeeds, by addEdge. */
  lemma LinkAddedSteps(st: State, node1: string, node2: string, port1: Option<int>, port2: Option<int>,
                       key: Option<EKey>, opts: Opts, mid: State, p: Result<(int, int), Exc>)
    requires PortAdded(st, node1, node2, port1, port2) == Outcome(mid, p)
    ensures p.Err? ==> LinkAdded(st, node1, node2, port1, port2, key, opts) == Outcome(mid, Err(p.error))
    ensures p.Ok? ==>
      var k := ChosenKey(st.g, node1, node2, key);
      var info := LinkOpts(OrDefault(opts, st.lopts), node1, node2, p.value.0, p.value.1);
      LinkAdded(st, node1, node2, port1, port2, key, opts) == Outcome(mid.(g := WithEdge(st.g, node1, node2, k, info)), Ok(k))
  {
  }

  // ---------------------------------------------------------- the object

  class Topo {
    const g: MultiGraph
    var hopts: Opts
    var sopts: Opts
    var lopts: Opts
    var ports: Ports

    function St(): State reads this, g {
      State(g.Value(), hopts, sopts, lopts, ports)
    }

    /** Topo(hopts=…, sopts=…, lopts=…) before build(). */
    constructor (hopts: Opts, sopts: Opts, lopts: Opts)
      ensures St() == State(Empty(), hopts, sopts, lopts, map[])
      ensures fresh(g)
    {
      g := new MultiGraph();
      this.hopts := hopts;
      this.sopts := sopts;
      this.lopts := lopts;
      ports := map[];
    }

    method AddNode(name: string, opts: Opts) returns (r: Result<string, Exc>)
      modifies g
      ensures var o := NodeAdded(old(St()), name, opts);
        (o.Ok? ==> r == Ok(name) && St() == o.value) && (o.Err? ==> r == Err(o.error) && St() == old(St()))
    {
      var clash := KwargClash(opts);
      if clash.Some? {
        return Err(clash.value);
      }
      g.AddNode(name, opts);
      r := Ok(name);
    }

    method AddHost(name: string, opts: Opts) returns (r: Result<string, Exc>)
      modifies g
      ensures var o := HostAdded(old(St()), name, opts);
        (o.Ok? ==> r == Ok(name) && St() == o.value) && (o.Err? ==> r == Err(o.error) && St() == old(St()))
    {
      var o := opts;
      if o == map[] && hopts != map[] {
        o := hopts;
      }
      r := AddNode(name, o);
    }

    method AddSwitch(name: string, opts: Opts) returns (r: Result<string, Exc>)
      modifies g
      ensures var o := SwitchAdded(old(St()), name, opts);
        (o.Ok? ==> r == Ok(name) && St() == o.value) && (o.Err? ==> r == Err(o.error) && St() == old(St()))
    {
      var o := opts;
      if o == map[] && sopts != map[] {
        o := sopts;
      }
      if "isSwitch" in o {
        return Err(TypeError);
      }
      r := AddNode(name, o["isSwitch" := VBool(true)]);
    }

    method AddPort(src: string, dst: string, sport: Option<int>, dport: Option<int>)
      returns (r: Result<(int, int), Exc>)
      modifies this
      ensures var o := PortAdded(old(St()), src, dst, sport, dport); St() == o.st && r == o.r
    {
      ports := SetDefaults(ports, src, dst);
      var s := PortChoice(St(), ports, src, sport);
      if s.Err? { return Err(s.error); }
      var d := PortChoice(St(), ports, dst, dport);
      if d.Err? { return Err(d.error); }
      var (sp, dp) := (s.value, d.value);
      ports := Record(ports, src, dst, sp, dp);
      r := Ok((sp, dp));
    }

    method AddLink(node1: string, node2: string, port1: Option<int>, port2: Option<int>,
                   key: Option<EKey>, opts: Opts) returns (r: Result<EKey, Exc>)
      modifies this, g
      ensures var o := LinkAdded(old(St()), node1, node2, port1, port2, key, opts);
        St() == o.st && r == o.r
    {
      ghost var before := St();
      var o := opts;
      if o == map[] && lopts != map[] {
        o := lopts;
      }
      assert o == OrDefault(opts, before.lopts);
      var p := AddPort(node1, node2, port1, port2);
      ghost var mid := St();
      LinkAddedSteps(before, node1, node2, port1, port2, key, opts, mid, p);
      if p.Err? {
        return Err(p.error);
      }
      var (sp, dp) := p.value;
      var k := g.AddEdge(node1, node2, key, LinkOpts(o, node1, node2, sp, dp));
      assert St() == mid.(g := WithEdge(before.g, node1, node2, k, LinkOpts(o, node1, node2, sp, dp)));
      r := Ok(k);
    }
  }
}
