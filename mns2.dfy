// examples/mn-s2.py, first half: WiFiTopo, the bench topology of a root
// switch s0 carrying a service host hs0 and S access switches s1 .. sS,
// each carrying N hosts, built with the Topo calls of mininet/topo.py.
module MnS2Topo {
  import opened Wrappers
  import opened Text
  import opened Util
  import opened Graph
  import opened Topo
  import opened Topos

  /** The hosts of the switches before sw: (sw - 1) * N, none for N < 1. */
  function Base(N: int, sw: nat): nat {
    if sw < 1 then 0 else var a: nat := sw - 1; a * Rounds(N)
  }

  /** addSwitch('s0'), addHost('hs0') and addLink(hs, switch). */
  ghost function WiFiStart(st0: State): State {
    var s := OkOr(SwitchAdded(st0, "s0", map[]), st0);
    var h := OkOr(HostAdded(s, "hs0", map[]), s);
    LinkAdded(h, "hs0", "s0", None, None, None, map[]).st
  }

  /** irange((sw - 1) * N + 1, sw * N) lists the N host numbers after Base(N, sw). */
  lemma HostIds(N: int, sw: nat)
    requires sw >= 1
    ensures var ids := IRange((sw - 1) * N + 1, sw * N);
      |ids| == Rounds(N) && forall i :: 0 <= i < |ids| ==> ids[i] == Base(N, sw) + i + 1
  {
    assert sw * N == (sw - 1) * N + N;
  }

  /** hosts lists h<base+1>, h<base+2>, ... in order: the names the round adds. */
  ghost predicate RoundNames(base: nat, hosts: seq<string>) {
    forall m :: 0 <= m < |hosts| ==> hosts[m] == HostName(base + (m + 1))
  }

  lemma RoundNamesSnoc(base: nat, hosts: seq<string>, id: nat, name: string)
    requires RoundNames(base, hosts) && id == base + (|hosts| + 1) && name == HostName(id)
    ensures RoundNames(base, hosts + [name])
  {
    var hosts' := hosts + [name];
    forall m | 0 <= m < |hosts'|
      ensures hosts'[m] == HostName(base + (m + 1))
    {
      if m < |hosts| {
        assert hosts'[m] == hosts[m];
      }
    }
  }

  // ------------------------------------------------------------ the shape

  /** edge[x][y] exists: x and y are joined by at least one link. */
  ghost predicate Adjacent(g: G, x: string, y: string) {
    x in g.edge && y in g.edge[x]
  }

  /** add_edge joins exactly its two ends, and keeps every pair joined before. */
  lemma AdjacentAfterEdge(g: G, src: string, dst: string, key: EKey, attrs: Opts, x: string, y: string)
    ensures Adjacent(WithEdge(g, src, dst, key, attrs), x, y)
      <==> Adjacent(g, x, y) || (x == src && y == dst) || (x == dst && y == src)
  {
  }

  /** x is s0 or one of s1 .. sa. */
  ghost predicate IsSwitch(a: nat, x: string) {
    x == "s0" || exists b: nat :: 1 <= b <= a && x == SwitchName(b)
  }

  /** x is hs0 or one of h1 .. hn. */
  ghost predicate IsHost(n: nat, x: string) {
    x == "hs0" || exists h: nat :: 1 <= h <= n && x == HostName(h)
  }

  /**
   * The links so far, one way round: hs0 to s0, s0 to s1 .. sk, and each of h1 .. h(linked)
   * to the switch sb with (b - 1) * N < h <= b * N.
   */
  ghost predicate WiFiPair(N: int, k: nat, linked: nat, x: string, y: string) {
    (x == "hs0" && y == "s0")
    || (x == "s0" && exists b: nat :: 1 <= b <= k && y == SwitchName(b))
    || (exists h: nat, b: nat :: 1 <= h <= linked && 1 <= b && (b - 1) * N < h <= b * N
          && x == HostName(h) && y == SwitchName(b))
  }

  /** The options addSwitch gives a switch: the default switch options with isSwitch=True. */
  function SwitchOpts(sopts: Opts): Opts {
    sopts["isSwitch" := VBool(true)]
  }

  /** The nodes: s0 .. sa with switch options, hs0 and h1 .. hn with the host options. */
  ghost predicate WiFiNodes(hopts: Opts, sattrs: Opts, a: nat, n: nat, node: map<string, Opts>) {
    (forall x :: x in node ==> (IsSwitch(a, x) && node[x] == sattrs) || (IsHost(n, x) && node[x] == hopts))
    && (forall x :: IsSwitch(a, x) ==> x in node)
    && (forall x :: IsHost(n, x) ==> x in node)
    && |KindSet(node, true)| == 1 + a && |KindSet(node, false)| == 1 + n
  }

  /** The pairs the links join are exactly the WiFiPairs, either way round. */
  ghost predicate WiFiLinks(N: int, k: nat, linked: nat, g: G) {
    forall x, y :: Adjacent(g, x, y) <==> WiFiPair(N, k, linked, x, y) || WiFiPair(N, k, linked, y, x)
  }

  /**
   * What WiFiTopo has built with a access switches, k of them linked to s0,
   * n hosts besides hs0 and the first `linked` of them linked to their switch.
   */
  ghost predicate WiFiShape(st0: State, N: int, a: nat, k: nat, n: nat, linked: nat, st: State) {
    st.(g := st0.g, ports := st0.ports) == st0
    && Shared(st.g)
    && WiFiNodes(st0.hopts, SwitchOpts(st0.sopts), a, n, st.g.node)
    && |Edges(st.g)| == 1 + k + linked
    && WiFiLinks(N, k, linked, st.g)
  }

  // ------------------------------------------------------------ the names

  /** A positive number is not written "0". */
  lemma DecNotZero(b: nat)
    requires b >= 1
    ensures NatToDec(b) != "0"
  {
    DecRoundTrip(b);
    assert "0" == [DigitChar(0)];
    DecRoundTrip(0);
  }

  /** s0 and hs0 are none of the numbered names, and differ from each other. */
  lemma FixedNames(b: nat, h: nat)
    requires b >= 1
    ensures "s0" != SwitchName(b) && "s0" != HostName(h) && "s0" != "hs0"
    ensures "hs0" != SwitchName(b) && "hs0" != HostName(h)
  {
    DecNotZero(b);
    assert SwitchName(b)[1..] == NatToDec(b) && "s0"[1..] == "0";
    assert HostName(h)[0] == 'h' && SwitchName(b)[0] == 's';
    assert HostName(h)[1] == NatToDec(h)[0] && IsDigit(NatToDec(h)[0]);
  }

  /** No name is both one of the switches and one of the hosts. */
  lemma SwitchNotHost(a: nat, n: nat, x: string)
    ensures !(IsSwitch(a, x) && IsHost(n, x))
  {
    FixedNames(1, 0);
    if x == "s0" && x != "hs0" && exists h: nat :: 1 <= h <= n && x == HostName(h) {
      var h: nat :| 1 <= h <= n && x == HostName(h);
      FixedNames(1, h);
    }
    if exists b: nat :: 1 <= b <= a && x == SwitchName(b) {
      var b: nat :| 1 <= b <= a && x == SwitchName(b);
      FixedNames(b, 0);
      if exists h: nat :: 1 <= h <= n && x == HostName(h) {
        var h: nat :| 1 <= h <= n && x == HostName(h);
        NameInjective(h, b);
      }
    }
  }

  /** Growing the host range by one adds exactly h(n + 1). */
  lemma HostLift(n: nat, x: string)
    ensures IsHost(n + 1, x) <==> IsHost(n, x) || x == HostName(n + 1)
  {
    if x != "hs0" && exists h: nat :: 1 <= h <= n + 1 && x == HostName(h) {
      var h: nat :| 1 <= h <= n + 1 && x == HostName(h);
      if h <= n {
        assert IsHost(n, x);
      }
    }
    if IsHost(n, x) && x != "hs0" {
      var h: nat :| 1 <= h <= n && x == HostName(h);
      assert 1 <= h <= n + 1;
    }
  }

  /** Growing the switch range by one adds exactly s(a + 1). */
  lemma SwitchLift(a: nat, x: string)
    ensures IsSwitch(a + 1, x) <==> IsSwitch(a, x) || x == SwitchName(a + 1)
  {
    if x != "s0" && exists b: nat :: 1 <= b <= a + 1 && x == SwitchName(b) {
      var b: nat :| 1 <= b <= a + 1 && x == SwitchName(b);
      if b <= a {
        assert IsSwitch(a, x);
      }
    }
    if IsSwitch(a, x) && x != "s0" {
      var b: nat :| 1 <= b <= a && x == SwitchName(b);
      assert 1 <= b <= a + 1;
    }
  }

  /** The host of a new number is none of the nodes so far. */
  lemma HostIsNew(a: nat, n: nat, x: string)
    requires IsSwitch(a, x) || IsHost(n, x)
    ensures x != HostName(n + 1)
  {
    FixedNames(1, n + 1);
    if exists b: nat :: 1 <= b <= a && x == SwitchName(b) {
      var b: nat :| 1 <= b <= a && x == SwitchName(b);
      NameInjective(n + 1, b);
    }
    if exists h: nat :: 1 <= h <= n && x == HostName(h) {
      var h: nat :| 1 <= h <= n && x == HostName(h);
      NameInjective(h, n + 1);
    }
  }

  /** The switch of a new number is none of the nodes so far. */
  lemma SwitchIsNew(a: nat, n: nat, x: string)
    requires IsSwitch(a, x) || IsHost(n, x)
    ensures x != SwitchName(a + 1)
  {
    FixedNames(a + 1, 0);
    if exists b: nat :: 1 <= b <= a && x == SwitchName(b) {
      var b: nat :| 1 <= b <= a && x == SwitchName(b);
      NameInjective(b, a + 1);
    }
    if exists h: nat :: 1 <= h <= n && x == HostName(h) {
      var h: nat :| 1 <= h <= n && x == HostName(h);
      NameInjective(h, a + 1);
    }
  }

  /** Multiplying by a non-negative factor keeps the order. */
  lemma MulMono(x: int, y: int, N: int)
    requires x <= y && N >= 0
    ensures x * N <= y * N
  {
    assert y * N - x * N == (y - x) * N;
  }

  /** A host number falls in the block of one switch only. */
  lemma HomeUnique(N: int, b: nat, c: nat, h: int)
    requires (b - 1) * N < h <= b * N && (c - 1) * N < h <= c * N
    ensures b == c
  {
    assert b * N == (b - 1) * N + N;
    if b < c {
      MulMono(b, c - 1, N);
    } else if c < b {
      MulMono(c, b - 1, N);
    }
  }

  // ------------------------------------------------------------ the nodes, step by step

  /** s0 with the switch options and hs0 with the host options. */
  lemma StartNodes(hopts: Opts, sattrs: Opts, node: map<string, Opts>)
    requires SwitchAttrs(sattrs) && !SwitchAttrs(hopts)
    requires node == map[]["s0" := sattrs]["hs0" := hopts]
    ensures WiFiNodes(hopts, sattrs, 0, 0, node)
  {
    FixedNames(1, 0);
    var m: map<string, Opts> := map[];
    assert KindSet(m, true) == {} && KindSet(m, false) == {};
    KindSetAdd(m, "s0", sattrs);
    KindSetAdd(m["s0" := sattrs], "hs0", hopts);
    assert IsSwitch(0, "s0") && IsHost(0, "hs0");
    forall x | IsSwitch(0, x) ensures x == "s0" {
    }
    forall x | IsHost(0, x) ensures x == "hs0" {
    }
  }

  /** A new host h(n + 1) with the host options. */
  lemma NodesAddHost(hopts: Opts, sattrs: Opts, a: nat, n: nat, node: map<string, Opts>)
    requires WiFiNodes(hopts, sattrs, a, n, node) && !SwitchAttrs(hopts) && SwitchAttrs(sattrs)
    ensures HostName(n + 1) !in node && WiFiNodes(hopts, sattrs, a, n + 1, node[HostName(n + 1) := hopts])
  {
    var name := HostName(n + 1);
    forall x | x in node ensures x != name {
      HostIsNew(a, n, x);
    }
    forall x ensures IsHost(n + 1, x) <==> IsHost(n, x) || x == name {
      HostLift(n, x);
    }
    KindSetAdd(node, name, hopts);
    assert KindSet(node[name := hopts], false) == KindSet(node, false) + {name};
    assert KindSet(node[name := hopts], true) == KindSet(node, true);
  }

  /** A new switch s(a + 1) with the switch options. */
  lemma NodesAddSwitch(hopts: Opts, a: nat, n: nat, node: map<string, Opts>, attrs: Opts)
    requires WiFiNodes(hopts, attrs, a, n, node) && SwitchAttrs(attrs) && !SwitchAttrs(hopts)
    ensures SwitchName(a + 1) !in node && WiFiNodes(hopts, attrs, a + 1, n, node[SwitchName(a + 1) := attrs])
  {
    var name := SwitchName(a + 1);
    forall x | x in node ensures x != name {
      SwitchIsNew(a, n, x);
    }
    forall x ensures IsSwitch(a + 1, x) <==> IsSwitch(a, x) || x == name {
      SwitchLift(a, x);
    }
    KindSetAdd(node, name, attrs);
    assert KindSet(node[name := attrs], true) == KindSet(node, true) + {name};
    assert KindSet(node[name := attrs], false) == KindSet(node, false);
  }

  // ------------------------------------------------------------ the links, step by step

  /** With no link yet, the only pair is hs0 and s0. */
  lemma PairStart(N: int, x: string, y: string)
    ensures WiFiPair(N, 0, 0, x, y) <==> x == "hs0" && y == "s0"
  {
  }

  /** Linking s(k + 1) to s0 adds that one pair. */
  lemma PairS0(N: int, k: nat, linked: nat, x: string, y: string)
    ensures WiFiPair(N, k + 1, linked, x, y) <==> WiFiPair(N, k, linked, x, y) || (x == "s0" && y == SwitchName(k + 1))
  {
    if x == "s0" && exists b: nat :: 1 <= b <= k + 1 && y == SwitchName(b) {
      var b: nat :| 1 <= b <= k + 1 && y == SwitchName(b);
      if b <= k {
        assert exists b: nat :: 1 <= b <= k && y == SwitchName(b);
      }
    }
    if x == "s0" && exists b: nat :: 1 <= b <= k && y == SwitchName(b) {
      var b: nat :| 1 <= b <= k && y == SwitchName(b);
      assert 1 <= b <= k + 1;
    }
  }

  /** Linking h(linked + 1) to sw, whose block holds it, adds that one pair. */
  lemma PairHost(N: int, k: nat, linked: nat, sw: nat, x: string, y: string)
    requires 1 <= sw && (sw - 1) * N < linked + 1 <= sw * N
    ensures WiFiPair(N, k, linked + 1, x, y)
      <==> WiFiPair(N, k, linked, x, y) || (x == HostName(linked + 1) && y == SwitchName(sw))
  {
    PairHostOld(N, k, linked, sw, x, y);
    PairHostNew(N, k, linked, sw, x, y);
  }

  /** A pair of the longer prefix is an old pair or the new one. */
  lemma PairHostOld(N: int, k: nat, linked: nat, sw: nat, x: string, y: string)
    requires 1 <= sw && (sw - 1) * N < linked + 1 <= sw * N
    ensures WiFiPair(N, k, linked + 1, x, y)
      ==> WiFiPair(N, k, linked, x, y) || (x == HostName(linked + 1) && y == SwitchName(sw))
  {
    if exists h: nat, b: nat :: 1 <= h <= linked + 1 && 1 <= b && (b - 1) * N < h <= b * N && x == HostName(h) && y == SwitchName(b) {
      var h: nat, b: nat :| 1 <= h <= linked + 1 && 1 <= b && (b - 1) * N < h <= b * N && x == HostName(h) && y == SwitchName(b);
      if h == linked + 1 {
        HomeUnique(N, b, sw, h);
      } else {
        assert exists h: nat, b: nat :: 1 <= h <= linked && 1 <= b && (b - 1) * N < h <= b * N && x == HostName(h) && y == SwitchName(b);
      }
    }
  }

  /** The old pairs and the new one are pairs of the longer prefix. */
  lemma PairHostNew(N: int, k: nat, linked: nat, sw: nat, x: string, y: string)
    requires 1 <= sw && (sw - 1) * N < linked + 1 <= sw * N
    ensures WiFiPair(N, k, linked, x, y) || (x == HostName(linked + 1) && y == SwitchName(sw))
      ==> WiFiPair(N, k, linked + 1, x, y)
  {
    if exists h: nat, b: nat :: 1 <= h <= linked && 1 <= b && (b - 1) * N < h <= b * N && x == HostName(h) && y == SwitchName(b) {
      var h: nat, b: nat :| 1 <= h <= linked && 1 <= b && (b - 1) * N < h <= b * N && x == HostName(h) && y == SwitchName(b);
      assert 1 <= h <= linked + 1;
    }
    if x == HostName(linked + 1) && y == SwitchName(sw) {
      var h: nat := linked + 1;
      assert 1 <= h <= linked + 1 && 1 <= sw && (sw - 1) * N < h <= sw * N && x == HostName(h) && y == SwitchName(sw);
    }
  }

  /** One new link, matched by one new pair, keeps the links the WiFiPairs. */
  lemma LinksAdd(N: int, k: nat, linked: nat, k': nat, linked': nat, g: G, g': G, x0: string, y0: string)
    requires WiFiLinks(N, k, linked, g)
    requires forall x, y :: Adjacent(g', x, y) <==> Adjacent(g, x, y) || (x == x0 && y == y0) || (x == y0 && y == x0)
    requires forall x, y :: WiFiPair(N, k', linked', x, y) <==> WiFiPair(N, k, linked, x, y) || (x == x0 && y == y0)
    ensures WiFiLinks(N, k', linked', g')
  {
  }

  /** A new node joins no pair. */
  lemma LinksSameEdges(N: int, k: nat, linked: nat, g: G, g': G)
    requires WiFiLinks(N, k, linked, g) && g'.edge == g.edge
    ensures WiFiLinks(N, k, linked, g')
  {
    forall x, y ensures Adjacent(g', x, y) == Adjacent(g, x, y) {
    }
  }

  /** The link between two nodes keeps the nodes, adds one edge and joins exactly that pair. */
  lemma LinkStep(prev: State, x0: string, y0: string)
    requires Shared(prev.g) && x0 in prev.g.node && y0 in prev.g.node
    ensures var st := LinkAdded(prev, x0, y0, None, None, None, map[]).st;
      st.(g := prev.g, ports := prev.ports) == prev && st.g.node == prev.g.node
      && Shared(st.g) && |Edges(st.g)| == |Edges(prev.g)| + 1
      && forall x, y :: Adjacent(st.g, x, y) <==> Adjacent(prev.g, x, y) || (x == x0 && y == y0) || (x == y0 && y == x0)
  {
    LinkedNodes(prev, x0, y0, None, None);
    LinkAddedGraph(prev, x0, y0, None, None, None, map[]);
    var o := LinkAdded(prev, x0, y0, None, None, None, map[]);
    forall x, y
      ensures Adjacent(o.st.g, x, y) <==> Adjacent(prev.g, x, y) || (x == x0 && y == y0) || (x == y0 && y == x0)
    {
      AdjacentAfterEdge(prev.g, x0, y0, o.r.value, AddedInfo(prev, x0, y0, None, None, map[]), x, y);
    }
  }

  // ------------------------------------------------------------ the state, step by step

  /** The three calls before the loop: s0, hs0 and their link. */
  /** addSwitch('s0') and addHost('hs0') on a blank Topo: two nodes and no link. */
  lemma StartNodesState(st0: State) returns (h: State)
    requires Blank(st0) && PlainDefaults(st0)
    ensures h == OkOr(HostAdded(OkOr(SwitchAdded(st0, "s0", map[]), st0), "hs0", map[]), OkOr(SwitchAdded(st0, "s0", map[]), st0))
    ensures h.(g := st0.g) == st0 && Shared(h.g) && Edges(h.g) == {} && "hs0" in h.g.node && "s0" in h.g.node
    ensures WiFiNodes(st0.hopts, SwitchOpts(st0.sopts), 0, 0, h.g.node)
  {
    var sattrs := SwitchOpts(st0.sopts);
    SwitchedNew(st0, "s0");
    var s := st0.(g := WithNode(st0.g, "s0", sattrs));
    FixedNames(1, 0);
    HostedNew(s, "hs0");
    h := s.(g := WithNode(s.g, "hs0", s.hopts));
    assert h.g.node == map[]["s0" := sattrs]["hs0" := st0.hopts];
    StartNodes(st0.hopts, sattrs, h.g.node);
  }

  /** The three calls before the loop: s0, hs0 and their link. */
  lemma WiFiStartShape(st0: State, N: int)
    requires Blank(st0) && PlainDefaults(st0)
    ensures WiFiShape(st0, N, 0, 0, 0, 0, WiFiStart(st0))
  {
    var h := StartNodesState(st0);
    LinkStep(h, "hs0", "s0");
    forall x, y ensures WiFiPair(N, 0, 0, x, y) <==> x == "hs0" && y == "s0" {
      PairStart(N, x, y);
    }
  }

  /** addHost of host n + 1 adds a new host and no link. */
  lemma HostStep(st0: State, N: int, a: nat, k: nat, n: nat, n': nat, linked: nat, prev: State, cur: State)
    requires PlainDefaults(st0) && n' == n + 1 && WiFiShape(st0, N, a, k, n, linked, prev)
    requires cur == OkOr(HostAdded(prev, HostName(n'), map[]), prev)
    ensures WiFiShape(st0, N, a, k, n', linked, cur)
  {
    NodesAddHost(st0.hopts, SwitchOpts(st0.sopts), a, n, prev.g.node);
    HostedNew(prev, HostName(n'));
    assert cur == prev.(g := WithNode(prev.g, HostName(n'), prev.hopts));
    assert cur.g.node == prev.g.node[HostName(n') := st0.hopts];
    assert Edges(cur.g) == Edges(prev.g);
    LinksSameEdges(N, k, linked, prev.g, cur.g);
  }

  /** addSwitch of switch a + 1 adds a new switch and no link. */
  lemma SwitchStep(st0: State, N: int, a: nat, a': nat, k: nat, n: nat, linked: nat, prev: State, cur: State)
    requires PlainDefaults(st0) && a' == a + 1 && WiFiShape(st0, N, a, k, n, linked, prev)
    requires cur == OkOr(SwitchAdded(prev, SwitchName(a'), map[]), prev)
    ensures WiFiShape(st0, N, a', k, n, linked, cur)
  {
    var attrs := SwitchOpts(st0.sopts);
    NodesAddSwitch(st0.hopts, a, n, prev.g.node, attrs);
    SwitchedNew(prev, SwitchName(a'));
    assert cur == prev.(g := WithNode(prev.g, SwitchName(a'), attrs));
    assert cur.g.node == prev.g.node[SwitchName(a') := attrs];
    assert Edges(cur.g) == Edges(prev.g);
    LinksSameEdges(N, k, linked, prev.g, cur.g);
  }

  /** One more link, between x0 and y0, that makes the pairs of (k', linked') out of those of (k, linked). */
  lemma ShapeAfterLink(st0: State, N: int, a: nat, k: nat, n: nat, linked: nat, k': nat, linked': nat,
                       prev: State, cur: State, x0: string, y0: string)
    requires WiFiShape(st0, N, a, k, n, linked, prev) && x0 in prev.g.node && y0 in prev.g.node
    requires cur == LinkAdded(prev, x0, y0, None, None, None, map[]).st && k' + linked' == k + linked + 1
    requires forall x, y :: WiFiPair(N, k', linked', x, y) <==> WiFiPair(N, k, linked, x, y) || (x == x0 && y == y0)
    ensures WiFiShape(st0, N, a, k', n, linked', cur)
  {
    LinkStep(prev, x0, y0);
    LinksAdd(N, k, linked, k', linked', prev.g, cur.g, x0, y0);
  }

  /** addLink(switch, switchS) for switch k + 1. */
  lemma S0LinkStep(st0: State, N: int, a: nat, k: nat, k': nat, n: nat, linked: nat, prev: State, cur: State)
    requires k < a && k' == k + 1 && WiFiShape(st0, N, a, k, n, linked, prev)
    requires cur == LinkAdded(prev, "s0", SwitchName(k'), None, None, None, map[]).st
    ensures WiFiShape(st0, N, a, k', n, linked, cur)
  {
    var y0 := SwitchName(k');
    assert IsSwitch(a, "s0");
    assert IsSwitch(a, y0);
    forall x, y ensures WiFiPair(N, k', linked, x, y) <==> WiFiPair(N, k, linked, x, y) || (x == "s0" && y == y0) {
      PairS0(N, k, linked, x, y);
    }
    ShapeAfterLink(st0, N, a, k, n, linked, k', linked, prev, cur, "s0", y0);
  }

  /** addLink(host, switchS) for host linked + 1, whose block is that of switch sw. */
  lemma HostLinkStep(st0: State, N: int, a: nat, k: nat, n: nat, linked: nat, linked': nat, sw: nat, prev: State, cur: State)
    requires linked < n && linked' == linked + 1 && 1 <= sw <= a && (sw - 1) * N < linked' <= sw * N
    requires WiFiShape(st0, N, a, k, n, linked, prev)
    requires cur == LinkAdded(prev, HostName(linked'), SwitchName(sw), None, None, None, map[]).st
    ensures WiFiShape(st0, N, a, k, n, linked', cur)
  {
    var x0 := HostName(linked');
    var y0 := SwitchName(sw);
    assert IsHost(n, x0);
    assert IsSwitch(a, y0);
    forall x, y ensures WiFiPair(N, k, linked', x, y) <==> WiFiPair(N, k, linked, x, y) || (x == x0 && y == y0) {
      PairHost(N, k, linked, sw, x, y);
    }
    ShapeAfterLink(st0, N, a, k, n, linked, k, linked', prev, cur, x0, y0);
  }

  // ------------------------------------------------------------ the rounds

  lemma BaseNext(N: int, sw: nat)
    requires sw >= 1
    ensures Base(N, sw) + Rounds(N) == Base(N, sw + 1)
    ensures N >= 1 ==> Base(N, sw) == (sw - 1) * N && Base(N, sw + 1) == (sw - 1) * N + N
  {
    var a: nat := sw - 1;
    assert (a + 1) * Rounds(N) == a * Rounds(N) + Rounds(N);
  }

  /** Host base + j of round sw lies in the block of sw. */
  lemma BlockHolds(N: int, sw: nat, j: int, base: nat)
    requires sw >= 1 && 1 <= j <= Rounds(N) && base == Base(N, sw)
    ensures (sw - 1) * N < base + j <= sw * N
  {
    BaseNext(N, sw);
    assert sw * N == (sw - 1) * N + N;
  }

  /** The number of hosts besides hs0 after S rounds of N. */
  function HostTotal(N: int, S: int): nat {
    Rounds(S) * Rounds(N)
  }

  /**
   * A finished WiFiTopo(N, S): the switches are s0 .. sS and the hosts hs0
   * and h1 .. h(S * N), so 1 + S switches and 1 + N * S hosts; its
   * 1 + S + N * S links join hs0 to s0, s0 to each access switch and each
   * host to one switch.
   */
  ghost predicate WiFiBuilt(N: int, S: int, g: G) {
    |Switches(g)| == 1 + Rounds(S) && |Hosts(g)| == 1 + HostTotal(N, S)
    && |Edges(g)| == 1 + Rounds(S) + HostTotal(N, S)
    && (forall x :: x in Switches(g) <==> IsSwitch(Rounds(S), x))
    && (forall x :: x in Hosts(g) <==> IsHost(HostTotal(N, S), x))
    && WiFiLinks(N, Rounds(S), HostTotal(N, S), g)
  }

  /** The shape after the last round is a finished WiFiTopo. */
  lemma Built(hopts: Opts, sattrs: Opts, N: int, S: int, s: nat, n: nat, g: G)
    requires s == Rounds(S) && n == HostTotal(N, S)
    requires !SwitchAttrs(hopts) && SwitchAttrs(sattrs) && WiFiNodes(hopts, sattrs, s, n, g.node)
    requires |Edges(g)| == 1 + s + n && WiFiLinks(N, s, n, g)
    ensures WiFiBuilt(N, S, g)
  {
    KindsOfNodes(hopts, sattrs, s, n, g);
  }

  /** The node lists of a finished WiFiTopo, read off its nodes. */
  lemma KindsOfNodes(hopts: Opts, sattrs: Opts, s: nat, n: nat, g: G)
    requires WiFiNodes(hopts, sattrs, s, n, g.node) && !SwitchAttrs(hopts) && SwitchAttrs(sattrs)
    ensures |Switches(g)| == 1 + s && |Hosts(g)| == 1 + n
    ensures forall x :: x in Switches(g) <==> IsSwitch(s, x)
    ensures forall x :: x in Hosts(g) <==> IsHost(n, x)
  {
    KindCounts(g);
    HostsAndSwitches(g);
    forall x ensures x in Switches(g) <==> IsSwitch(s, x) {
      SwitchNotHost(s, n, x);
    }
    forall x ensures x in Hosts(g) <==> IsHost(n, x) {
      SwitchNotHost(s, n, x);
    }
  }

  /** The pairs of a host and a switch among the WiFiPairs of S complete rounds. */
  lemma HostPairs(N: int, s: nat, n: nat, S: int, h: nat, b: nat)
    requires s == Rounds(S) && n == s * Rounds(N) && h >= 1 && b >= 1
    ensures WiFiPair(N, s, n, HostName(h), SwitchName(b)) || WiFiPair(N, s, n, SwitchName(b), HostName(h))
      <==> b <= S && (b - 1) * N + 1 <= h <= b * N
  {
    var x := HostName(h);
    var y := SwitchName(b);
    FixedNames(b, h);
    NameInjective(h, b);
    if b <= S && (b - 1) * N + 1 <= h <= b * N {
      assert N >= 1 by { assert b * N == (b - 1) * N + N; }
      MulMono(b, S, N);
      assert 1 <= h <= n && 1 <= b && (b - 1) * N < h <= b * N && x == HostName(h) && y == SwitchName(b);
    }
    if exists h': nat, b': nat :: 1 <= h' <= n && 1 <= b' && (b' - 1) * N < h' <= b' * N && x == HostName(h') && y == SwitchName(b') {
      var h': nat, b': nat :| 1 <= h' <= n && 1 <= b' && (b' - 1) * N < h' <= b' * N && x == HostName(h') && y == SwitchName(b');
      NameInjective(h, h');
      NameInjective(b, b');
      assert N >= 1 by { assert b * N == (b - 1) * N + N; }
      if S < b {
        MulMono(S, b - 1, N);
      }
    }
    if exists h': nat, b': nat :: 1 <= h' <= n && 1 <= b' && (b' - 1) * N < h' <= b' * N && y == HostName(h') && x == SwitchName(b') {
      var h': nat, b': nat :| 1 <= h' <= n && 1 <= b' && (b' - 1) * N < h' <= b' * N && y == HostName(h') && x == SwitchName(b');
      NameInjective(h', b);
    }
    if exists b': nat :: 1 <= b' <= s && x == SwitchName(b') {
      var b': nat :| 1 <= b' <= s && x == SwitchName(b');
      NameInjective(h, b');
    }
  }

  /** Host h is linked to switch sb exactly when 1 <= b <= S and (b - 1) * N + 1 <= h <= b * N. */
  lemma WiFiHostSwitch(N: int, S: int, g: G, h: nat, b: nat)
    requires WiFiBuilt(N, S, g) && h >= 1 && b >= 1
    ensures Adjacent(g, HostName(h), SwitchName(b)) <==> b <= S && (b - 1) * N + 1 <= h <= b * N
  {
    HostPairs(N, Rounds(S), HostTotal(N, S), S, h, b);
  }

  // ------------------------------------------------------------ the methods

  /** The three calls before the loop. */
  method WiFiRoot(t: Topo, ghost N: int)
    requires Blank(t.St()) && PlainDefaults(t.St())
    modifies t, t.g
    ensures t.St() == WiFiStart(old(t.St()))
    ensures WiFiShape(old(t.St()), N, 0, 0, 0, 0, t.St())
  {
    ghost var st0 := t.St();
    var switch := t.AddSwitch("s0", map[]);
    var hs := t.AddHost("hs0", map[]);
    var k := t.AddLink("hs0", "s0", None, None, None, map[]);
    WiFiStartShape(st0, N);
  }

  /** hosts = [self.addHost('h%s' % h) for h in irange((sw - 1) * N + 1, sw * N)];
      the ghost parameters name the shape's counts: a = sw - 1 rounds done,
      base hosts before this round, next hosts after it. */
  method RoundHosts(t: Topo, ghost st0: State, N: int, sw: nat, ghost a: nat, ghost base: nat, ghost next: nat)
    returns (hosts: seq<string>)
    requires sw == a + 1 && base == Base(N, sw) && next == base + Rounds(N) && PlainDefaults(st0)
    requires WiFiShape(st0, N, a, a, base, base, t.St())
    modifies t.g
    ensures WiFiShape(st0, N, a, a, next, base, t.St())
    ensures |hosts| == Rounds(N) && RoundNames(base, hosts)
  {
    ghost var n: nat := base;
    var ids := IRange((sw - 1) * N + 1, sw * N);
    HostIds(N, sw);
    hosts := [];
    var i := 0;
    while i < |ids|
      invariant 0 <= i <= |ids| && n == base + i
      invariant |hosts| == i && RoundNames(base, hosts)
      invariant WiFiShape(st0, N, a, a, n, base, t.St())
    {
      var name := HostName(ids[i]);
      ghost var n': nat := ids[i];
      RoundNamesSnoc(base, hosts, n', name);
      ghost var prev := t.St();
      var h := t.AddHost(name, map[]);
      HostStep(st0, N, a, a, n, n', base, prev, t.St());
      hosts := hosts + [name];
      i := i + 1;
      n := n';
    }
    assert n == next;
  }

  /** One round of the loop: its hosts, switchS, the link to s0 and the host links. */
  method WiFiRound(t: Topo, ghost st0: State, N: int, sw: nat, ghost a: nat, ghost base: nat, ghost next: nat)
    requires sw == a + 1 && base == Base(N, sw) && next == Base(N, sw + 1) && PlainDefaults(st0)
    requires WiFiShape(st0, N, a, a, base, base, t.St())
    modifies t, t.g
    ensures WiFiShape(st0, N, sw, sw, next, next, t.St())
  {
    BaseNext(N, sw);
    var hosts := RoundHosts(t, st0, N, sw, a, base, next);
    ghost var h := t.St();
    var switchS := t.AddSwitch(SwitchName(sw), map[]);
    SwitchStep(st0, N, a, sw, a, next, base, h, t.St());
    ghost var s := t.St();
    var k := t.AddLink("s0", SwitchName(sw), None, None, None, map[]);
    S0LinkStep(st0, N, sw, a, sw, next, base, s, t.St());
    LinkRoundHosts(t, st0, N, sw, hosts, base, next);
  }

  /** self.addLink(h, switchS) for the next host h of the round. */
  method LinkHost(t: Topo, ghost st0: State, N: int, sw: nat, h: string, ghost base: nat, ghost next: nat, ghost linked: nat, ghost linked': nat)
    requires sw >= 1 && base == Base(N, sw) && next == base + Rounds(N)
    requires base <= linked < next && linked' == linked + 1
    requires h == HostName(linked') && WiFiShape(st0, N, sw, sw, next, linked, t.St())
    modifies t, t.g
    ensures WiFiShape(st0, N, sw, sw, next, linked', t.St())
  {
    BlockHolds(N, sw, linked' - base, base);
    ghost var prev := t.St();
    var k := t.AddLink(h, SwitchName(sw), None, None, None, map[]);
    HostLinkStep(st0, N, sw, sw, next, linked, linked', sw, prev, t.St());
  }

  /** for h in hosts: self.addLink(h, switchS) */
  method LinkRoundHosts(t: Topo, ghost st0: State, N: int, sw: nat, hosts: seq<string>, ghost base: nat, ghost next: nat)
    requires sw >= 1 && base == Base(N, sw) && next == base + Rounds(N)
    requires |hosts| == Rounds(N) && RoundNames(base, hosts)
    requires WiFiShape(st0, N, sw, sw, next, base, t.St())
    modifies t, t.g
    ensures WiFiShape(st0, N, sw, sw, next, next, t.St())
  {
    ghost var linked: nat := base;
    var i := 0;
    while i < |hosts|
      invariant 0 <= i <= |hosts| && linked == base + i
      invariant WiFiShape(st0, N, sw, sw, next, linked, t.St())
    {
      ghost var linked': nat := linked + 1;
      assert base + (i + 1) == linked';
      assert hosts[i] == HostName(linked');
      LinkHost(t, st0, N, sw, hosts[i], base, next, linked, linked');
      i := i + 1;
      linked := linked';
    }
    assert linked == next;
  }

  /** WiFiTopo(N, S).__init__ on a fresh Topo (print(switchS) is left out):
      the finished graph, each host with the host options and each switch
      with the switch options and isSwitch, and the default options kept. */
  method WiFiTopo(t: Topo, N: int, S: int)
    requires Blank(t.St()) && PlainDefaults(t.St())
    modifies t, t.g
    ensures WiFiBuilt(N, S, t.St().g)
    ensures t.St().(g := old(t.St()).g, ports := old(t.St()).ports) == old(t.St())
    ensures forall x :: x in t.St().g.node ==>
      (IsSwitch(Rounds(S), x) && t.St().g.node[x] == old(t.St()).sopts["isSwitch" := VBool(true)])
      || (IsHost(HostTotal(N, S), x) && t.St().g.node[x] == old(t.St()).hopts)
  {
    ghost var st0 := t.St();
    WiFiRoot(t, N);
    WiFiRounds(t, st0, N, S);
    Built(st0.hopts, SwitchOpts(st0.sopts), N, S, Rounds(S), HostTotal(N, S), t.St().g);
  }

  /** for sw in irange(1, S): one round each, starting from the root. */
  method WiFiRounds(t: Topo, ghost st0: State, N: int, S: int)
    requires PlainDefaults(st0) && WiFiShape(st0, N, 0, 0, 0, 0, t.St())
    modifies t, t.g
    ensures WiFiShape(st0, N, Rounds(S), Rounds(S), HostTotal(N, S), HostTotal(N, S), t.St())
  {
    ghost var done: nat := 0;
    ghost var base: nat := 0;
    var sw := 1;
    while sw <= S
      invariant 1 <= sw <= if S < 1 then 1 else S + 1
      invariant done == sw - 1 && base == Base(N, sw)
      invariant WiFiShape(st0, N, done, done, base, base, t.St())
    {
      ghost var next := Base(N, sw + 1);
      WiFiRound(t, st0, N, sw, done, base, next);
      done := sw;
      base := next;
      sw := sw + 1;
    }
    assert done == Rounds(S);
    assert base == HostTotal(N, S);
  }

}
