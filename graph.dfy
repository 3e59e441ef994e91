// MultiGraph of mininet/topo.py: a node dictionary and a nested edge
// dictionary edge[src][dst][key] = attrs, in which edge[src][dst] and
// edge[dst][src] are one shared dictionary.
module Graph {
  import opened Wrappers
  import opened Util

  /** The attribute values the model distinguishes. */
  datatype Val = VStr(s: string) | VInt(i: int) | VBool(b: bool)

  type Opts = map<string, Val>

  /** Edge keys: add_edge numbers them with ints; callers may pass any key. */
  datatype EKey = IntKey(n: int) | StrKey(s: string)

  type Entry = map<EKey, Opts>

  datatype G = G(node: map<string, Opts>, edge: map<string, map<string, Entry>>)

  /** edge.setdefault(a, {}) */
  function Row(edge: map<string, map<string, Entry>>, a: string): map<string, Entry> {
    if a in edge then edge[a] else map[]
  }

  /** The dictionary edge[src][dst] after setdefault. */
  function EntryOf(g: G, src: string, dst: string): Entry {
    if dst in Row(g.edge, src) then Row(g.edge, src)[dst] else map[]
  }

  /** Both directions of a pair hold the same entry, and every endpoint is a node. */
  predicate Shared(g: G) {
    (forall a, b :: a in g.edge && b in g.edge[a] ==>
      b in g.edge && a in g.edge[b] && g.edge[b][a] == g.edge[a][b])
    && (forall a :: a in g.edge ==> a in g.node)
  }

  /** The two directions of a pair read the same entry. */
  lemma EntrySymmetric(g: G, a: string, b: string)
    requires Shared(g)
    ensures EntryOf(g, a, b) == EntryOf(g, b, a)
  {
  }

  function Empty(): (g: G)
    ensures Shared(g)
  {
    G(map[], map[])
  }

  // ------------------------------------------------------------ add_node

  /** add_node(name, **attrs): the node's attributes are replaced. */
  function WithNode(g: G, name: string, attrs: Opts): (r: G)
    ensures Shared(g) ==> Shared(r)
    ensures r.node.Keys == g.node.Keys + {name} && r.node[name] == attrs
    ensures forall n :: n in g.node && n != name ==> r.node[n] == g.node[n]
    ensures r.edge == g.edge
  {
    g.(node := g.node[name := attrs])
  }

  // ------------------------------------------------------- the next key

  /** key = max([0] + [k for k in entry if isinstance(k, int)]) + 1 */
  ghost predicate IsNextKey(e: Entry, k: int) {
    k >= 1 && (k == 1 || IntKey(k - 1) in e) && (forall n :: IntKey(n) in e ==> n < k)
  }

  lemma NextKeyUnique(e: Entry, k1: int, k2: int)
    requires IsNextKey(e, k1) && IsNextKey(e, k2)
    ensures k1 == k2
  {
    if k1 != 1 { assert k1 - 1 < k2; }
    if k2 != 1 { assert k2 - 1 < k1; }
  }

  /** m is max([0] + the int keys among ks). */
  ghost predicate IsMaxKey(ks: set<EKey>, m: int) {
    m >= 0 && (m == 0 || IntKey(m) in ks) && forall n :: IntKey(n) in ks ==> n <= m
  }

  lemma {:induction false} MaxKeyExists(ks: set<EKey>)
    ensures exists m: int :: IsMaxKey(ks, m)
    decreases |ks|
  {
    if ks != {} {
      var k :| k in ks;
      MaxKeyExists(ks - {k});
      var m: int :| IsMaxKey(ks - {k}, m);
      if k.IntKey? && k.n > m {
        assert IsMaxKey(ks, k.n);
      } else {
        assert IsMaxKey(ks, m);
      }
    } else {
      assert IsMaxKey(ks, 0);
    }
  }

  ghost function NextKey(e: Entry): (k: int)
    ensures IsNextKey(e, k)
  {
    MaxKeyExists(e.Keys);
    var m: int :| IsMaxKey(e.Keys, m);
    m + 1
  }

  // ------------------------------------------------------------ add_edge

  /**
   * add_edge(src, dst, key, attrs) once the key is known: missing endpoints
   * become nodes with empty attributes, and the shared entry of the pair
   * gets key := attrs in both directions.
   */
  function WithEdge(g: G, src: string, dst: string, key: EKey, attrs: Opts): G {
    var node1 := if src in g.node then g.node else g.node[src := map[]];
    var node2 := if dst in node1 then node1 else node1[dst := map[]];
    var entry := EntryOf(g, src, dst)[key := attrs];
    var e1 := g.edge[src := Row(g.edge, src)[dst := entry]];
    var e2 := e1[dst := Row(e1, dst)[src := entry]];
    G(node2, e2)
  }

  /** The key add_edge uses: the caller's, or the next ordinal of the pair. */
  ghost function ChosenKey(g: G, src: string, dst: string, key: Option<EKey>): EKey {
    if key.Some? then key.value else IntKey(NextKey(EntryOf(g, src, dst)))
  }

  /** The first edge of a pair gets key 1. */
  lemma FirstKeyIsOne(g: G, src: string, dst: string)
    requires EntryOf(g, src, dst) == map[]
    ensures ChosenKey(g, src, dst, None) == IntKey(1)
  {
    NextKeyUnique(EntryOf(g, src, dst), 1, NextKey(EntryOf(g, src, dst)));
  }

  /** add_edge keeps both directions sharing one entry, which now maps key to attrs. */
  lemma AddEdgeShared(g: G, src: string, dst: string, key: EKey, attrs: Opts)
    requires Shared(g)
    ensures var r := WithEdge(g, src, dst, key, attrs);
      Shared(r) && src in r.edge && dst in r.edge[src] && dst in r.edge && src in r.edge[dst]
      && r.edge[src][dst] == r.edge[dst][src] == EntryOf(g, src, dst)[key := attrs]
  {
    var r := WithEdge(g, src, dst, key, attrs);
    var entry := EntryOf(g, src, dst)[key := attrs];
    forall a, b | a in r.edge && b in r.edge[a]
      ensures b in r.edge && a in r.edge[b] && r.edge[b][a] == r.edge[a][b]
    {
      if (a == src && b == dst) || (a == dst && b == src) {
        assert r.edge[a][b] == entry;
      } else {
        assert a in g.edge && b in g.edge[a] && r.edge[a][b] == g.edge[a][b];
        assert r.edge[b][a] == g.edge[b][a];
      }
    }
  }

  /** add_edge creates missing endpoints with empty attributes and leaves existing nodes alone. */
  lemma AddEdgeNodes(g: G, src: string, dst: string, key: EKey, attrs: Opts)
    ensures var r := WithEdge(g, src, dst, key, attrs);
      r.node.Keys == g.node.Keys + {src, dst}
      && (forall n :: n in g.node ==> r.node[n] == g.node[n])
      && (src !in g.node ==> r.node[src] == map[])
      && (dst !in g.node ==> r.node[dst] == map[])
  {
  }

  /** Other pairs keep their entries. */
  lemma AddEdgeOthers(g: G, src: string, dst: string, key: EKey, attrs: Opts, a: string, b: string)
    requires !((a == src && b == dst) || (a == dst && b == src))
    ensures EntryOf(WithEdge(g, src, dst, key, attrs), a, b) == EntryOf(g, a, b)
  {
  }

  // ------------------------------------------------------------ edges_iter

  /** A pair in the orientation edges_iter reports: it skips src > dst. */
  function Orient(a: string, b: string, k: EKey): (string, string, EKey) {
    if StrLess(b, a) then (b, a, k) else (a, b, k)
  }

  /** The (src, dst, key) triples edges_iter yields (in dictionary order, not modelled). */
  function Edges(g: G): set<(string, string, EKey)> {
    Triples(g.edge)
  }

  /** The triples of an edge dictionary; the node attributes play no part. */
  function Triples(edge: map<string, map<string, Entry>>): set<(string, string, EKey)> {
    set a, b, k | a in edge && b in edge[a] && !StrLess(b, a) && k in edge[a][b] :: (a, b, k)
  }

  /** Each (pair, key) of the graph is listed exactly once, in one orientation. */
  lemma EdgeListedOnce(g: G, a: string, b: string, k: EKey)
    requires Shared(g) && a in g.edge && b in g.edge[a] && k in g.edge[a][b]
    ensures Orient(a, b, k) in Edges(g)
    ensures a != b ==> !((a, b, k) in Edges(g) && (b, a, k) in Edges(g))
  {
    StrLessTotal(a, b);
  }

  /** Adding a key to a pair adds exactly that one triple to the listing. */
  lemma EdgesAfterAddEdge(g: G, src: string, dst: string, key: EKey, attrs: Opts)
    requires Shared(g)
    ensures Edges(WithEdge(g, src, dst, key, attrs)) == Edges(g) + {Orient(src, dst, key)}
  {
    AddEdgeShared(g, src, dst, key, attrs);
    StrLessTotal(src, dst);
    EdgesAfterAddEdgeNew(g, src, dst, key, attrs);
    EdgesAfterAddEdgeOld(g, src, dst, key, attrs);
  }

  /** Every triple listed after add_edge was listed before or is the new one. */
  lemma EdgesAfterAddEdgeNew(g: G, src: string, dst: string, key: EKey, attrs: Opts)
    requires Shared(g)
    ensures Edges(WithEdge(g, src, dst, key, attrs)) <= Edges(g) + {Orient(src, dst, key)}
  {
    var r := WithEdge(g, src, dst, key, attrs);
    AddEdgeShared(g, src, dst, key, attrs);
    forall t | t in Edges(r) ensures t in Edges(g) + {Orient(src, dst, key)} {
      var (a, b, k) := t;
      if (a == src && b == dst) || (a == dst && b == src) {
        StrLessTotal(src, dst);
        if k != key {
          assert EntryOf(r, a, b) == EntryOf(g, src, dst)[key := attrs];
          assert k in EntryOf(g, src, dst);
          if a == src { assert k in g.edge[a][b]; }
          else { assert k in g.edge[b][a]; assert g.edge[a][b] == g.edge[b][a]; }
        }
      } else {
        AddEdgeOthers(g, src, dst, key, attrs, a, b);
        assert EntryOf(r, a, b) == EntryOf(g, a, b);
      }
    }
  }

  /** Every triple listed before add_edge, and the new one, is listed after it. */
  lemma EdgesAfterAddEdgeOld(g: G, src: string, dst: string, key: EKey, attrs: Opts)
    requires Shared(g)
    ensures Edges(g) + {Orient(src, dst, key)} <= Edges(WithEdge(g, src, dst, key, attrs))
  {
    var r := WithEdge(g, src, dst, key, attrs);
    AddEdgeShared(g, src, dst, key, attrs);
    StrLessTotal(src, dst);
    assert Orient(src, dst, key) in Edges(r) by {
      if StrLess(dst, src) {
        assert dst in r.edge && src in r.edge[dst] && key in r.edge[dst][src];
      } else {
        assert src in r.edge && dst in r.edge[src] && key in r.edge[src][dst];
      }
    }
    forall t | t in Edges(g) ensures t in Edges(r) {
      EdgeKept(g, src, dst, key, attrs, t.0, t.1, t.2);
    }
  }

  /** One triple listed before add_edge is still listed after it. */
  lemma EdgeKept(g: G, src: string, dst: string, key: EKey, attrs: Opts, a: string, b: string, k: EKey)
    requires Shared(g) && (a, b, k) in Edges(g)
    ensures (a, b, k) in Edges(WithEdge(g, src, dst, key, attrs))
  {
    var r := WithEdge(g, src, dst, key, attrs);
    AddEdgeShared(g, src, dst, key, attrs);
    if (a == src && b == dst) || (a == dst && b == src) {
      assert k in EntryOf(g, a, b);
      if a == dst && b == src {
        assert EntryOf(g, a, b) == EntryOf(g, src, dst);
      }
      assert k in r.edge[a][b];
    } else {
      AddEdgeOthers(g, src, dst, key, attrs, a, b);
      assert k in EntryOf(r, a, b);
    }
  }

  // ----------------------------------------------------- the object itself

  class MultiGraph {
    var node: map<string, Opts>
    var edge: map<string, map<string, Entry>>

    function Value(): G reads this { G(node, edge) }

    constructor ()
      ensures Value() == Empty()
    {
      node := map[];
      edge := map[];
    }

    method AddNode(name: string, attrs: Opts)
      modifies this
      ensures Value() == WithNode(old(Value()), name, attrs)
    {
      node := node[name := attrs];
    }

    /** add_edge: the key is the caller's or the next ordinal; returns it. */
    method AddEdge(src: string, dst: string, key: Option<EKey>, attrs: Opts) returns (k: EKey)
      modifies this
      ensures k == ChosenKey(old(Value()), src, dst, key)
      ensures Value() == WithEdge(old(Value()), src, dst, k, attrs)
    {
      if src !in node { node := node[src := map[]]; }
      if dst !in node { node := node[dst := map[]]; }
      var entry := EntryOf(G(node, edge), src, dst);
      assert entry == EntryOf(old(Value()), src, dst);
      if key.Some? {
        k := key.value;
      } else {
        var m := NextOrdinal(entry);
        NextKeyUnique(entry, m, NextKey(entry));
        k := IntKey(m);
      }
      var e := entry[k := attrs];
      edge := edge[src := Row(edge, src)[dst := e]];
      edge := edge[dst := Row(edge, dst)[src := e]];
    }

    /** The node names, nodes() in some order. */
    function Nodes(): set<string> reads this { node.Keys }

    function EdgeList(): set<(string, string, EKey)> reads this { Edges(Value()) }

    function Len(): nat reads this { |node| }
  }

  /** max([0] + int keys) + 1, scanning the entry's keys. */
  method NextOrdinal(entry: Entry) returns (k: int)
    ensures IsNextKey(entry, k)
  {
    var m := 0;
    var rest := entry.Keys;
    while rest != {}
      invariant rest <= entry.Keys
      invariant IsMaxKey(entry.Keys - rest, m)
      decreases |rest|
    {
      var x :| x in rest;
      if x.IntKey? && x.n > m { m := x.n; }
      rest := rest - {x};
    }
    k := m + 1;
  }
}
