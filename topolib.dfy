// TreeTopo (mininet/topolib.py:7-31) as the calls it makes, on top of
// the Topo model: it only calls addSwitch, addHost and addLink.
module TopoLib {
  import opened Wrappers
  import opened Text
  import opened Util
  import opened Graph
  import opened Topo
  import opened Topos

  // ------------------------------------------------------- replaying calls

  /** A call a topology's build makes: addSwitch(name, **opts), addHost(name, **opts) or addLink(node1, node2, **opts). */
  datatype Call = SwitchCall(name: string, opts: Opts) | HostCall(name: string, opts: Opts) | LinkCall(node1: string, node2: string, opts: Opts)

  /** One call; an exception is its result. */
  ghost function Apply(st: State, c: Call): Result<State, Exc> {
    match c
    case SwitchCall(n, o) => SwitchAdded(st, n, o)
    case HostCall(n, o) => HostAdded(st, n, o)
    case LinkCall(a, b, o) => Linked(st, a, b, o)
  }

  /** The keywords addLink binds to its own parameters port1, port2 and key. */
  const BoundKws: set<string> := {"port1", "port2", "key"}

  /** A keyword naming self, node1 or node2, which addLink(a, b, ...) already binds. */
  predicate GivenTwice(opts: Opts) {
    "self" in opts || "node1" in opts || "node2" in opts
  }

  /**
   * The port a port1 or port2 keyword passes: an int (a bool counts as 0
   * or 1); an absent keyword passes None.  A text value is not a port of
   * the model's port map, and is passed as None too.
   */
  function PortKw(opts: Opts, k: string): (p: Option<int>)
    ensures p.Some? <==> k in opts && !opts[k].VStr?
    ensures k in opts && opts[k].VInt? ==> p == Some(opts[k].i)
  {
    if k !in opts then None
    else match opts[k]
      case VInt(i) => Some(i)
      case VBool(b) => Some(if b then 1 else 0)
      case VStr(_) => None
  }

  /** The edge key a key keyword passes, or None when there is none. */
  function KeyKw(opts: Opts): (k: Option<EKey>)
    ensures k.Some? <==> "key" in opts
    ensures "key" in opts && opts["key"].VStr? ==> k == Some(StrKey(opts["key"].s))
    ensures "key" in opts && opts["key"].VInt? ==> k == Some(IntKey(opts["key"].i))
  {
    if "key" !in opts then None
    else match opts["key"]
      case VInt(i) => Some(IntKey(i))
      case VBool(b) => Some(IntKey(if b then 1 else 0))
      case VStr(s) => Some(StrKey(s))
  }

  /**
   * addLink(a, b, **opts): Python binds the port1, port2 and key keywords
   * to addLink's own parameters, and a self, node1 or node2 keyword is a
   * second value for a bound one (TypeError); the rest are the link
   * options.  The state an exception leaves is dropped.
   */
  ghost function Linked(st: State, a: string, b: string, opts: Opts): (r: Result<State, Exc>)
    ensures GivenTwice(opts) ==> r == Err(TypeError)
    ensures !GivenTwice(opts) ==>
      (r.Ok? <==> PortAdded(st, a, b, PortKw(opts, "port1"), PortKw(opts, "port2")).r.Ok?)
  {
    if GivenTwice(opts) then Err(TypeError)
    else
      var o := LinkAdded(st, a, b, PortKw(opts, "port1"), PortKw(opts, "port2"), KeyKw(opts), opts - BoundKws);
      if o.r.Ok? then Ok(o.st) else Err(o.r.error)
  }

  /** With no keywords, addLink(a, b) allocates both ports and the next key. */
  lemma LinkedPlain(st: State, a: string, b: string)
    ensures var o := LinkAdded(st, a, b, None, None, None, map[]);
      Linked(st, a, b, map[]) == if o.r.Ok? then Ok(o.st) else Err(o.r.error)
  {
    var none: Opts := map[];
    assert none - BoundKws == none;
  }

  /**
   * A successful addLink(a, b, **opts) records the ports the port keywords
   * name (or the defaults) on both sides, and adds the edge under the key
   * keyword's key (or the next ordinal) with the other keywords, the two
   * ends and both ports as its options.
   */
  lemma LinkedBinds(st: State, a: string, b: string, opts: Opts)
    requires !GivenTwice(opts) && Linked(st, a, b, opts).Ok?
    ensures var pr := PortAdded(st, a, b, PortKw(opts, "port1"), PortKw(opts, "port2")).r.value;
      var r := Linked(st, a, b, opts).value;
      ("port1" in opts && opts["port1"].VInt? ==> pr.0 == opts["port1"].i)
      && ("port2" in opts && opts["port2"].VInt? ==> pr.1 == opts["port2"].i)
      && r.ports[a][pr.0] == (b, pr.1) && r.ports[b][pr.1] == (a, pr.0)
      && r.g == WithEdge(st.g, a, b, ChosenKey(st.g, a, b, KeyKw(opts)),
                         LinkOpts(OrDefault(opts - BoundKws, st.lopts), a, b, pr.0, pr.1))
  {
    var p1, p2 := PortKw(opts, "port1"), PortKw(opts, "port2");
    PortsSymmetric(st, a, b, p1, p2);
    LinkAddedGraph(st, a, b, p1, p2, KeyKw(opts), opts - BoundKws);
    PortDefaults(st, a, b, p1, p2);
  }

  /** The calls one after the other; the first exception ends the build. */
  ghost function Run(st: State, calls: seq<Call>): Result<State, Exc>
    decreases |calls|
  {
    if calls == [] then Ok(st)
    else match Apply(st, calls[0])
      case Err(e) => Err(e)
      case Ok(next) => Run(next, calls[1..])
  }

  lemma RunOne(st: State, c: Call)
    ensures Run(st, [c]) == Apply(st, c)
  {
    assert [c][1..] == [];
  }

  /** Running a + b runs a, then b from where a left off, unless a raised. */
  lemma {:induction false} RunAppend(st: State, a: seq<Call>, b: seq<Call>)
    ensures Run(st, a + b) == (if Run(st, a).Ok? then Run(Run(st, a).value, b) else Run(st, a))
    decreases |a|
  {
    if a == [] {
      assert a + b == b;
    } else {
      assert (a + b)[0] == a[0] && (a + b)[1..] == a[1..] + b;
      if Apply(st, a[0]).Ok? {
        RunAppend(Apply(st, a[0]).value, a[1..], b);
      }
    }
  }

  /** An exception raised by a prefix of the calls is the exception of all of them. */
  lemma RunErrPrefix(st: State, a: seq<Call>, b: seq<Call>)
    requires a <= b && Run(st, a).Err?
    ensures Run(st, b) == Run(st, a)
  {
    assert b == a + b[|a|..];
    RunAppend(st, a, b[|a|..]);
  }

  /** The number of addLink calls. */
  function LinkCount(calls: seq<Call>): nat
    decreases |calls|
  {
    if calls == [] then 0 else (if calls[0].LinkCall? then 1 else 0) + LinkCount(calls[1..])
  }

  lemma {:induction false} LinkCountAppend(a: seq<Call>, b: seq<Call>)
    ensures LinkCount(a + b) == LinkCount(a) + LinkCount(b)
    decreases |a|
  {
    if a == [] {
      assert a + b == b;
    } else {
      assert (a + b)[0] == a[0] && (a + b)[1..] == a[1..] + b;
      LinkCountAppend(a[1..], b);
    }
  }

  // ------------------------------------------------------------ TreeTopo

  function Max0(d: int): nat { if d < 0 then 0 else d }

  /** The node addTree returns: the next switch, or the next host at depth 0 or below. */
  function RootName(h: nat, s: nat, depth: int): string {
    if depth > 0 then SwitchName(s) else HostName(h)
  }

  /** The calls of addTree and where it leaves hostNum and switchNum. */
  datatype Plan = Plan(calls: seq<Call>, h: nat, s: nat)

  /** addTree(depth, fanout) with the counters at h and s. */
  function TreePlan(h: nat, s: nat, depth: int, fanout: int): Plan
    decreases Max0(depth), 1, 0
  {
    if depth > 0 then
      var p := ChildPlans(h, s + 1, SwitchName(s), depth - 1, fanout, Rounds(fanout));
      Plan([SwitchCall(SwitchName(s), map[])] + p.calls, p.h, p.s)
    else
      Plan([HostCall(HostName(h), map[])], h + 1, s)
  }

  /** The first i rounds of `for _ in range(fanout)`: a subtree, then its link from node. */
  function ChildPlans(h: nat, s: nat, node: string, depth: int, fanout: int, i: nat): Plan
    decreases Max0(depth) + 1, 0, i
  {
    if i == 0 then Plan([], h, s)
    else
      var c := ChildPlans(h, s, node, depth, fanout, i - 1);
      var sub := TreePlan(c.h, c.s, depth, fanout);
      Plan(c.calls + sub.calls + [LinkCall(node, RootName(c.h, c.s, depth), map[])], sub.h, sub.s)
  }

  /** The calls of an earlier round begin those of a later one. */
  lemma {:induction false} ChildPlansPrefix(h: nat, s: nat, node: string, depth: int, fanout: int, i: nat, j: nat)
    requires i <= j
    ensures ChildPlans(h, s, node, depth, fanout, i).calls <= ChildPlans(h, s, node, depth, fanout, j).calls
    decreases j
  {
    if i < j {
      ChildPlansPrefix(h, s, node, depth, fanout, i, j - 1);
      var prev := ChildPlans(h, s, node, depth, fanout, j - 1);
      var more := TreePlan(prev.h, prev.s, depth, fanout).calls + [LinkCall(node, RootName(prev.h, prev.s, depth), map[])];
      assert ChildPlans(h, s, node, depth, fanout, j).calls == prev.calls + more;
      PrefixExtend(ChildPlans(h, s, node, depth, fanout, i).calls, prev.calls, more);
    }
  }

  lemma PrefixExtend(a: seq<Call>, b: seq<Call>, c: seq<Call>)
    requires a <= b
    ensures a <= b + c
  {
    assert (b + c)[..|a|] == b[..|a|];
  }

  /** The hosts of a tree: fanout per switch level, one at the bottom. */
  function TreeHosts(depth: int, fanout: int): nat
    decreases Max0(depth)
  {
    if depth > 0 then Times(Rounds(fanout), TreeHosts(depth - 1, fanout)) else 1
  }

  /** The switches of a tree: the root and those of its subtrees. */
  function TreeSwitches(depth: int, fanout: int): nat
    decreases Max0(depth)
  {
    if depth > 0 then 1 + Times(Rounds(fanout), TreeSwitches(depth - 1, fanout)) else 0
  }

  /** i copies of x, added up. */
  function Times(i: nat, x: nat): nat {
    if i == 0 then 0 else Times(i - 1, x) + x
  }

  lemma {:induction false} TimesMul(i: nat, x: nat)
    ensures Times(i, x) == i * x
  {
    if i > 0 {
      TimesMul(i - 1, x);
    }
  }

  lemma {:induction false} TimesAdd(i: nat, x: nat, y: nat)
    ensures Times(i, x + y) == Times(i, x) + Times(i, y)
  {
    if i > 0 {
      TimesAdd(i - 1, x, y);
    }
  }

  function Power(f: nat, d: nat): nat {
    if d == 0 then 1 else f * Power(f, d - 1)
  }

  /** 1 + f + ... + f^(d-1) */
  function GeomSum(f: nat, d: nat): nat {
    if d == 0 then 0 else GeomSum(f, d - 1) + Power(f, d - 1)
  }

  /** A tree of depth d >= 0 has fanout^d hosts. */
  lemma {:induction false} TreeHostsPower(d: nat, fanout: int)
    ensures TreeHosts(d, fanout) == Power(Rounds(fanout), d)
  {
    if d > 0 {
      TreeHostsPower(d - 1, fanout);
      TimesMul(Rounds(fanout), TreeHosts(d - 1, fanout));
    }
  }

  /** A tree of depth d >= 0 has 1 + fanout + ... + fanout^(d-1) switches. */
  lemma {:induction false} TreeSwitchesSum(d: nat, fanout: int)
    ensures TreeSwitches(d, fanout) == GeomSum(Rounds(fanout), d)
  {
    if d > 0 {
      TreeSwitchesSum(d - 1, fanout);
      GeomSumShift(Rounds(fanout), d);
      TimesMul(Rounds(fanout), TreeSwitches(d - 1, fanout));
    }
  }

  /** GeomSum(f, d) == 1 + f * GeomSum(f, d - 1), summing from the top. */
  lemma {:induction false} GeomSumShift(f: nat, d: nat)
    requires d > 0
    ensures GeomSum(f, d) == 1 + f * GeomSum(f, d - 1)
  {
    if d > 1 {
      GeomSumShift(f, d - 1);
      calc {
        GeomSum(f, d);
        GeomSum(f, d - 1) + Power(f, d - 1);
        1 + f * GeomSum(f, d - 2) + f * Power(f, d - 2);
        { MulAdd(f, GeomSum(f, d - 2), Power(f, d - 2)); }
        1 + f * (GeomSum(f, d - 2) + Power(f, d - 2));
      }
    }
  }

  lemma MulAdd(f: int, a: int, b: int)
    ensures f * a + f * b == f * (a + b)
  {
  }

  // ------------------------------------------------ names used by the tree

  /** h1 .. hn */
  function HostSet(n: int): set<string>
    decreases Max0(n)
  {
    if n <= 0 then {} else HostSet(n - 1) + {HostName(n)}
  }

  /** s1 .. sn */
  function SwitchSet(n: int): set<string>
    decreases Max0(n)
  {
    if n <= 0 then {} else SwitchSet(n - 1) + {SwitchName(n)}
  }

  /** A name with a number above n is not among the first n, and the two kinds never meet. */
  lemma {:induction false} NamesOutside(a: nat, n: int)
    ensures a > n ==> HostName(a) !in HostSet(n) && SwitchName(a) !in SwitchSet(n)
    ensures SwitchName(a) !in HostSet(n) && HostName(a) !in SwitchSet(n)
    decreases Max0(n)
  {
    if n > 0 {
      NamesOutside(a, n - 1);
      NameInjective(a, n);
      NameInjective(n, a);
    }
  }

  lemma {:induction false} NameSetsCount(n: int)
    ensures |HostSet(n)| == Max0(n) && |SwitchSet(n)| == Max0(n)
    decreases Max0(n)
  {
    if n > 0 {
      NameSetsCount(n - 1);
      NamesOutside(n, n - 1);
    }
  }

  lemma {:induction false} NameSetsHold(j: nat, n: int)
    requires 1 <= j <= n
    ensures HostName(j) in HostSet(n) && SwitchName(j) in SwitchSet(n)
    decreases Max0(n)
  {
    if j < n {
      NameSetsHold(j, n - 1);
    }
  }

  lemma {:induction false} NameSetsApart(m: int, n: int)
    ensures HostSet(m) !! SwitchSet(n)
    decreases Max0(m)
  {
    if m > 0 {
      NameSetsApart(m - 1, n);
      NamesOutside(m, n);
    }
  }

  /** The names h1 .. h(h-1) and s1 .. s(s-1) the counters have passed. */
  function Declared(h: int, s: int): set<string> {
    SwitchSet(s - 1) + HostSet(h - 1)
  }

  lemma {:induction false} SetsGrow(m: int, n: int)
    requires m <= n
    ensures HostSet(m) <= HostSet(n) && SwitchSet(m) <= SwitchSet(n)
    decreases n - m
  {
    if m < n {
      SetsGrow(m, n - 1);
    }
  }

  lemma DeclaredKeeps(x: string, h: int, s: int, h2: int, s2: int)
    requires h <= h2 && s <= s2 && x in Declared(h, s)
    ensures x in Declared(h2, s2)
  {
    DeclaredGrow(h, s, h2, s2);
  }

  lemma DeclaredGrow(h: int, s: int, h2: int, s2: int)
    requires h <= h2 && s <= s2
    ensures Declared(h, s) <= Declared(h2, s2)
  {
    SetsGrow(h - 1, h2 - 1);
    SetsGrow(s - 1, s2 - 1);
  }

  /**
   * Where the counters end when every addSwitch / addHost names the node
   * they point at and every addLink joins two nodes already named; None
   * when a call does otherwise.
   */
  function Counters(h: nat, s: nat, calls: seq<Call>): Option<(nat, nat)>
    decreases |calls|
  {
    if calls == [] then Some((h, s))
    else match calls[0]
      case SwitchCall(n, o) => if n == SwitchName(s) && o == map[] then Counters(h, s + 1, calls[1..]) else None
      case HostCall(n, o) => if n == HostName(h) && o == map[] then Counters(h + 1, s, calls[1..]) else None
      case LinkCall(a, b, o) =>
        if a in Declared(h, s) && b in Declared(h, s) && o == map[] then Counters(h, s, calls[1..]) else None
  }

  lemma {:induction false} CountersAppend(h: nat, s: nat, a: seq<Call>, b: seq<Call>)
    ensures Counters(h, s, a + b) ==
      (if Counters(h, s, a).Some? then Counters(Counters(h, s, a).value.0, Counters(h, s, a).value.1, b) else None)
    decreases |a|
  {
    if a == [] {
      assert a + b == b;
    } else {
      assert (a + b)[0] == a[0] && (a + b)[1..] == a[1..] + b;
      match a[0]
      case SwitchCall(n, o) => CountersAppend(h, s + 1, a[1..], b);
      case HostCall(n, o) => CountersAppend(h + 1, s, a[1..], b);
      case LinkCall(x, y, o) => CountersAppend(h, s, a[1..], b);
    }
  }

  /**
   * addTree's calls name the next free switches and hosts in turn, link only
   * nodes already added, move hostNum on by the tree's hosts and switchNum
   * by its switches, link every node but the root, and add the root.
   */
  lemma {:induction false} TreePlanFits(h: nat, s: nat, depth: int, fanout: int)
    requires h >= 1 && s >= 1
    ensures var p := TreePlan(h, s, depth, fanout);
      Counters(h, s, p.calls) == Some((p.h, p.s))
      && p.h == h + TreeHosts(depth, fanout) && p.s == s + TreeSwitches(depth, fanout)
      && LinkCount(p.calls) + 1 == TreeHosts(depth, fanout) + TreeSwitches(depth, fanout)
      && RootName(h, s, depth) in Declared(p.h, p.s)
    decreases Max0(depth), 1, 0
  {
    var p := TreePlan(h, s, depth, fanout);
    if depth > 0 {
      var n, hs, ss := Rounds(fanout), TreeHosts(depth - 1, fanout), TreeSwitches(depth - 1, fanout);
      var root := SwitchName(s);
      assert root in SwitchSet(s);
      ChildPlansFit(h, s + 1, root, depth - 1, fanout, n);
      var c := ChildPlans(h, s + 1, root, depth - 1, fanout, n);
      SwitchFirst(h, s, c.calls);
      TimesAdd(n, hs, ss);
      assert p.calls == [SwitchCall(root, map[])] + c.calls;
      assert TreeHosts(depth, fanout) == Times(n, hs) && TreeSwitches(depth, fanout) == 1 + Times(n, ss);
      assert LinkCount(p.calls) == LinkCount(c.calls) == Times(n, hs + ss);
      DeclaredKeeps(root, h, s + 1, p.h, p.s);
    } else {
      assert [HostCall(HostName(h), map[])][1..] == [];
      assert LinkCount(p.calls) == 0;
      assert HostName(h) in HostSet(h);
    }
  }

  /** Plan p, begun with the counters at h and s, adds k rounds of a
      subtree of x hosts and y switches and one link each. */
  predicate RoundsFit(h: nat, s: nat, p: Plan, x: nat, y: nat, k: nat) {
    Counters(h, s, p.calls) == Some((p.h, p.s)) && p.h == h + Times(k, x) && p.s == s + Times(k, y)
    && LinkCount(p.calls) == Times(k, x + y)
  }

  lemma {:induction false} ChildPlansFit(h: nat, s: nat, node: string, depth: int, fanout: int, i: nat)
    requires h >= 1 && s >= 1 && node in Declared(h, s)
    ensures RoundsFit(h, s, ChildPlans(h, s, node, depth, fanout, i), TreeHosts(depth, fanout), TreeSwitches(depth, fanout), i)
    decreases Max0(depth) + 1, 0, i
  {
    if i > 0 {
      var c := ChildPlans(h, s, node, depth, fanout, i - 1);
      ChildPlansFit(h, s, node, depth, fanout, i - 1);
      TreePlanFits(c.h, c.s, depth, fanout);
      var sub := TreePlan(c.h, c.s, depth, fanout);
      ChildRound(h, s, node, c, sub, RootName(c.h, c.s, depth), TreeHosts(depth, fanout), TreeSwitches(depth, fanout), i - 1);
    }
  }

  /** One more round: a child subtree of x hosts and y switches, then its link. */
  lemma ChildRound(h: nat, s: nat, node: string, c: Plan, sub: Plan, root: string, x: nat, y: nat, k: nat)
    requires node in Declared(h, s) && RoundsFit(h, s, c, x, y, k)
    requires Counters(c.h, c.s, sub.calls) == Some((sub.h, sub.s)) && sub.h == c.h + x && sub.s == c.s + y
    requires LinkCount(sub.calls) + 1 == x + y && root in Declared(sub.h, sub.s)
    ensures RoundsFit(h, s, Plan(c.calls + sub.calls + [LinkCall(node, root, map[])], sub.h, sub.s), x, y, k + 1)
  {
    DeclaredKeeps(node, h, s, sub.h, sub.s);
    RoundFacts(h, s, c.calls, sub.calls, node, root, c.h, c.s, sub.h, sub.s);
  }

  /** Counting a switch and then more calls. */
  lemma SwitchFirst(h: nat, s: nat, calls: seq<Call>)
    ensures Counters(h, s, [SwitchCall(SwitchName(s), map[])] + calls) == Counters(h, s + 1, calls)
    ensures LinkCount([SwitchCall(SwitchName(s), map[])] + calls) == LinkCount(calls)
  {
    assert ([SwitchCall(SwitchName(s), map[])] + calls)[0] == SwitchCall(SwitchName(s), map[]);
    assert ([SwitchCall(SwitchName(s), map[])] + calls)[1..] == calls;
  }

  /** Counting a round: earlier calls, a subtree, then a link of two declared nodes. */
  lemma RoundFacts(h: nat, s: nat, cc: seq<Call>, sc: seq<Call>, a: string, b: string,
                   ch: nat, cs: nat, sh: nat, ss: nat)
    requires Counters(h, s, cc) == Some((ch, cs)) && Counters(ch, cs, sc) == Some((sh, ss))
    requires a in Declared(sh, ss) && b in Declared(sh, ss)
    ensures Counters(h, s, cc + sc + [LinkCall(a, b, map[])]) == Some((sh, ss))
    ensures LinkCount(cc + sc + [LinkCall(a, b, map[])]) == LinkCount(cc) + LinkCount(sc) + 1
  {
    CountersAppend(h, s, cc, sc);
    CountersAppend(h, s, cc + sc, [LinkCall(a, b, map[])]);
    assert [LinkCall(a, b, map[])][1..] == [];
    LinkCountAppend(cc, sc);
    LinkCountAppend(cc + sc, [LinkCall(a, b, map[])]);
  }

  /**
   * Child i (from 0) of a switch added with the counters at h and s starts
   * its subtree at host h + i * hosts and switch s + 1 + i * switches of a
   * subtree: hosts are numbered left to right and switches in pre-order.
   */
  lemma ChildNumbering(h: nat, s: nat, depth: int, fanout: int, i: nat)
    requires h >= 1 && s >= 1 && depth > 0
    ensures var c := ChildPlans(h, s + 1, SwitchName(s), depth - 1, fanout, i);
      c.h == h + i * TreeHosts(depth - 1, fanout) && c.s == s + 1 + i * TreeSwitches(depth - 1, fanout)
  {
    assert SwitchName(s) in Declared(h, s + 1) by {
      assert SwitchSet(s) == SwitchSet(s - 1) + {SwitchName(s)};
    }
    ChildPlansFit(h, s + 1, SwitchName(s), depth - 1, fanout, i);
    TimesMul(i, TreeHosts(depth - 1, fanout));
    TimesMul(i, TreeSwitches(depth - 1, fanout));
  }

  // ------------------------------------------------ the calls on the topology

  /**
   * What the topology holds with the counters at h and s: s1 .. s(s-1) as
   * switches, h1 .. h(h-1) as hosts and the given number of edges; the
   * option dictionaries are those of st0.
   */
  ghost predicate Grown(st0: State, st: State, h: int, s: int, links: int) {
    h >= 1 && s >= 1
    && st.hopts == st0.hopts && st.sopts == st0.sopts && st.lopts == st0.lopts
    && Shared(st.g)
    && KindsGrown(st.g.node, h, s)
    && |Edges(st.g)| == links
  }

  /** The switches are s1 .. s(s-1) and the hosts h1 .. h(h-1). */
  ghost predicate KindsGrown(node: map<string, Opts>, h: int, s: int) {
    KindSet(node, true) == SwitchSet(s - 1) && KindSet(node, false) == HostSet(h - 1)
  }

  lemma KindsAddSwitch(node: map<string, Opts>, name: string, attrs: Opts, h: int, s: int)
    requires s >= 1 && KindsGrown(node, h, s) && name !in node && SwitchAttrs(attrs) && name == SwitchName(s)
    ensures KindsGrown(node[name := attrs], h, s + 1)
  {
    KindSetAdd(node, name, attrs);
  }

  lemma KindsAddHost(node: map<string, Opts>, name: string, attrs: Opts, h: int, s: int)
    requires h >= 1 && KindsGrown(node, h, s) && name !in node && !SwitchAttrs(attrs) && name == HostName(h)
    ensures KindsGrown(node[name := attrs], h + 1, s)
  {
    KindSetAdd(node, name, attrs);
  }

  /** The named nodes are the nodes. */
  lemma DeclaredNodes(node: map<string, Opts>, h: int, s: int, x: string)
    requires KindsGrown(node, h, s)
    ensures x in node <==> x in Declared(h, s)
  {
    if x in node {
      assert x in KindSet(node, SwitchAttrs(node[x]));
    }
  }

  /** The names the counters point at are not yet taken. */
  lemma NextIsFree(node: map<string, Opts>, h: int, s: int)
    requires h >= 1 && s >= 1 && KindsGrown(node, h, s)
    ensures SwitchName(s) !in node && HostName(h) !in node
  {
    NamesOutside(s, s - 1);
    NamesOutside(s, h - 1);
    NamesOutside(h, s - 1);
    NamesOutside(h, h - 1);
    DeclaredNodes(node, h, s, SwitchName(s));
    DeclaredNodes(node, h, s, HostName(h));
  }

  lemma SwitchCallGrows(st0: State, st: State, h: int, s: int, links: int)
    requires PlainDefaults(st0) && Grown(st0, st, h, s, links)
    ensures var r := SwitchAdded(st, SwitchName(s), map[]);
      r.Ok? && Grown(st0, r.value, h, s + 1, links)
  {
    var name := SwitchName(s);
    SwitchedNew(st, name);
    NextIsFree(st.g.node, h, s);
    KindsAddSwitch(st.g.node, name, st0.sopts["isSwitch" := VBool(true)], h, s);
  }

  lemma HostCallGrows(st0: State, st: State, h: int, s: int, links: int)
    requires PlainDefaults(st0) && Grown(st0, st, h, s, links)
    ensures var r := HostAdded(st, HostName(h), map[]);
      r.Ok? && Grown(st0, r.value, h + 1, s, links)
  {
    var name := HostName(h);
    NextIsFree(st.g.node, h, s);
    HostedNew(st, name);
    KindsAddHost(st.g.node, name, st0.hopts, h, s);
  }

  lemma LinkCallGrows(st0: State, st: State, h: int, s: int, links: int, a: string, b: string)
    requires Grown(st0, st, h, s, links) && a in Declared(h, s) && b in Declared(h, s)
    ensures var r := Linked(st, a, b, map[]);
      r.Ok? && Grown(st0, r.value, h, s, links + 1)
  {
    DeclaredNodes(st.g.node, h, s, a);
    DeclaredNodes(st.g.node, h, s, b);
    LinkApplied(st, a, b);
    LinkedPlain(st, a, b);
    GrownLinked(st0, st, Linked(st, a, b, map[]).value, h, s, links);
  }

  /** The three kinds of call, one by one. */
  lemma ApplyCases(st: State, c: Call)
    ensures c.SwitchCall? ==> Apply(st, c) == SwitchAdded(st, c.name, c.opts)
    ensures c.HostCall? ==> Apply(st, c) == HostAdded(st, c.name, c.opts)
    ensures c.LinkCall? ==> Apply(st, c) == Linked(st, c.node1, c.node2, c.opts)
  {
  }

  /** One call that fits the counters raises nothing and keeps Grown. */
  lemma CallGrows(st0: State, st: State, h: nat, s: nat, links: int, c: Call)
    requires PlainDefaults(st0) && Grown(st0, st, h, s, links) && Counters(h, s, [c]).Some?
    ensures Apply(st, c).Ok?
    ensures var e := Counters(h, s, [c]).value;
      Grown(st0, Apply(st, c).value, e.0, e.1, links + LinkCount([c]))
  {
    assert [c][1..] == [];
    ApplyCases(st, c);
    match c
    case SwitchCall(n, o) => SwitchCallGrows(st0, st, h, s, links);
    case HostCall(n, o) => HostCallGrows(st0, st, h, s, links);
    case LinkCall(a, b, o) => LinkCallGrows(st0, st, h, s, links, a, b);
  }

  /** Run unfolded by one call. */
  lemma RunStep(st: State, calls: seq<Call>)
    requires calls != []
    ensures Run(st, calls) == (if Apply(st, calls[0]).Ok? then Run(Apply(st, calls[0]).value, calls[1..]) else Apply(st, calls[0]))
  {
  }

  /** addLink(a, b) between two nodes succeeds, keeps the nodes and adds one edge. */
  lemma LinkApplied(st: State, a: string, b: string)
    requires Shared(st.g) && a in st.g.node && b in st.g.node
    ensures var r := Linked(st, a, b, map[]);
      r.Ok? && r.value.(g := st.g, ports := st.ports) == st && r.value.g.node == st.g.node
      && Shared(r.value.g) && |Edges(r.value.g)| == |Edges(st.g)| + 1
  {
    LinkedNodes(st, a, b, None, None);
    LinkedPlain(st, a, b);
  }

  /** A new edge between existing nodes that keeps the nodes and the options keeps Grown. */
  lemma GrownLinked(st0: State, st: State, r: State, h: int, s: int, links: int)
    requires Grown(st0, st, h, s, links)
    requires r.(g := st.g, ports := st.ports) == st && r.g.node == st.g.node
    requires Shared(r.g) && |Edges(r.g)| == |Edges(st.g)| + 1
    ensures Grown(st0, r, h, s, links + 1)
  {
  }

  /** Calls that fit the counters raise nothing and keep Grown, one edge per addLink. */
  lemma {:induction false} RunGrows(st0: State, st: State, h: nat, s: nat, links: int, calls: seq<Call>)
    requires PlainDefaults(st0) && Grown(st0, st, h, s, links) && Counters(h, s, calls).Some?
    ensures Run(st, calls).Ok?
    ensures var e := Counters(h, s, calls).value;
      Grown(st0, Run(st, calls).value, e.0, e.1, links + LinkCount(calls))
    decreases |calls|
  {
    if calls == [] {
      return;
    }
    var c, rest := calls[0], calls[1..];
    assert calls == [c] + rest;
    CountersAppend(h, s, [c], rest);
    LinkCountAppend([c], rest);
    CallGrows(st0, st, h, s, links, c);
    RunStep(st, calls);
    var e := Counters(h, s, [c]).value;
    RunGrows(st0, Apply(st, c).value, e.0, e.1, links + LinkCount([c]), rest);
  }

  lemma GrownStart(st0: State)
    requires Blank(st0)
    ensures Grown(st0, st0, 1, 1, 0)
  {
    assert Edges(st0.g) == {};
  }

  /** A grown topology lists h1 .. h(h-1) as its hosts and s1 .. s(s-1) as its switches. */
  lemma GrownShape(st0: State, st: State, h: int, s: int, links: int)
    requires Grown(st0, st, h, s, links)
    ensures |Hosts(st.g)| == h - 1 && |Switches(st.g)| == s - 1 && |Edges(st.g)| == links
    ensures forall j: nat :: 1 <= j < h ==> HostName(j) in Hosts(st.g)
    ensures forall j: nat :: 1 <= j < s ==> SwitchName(j) in Switches(st.g)
  {
    KindsCount(st.g, h, s);
    KindsListed(st.g, h, s);
  }

  lemma KindsCount(g: G, h: int, s: int)
    requires KindsGrown(g.node, h, s) && h >= 1 && s >= 1
    ensures |Hosts(g)| == h - 1 && |Switches(g)| == s - 1
  {
    KindCounts(g);
    NameSetsCount(h - 1);
    NameSetsCount(s - 1);
  }

  lemma KindsListed(g: G, h: int, s: int)
    requires KindsGrown(g.node, h, s)
    ensures forall j: nat :: 1 <= j < h ==> HostName(j) in Hosts(g)
    ensures forall j: nat :: 1 <= j < s ==> SwitchName(j) in Switches(g)
  {
    HostsListed(g, h);
    SwitchesListed(g, s);
  }

  lemma HostsListed(g: G, h: int)
    requires KindSet(g.node, false) == HostSet(h - 1)
    ensures forall j: nat :: 1 <= j < h ==> HostName(j) in Hosts(g)
  {
    forall j: nat | 1 <= j < h ensures HostName(j) in Hosts(g) {
      NameSetsHold(j, h - 1);
      KindListed(g, HostName(j), false);
    }
  }

  lemma SwitchesListed(g: G, s: int)
    requires KindSet(g.node, true) == SwitchSet(s - 1)
    ensures forall j: nat :: 1 <= j < s ==> SwitchName(j) in Switches(g)
  {
    forall j: nat | 1 <= j < s ensures SwitchName(j) in Switches(g) {
      NameSetsHold(j, s - 1);
      KindListed(g, SwitchName(j), true);
    }
  }

  /** A node of a kind is listed by hosts() or switches(). */
  lemma KindListed(g: G, x: string, switch: bool)
    requires x in KindSet(g.node, switch)
    ensures switch ==> x in Switches(g)
    ensures !switch ==> x in Hosts(g)
  {
    NodesListed(g);
    assert multiset(Nodes(g))[x] == 1;
  }

  /** TreeTopo(depth, fanout) raises nothing and leaves a grown topology. */
  lemma TreeRunGrown(st0: State, depth: int, fanout: int)
    requires Blank(st0) && PlainDefaults(st0)
    ensures var p := TreePlan(1, 1, depth, fanout);
      Run(st0, p.calls).Ok? && Grown(st0, Run(st0, p.calls).value, p.h, p.s, LinkCount(p.calls))
  {
    var p := TreePlan(1, 1, depth, fanout);
    GrownStart(st0);
    TreePlanFits(1, 1, depth, fanout);
    RunGrows(st0, st0, 1, 1, 0, p.calls);
  }

  /**
   * TreeTopo(depth, fanout) raises nothing and holds fanout^depth hosts
   * h1 .. hN, 1 + fanout + ... + fanout^(depth-1) switches s1 .. sM, and
   * one link per node but the root.
   */
  lemma TreeTopoShape(st0: State, depth: int, fanout: int)
    requires Blank(st0) && PlainDefaults(st0)
    ensures Run(st0, TreePlan(1, 1, depth, fanout).calls).Ok?
    ensures var g := Run(st0, TreePlan(1, 1, depth, fanout).calls).value.g;
      var hosts, switches := TreeHosts(depth, fanout), TreeSwitches(depth, fanout);
      |Hosts(g)| == hosts && |Switches(g)| == switches && |Edges(g)| + 1 == hosts + switches
      && (forall j: nat :: 1 <= j <= hosts ==> HostName(j) in Hosts(g))
      && (forall j: nat :: 1 <= j <= switches ==> SwitchName(j) in Switches(g))
  {
    var p := TreePlan(1, 1, depth, fanout);
    TreeRunGrown(st0, depth, fanout);
    TreePlanFits(1, 1, depth, fanout);
    GrownShape(st0, Run(st0, p.calls).value, p.h, p.s, LinkCount(p.calls));
  }

  /** Depth 0: the single host h1, no switch and no link. */
  lemma TreeDepthZero(st0: State, fanout: int)
    requires Blank(st0) && PlainDefaults(st0)
    ensures Run(st0, TreePlan(1, 1, 0, fanout).calls).Ok?
    ensures var g := Run(st0, TreePlan(1, 1, 0, fanout).calls).value.g;
      Hosts(g) == ["h1"] && Switches(g) == [] && Edges(g) == {}
  {
    TreeTopoShape(st0, 0, fanout);
    var g := Run(st0, TreePlan(1, 1, 0, fanout).calls).value.g;
    assert |Hosts(g)| == 1 && HostName(1) in Hosts(g);
    assert HostName(1) == "h1";
  }

  // ------------------------------------------------ addTree, call by call

  /** The calls of the first i rounds under a switch added with the counters at h and s. */
  function Rounds0(h: nat, s: nat, depth: int, fanout: int, i: nat): Plan {
    ChildPlans(h, s + 1, SwitchName(s), depth - 1, fanout, i)
  }

  /** After addSwitch: an exception is the tree's; otherwise the switch's state starts round 0. */
  lemma TreeSwitchRun(st0: State, h: nat, s: nat, depth: int, fanout: int)
    requires depth > 0
    ensures var o := SwitchAdded(st0, SwitchName(s), map[]);
      (o.Err? ==> Run(st0, TreePlan(h, s, depth, fanout).calls) == Err(o.error))
      && (o.Ok? ==> Run(st0, [SwitchCall(SwitchName(s), map[])] + Rounds0(h, s, depth, fanout, 0).calls) == Ok(o.value))
  {
    var first := [SwitchCall(SwitchName(s), map[])];
    RunOne(st0, SwitchCall(SwitchName(s), map[]));
    ApplyCases(st0, SwitchCall(SwitchName(s), map[]));
    assert first + Rounds0(h, s, depth, fanout, 0).calls == first;
    if SwitchAdded(st0, SwitchName(s), map[]).Err? {
      RunErrPrefix(st0, first, TreePlan(h, s, depth, fanout).calls);
    }
  }

  /** An exception after a prefix ends every run that extends it. */
  lemma RunThrough(st0: State, pre: seq<Call>, sub: seq<Call>, whole: seq<Call>, cur: State)
    requires Run(st0, pre) == Ok(cur) && pre + sub <= whole && Run(cur, sub).Err?
    ensures Run(st0, whole) == Run(cur, sub)
  {
    RunAppend(st0, pre, sub);
    RunErrPrefix(st0, pre + sub, whole);
  }

  /** One more call after two runs that succeed. */
  lemma RunThen(st0: State, pre: seq<Call>, sub: seq<Call>, c: Call, cur: State, mid: State)
    requires Run(st0, pre) == Ok(cur) && Run(cur, sub) == Ok(mid)
    ensures Run(st0, pre + sub + [c]) == Apply(mid, c)
  {
    RunAppend(st0, pre, sub);
    RunOne(mid, c);
    RunAppend(st0, pre + sub, [c]);
  }

  /** Round i + 1 extends round i by the subtree and its link; every round begins the tree. */
  lemma RoundCalls(h: nat, s: nat, depth: int, fanout: int, i: nat)
    requires depth > 0 && i < Rounds(fanout)
    ensures var c := Rounds0(h, s, depth, fanout, i);
      var sub := TreePlan(c.h, c.s, depth - 1, fanout).calls;
      var link := LinkCall(SwitchName(s), RootName(c.h, c.s, depth - 1), map[]);
      var first := [SwitchCall(SwitchName(s), map[])];
      && first + Rounds0(h, s, depth, fanout, i + 1).calls == first + c.calls + sub + [link]
      && first + c.calls + sub <= TreePlan(h, s, depth, fanout).calls
      && first + Rounds0(h, s, depth, fanout, i + 1).calls <= TreePlan(h, s, depth, fanout).calls
  {
    var first := [SwitchCall(SwitchName(s), map[])];
    var c := Rounds0(h, s, depth, fanout, i);
    var sub := TreePlan(c.h, c.s, depth - 1, fanout).calls;
    var link := LinkCall(SwitchName(s), RootName(c.h, c.s, depth - 1), map[]);
    var all := Rounds0(h, s, depth, fanout, Rounds(fanout)).calls;
    ChildPlansPrefix(h, s + 1, SwitchName(s), depth - 1, fanout, i + 1, Rounds(fanout));
    RoundPrefix(first, c.calls, sub, [link], all);
    PrefixCons(first, Rounds0(h, s, depth, fanout, i + 1).calls, all);
  }

  /** Round i as one run: its exception is the tree's; otherwise round i + 1 starts. */
  lemma RoundRun(st0: State, h: nat, s: nat, depth: int, fanout: int, i: nat, cur: State)
    requires depth > 0 && i < Rounds(fanout)
    requires Run(st0, [SwitchCall(SwitchName(s), map[])] + Rounds0(h, s, depth, fanout, i).calls) == Ok(cur)
    ensures var c := Rounds0(h, s, depth, fanout, i);
      var sub := TreePlan(c.h, c.s, depth - 1, fanout).calls;
      var o := Run(cur, sub + [LinkCall(SwitchName(s), RootName(c.h, c.s, depth - 1), map[])]);
      (o.Err? ==> Run(st0, TreePlan(h, s, depth, fanout).calls) == o)
      && (o.Ok? ==> Run(st0, [SwitchCall(SwitchName(s), map[])] + Rounds0(h, s, depth, fanout, i + 1).calls) == o)
  {
    var first := [SwitchCall(SwitchName(s), map[])];
    var c := Rounds0(h, s, depth, fanout, i);
    var sub := TreePlan(c.h, c.s, depth - 1, fanout).calls;
    var link := LinkCall(SwitchName(s), RootName(c.h, c.s, depth - 1), map[]);
    var next := first + Rounds0(h, s, depth, fanout, i + 1).calls;
    RoundCalls(h, s, depth, fanout, i);
    assert next == (first + c.calls) + (sub + [link]);
    RunAppend(st0, first + c.calls, sub + [link]);
    if Run(cur, sub + [link]).Err? {
      RunErrPrefix(st0, next, TreePlan(h, s, depth, fanout).calls);
    }
  }

  /** A subtree and then one link: an exception from either ends the run. */
  lemma ThenLink(st: State, sub: seq<Call>, a: string, b: string)
    ensures var o := Run(st, sub);
      (o.Err? ==> Run(st, sub + [LinkCall(a, b, map[])]) == o)
      && (o.Ok? ==> Run(st, sub + [LinkCall(a, b, map[])]) == Linked(o.value, a, b, map[]))
  {
    RunAppend(st, sub, [LinkCall(a, b, map[])]);
    if Run(st, sub).Ok? {
      RunOne(Run(st, sub).value, LinkCall(a, b, map[]));
      ApplyCases(Run(st, sub).value, LinkCall(a, b, map[]));
    }
  }

  /** Above depth 0 the tree is its switch and then all of its rounds. */
  lemma TreeSplit(h: nat, s: nat, depth: int, fanout: int, i: int)
    requires depth > 0 && 0 <= i <= Rounds(fanout) && fanout <= i
    ensures var c := Rounds0(h, s, depth, fanout, i);
      TreePlan(h, s, depth, fanout) == Plan([SwitchCall(SwitchName(s), map[])] + c.calls, c.h, c.s)
  {
  }

  /** At depth 0 or below the tree is one addHost. */
  lemma TreeHostRun(st0: State, h: nat, s: nat, depth: int, fanout: int)
    requires depth <= 0
    ensures Run(st0, TreePlan(h, s, depth, fanout).calls) == HostAdded(st0, HostName(h), map[])
  {
    RunOne(st0, HostCall(HostName(h), map[]));
    ApplyCases(st0, HostCall(HostName(h), map[]));
  }

  lemma PrefixCons(first: seq<Call>, a: seq<Call>, b: seq<Call>)
    requires a <= b
    ensures first + a <= first + b
  {
    assert (first + b)[..|first + a|] == first + a;
  }

  /** A round's calls up to its subtree begin the calls of every later round. */
  lemma RoundPrefix(first: seq<Call>, done: seq<Call>, sub: seq<Call>, link: seq<Call>, later: seq<Call>)
    requires done + sub + link <= later
    ensures first + done + sub <= first + later
  {
    assert (first + later)[..|first + done + sub|] == first + done + sub;
  }

  /** The TreeTopo object: its topology and its two counters. */
  class TreeTopo {
    const t: Topo
    var hostNum: nat
    var switchNum: nat

    /** TreeTopo(depth, fanout): a Topo with no default options, counters at 1, then addTree. */
    constructor (depth: int, fanout: int)
      ensures var o := Run(State(Empty(), map[], map[], map[], map[]), TreePlan(1, 1, depth, fanout).calls);
        o.Ok? ==> t.St() == o.value
    {
      t := new Topo(map[], map[], map[]);
      hostNum := 1;
      switchNum := 1;
      new;
      var root := AddTree(depth, fanout);
    }

    /** addTree: the calls of TreePlan; the first exception is re-raised. */
    method AddTree(depth: int, fanout: int) returns (r: Result<string, Exc>)
      modifies this, t, t.g
      ensures var p := TreePlan(old(hostNum), old(switchNum), depth, fanout);
        var o := Run(old(t.St()), p.calls);
        (o.Ok? ==>
          r == Ok(RootName(old(hostNum), old(switchNum), depth))
          && t.St() == o.value && hostNum == p.h && switchNum == p.s)
        && (o.Err? ==> r == Err(o.error))
      decreases Max0(depth), 3
    {
      if depth > 0 {
        r := AddSwitchTree(depth, fanout);
      } else {
        ghost var st0, h0, s0 := t.St(), hostNum, switchNum;
        var name := HostName(hostNum);
        var added := t.AddHost(name, map[]);
        TreeHostRun(st0, h0, s0, depth, fanout);
        if added.Err? {
          return Err(added.error);
        }
        hostNum := hostNum + 1;
        r := Ok(name);
      }
    }

    /** addTree above depth 0: a switch, then fanout rounds of a subtree and its link. */
    method AddSwitchTree(depth: int, fanout: int) returns (r: Result<string, Exc>)
      requires depth > 0
      modifies this, t, t.g
      ensures var p := TreePlan(old(hostNum), old(switchNum), depth, fanout);
        var o := Run(old(t.St()), p.calls);
        (o.Ok? ==>
          r == Ok(SwitchName(old(switchNum)))
          && t.St() == o.value && hostNum == p.h && switchNum == p.s)
        && (o.Err? ==> r == Err(o.error))
      decreases Max0(depth), 2
    {
      ghost var st0, h0, s0 := t.St(), hostNum, switchNum;
      var node := SwitchName(switchNum);
      var added := t.AddSwitch(node, map[]);
      TreeSwitchRun(st0, h0, s0, depth, fanout);
      if added.Err? {
        return Err(added.error);
      }
      switchNum := switchNum + 1;
      var rounds := AddRounds(node, depth, fanout, st0, h0, s0);
      if rounds.Err? {
        return Err(rounds.error);
      }
      r := Ok(node);
    }

    /** The loop of addTree under the switch added with the counters at h0 and s0. */
    method AddRounds(node: string, depth: int, fanout: int, ghost st0: State, ghost h0: nat, ghost s0: nat)
        returns (r: Result<(), Exc>)
      requires depth > 0 && node == SwitchName(s0)
      requires Run(st0, [SwitchCall(SwitchName(s0), map[])] + Rounds0(h0, s0, depth, fanout, 0).calls) == Ok(t.St())
      requires hostNum == h0 && switchNum == s0 + 1
      modifies this, t, t.g
      ensures var p := TreePlan(h0, s0, depth, fanout);
        var o := Run(st0, p.calls);
        (o.Ok? ==> r.Ok? && t.St() == o.value && hostNum == p.h && switchNum == p.s)
        && (o.Err? ==> r == Err(o.error))
      decreases Max0(depth), 1
    {
      var i := 0;
      while i < fanout
        invariant 0 <= i <= Rounds(fanout)
        invariant var c := Rounds0(h0, s0, depth, fanout, i);
          Run(st0, [SwitchCall(node, map[])] + c.calls) == Ok(t.St()) && hostNum == c.h && switchNum == c.s
      {
        var round := AddRound(node, depth, fanout, st0, h0, s0, i);
        if round.Err? {
          return Err(round.error);
        }
        i := i + 1;
      }
      TreeSplit(h0, s0, depth, fanout, i);
      r := Ok(());
    }

    /** Round i of that loop: the subtree and its link, or the exception that ends the tree. */
    method AddRound(node: string, depth: int, fanout: int, ghost st0: State, ghost h0: nat, ghost s0: nat,
                    ghost i: nat) returns (r: Result<(), Exc>)
      requires depth > 0 && node == SwitchName(s0) && i < Rounds(fanout)
      requires var c := Rounds0(h0, s0, depth, fanout, i);
        Run(st0, [SwitchCall(node, map[])] + c.calls) == Ok(t.St()) && hostNum == c.h && switchNum == c.s
      modifies this, t, t.g
      ensures r.Ok? ==> var c := Rounds0(h0, s0, depth, fanout, i + 1);
        Run(st0, [SwitchCall(node, map[])] + c.calls) == Ok(t.St()) && hostNum == c.h && switchNum == c.s
      ensures r.Err? ==> Run(st0, TreePlan(h0, s0, depth, fanout).calls) == Err(r.error)
      decreases Max0(depth), 0
    {
      RoundRun(st0, h0, s0, depth, fanout, i, t.St());
      var linked := AddChild(node, depth - 1, fanout);
      if linked.Err? {
        return Err(linked.error);
      }
      r := Ok(());
    }

    /** One round of the loop in addTree: a subtree, then the link from node to its root. */
    method AddChild(node: string, depth: int, fanout: int) returns (r: Result<EKey, Exc>)
      modifies this, t, t.g
      ensures var p := TreePlan(old(hostNum), old(switchNum), depth, fanout);
        var o := Run(old(t.St()), p.calls + [LinkCall(node, RootName(old(hostNum), old(switchNum), depth), map[])]);
        (o.Ok? ==> r.Ok? && t.St() == o.value && hostNum == p.h && switchNum == p.s)
        && (o.Err? ==> r == Err(o.error))
      decreases Max0(depth), 4
    {
      ghost var st0, h0, s0 := t.St(), hostNum, switchNum;
      ThenLink(st0, TreePlan(h0, s0, depth, fanout).calls, node, RootName(h0, s0, depth));
      var child := AddTree(depth, fanout);
      if child.Err? {
        return Err(child.error);
      }
      LinkedPlain(t.St(), node, child.value);
      r := t.AddLink(node, child.value, None, None, None, map[]);
    }
  }
}
