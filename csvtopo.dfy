// CsvTopo (mininet/topolib.py:34-135): the links dictionary its loading
// loop fills from the rows of links.csv, and the build step that adds a
// switch or a host per node of nodes.csv and a link per pair of neighbours.
module CsvTopo {
  import opened Wrappers
  import opened Text
  import opened Util
  import opened Graph
  import opened Topo
  import opened TopoLib

  /** nodes[name]: the row of nodes.csv with that name, its 'name' column included. */
  type NodeRows = map<string, Opts>

  /** links[a][b]: the row of links.csv between a and b. */
  type LinkRows = map<string, map<string, Opts>>

  // -------------------------------------------------------- loading links

  /** A row of links.csv: its name_a and name_b columns and the whole row. */
  datatype LinkRow = LinkRow(a: string, b: string, row: Opts)

  /** links[x][y] = r, or links[x] = {y: r} when links has no x yet. */
  function Put(links: LinkRows, x: string, y: string, r: Opts): LinkRows {
    links[x := (if x in links then links[x] else map[])[y := r]]
  }

  /** The links dictionary after the loading loop has stored each row under both of its endpoints. */
  function LoadLinks(rows: seq<LinkRow>): LinkRows
    decreases |rows|
  {
    if rows == [] then map[]
    else
      var row := rows[|rows| - 1];
      Put(Put(LoadLinks(rows[..|rows| - 1]), row.a, row.b, row.row), row.b, row.a, row.row)
  }

  /** Each endpoint sees the other, with the same row. */
  ghost predicate Symmetric(links: LinkRows) {
    forall a, b :: a in links && b in links[a] ==> b in links && a in links[b] && links[b][a] == links[a][b]
  }

  /** Some row joins x and y, in either column order. */
  ghost predicate Joined(rows: seq<LinkRow>, x: string, y: string) {
    exists i :: 0 <= i < |rows| && ((rows[i].a == x && rows[i].b == y) || (rows[i].a == y && rows[i].b == x))
  }

  /** A row stored under both endpoints adds the two ordered pairs and nothing else. */
  lemma PutBoth(m: LinkRows, x: string, y: string, r: Opts, u: string, v: string)
    ensures var m2 := Put(Put(m, x, y, r), y, x, r);
      ((u in m2 && v in m2[u]) <==> (u in m && v in m[u]) || (u == x && v == y) || (u == y && v == x))
      && (u in m2 && v in m2[u] ==> m2[u][v] == if (u == x && v == y) || (u == y && v == x) then r else m[u][v])
  {
  }

  /** The loaded dictionary is symmetric. */
  lemma {:induction false} LoadLinksSymmetric(rows: seq<LinkRow>)
    ensures Symmetric(LoadLinks(rows))
    decreases |rows|
  {
    if rows != [] {
      var init := rows[..|rows| - 1];
      var row := rows[|rows| - 1];
      LoadLinksSymmetric(init);
      var m := LoadLinks(init);
      var m2 := LoadLinks(rows);
      assert m2 == Put(Put(m, row.a, row.b, row.row), row.b, row.a, row.row);
      forall u, v | u in m2 && v in m2[u] ensures v in m2 && u in m2[v] && m2[v][u] == m2[u][v] {
        PutBoth(m, row.a, row.b, row.row, u, v);
        PutBoth(m, row.a, row.b, row.row, v, u);
      }
    }
  }

  /** y is a neighbour of x in the loaded dictionary exactly when some row joins them. */
  lemma {:induction false} LoadLinksJoined(rows: seq<LinkRow>, x: string, y: string)
    ensures (x in LoadLinks(rows) && y in LoadLinks(rows)[x]) <==> Joined(rows, x, y)
    decreases |rows|
  {
    if rows != [] {
      var init := rows[..|rows| - 1];
      var row := rows[|rows| - 1];
      LoadLinksJoined(init, x, y);
      var m := LoadLinks(init);
      assert LoadLinks(rows) == Put(Put(m, row.a, row.b, row.row), row.b, row.a, row.row);
      PutBoth(m, row.a, row.b, row.row, x, y);
      if Joined(init, x, y) {
        var i :| 0 <= i < |init| && ((init[i].a == x && init[i].b == y) || (init[i].a == y && init[i].b == x));
        assert rows[i] == init[i];
      }
      if Joined(rows, x, y) && !Joined(init, x, y) {
        var i :| 0 <= i < |rows| && ((rows[i].a == x && rows[i].b == y) || (rows[i].a == y && rows[i].b == x));
        assert i == |rows| - 1;
      }
      if (x == row.a && y == row.b) || (x == row.b && y == row.a) {
        assert rows[|rows| - 1] == row;
      }
    }
  }

  // ------------------------------------------------------- the build step

  /** addSwitch for a node with more than one distinct neighbour, addHost otherwise; the row less its 'name'. */
  function NodeCall(name: string, row: Opts, ports: map<string, Opts>): Call {
    if |ports| > 1 then SwitchCall(name, row - {"name"}) else HostCall(name, row - {"name"})
  }

  /** The calls so far, and the exception that ended the loop, if any. */
  datatype Build = Build(calls: seq<Call>, stop: Option<Exc>)

  /** links[name] and nodes[name], and then del opts['name'], for one node. */
  ghost predicate Ready(n: string, nodes: NodeRows, links: LinkRows) {
    n in links && n in nodes && "name" in nodes[n]
  }

  /** The loop over node names: a missing entry in links or nodes, or a row without 'name', raises KeyError. */
  function NodeCalls(names: seq<string>, nodes: NodeRows, links: LinkRows): Build
    decreases |names|
  {
    if names == [] then Build([], None)
    else
      var p := NodeCalls(names[..|names| - 1], nodes, links);
      var n := names[|names| - 1];
      if p.stop.Some? then p
      else if n !in links || n !in nodes then Build(p.calls, Some(KeyError(n)))
      else if "name" !in nodes[n] then Build(p.calls, Some(KeyError("name")))
      else Build(p.calls + [NodeCall(n, nodes[n], links[n])], None)
  }

  /** The inner link loop for node_a: each neighbour after node_a in string order, with their row. */
  function PairCalls(a: string, bs: seq<string>, row: map<string, Opts>): (r: seq<Call>)
    requires forall b :: b in bs ==> b in row
    ensures forall c :: c in r ==> c.LinkCall? && c.node1 == a && StrLess(a, c.node2) && c.node2 in bs && c.opts == row[c.node2]
    decreases |bs|
  {
    if bs == [] then []
    else
      var b := bs[|bs| - 1];
      var init := PairCalls(a, bs[..|bs| - 1], row);
      if StrLess(a, b) then init + [LinkCall(a, b, row[b])] else init
  }

  /** The outer link loop over the node names, each with its sorted neighbours. */
  ghost function LinkCalls(names: seq<string>, links: LinkRows): seq<Call>
    requires forall n :: n in names ==> n in links
    decreases |names|
  {
    if names == [] then []
    else
      var a := names[|names| - 1];
      LinkCalls(names[..|names| - 1], links) + PairCalls(a, SortedKeys(links[a].Keys), links[a])
  }

  /** The whole build step: the node loop, then, if it did not raise, the link loop. */
  ghost function CsvCalls(nodes: NodeRows, links: LinkRows): Build {
    var names := SortedKeys(nodes.Keys);
    var p := NodeCalls(names, nodes, links);
    if p.stop.Some? then p
    else
      NodeCallsOk(names, nodes, links);
      Build(p.calls + LinkCalls(names, links), None)
  }

  /** What the build step leaves, from st: the first exception of the calls, else the loop's KeyError, else the state. */
  ghost function CsvOutcome(st: State, nodes: NodeRows, links: LinkRows): Result<State, Exc> {
    var b := CsvCalls(nodes, links);
    var o := Run(st, b.calls);
    if o.Ok? && b.stop.Some? then Err(b.stop.value) else o
  }

  // ------------------------------------------------------------ the lemmas

  /** One more name extends the node loop. */
  lemma NodeStep(names: seq<string>, i: int, nodes: NodeRows, links: LinkRows)
    requires 0 <= i < |names|
    ensures var p := NodeCalls(names[..i], nodes, links);
      var n := names[i];
      NodeCalls(names[..i + 1], nodes, links) ==
        if p.stop.Some? then p
        else if n !in links || n !in nodes then Build(p.calls, Some(KeyError(n)))
        else if "name" !in nodes[n] then Build(p.calls, Some(KeyError("name")))
        else Build(p.calls + [NodeCall(n, nodes[n], links[n])], None)
  {
    assert names[..i + 1][..i] == names[..i];
  }

  /** The node loop makes one call per name and raises nothing exactly when every name is ready. */
  lemma {:induction false} NodeCallsOk(names: seq<string>, nodes: NodeRows, links: LinkRows)
    ensures NodeCallsOkFor(names, nodes, links)
    decreases |names|
  {
    if names != [] {
      var init := names[..|names| - 1];
      NodeCallsOk(init, nodes, links);
      NodeCallsOkSnoc(init, names[|names| - 1], nodes, links);
      assert names == init + [names[|names| - 1]];
    }
  }

  /** What NodeCallsOk states of one list of names. */
  ghost predicate NodeCallsOkFor(names: seq<string>, nodes: NodeRows, links: LinkRows) {
    var p := NodeCalls(names, nodes, links);
    && (p.stop.None? <==> forall i :: 0 <= i < |names| ==> Ready(names[i], nodes, links))
    && (p.stop.None? ==> forall n :: n in names ==> n in links)
    && (p.stop.None? ==>
          (|p.calls| == |names|
           && forall i :: 0 <= i < |names| ==> p.calls[i] == NodeCall(names[i], nodes[names[i]], links[names[i]])))
  }

  lemma NodeCallsOkSnoc(init: seq<string>, n: string, nodes: NodeRows, links: LinkRows)
    requires NodeCallsOkFor(init, nodes, links)
    ensures NodeCallsOkFor(init + [n], nodes, links)
  {
    var names := init + [n];
    assert names[..|names| - 1] == init && names[|names| - 1] == n;
    var p := NodeCalls(init, nodes, links);
    if p.stop.None? && Ready(n, nodes, links) {
      var q := NodeCalls(names, nodes, links);
      forall i | 0 <= i < |names| ensures q.calls[i] == NodeCall(names[i], nodes[names[i]], links[names[i]]) {
        if i < |init| {
          assert q.calls[i] == p.calls[i] && names[i] == init[i];
        }
      }
      forall i | 0 <= i < |names| ensures Ready(names[i], nodes, links) {
        if i < |init| { assert names[i] == init[i]; }
      }
    } else if p.stop.Some? {
      var m :| 0 <= m < |init| && !Ready(init[m], nodes, links);
      assert names[m] == init[m];
    } else {
      assert !Ready(names[|names| - 1], nodes, links);
    }
  }

  /** When the loop raises, it raises KeyError at the first name that is not ready, after the calls for the names before it. */
  lemma {:induction false} NodeCallsStop(names: seq<string>, nodes: NodeRows, links: LinkRows) returns (k: nat)
    requires NodeCalls(names, nodes, links).stop.Some?
    ensures k < |names| && !Ready(names[k], nodes, links)
    ensures forall i :: 0 <= i < k ==> Ready(names[i], nodes, links)
    ensures NodeCalls(names, nodes, links).calls == NodeCalls(names[..k], nodes, links).calls
    ensures NodeCalls(names, nodes, links).stop ==
      Some(KeyError(if names[k] in links && names[k] in nodes then "name" else names[k]))
    decreases |names|
  {
    var init := names[..|names| - 1];
    if NodeCalls(init, nodes, links).stop.Some? {
      k := NodeCallsStop(init, nodes, links);
      assert init[..k] == names[..k] && init[k] == names[k];
      assert forall i :: 0 <= i < k ==> init[i] == names[i];
    } else {
      k := |names| - 1;
      NodeCallsOk(init, nodes, links);
      assert names[..k] == init;
      assert forall i :: 0 <= i < k ==> init[i] == names[i];
    }
  }

  /** Once the loop has raised, later names change nothing. */
  lemma {:induction false} NodeStopKeeps(names: seq<string>, k: int, nodes: NodeRows, links: LinkRows)
    requires 0 <= k <= |names| && NodeCalls(names[..k], nodes, links).stop.Some?
    ensures NodeCalls(names, nodes, links) == NodeCalls(names[..k], nodes, links)
    decreases |names|
  {
    if k < |names| {
      var init := names[..|names| - 1];
      assert init[..k] == names[..k];
      NodeStopKeeps(init, k, nodes, links);
    } else {
      assert names[..k] == names;
    }
  }

  /** The calls of a shorter node loop begin those of a longer one. */
  lemma {:induction false} NodeCallsPrefix(names: seq<string>, k: int, nodes: NodeRows, links: LinkRows)
    requires 0 <= k <= |names|
    ensures NodeCalls(names[..k], nodes, links).calls <= NodeCalls(names, nodes, links).calls
    decreases |names|
  {
    if k < |names| {
      var init := names[..|names| - 1];
      assert init[..k] == names[..k];
      NodeCallsPrefix(init, k, nodes, links);
    } else {
      assert names[..k] == names;
    }
  }

  /** The inner loop adds a link to exactly the neighbours after a. */
  lemma {:induction false} PairCallsHave(a: string, bs: seq<string>, row: map<string, Opts>, b: string)
    requires forall b :: b in bs ==> b in row
    ensures b in bs && StrLess(a, b) ==> LinkCall(a, b, row[b]) in PairCalls(a, bs, row)
    decreases |bs|
  {
    if bs != [] && b in bs && StrLess(a, b) {
      var init := bs[..|bs| - 1];
      if b != bs[|bs| - 1] {
        assert bs == init + [bs[|bs| - 1]];
        PairCallsHave(a, init, row, b);
      }
    }
  }

  /** c is a link before the link d in (node1, node2) order. */
  ghost predicate Before(c: Call, d: Call) {
    c.LinkCall? && d.LinkCall?
    && (StrLess(c.node1, d.node1) || (c.node1 == d.node1 && StrLess(c.node2, d.node2)))
  }

  /** Each link before the next. */
  ghost predicate Ordered(p: seq<Call>) {
    forall i, j :: 0 <= i < j < |p| ==> Before(p[i], p[j])
  }

  /** Two ordered runs of links, all of the first before all of the second, make one. */
  lemma OrderedJoin(q: seq<Call>, r: seq<Call>)
    requires Ordered(q) && Ordered(r)
    requires forall c, d :: c in q && d in r ==> Before(c, d)
    ensures Ordered(q + r)
  {
    var p := q + r;
    forall i, j | 0 <= i < j < |p| ensures Before(p[i], p[j]) {
      if j < |q| {
        assert p[i] == q[i] && p[j] == q[j];
      } else if i < |q| {
        assert p[i] == q[i] && p[j] == r[j - |q|];
        assert p[i] in q && p[j] in r;
      } else {
        assert p[i] == r[i - |q|] && p[j] == r[j - |q|];
      }
    }
  }

  /** Along increasing neighbours, the inner loop's links are ordered. */
  lemma {:induction false} PairCallsOrdered(a: string, bs: seq<string>, row: map<string, Opts>)
    requires forall b :: b in bs ==> b in row
    requires Strict(bs)
    ensures Ordered(PairCalls(a, bs, row))
    decreases |bs|
  {
    if bs != [] {
      var init := bs[..|bs| - 1];
      var b := bs[|bs| - 1];
      assert Strict(init);
      PairCallsOrdered(a, init, row);
      var q := PairCalls(a, init, row);
      if StrLess(a, b) {
        var last := LinkCall(a, b, row[b]);
        forall c | c in q ensures Before(c, last) {
          var k :| 0 <= k < |init| && init[k] == c.node2;
          assert bs[k] == init[k];
        }
        OrderedJoin(q, [last]);
      }
    }
  }

  /** One more name extends the outer link loop. */
  lemma LinkStep(names: seq<string>, i: int, links: LinkRows, pre: seq<Call>)
    requires 0 <= i < |names| && forall n :: n in names ==> n in links
    ensures pre + LinkCalls(names[..i + 1], links) ==
      pre + LinkCalls(names[..i], links) + PairCalls(names[i], SortedKeys(links[names[i]].Keys), links[names[i]])
  {
    assert names[..i + 1][..i] == names[..i];
    Assoc(pre, LinkCalls(names[..i], links), PairCalls(names[i], SortedKeys(links[names[i]].Keys), links[names[i]]));
  }

  lemma Assoc(a: seq<Call>, b: seq<Call>, c: seq<Call>)
    ensures a + (b + c) == a + b + c
  {
  }

  /** An exception in the first k rounds of the outer loop is the exception of the whole loop. */
  lemma LinksRaise(names: seq<string>, k: int, links: LinkRows, pre: seq<Call>, st0: State)
    requires 0 <= k <= |names| && forall n :: n in names ==> n in links
    requires Run(st0, pre + LinkCalls(names[..k], links)).Err?
    ensures Run(st0, pre + LinkCalls(names, links)) == Run(st0, pre + LinkCalls(names[..k], links))
  {
    LinkCallsPrefix(names, k, links);
    PrefixCons(pre, LinkCalls(names[..k], links), LinkCalls(names, links));
    RunErrPrefix(st0, pre + LinkCalls(names[..k], links), pre + LinkCalls(names, links));
  }

  /** The links of the outer loop: a link from a to b with their row exactly when a is a name, b a neighbour of a after it. */
  lemma {:induction false} LinkCallsHave(names: seq<string>, links: LinkRows, c: Call)
    requires forall n :: n in names ==> n in links
    ensures c in LinkCalls(names, links) <==>
      c.LinkCall? && c.node1 in names && c.node2 in links[c.node1] && StrLess(c.node1, c.node2)
      && c.opts == links[c.node1][c.node2]
    decreases |names|
  {
    if names != [] {
      var init := names[..|names| - 1];
      var a := names[|names| - 1];
      assert names == init + [a];
      LinkCallsHave(init, links, c);
      if c.LinkCall? && c.node1 == a {
        PairCallsHave(a, SortedKeys(links[a].Keys), links[a], c.node2);
      }
    }
  }

  /** Along increasing names, the links are ordered. */
  lemma {:induction false} LinkCallsOrdered(names: seq<string>, links: LinkRows)
    requires forall n :: n in names ==> n in links
    requires Strict(names)
    ensures Ordered(LinkCalls(names, links))
    decreases |names|
  {
    if names != [] {
      var init := names[..|names| - 1];
      var a := names[|names| - 1];
      assert Strict(init);
      LinkCallsOrdered(init, links);
      var q := LinkCalls(init, links);
      var pairs := PairCalls(a, SortedKeys(links[a].Keys), links[a]);
      PairCallsOrdered(a, SortedKeys(links[a].Keys), links[a]);
      forall k | 0 <= k < |init| ensures StrLess(init[k], a) {
        assert names[k] == init[k];
      }
      forall c, d | c in q && d in pairs ensures Before(c, d) {
        LinksBeforePairs(init, a, links, c, d);
      }
      OrderedJoin(q, pairs);
    }
  }

  /** Every link of earlier names comes before the links of a later name. */
  lemma LinksBeforePairs(init: seq<string>, a: string, links: LinkRows, c: Call, d: Call)
    requires a in links && forall n :: n in init ==> n in links
    requires forall k :: 0 <= k < |init| ==> StrLess(init[k], a)
    requires c in LinkCalls(init, links) && d in PairCalls(a, SortedKeys(links[a].Keys), links[a])
    ensures Before(c, d)
  {
    LinkCallsHave(init, links, c);
    var k :| 0 <= k < |init| && init[k] == c.node1;
  }

  /** The calls of a shorter outer loop begin those of a longer one. */
  lemma {:induction false} LinkCallsPrefix(names: seq<string>, k: int, links: LinkRows)
    requires 0 <= k <= |names| && forall n :: n in names ==> n in links
    ensures LinkCalls(names[..k], links) <= LinkCalls(names, links)
    decreases |names|
  {
    if k < |names| {
      var init := names[..|names| - 1];
      assert init[..k] == names[..k];
      LinkCallsPrefix(init, k, links);
    } else {
      assert names[..k] == names;
    }
  }

  /** The calls of a shorter inner loop begin those of a longer one. */
  lemma {:induction false} PairCallsPrefix(a: string, bs: seq<string>, k: int, row: map<string, Opts>)
    requires 0 <= k <= |bs| && forall b :: b in bs ==> b in row
    ensures PairCalls(a, bs[..k], row) <= PairCalls(a, bs, row)
    decreases |bs|
  {
    if k < |bs| {
      var init := bs[..|bs| - 1];
      assert init[..k] == bs[..k];
      PairCallsPrefix(a, init, k, row);
    } else {
      assert bs[..k] == bs;
    }
  }

  /** A build that raises nothing adds every node in string order, a switch exactly when it has more than one neighbour, with its row less 'name'; every later call is a link. */
  lemma CsvNodes(nodes: NodeRows, links: LinkRows)
    requires CsvCalls(nodes, links).stop.None?
    ensures var names := SortedKeys(nodes.Keys);
      var calls := CsvCalls(nodes, links).calls;
      |names| <= |calls|
      && (forall i :: 0 <= i < |names| ==>
            (names[i] in links && names[i] in nodes
             && calls[i] == (if |links[names[i]]| > 1 then SwitchCall(names[i], nodes[names[i]] - {"name"})
                             else HostCall(names[i], nodes[names[i]] - {"name"}))))
      && forall i :: |names| <= i < |calls| ==> calls[i].LinkCall?
  {
    var names := SortedKeys(nodes.Keys);
    NodeCallsOk(names, nodes, links);
    var p := NodeCalls(names, nodes, links);
    var calls := CsvCalls(nodes, links).calls;
    var lc := LinkCalls(names, links);
    assert calls == p.calls + lc;
    assert forall n :: n in names ==> n in nodes;
    NodesBefore(names, nodes, links, p.calls, lc);
    LinkCallsAreLinks(names, links);
    LinksAfter(p.calls, lc);
  }

  /** Node calls followed by anything keep their places at the front. */
  lemma NodesBefore(names: seq<string>, nodes: NodeRows, links: LinkRows, pc: seq<Call>, lc: seq<Call>)
    requires forall n :: n in names ==> n in links && n in nodes
    requires |pc| == |names|
    requires forall i :: 0 <= i < |names| ==> pc[i] == NodeCall(names[i], nodes[names[i]], links[names[i]])
    ensures forall i :: 0 <= i < |names| ==>
      (names[i] in links && names[i] in nodes
       && (pc + lc)[i] == (if |links[names[i]]| > 1 then SwitchCall(names[i], nodes[names[i]] - {"name"})
                           else HostCall(names[i], nodes[names[i]] - {"name"})))
  {
    forall i | 0 <= i < |names|
      ensures names[i] in links && names[i] in nodes
      ensures (pc + lc)[i] == (if |links[names[i]]| > 1 then SwitchCall(names[i], nodes[names[i]] - {"name"})
                               else HostCall(names[i], nodes[names[i]] - {"name"}))
    {
      assert names[i] in names;
      assert (pc + lc)[i] == pc[i];
    }
  }

  /** Calls followed by links only are links past the first part. */
  lemma LinksAfter(pc: seq<Call>, lc: seq<Call>)
    requires forall i :: 0 <= i < |lc| ==> lc[i].LinkCall?
    ensures forall i :: |pc| <= i < |pc + lc| ==> (pc + lc)[i].LinkCall?
  {
    forall i | |pc| <= i < |pc + lc| ensures (pc + lc)[i].LinkCall? {
      assert (pc + lc)[i] == lc[i - |pc|];
    }
  }

  /** Every call of the link phase is a link. */
  lemma LinkCallsAreLinks(names: seq<string>, links: LinkRows)
    requires forall n :: n in names ==> n in links
    ensures forall i :: 0 <= i < |LinkCalls(names, links)| ==> LinkCalls(names, links)[i].LinkCall?
  {
    var lc := LinkCalls(names, links);
    forall i | 0 <= i < |lc| ensures lc[i].LinkCall? {
      LinkCallsHave(names, links, lc[i]);
    }
  }

  /** A build that raises nothing links a to each neighbour after it that is a node, with their row. */
  lemma CsvLinkAdded(nodes: NodeRows, links: LinkRows, a: string, b: string)
    requires CsvCalls(nodes, links).stop.None?
    requires a in nodes && a in links && b in links[a] && StrLess(a, b)
    ensures LinkCall(a, b, links[a][b]) in CsvCalls(nodes, links).calls
  {
    var names := SortedKeys(nodes.Keys);
    NodeCallsOk(names, nodes, links);
    var ls := LinkCalls(names, links);
    assert CsvCalls(nodes, links).calls == NodeCalls(names, nodes, links).calls + ls;
    LinkCallsHave(names, links, LinkCall(a, b, links[a][b]));
  }

  /** Pairs ordered as the links are, each with its smaller name first, are different pairs. */
  lemma PairsDiffer(x1: string, y1: string, x2: string, y2: string)
    requires StrLess(x1, y1) && StrLess(x2, y2)
    requires StrLess(x1, x2) || (x1 == x2 && StrLess(y1, y2))
    ensures {x1, y1} != {x2, y2}
  {
    StrLessTotal(x1, x2);
    StrLessTotal(y1, y2);
    StrLessTotal(x1, x1);
    StrLessTotal(y1, y1);
    assert x1 in {x1, y1} && y1 in {x1, y1};
  }

  /** No two links of the calls join the same two nodes, in either order. */
  ghost predicate Once(calls: seq<Call>) {
    forall i, j :: 0 <= i < j < |calls| && calls[i].LinkCall? && calls[j].LinkCall? ==>
      {calls[i].node1, calls[i].node2} != {calls[j].node1, calls[j].node2}
  }

  /** Ordered links, each from its smaller name, join different pairs; node calls before them change nothing. */
  lemma OrderedOnce(ps: seq<Call>, ls: seq<Call>)
    requires Ordered(ls) && forall c :: c in ls ==> c.LinkCall? && StrLess(c.node1, c.node2)
    requires forall c :: c in ps ==> !c.LinkCall?
    ensures Once(ps + ls)
  {
    var calls := ps + ls;
    forall m | 0 <= m < |ps| ensures !calls[m].LinkCall? {
      assert calls[m] == ps[m] && ps[m] in ps;
    }
    forall i, j | 0 <= i < j < |calls| && calls[i].LinkCall? && calls[j].LinkCall?
      ensures {calls[i].node1, calls[i].node2} != {calls[j].node1, calls[j].node2}
    {
      var c, d := ls[i - |ps|], ls[j - |ps|];
      assert calls[i] == c && calls[j] == d && c in ls && d in ls;
      PairsDiffer(c.node1, c.node2, d.node1, d.node2);
    }
  }

  /** Node calls make no link. */
  lemma {:induction false} NodeCallsNoLink(names: seq<string>, nodes: NodeRows, links: LinkRows)
    ensures forall c :: c in NodeCalls(names, nodes, links).calls ==> !c.LinkCall?
    decreases |names|
  {
    if names != [] {
      NodeCallsNoLink(names[..|names| - 1], nodes, links);
    }
  }

  /** A build that raises nothing makes no two links between the same two nodes, in either order. */
  lemma CsvLinksOnce(nodes: NodeRows, links: LinkRows)
    requires CsvCalls(nodes, links).stop.None?
    ensures Once(CsvCalls(nodes, links).calls)
  {
    var names := SortedKeys(nodes.Keys);
    NodeCallsOk(names, nodes, links);
    var ps := NodeCalls(names, nodes, links).calls;
    var ls := LinkCalls(names, links);
    assert CsvCalls(nodes, links).calls == ps + ls;
    LinkCallsOrdered(names, links);
    forall c | c in ls ensures c.LinkCall? && StrLess(c.node1, c.node2) {
      LinkCallsHave(names, links, c);
    }
    NodeCallsNoLink(names, nodes, links);
    OrderedOnce(ps, ls);
  }

  // ------------------------------------------------------------ the object

  /** One row of links.csv is stored under both of its endpoints. */
  method ReadLinks(rows: seq<LinkRow>) returns (links: LinkRows)
    ensures links == LoadLinks(rows)
  {
    links := map[];
    var i := 0;
    while i < |rows|
      invariant 0 <= i <= |rows| && links == LoadLinks(rows[..i])
    {
      var r := rows[i];
      assert rows[..i + 1][..i] == rows[..i];
      links := Put(links, r.a, r.b, r.row);
      links := Put(links, r.b, r.a, r.row);
      i := i + 1;
    }
    assert rows[..i] == rows;
  }

  /** The CsvTopo object: its topology and the exception its constructor raises, if any. */
  class CsvTopo {
    const t: Topo
    var raised: Option<Exc>

    /** CsvTopo(**opts) from the rows of nodes.csv and links.csv, after Topo.__init__(**opts). */
    constructor (nodes: NodeRows, rows: seq<LinkRow>, hopts: Opts, sopts: Opts, lopts: Opts)
      ensures var o := CsvOutcome(State(Empty(), hopts, sopts, lopts, map[]), nodes, LoadLinks(rows));
        (o.Ok? ==> raised == None && t.St() == o.value) && (o.Err? ==> raised == Some(o.error))
    {
      t := new Topo(hopts, sopts, lopts);
      raised := None;
      new;
      var links := ReadLinks(rows);
      var r := AddAll(nodes, links);
      if r.Err? {
        raised := Some(r.error);
      }
    }

    /** The build step: the nodes in sorted order, then the links; the first exception is re-raised. */
    method AddAll(nodes: NodeRows, links: LinkRows) returns (r: Result<(), Exc>)
      modifies t, t.g
      ensures var o := CsvOutcome(old(t.St()), nodes, links);
        (o.Ok? ==> r.Ok? && t.St() == o.value) && (o.Err? ==> r == Err(o.error))
    {
      ghost var st0 := t.St();
      var names := SortedKeyList(nodes);
      ghost var p := NodeCalls(names, nodes, links);
      var added := AddNodes(names, nodes, links);
      if added.Err? {
        CsvNodesRaise(st0, nodes, links);
        return Err(added.error);
      }
      NodeCallsOk(names, nodes, links);
      assert CsvCalls(nodes, links).calls == p.calls + LinkCalls(names, links);
      r := AddLinks(names, links, p.calls, st0);
    }

    /** The node loop: addSwitch or addHost per name, or KeyError. */
    method AddNodes(names: seq<string>, nodes: NodeRows, links: LinkRows) returns (r: Result<(), Exc>)
      modifies t.g
      ensures var p := NodeCalls(names, nodes, links);
        var o := Run(old(t.St()), p.calls);
        (o.Ok? && p.stop.None? ==> r.Ok? && t.St() == o.value)
        && (o.Ok? && p.stop.Some? ==> r == Err(p.stop.value))
        && (o.Err? ==> r == Err(o.error))
    {
      ghost var st0 := t.St();
      var i := 0;
      while i < |names|
        invariant 0 <= i <= |names|
        invariant NodeCalls(names[..i], nodes, links).stop.None?
        invariant Run(st0, NodeCalls(names[..i], nodes, links).calls) == Ok(t.St())
      {
        ghost var pre := NodeCalls(names[..i], nodes, links);
        NodeStep(names, i, nodes, links);
        var n := names[i];
        if n !in links || n !in nodes {
          NodeStopKeeps(names, i + 1, nodes, links);
          return Err(KeyError(n));
        }
        if "name" !in nodes[n] {
          NodeStopKeeps(names, i + 1, nodes, links);
          return Err(KeyError("name"));
        }
        var c := NodeCall(n, nodes[n], links[n]);
        var added := AddNode(c, st0, pre.calls);
        NodeCallsPrefix(names, i + 1, nodes, links);
        if added.Err? {
          RunErrPrefix(st0, pre.calls + [c], NodeCalls(names, nodes, links).calls);
          return Err(added.error);
        }
        i := i + 1;
      }
      assert names[..i] == names;
      r := Ok(());
    }

    /** addSwitch or addHost for one node call after the calls pre. */
    method AddNode(c: Call, ghost st0: State, ghost pre: seq<Call>) returns (r: Result<(), Exc>)
      requires !c.LinkCall? && Run(st0, pre) == Ok(t.St())
      modifies t.g
      ensures var o := Run(st0, pre + [c]);
        (o.Ok? ==> r.Ok? && t.St() == o.value) && (o.Err? ==> r == Err(o.error))
    {
      RunSnoc(st0, pre, c, t.St());
      ApplyCases(t.St(), c);
      var added: Result<string, Exc>;
      if c.SwitchCall? {
        added := t.AddSwitch(c.name, c.opts);
      } else {
        added := t.AddHost(c.name, c.opts);
      }
      if added.Err? {
        return Err(added.error);
      }
      r := Ok(());
    }

    /** The outer link loop over names, after the calls pre. */
    method AddLinks(names: seq<string>, links: LinkRows, ghost pre: seq<Call>, ghost st0: State)
        returns (r: Result<(), Exc>)
      requires forall n :: n in names ==> n in links
      requires Run(st0, pre) == Ok(t.St())
      modifies t, t.g
      ensures var o := Run(st0, pre + LinkCalls(names, links));
        (o.Ok? ==> r.Ok? && t.St() == o.value) && (o.Err? ==> r == Err(o.error))
    {
      var i := 0;
      assert pre + LinkCalls(names[..0], links) == pre;
      while i < |names|
        invariant 0 <= i <= |names|
        invariant Run(st0, pre + LinkCalls(names[..i], links)) == Ok(t.St())
      {
        var linked := AddNeighbours(names, i, links, pre, st0);
        if linked.Err? {
          return Err(linked.error);
        }
        i := i + 1;
      }
      assert names[..i] == names;
      r := Ok(());
    }

    /** One round of the outer link loop: the links from names[i] to its sorted neighbours. */
    method AddNeighbours(names: seq<string>, i: int, links: LinkRows, ghost pre: seq<Call>, ghost st0: State)
        returns (r: Result<(), Exc>)
      requires 0 <= i < |names| && forall n :: n in names ==> n in links
      requires Run(st0, pre + LinkCalls(names[..i], links)) == Ok(t.St())
      modifies t, t.g
      ensures r.Ok? ==> Run(st0, pre + LinkCalls(names[..i + 1], links)) == Ok(t.St())
      ensures r.Err? ==> Run(st0, pre + LinkCalls(names, links)) == Err(r.error)
    {
      var a := names[i];
      var neighbors := SortedKeyList(links[a]);
      LinkStep(names, i, links, pre);
      r := AddPairs(a, neighbors, links[a], pre + LinkCalls(names[..i], links), st0);
      if r.Err? {
        LinksRaise(names, i + 1, links, pre, st0);
      }
    }

    /** The inner link loop for node a over its sorted neighbours bs, after the calls base. */
    method AddPairs(a: string, bs: seq<string>, row: map<string, Opts>, ghost base: seq<Call>, ghost st0: State)
        returns (r: Result<(), Exc>)
      requires forall b :: b in bs ==> b in row
      requires Run(st0, base) == Ok(t.St())
      modifies t, t.g
      ensures var o := Run(st0, base + PairCalls(a, bs, row));
        (o.Ok? ==> r.Ok? && t.St() == o.value) && (o.Err? ==> r == Err(o.error))
    {
      var j := 0;
      assert base + PairCalls(a, bs[..0], row) == base;
      while j < |bs|
        invariant 0 <= j <= |bs|
        invariant Run(st0, base + PairCalls(a, bs[..j], row)) == Ok(t.St())
      {
        var linked := AddPair(a, bs, j, row, base, st0);
        if linked.Err? {
          return Err(linked.error);
        }
        j := j + 1;
      }
      assert bs[..j] == bs;
      r := Ok(());
    }

    /**
     * One round of the inner link loop: addLink(a, bs[j], **row[bs[j]]) when
     * a comes first, the row's port1, port2 and key columns binding
     * addLink's own parameters.
     */
    method AddPair(a: string, bs: seq<string>, j: int, row: map<string, Opts>, ghost base: seq<Call>, ghost st0: State)
        returns (r: Result<(), Exc>)
      requires 0 <= j < |bs| && forall b :: b in bs ==> b in row
      requires Run(st0, base + PairCalls(a, bs[..j], row)) == Ok(t.St())
      modifies t, t.g
      ensures r.Ok? ==> Run(st0, base + PairCalls(a, bs[..j + 1], row)) == Ok(t.St())
      ensures r.Err? ==> Run(st0, base + PairCalls(a, bs, row)) == Err(r.error)
    {
      var b := bs[j];
      PairStep(a, bs, j, row, base);
      if StrLess(a, b) {
        var c := LinkCall(a, b, row[b]);
        RunSnoc(st0, base + PairCalls(a, bs[..j], row), c, t.St());
        ApplyCases(t.St(), c);
        var lopts := row[b];
        if GivenTwice(lopts) {
          PairsRaise(a, bs, j + 1, row, base, st0);
          return Err(TypeError);
        }
        var k := t.AddLink(a, b, PortKw(lopts, "port1"), PortKw(lopts, "port2"), KeyKw(lopts), lopts - BoundKws);
        if k.Err? {
          PairsRaise(a, bs, j + 1, row, base, st0);
          return Err(k.error);
        }
      }
      r := Ok(());
    }
  }

  /** One more neighbour extends the inner loop. */
  lemma PairStep(a: string, bs: seq<string>, j: int, row: map<string, Opts>, base: seq<Call>)
    requires 0 <= j < |bs| && forall b :: b in bs ==> b in row
    ensures base + PairCalls(a, bs[..j + 1], row) ==
      if StrLess(a, bs[j]) then base + PairCalls(a, bs[..j], row) + [LinkCall(a, bs[j], row[bs[j]])]
      else base + PairCalls(a, bs[..j], row)
  {
    assert bs[..j + 1][..j] == bs[..j];
    if StrLess(a, bs[j]) {
      Assoc(base, PairCalls(a, bs[..j], row), [LinkCall(a, bs[j], row[bs[j]])]);
    }
  }

  /** An exception in the first k rounds of the inner loop is the exception of the whole loop. */
  lemma PairsRaise(a: string, bs: seq<string>, k: int, row: map<string, Opts>, base: seq<Call>, st0: State)
    requires 0 <= k <= |bs| && forall b :: b in bs ==> b in row
    requires Run(st0, base + PairCalls(a, bs[..k], row)).Err?
    ensures Run(st0, base + PairCalls(a, bs, row)) == Run(st0, base + PairCalls(a, bs[..k], row))
  {
    PairCallsPrefix(a, bs, k, row);
    PrefixCons(base, PairCalls(a, bs[..k], row), PairCalls(a, bs, row));
    RunErrPrefix(st0, base + PairCalls(a, bs[..k], row), base + PairCalls(a, bs, row));
  }

  /**
   * A port1 column binds addLink's port1: the row {name_a: h1, name_b: s1,
   * port1: 3} links h1's port 3 to s1, and the edge records port1 = 3.
   */
  lemma PortColumnBinds(st: State)
    requires "h1" in st.g.node && "s1" in st.g.node
    ensures var row := map["name_a" := VStr("h1"), "name_b" := VStr("s1"), "port1" := VInt(3)];
      var r := Linked(st, "h1", "s1", row);
      r.Ok? && 3 in r.value.ports["h1"] && r.value.ports["h1"][3].0 == "s1"
  {
    var row := map["name_a" := VStr("h1"), "name_b" := VStr("s1"), "port1" := VInt(3)];
    assert !GivenTwice(row);
    PortAddedShape(st, "h1", "s1", PortKw(row, "port1"), PortKw(row, "port2"));
    LinkedBinds(st, "h1", "s1", row);
  }

  /** One call after calls that succeed. */
  lemma RunSnoc(st0: State, pre: seq<Call>, c: Call, cur: State)
    requires Run(st0, pre) == Ok(cur)
    ensures Run(st0, pre + [c]) == Apply(cur, c)
  {
    RunAppend(st0, pre, [c]);
    RunOne(cur, c);
  }

  /** The build raises what the node loop raises, leaving the link loop out. */
  lemma CsvNodesRaise(st: State, nodes: NodeRows, links: LinkRows)
    ensures var p := NodeCalls(SortedKeys(nodes.Keys), nodes, links);
      var o := Run(st, p.calls);
      (o.Err? ==> CsvOutcome(st, nodes, links) == o)
      && (o.Ok? && p.stop.Some? ==> CsvOutcome(st, nodes, links) == Err(p.stop.value))
  {
    var names := SortedKeys(nodes.Keys);
    var p := NodeCalls(names, nodes, links);
    if p.stop.None? {
      NodeCallsOk(names, nodes, links);
      if Run(st, p.calls).Err? {
        RunErrPrefix(st, p.calls, p.calls + LinkCalls(names, links));
      }
    }
  }
}
