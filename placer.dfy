// Node placement for the cluster edition (mininet/cluster/placer.py; the
// same classes are copied into examples/cluster.py:562-723).  The five
// placers share one constructor signature and answer the same place(node)
// call, so they are one class here told apart by `kind`; `bin` and the
// switch-for map are pure functions, calculatePlacement is the loop that
// computes them.
module Placement {
  import opened Wrappers
  import opened Text

  predicate Distinct(s: seq<string>) {
    forall i, j :: 0 <= i < j < |s| ==> s[i] != s[j]
  }

  function Members(s: seq<string>): set<string> { set x | x in s }

  /** n * [s] */
  function Repeat(s: string, n: nat): (r: seq<string>)
    ensures |r| == n && forall i :: 0 <= i < n ==> r[i] == s
  {
    if n == 0 then [] else [s] + Repeat(s, n - 1)
  }

  lemma {:induction false} DistinctCount(s: seq<string>, x: string)
    requires Distinct(s)
    ensures multiset(s)[x] == if x in s then 1 else 0
  {
    if s != [] {
      var t := s[1..];
      assert s == [s[0]] + t;
      assert Distinct(t) by {
        forall i, j | 0 <= i < j < |t| ensures t[i] != t[j] {
          assert t[i] == s[i + 1] && t[j] == s[j + 1];
        }
      }
      DistinctCount(t, x);
    }
  }

  // ------------------------------------------------------------------
  // bin (placer.py:82-99)
  // ------------------------------------------------------------------

  /** `for server in extra: binsizes[server] += 1` */
  function Bumped(sizes: map<string, nat>, extra: seq<string>): (r: map<string, nat>)
    requires forall s :: s in extra ==> s in sizes
    ensures r.Keys == sizes.Keys
  {
    if extra == [] then sizes
    else
      var prev := Bumped(sizes, extra[..|extra| - 1]);
      var s := extra[|extra| - 1];
      prev[s := prev[s] + 1]
  }

  lemma {:induction false} BumpedAt(sizes: map<string, nat>, extra: seq<string>, s: string)
    requires forall x :: x in extra ==> x in sizes
    requires s in sizes
    ensures Bumped(sizes, extra)[s] == sizes[s] + multiset(extra)[s]
  {
    if extra != [] {
      var init := extra[..|extra| - 1];
      assert extra == init + [extra[|extra| - 1]];
      BumpedAt(sizes, init, s);
    }
  }

  /** binsizes: the quotient for every server, plus one for servers[0:rem]. */
  function BinSizes(servers: seq<string>, q: nat, rem: nat): (r: map<string, nat>)
    requires rem <= |servers|
    ensures r.Keys == Members(servers)
  {
    var base := map s | s in servers :: q;
    assert forall s :: s in servers[..rem] ==> s in base by {
      forall s | s in servers[..rem] ensures s in base {
        var k :| 0 <= k < rem && servers[..rem][k] == s;
        assert servers[k] == s;
      }
    }
    Bumped(base, servers[..rem])
  }

  /** sum([binsizes[s] * [s] for s in servers], []) */
  function Tickets(servers: seq<string>, sizes: map<string, nat>): seq<string>
    requires forall s :: s in servers ==> s in sizes
  {
    if servers == [] then []
    else Repeat(servers[0], sizes[servers[0]]) + Tickets(servers[1..], sizes)
  }

  /** Where server j's run of tickets begins. */
  function Start(servers: seq<string>, sizes: map<string, nat>, j: nat): nat
    requires j <= |servers|
    requires forall s :: s in servers ==> s in sizes
  {
    if j == 0 then 0 else sizes[servers[0]] + Start(servers[1..], sizes, j - 1)
  }

  lemma {:induction false} TicketsLength(servers: seq<string>, sizes: map<string, nat>)
    requires forall s :: s in servers ==> s in sizes
    ensures |Tickets(servers, sizes)| == Start(servers, sizes, |servers|)
  {
    if servers != [] {
      TicketsLength(servers[1..], sizes);
    }
  }

  /** The tickets hold each server's run in server order. */
  lemma {:induction false} TicketAt(servers: seq<string>, sizes: map<string, nat>, j: nat, i: nat)
    requires forall s :: s in servers ==> s in sizes
    requires j < |servers|
    requires Start(servers, sizes, j) <= i < Start(servers, sizes, j) + sizes[servers[j]]
    ensures i < |Tickets(servers, sizes)| && Tickets(servers, sizes)[i] == servers[j]
  {
    var c := sizes[servers[0]];
    if j > 0 {
      TicketAt(servers[1..], sizes, j - 1, i - c);
      assert servers[1..][j - 1] == servers[j];
    }
  }

  /** The run a ticket index falls in. */
  lemma {:induction false} RunOf(servers: seq<string>, sizes: map<string, nat>, i: nat) returns (j: nat)
    requires forall s :: s in servers ==> s in sizes
    requires i < Start(servers, sizes, |servers|)
    ensures j < |servers| && Start(servers, sizes, j) <= i < Start(servers, sizes, j) + sizes[servers[j]]
  {
    if i < sizes[servers[0]] {
      j := 0;
    } else {
      var j' := RunOf(servers[1..], sizes, i - sizes[servers[0]]);
      j := j' + 1;
      assert servers[1..][j'] == servers[j];
    }
  }

  /** Where server j's run starts when every server holds q tickets and the
      first rem hold one more. */
  function BinStart(j: nat, q: nat, rem: nat): nat {
    if j == 0 then 0
    else q + (if rem > 0 then 1 else 0) + BinStart(j - 1, q, if rem > 0 then rem - 1 else 0)
  }

  lemma {:induction false} BinStartSucc(j: nat, q: nat, rem: nat)
    ensures BinStart(j + 1, q, rem) == BinStart(j, q, rem) + q + (if j < rem then 1 else 0)
  {
    if j > 0 {
      BinStartSucc(j - 1, q, if rem > 0 then rem - 1 else 0);
    }
  }

  /** j full bins and one extra ticket for each of the first rem servers. */
  lemma {:induction false} BinStartClosed(j: nat, q: nat, rem: nat)
    ensures BinStart(j, q, rem) == j * q + (if j < rem then j else rem)
  {
    if j > 0 {
      BinStartClosed(j - 1, q, if rem > 0 then rem - 1 else 0);
      assert (j - 1) * q + q == j * q;
    }
  }

  /** The runs of bin(nodes, servers) cover exactly the nodes. */
  lemma BinStartAll(n: nat, s: nat)
    requires s > 0
    ensures BinStart(s, Quotient(n, s), Remainder(n, s)) == n
  {
    BinStartClosed(s, n / s, n % s);
    assert n == s * (n / s) + n % s;
  }

  lemma {:induction false} StartIsBinStart(servers: seq<string>, sizes: map<string, nat>, q: nat, rem: nat, j: nat)
    requires forall s :: s in servers ==> s in sizes
    requires forall k :: 0 <= k < |servers| ==> sizes[servers[k]] == q + (if k < rem then 1 else 0)
    requires j <= |servers|
    ensures Start(servers, sizes, j) == BinStart(j, q, rem)
  {
    if j > 0 {
      var tail := servers[1..];
      var rem' := if rem > 0 then rem - 1 else 0;
      forall k | 0 <= k < |tail|
        ensures sizes[tail[k]] == q + (if k < rem' then 1 else 0)
      {
        assert tail[k] == servers[k + 1];
      }
      StartIsBinStart(tail, sizes, q, rem', j - 1);
    }
  }

  lemma {:induction false} BinSizesAt(servers: seq<string>, q: nat, rem: nat, j: nat)
    requires Distinct(servers) && rem <= |servers| && j < |servers|
    ensures BinSizes(servers, q, rem)[servers[j]] == q + (if j < rem then 1 else 0)
  {
    var base := map s | s in servers :: q;
    var pre := servers[..rem];
    assert forall s :: s in pre ==> s in base by {
      forall s | s in pre ensures s in base {
        var k :| 0 <= k < rem && pre[k] == s;
        assert servers[k] == s;
      }
    }
    BumpedAt(base, pre, servers[j]);
    assert Distinct(pre) by {
      forall a, b | 0 <= a < b < |pre| ensures pre[a] != pre[b] {
        assert pre[a] == servers[a] && pre[b] == servers[b];
      }
    }
    DistinctCount(pre, servers[j]);
    if j < rem {
      assert pre[j] == servers[j];
    }
  }

  /** zip(nodes, tickets) restricted to its first k pairs, as a dict: a later
      pair for the same node replaces an earlier one. */
  function ZipFirst(nodes: seq<string>, tickets: seq<string>, k: nat): map<string, string>
    requires k <= |nodes| && k <= |tickets|
  {
    if k == 0 then map[] else ZipFirst(nodes, tickets, k - 1)[nodes[k - 1] := tickets[k - 1]]
  }

  lemma {:induction false} ZipFirstKeys(nodes: seq<string>, tickets: seq<string>, k: nat)
    requires k <= |nodes| && k <= |tickets|
    ensures forall x :: x in ZipFirst(nodes, tickets, k) <==> x in nodes[..k]
  {
    if k > 0 {
      ZipFirstKeys(nodes, tickets, k - 1);
      assert nodes[..k] == nodes[..k - 1] + [nodes[k - 1]];
    }
  }

  lemma {:induction false} ZipFirstAt(nodes: seq<string>, tickets: seq<string>, k: nat, i: nat)
    requires k <= |nodes| && k <= |tickets| && Distinct(nodes) && i < k
    ensures nodes[i] in ZipFirst(nodes, tickets, k)
    ensures ZipFirst(nodes, tickets, k)[nodes[i]] == tickets[i]
  {
    if i < k - 1 {
      ZipFirstAt(nodes, tickets, k - 1, i);
    }
  }

  /** int(nlen / slen) and nlen % slen */
  function Quotient(n: nat, s: nat): nat requires s > 0 { n / s }
  function Remainder(n: nat, s: nat): (r: nat) requires s > 0 ensures r < s { n % s }

  function Min(a: nat, b: nat): nat { if a < b then a else b }

  /** SwitchBinPlacer.bin: ZeroDivisionError without servers. */
  function Bin(nodes: seq<string>, servers: seq<string>): (r: Result<map<string, string>, Exc>)
    ensures r.Err? <==> |servers| == 0
    ensures r.Err? ==> r.error == ZeroDivisionError
  {
    if |servers| == 0 then Err(ZeroDivisionError)
    else
      var q := Quotient(|nodes|, |servers|);
      var rem := Remainder(|nodes|, |servers|);
      var tickets := Tickets(servers, BinSizes(servers, q, rem));
      Ok(ZipFirst(nodes, tickets, Min(|nodes|, |tickets|)))
  }

  /** There is one ticket per node once the servers are distinct. */
  lemma BinTickets(nodes: seq<string>, servers: seq<string>)
    requires Distinct(servers) && |servers| > 0
    ensures var q, rem := Quotient(|nodes|, |servers|), Remainder(|nodes|, |servers|);
            var sizes := BinSizes(servers, q, rem);
            (forall k :: 0 <= k < |servers| ==> sizes[servers[k]] == q + (if k < rem then 1 else 0)) &&
            (forall j :: 0 <= j <= |servers| ==> Start(servers, sizes, j) == BinStart(j, q, rem)) &&
            |Tickets(servers, sizes)| == |nodes|
  {
    var q, rem := Quotient(|nodes|, |servers|), Remainder(|nodes|, |servers|);
    var sizes := BinSizes(servers, q, rem);
    forall k | 0 <= k < |servers| ensures sizes[servers[k]] == q + (if k < rem then 1 else 0) {
      BinSizesAt(servers, q, rem, k);
    }
    forall j | 0 <= j <= |servers| ensures Start(servers, sizes, j) == BinStart(j, q, rem) {
      StartIsBinStart(servers, sizes, q, rem, j);
    }
    TicketsLength(servers, sizes);
    BinStartAll(|nodes|, |servers|);
  }

  /** With distinct servers, bin places every node. */
  lemma BinKeys(nodes: seq<string>, servers: seq<string>)
    requires Distinct(servers) && |servers| > 0
    ensures Bin(nodes, servers).Ok? && forall x :: x in Bin(nodes, servers).value <==> x in nodes
  {
    var q, rem := Quotient(|nodes|, |servers|), Remainder(|nodes|, |servers|);
    BinTickets(nodes, servers);
    ZipFirstKeys(nodes, Tickets(servers, BinSizes(servers, q, rem)), |nodes|);
    assert nodes[..|nodes|] == nodes;
  }

  /** With distinct servers and nodes, node i goes to server j exactly when
      i lies in server j's run [BinStart(j), BinStart(j + 1)); each run holds
      the quotient, plus one on the first `remainder` servers; and the runs
      cover all the nodes. */
  lemma BinPlaces(nodes: seq<string>, servers: seq<string>, i: nat, j: nat)
    requires Distinct(nodes) && Distinct(servers) && |servers| > 0
    requires i < |nodes| && j < |servers|
    ensures var q, rem := Quotient(|nodes|, |servers|), Remainder(|nodes|, |servers|);
            Bin(nodes, servers).Ok? && nodes[i] in Bin(nodes, servers).value &&
            (Bin(nodes, servers).value[nodes[i]] == servers[j] <==>
               BinStart(j, q, rem) <= i < BinStart(j + 1, q, rem)) &&
            BinStart(j + 1, q, rem) == BinStart(j, q, rem) + q + (if j < rem then 1 else 0) &&
            BinStart(|servers|, q, rem) == |nodes|
  {
    var q, rem := Quotient(|nodes|, |servers|), Remainder(|nodes|, |servers|);
    var sizes := BinSizes(servers, q, rem);
    var tickets := Tickets(servers, sizes);
    BinTickets(nodes, servers);
    BinStartSucc(j, q, rem);
    BinStartAll(|nodes|, |servers|);
    ZipFirstAt(nodes, tickets, |nodes|, i);
    var value := ZipFirst(nodes, tickets, |nodes|);
    assert Bin(nodes, servers) == Ok(value);
    assert sizes[servers[j]] == q + (if j < rem then 1 else 0);
    assert Start(servers, sizes, j) == BinStart(j, q, rem);
    if BinStart(j, q, rem) <= i < BinStart(j + 1, q, rem) {
      TicketAt(servers, sizes, j, i);
    }
    if value[nodes[i]] == servers[j] {
      var j' := RunOf(servers, sizes, i);
      TicketAt(servers, sizes, j', i);
      assert j' == j;
    }
  }

  // ------------------------------------------------------------------
  // calculatePlacement (placer.py:101-127)
  // ------------------------------------------------------------------

  /** Link l ties host h to a switch at its other end. */
  predicate Linked(l: (string, string), h: string, hset: set<string>, sset: set<string>) {
    h in hset && ((l.0 == h && l.1 in sset) || (l.1 == h && l.0 in sset))
  }

  /** That switch. */
  function Other(l: (string, string), h: string, sset: set<string>): string {
    if l.0 == h && l.1 in sset then l.1 else l.0
  }

  /** switchFor after the loop over links. */
  function SwitchFor(links: seq<(string, string)>, hset: set<string>, sset: set<string>): map<string, string> {
    if links == [] then map[]
    else
      var m := SwitchFor(links[..|links| - 1], hset, sset);
      var src, dst := links[|links| - 1].0, links[|links| - 1].1;
      var m1 := if src in hset && dst in sset then m[src := dst] else m;
      if dst in hset && src in sset then m1[dst := src] else m1
  }

  /** switchFor maps exactly the linked hosts, each to a switch. */
  lemma {:induction false} SwitchForKeys(links: seq<(string, string)>, hset: set<string>, sset: set<string>, h: string)
    ensures h in SwitchFor(links, hset, sset) <==> exists i :: 0 <= i < |links| && Linked(links[i], h, hset, sset)
    ensures h in SwitchFor(links, hset, sset) ==> SwitchFor(links, hset, sset)[h] in sset
  {
    if links != [] {
      var init := links[..|links| - 1];
      SwitchForKeys(init, hset, sset, h);
      forall i | 0 <= i < |init| ensures init[i] == links[i] { }
      if h in SwitchFor(init, hset, sset) {
        var i :| 0 <= i < |init| && Linked(init[i], h, hset, sset);
        assert Linked(links[i], h, hset, sset);
      }
      if exists i :: 0 <= i < |links| && Linked(links[i], h, hset, sset) {
        var i :| 0 <= i < |links| && Linked(links[i], h, hset, sset);
        if i < |init| {
          assert Linked(init[i], h, hset, sset);
        }
      }
    }
  }

  /** ... and a host to the switch of its last link in links order. */
  lemma {:induction false} SwitchForLast(links: seq<(string, string)>, hset: set<string>, sset: set<string>, h: string)
      returns (i: nat)
    requires h in SwitchFor(links, hset, sset)
    ensures i < |links| && Linked(links[i], h, hset, sset)
    ensures SwitchFor(links, hset, sset)[h] == Other(links[i], h, sset)
    ensures forall j :: i < j < |links| ==> !Linked(links[j], h, hset, sset)
  {
    var init := links[..|links| - 1];
    var l := links[|links| - 1];
    if Linked(l, h, hset, sset) {
      i := |links| - 1;
    } else {
      i := SwitchForLast(init, hset, sset, h);
      assert init[i] == links[i];
      forall j | i < j < |links| ensures !Linked(links[j], h, hset, sset) {
        if j < |init| { assert init[j] == links[j]; }
      }
    }
  }

  /** The host loop: a host already placed stays, a linked host joins its
      switch, any other host raises. */
  function PlaceHosts(hosts: seq<string>, p: map<string, string>, switchFor: map<string, string>)
    : Result<map<string, string>, Exc>
  {
    if hosts == [] then Ok(p)
    else
      match PlaceHosts(hosts[..|hosts| - 1], p, switchFor)
      case Err(e) => Err(e)
      case Ok(q) =>
        var h := hosts[|hosts| - 1];
        if h in q then Ok(q)
        else if h in switchFor then
          (if switchFor[h] in q then Ok(q[h := q[switchFor[h]]]) else Err(KeyError(switchFor[h])))
        else Err(Raised("SwitchBinPlacer: cannot place isolated host " + h))
  }

  /** calculatePlacement: bin the switches, then the controllers over them,
      then the hosts. */
  function Placement(servers: seq<string>, hosts: seq<string>, switches: seq<string>,
                     controllers: seq<string>, links: seq<(string, string)>): Result<map<string, string>, Exc>
  {
    var switchFor := SwitchFor(links, Members(hosts), Members(switches));
    match Bin(switches, servers)
    case Err(e) => Err(e)
    case Ok(sw) =>
      match Bin(controllers, servers)
      case Err(e) => Err(e)
      case Ok(ct) => PlaceHosts(hosts, sw + ct, switchFor)
  }

  predicate Placeable(h: string, p: map<string, string>, switchFor: map<string, string>) {
    h in p || h in switchFor
  }

  lemma PlaceHostsStep(hosts: seq<string>, p: map<string, string>, switchFor: map<string, string>)
    requires hosts != []
    ensures PlaceHosts(hosts, p, switchFor) ==
      match PlaceHosts(hosts[..|hosts| - 1], p, switchFor)
      case Err(e) => Err(e)
      case Ok(q) =>
        var h := hosts[|hosts| - 1];
        if h in q then Ok(q)
        else if h in switchFor then
          (if switchFor[h] in q then Ok(q[h := q[switchFor[h]]]) else Err(KeyError(switchFor[h])))
        else Err(Raised("SwitchBinPlacer: cannot place isolated host " + h))
  { }

  /** Once every switch in switchFor is placed, the host loop succeeds
      exactly when every host is placed or linked; it keeps what was placed,
      adds the hosts, and puts each new host where its switch is. */
  lemma {:induction false} PlaceHostsOk(hosts: seq<string>, p: map<string, string>, switchFor: map<string, string>)
    requires forall h :: h in switchFor ==> switchFor[h] in p
    ensures PlaceHosts(hosts, p, switchFor).Ok? <==>
            forall k :: 0 <= k < |hosts| ==> Placeable(hosts[k], p, switchFor)
    ensures PlaceHosts(hosts, p, switchFor).Ok? ==>
              var r := PlaceHosts(hosts, p, switchFor).value;
              (forall x :: x in r <==> x in p || x in hosts) &&
              (forall x :: x in p ==> r[x] == p[x]) &&
              (forall h :: h in r && h !in p ==> h in switchFor && r[h] == p[switchFor[h]])
  {
    if hosts != [] {
      var init := hosts[..|hosts| - 1];
      var h := hosts[|hosts| - 1];
      PlaceHostsOk(init, p, switchFor);
      PlaceHostsStep(hosts, p, switchFor);
      assert hosts == init + [h];
      forall k | 0 <= k < |init| ensures init[k] == hosts[k] { }
      if PlaceHosts(init, p, switchFor).Ok? {
        var q := PlaceHosts(init, p, switchFor).value;
        if h !in q && h in switchFor {
          assert switchFor[h] in p;
        }
      }
    }
  }

  /** A failing host loop names the first host that is neither placed nor
      linked. */
  lemma {:induction false} PlaceHostsErr(hosts: seq<string>, p: map<string, string>, switchFor: map<string, string>)
      returns (k: nat)
    requires forall h :: h in switchFor ==> switchFor[h] in p
    requires PlaceHosts(hosts, p, switchFor).Err?
    ensures k < |hosts| && !Placeable(hosts[k], p, switchFor)
    ensures forall k' :: 0 <= k' < k ==> Placeable(hosts[k'], p, switchFor)
    ensures PlaceHosts(hosts, p, switchFor).error == Raised("SwitchBinPlacer: cannot place isolated host " + hosts[k])
  {
    var init := hosts[..|hosts| - 1];
    var h := hosts[|hosts| - 1];
    PlaceHostsStep(hosts, p, switchFor);
    forall j | 0 <= j < |init| ensures init[j] == hosts[j] { }
    if PlaceHosts(init, p, switchFor).Err? {
      k := PlaceHostsErr(init, p, switchFor);
    } else {
      PlaceHostsOk(init, p, switchFor);
      k := |hosts| - 1;
    }
  }

  /** With distinct servers the bins place every switch and controller,
      and every switch a host is linked to lies among the switches. */
  lemma PlacementBins(servers: seq<string>, hosts: seq<string>, switches: seq<string>,
                      controllers: seq<string>, links: seq<(string, string)>)
    requires Distinct(servers) && |servers| > 0
    ensures Bin(switches, servers).Ok? && Bin(controllers, servers).Ok?
    ensures forall x :: x in Bin(switches, servers).value + Bin(controllers, servers).value <==>
                        x in switches || x in controllers
    ensures var switchFor := SwitchFor(links, Members(hosts), Members(switches));
            forall h :: h in switchFor ==> switchFor[h] in switches
  {
    BinKeys(switches, servers);
    BinKeys(controllers, servers);
    var switchFor := SwitchFor(links, Members(hosts), Members(switches));
    forall h | h in switchFor ensures switchFor[h] in switches {
      SwitchForKeys(links, Members(hosts), Members(switches), h);
    }
  }

  /** Whether calculatePlacement can place host h: h is a switch or a
      controller (so bin placed it), or h is linked to a switch. */
  predicate Handled(h: string, switches: seq<string>, controllers: seq<string>, switchFor: map<string, string>) {
    h in switches || h in controllers || h in switchFor
  }

  /** calculatePlacement, with distinct servers, fails exactly when some host
      is isolated, and then it names the first such host. */
  lemma PlacementFails(servers: seq<string>, hosts: seq<string>, switches: seq<string>,
                       controllers: seq<string>, links: seq<(string, string)>)
    requires Distinct(servers) && |servers| > 0
    ensures var switchFor := SwitchFor(links, Members(hosts), Members(switches));
            var r := Placement(servers, hosts, switches, controllers, links);
            (r.Ok? <==> forall k :: 0 <= k < |hosts| ==> Handled(hosts[k], switches, controllers, switchFor)) &&
            (r.Err? ==>
               exists k :: 0 <= k < |hosts| && !Handled(hosts[k], switches, controllers, switchFor) &&
                 (forall k' :: 0 <= k' < k ==> Handled(hosts[k'], switches, controllers, switchFor)) &&
                 r.error == Raised("SwitchBinPlacer: cannot place isolated host " + hosts[k]))
  {
    var switchFor := SwitchFor(links, Members(hosts), Members(switches));
    PlacementBins(servers, hosts, switches, controllers, links);
    var p := Bin(switches, servers).value + Bin(controllers, servers).value;
    forall h | h in switchFor ensures switchFor[h] in p {
      SwitchForKeys(links, Members(hosts), Members(switches), h);
    }
    assert forall h :: Placeable(h, p, switchFor) <==> Handled(h, switches, controllers, switchFor);
    PlaceHostsOk(hosts, p, switchFor);
    var r := Placement(servers, hosts, switches, controllers, links);
    assert r == PlaceHosts(hosts, p, switchFor);
    if r.Err? {
      var k := PlaceHostsErr(hosts, p, switchFor);
    }
  }

  /** A successful calculatePlacement, with distinct servers: the switches
      keep their bin, the controllers' bin overrides it, and every other host
      sits on the server of the switch it is last linked to. */
  lemma PlacementPlaces(servers: seq<string>, hosts: seq<string>, switches: seq<string>,
                        controllers: seq<string>, links: seq<(string, string)>)
    requires Distinct(servers) && |servers| > 0
    requires Placement(servers, hosts, switches, controllers, links).Ok?
    ensures var switchFor := SwitchFor(links, Members(hosts), Members(switches));
            var r := Placement(servers, hosts, switches, controllers, links).value;
            Bin(switches, servers).Ok? && Bin(controllers, servers).Ok? &&
            (forall x :: x in Bin(switches, servers).value <==> x in switches) &&
            (forall x :: x in Bin(controllers, servers).value <==> x in controllers) &&
            (forall x :: x in r <==> x in switches || x in controllers || x in hosts) &&
            (forall s :: s in switches && s !in controllers ==> r[s] == Bin(switches, servers).value[s]) &&
            (forall c :: c in controllers ==> r[c] == Bin(controllers, servers).value[c]) &&
            (forall h :: h in hosts && h !in switches && h !in controllers ==>
               h in switchFor && switchFor[h] in r && r[h] == r[switchFor[h]])
  {
    var switchFor := SwitchFor(links, Members(hosts), Members(switches));
    PlacementBins(servers, hosts, switches, controllers, links);
    var p := Bin(switches, servers).value + Bin(controllers, servers).value;
    forall h | h in switchFor ensures switchFor[h] in p {
      SwitchForKeys(links, Members(hosts), Members(switches), h);
    }
    PlaceHostsOk(hosts, p, switchFor);
    var r := PlaceHosts(hosts, p, switchFor).value;
    BinKeys(switches, servers);
    BinKeys(controllers, servers);
    assert Placement(servers, hosts, switches, controllers, links).value == r;
    forall h | h in hosts && h !in switches && h !in controllers
      ensures h in switchFor && switchFor[h] in r && r[h] == r[switchFor[h]]
    {
      assert h !in p;
      assert switchFor[h] in p;
    }
  }

  /** Every host in switchFor is linked to the switch of its last link. */
  lemma SwitchForIsLastLink(links: seq<(string, string)>, hosts: seq<string>, switches: seq<string>, h: string)
    requires h in SwitchFor(links, Members(hosts), Members(switches))
    ensures exists i :: 0 <= i < |links| && Linked(links[i], h, Members(hosts), Members(switches)) &&
              SwitchFor(links, Members(hosts), Members(switches))[h] == Other(links[i], h, Members(switches)) &&
              forall j :: i < j < |links| ==> !Linked(links[j], h, Members(hosts), Members(switches))
  {
    var i := SwitchForLast(links, Members(hosts), Members(switches), h);
  }

  method ComputeSwitchFor(links: seq<(string, string)>, hset: set<string>, sset: set<string>)
      returns (switchFor: map<string, string>)
    ensures switchFor == SwitchFor(links, hset, sset)
  {
    switchFor := map[];
    var i := 0;
    while i < |links|
      invariant i <= |links|
      invariant switchFor == SwitchFor(links[..i], hset, sset)
    {
      var src, dst := links[i].0, links[i].1;
      if src in hset && dst in sset {
        switchFor := switchFor[src := dst];
      }
      if dst in hset && src in sset {
        switchFor := switchFor[dst := src];
      }
      assert links[..i + 1][..i] == links[..i];
      i := i + 1;
    }
    assert links[..|links|] == links;
  }

  lemma PlaceHostsPrefixErr(hosts: seq<string>, j: nat, p: map<string, string>, switchFor: map<string, string>)
    requires j <= |hosts| && PlaceHosts(hosts[..j], p, switchFor).Err?
    ensures PlaceHosts(hosts, p, switchFor) == PlaceHosts(hosts[..j], p, switchFor)
    decreases |hosts| - j
  {
    if j < |hosts| {
      assert hosts[..j + 1][..j] == hosts[..j];
      PlaceHostsPrefixErr(hosts, j + 1, p, switchFor);
    } else {
      assert hosts[..j] == hosts;
    }
  }

  method PlaceHostsLoop(hosts: seq<string>, p: map<string, string>, switchFor: map<string, string>)
      returns (r: Result<map<string, string>, Exc>)
    ensures r == PlaceHosts(hosts, p, switchFor)
  {
    var placement := p;
    var j := 0;
    while j < |hosts|
      invariant j <= |hosts|
      invariant PlaceHosts(hosts[..j], p, switchFor) == Ok(placement)
    {
      var h := hosts[j];
      assert hosts[..j + 1][..j] == hosts[..j] && hosts[..j + 1][j] == h;
      PlaceHostsStep(hosts[..j + 1], p, switchFor);
      if h in placement {
        j := j + 1;
        continue;
      }
      if h in switchFor {
        if switchFor[h] !in placement {
          PlaceHostsPrefixErr(hosts, j + 1, p, switchFor);
          return Err(KeyError(switchFor[h]));
        }
        placement := placement[h := placement[switchFor[h]]];
      } else {
        PlaceHostsPrefixErr(hosts, j + 1, p, switchFor);
        return Err(Raised("SwitchBinPlacer: cannot place isolated host " + h));
      }
      j := j + 1;
    }
    assert hosts[..|hosts|] == hosts;
    return Ok(placement);
  }

  /** calculatePlacement, step by step. */
  method CalculatePlacement(servers: seq<string>, hosts: seq<string>, switches: seq<string>,
                            controllers: seq<string>, links: seq<(string, string)>)
      returns (r: Result<map<string, string>, Exc>)
    ensures r == Placement(servers, hosts, switches, controllers, links)
  {
    var switchFor := ComputeSwitchFor(links, Members(hosts), Members(switches));
    var sw := Bin(switches, servers);
    if sw.Err? {
      return Err(sw.error);
    }
    var ct := Bin(controllers, servers);
    r := PlaceHostsLoop(hosts, sw.value + ct.value, switchFor);
  }

  // ------------------------------------------------------------------
  // place (placer.py:32-36, 41-46, 58-65, 129-133, 156-172)
  // ------------------------------------------------------------------

  datatype Kind = Local | Random | RoundRobin | SwitchBin | HostSwitchBin

  /** What a placer fixes when it is built. */
  datatype Conf = Conf(kind: Kind, servers: seq<string>, hset: set<string>, sset: set<string>,
                       cset: set<string>, placement: map<string, string>, hbin: nat, sbin: nat, cbin: nat)
  {
    predicate Valid() { hbin >= 1 && sbin >= 1 && cbin >= 1 }
  }

  /** The counters place() moves: RoundRobinPlacer.next and
      HostSwitchBinPlacer.hind / sind / cind. */
  datatype Counters = Counters(next: nat, hind: nat, sind: nat, cind: nat)

  /** servdict[idx], with servdict = dict(enumerate(servers)). */
  function ServerAt(servers: seq<string>, idx: nat): (r: Result<string, Exc>)
    ensures r.Ok? <==> idx < |servers|
    ensures r.Ok? ==> r.value == servers[idx]
  {
    if idx < |servers| then Ok(servers[idx]) else Err(KeyError(NatToDec(idx)))
  }

  /** A bin lookup that moves its counter only when it succeeds. */
  function Counted(servers: seq<string>, idx: nat, c: Counters, c': Counters): (Result<string, Exc>, Counters) {
    var r := ServerAt(servers, idx);
    (r, if r.Ok? then c' else c)
  }

  /** One place(node) call; `pick` is what randrange(0, len(servers))
      returns. */
  function PlaceOne(f: Conf, c: Counters, node: string, pick: nat): (Result<string, Exc>, Counters)
    requires f.Valid()
    requires f.kind == Random && |f.servers| > 0 ==> pick < |f.servers|
  {
    match f.kind
    case Local => (Ok("localhost"), c)
    case Random =>
      if node == "" then (Err(AssertionError), c)
      else if |f.servers| == 0 then (Err(ValueError), c)
      else (Ok(f.servers[pick]), c)
    case RoundRobin =>
      if node == "" then (Err(AssertionError), c)
      else if c.next >= |f.servers| then (Err(IndexError), c)
      else (Ok(f.servers[c.next]), c.(next := (c.next + 1) % |f.servers|))
    case SwitchBin =>
      if node in f.placement then (Ok(f.placement[node]), c) else (Err(KeyError(node)), c)
    case HostSwitchBin =>
      if node in f.hset then Counted(f.servers, c.hind / f.hbin, c, c.(hind := c.hind + 1))
      else if node in f.sset then Counted(f.servers, c.sind / f.sbin, c, c.(sind := c.sind + 1))
      else if node in f.cset then Counted(f.servers, c.cind / f.cbin, c, c.(cind := c.cind + 1))
      else (ServerAt(f.servers, 0), c)
  }

  predicate Picks(f: Conf, picks: seq<nat>) {
    f.kind == Random && |f.servers| > 0 ==> forall k :: 0 <= k < |picks| ==> picks[k] < |f.servers|
  }

  /** place(node) for each name in turn, stopping at the first exception. */
  function PlaceRun(f: Conf, c: Counters, names: seq<string>, picks: seq<nat>): (r: (Result<seq<string>, Exc>, Counters))
    requires f.Valid() && |picks| == |names| && Picks(f, picks)
    ensures r.0.Ok? ==> |r.0.value| == |names|
  {
    if names == [] then (Ok([]), c)
    else
      var n := |names| - 1;
      var prev := PlaceRun(f, c, names[..n], picks[..n]);
      if prev.0.Err? then prev
      else
        var one := PlaceOne(f, prev.1, names[n], picks[n]);
        if one.0.Err? then (Err(one.0.error), prev.1) else (Ok(prev.0.value + [one.0.value]), one.1)
  }

  lemma PlaceRunStep(f: Conf, c: Counters, names: seq<string>, picks: seq<nat>)
    requires f.Valid() && |picks| == |names| && Picks(f, picks) && names != []
    ensures var n := |names| - 1;
            var prev := PlaceRun(f, c, names[..n], picks[..n]);
            PlaceRun(f, c, names, picks) ==
              if prev.0.Err? then prev
              else
                var one := PlaceOne(f, prev.1, names[n], picks[n]);
                if one.0.Err? then (Err(one.0.error), prev.1) else (Ok(prev.0.value + [one.0.value]), one.1)
  { }

  /** The base Placer answers 'localhost' and moves nothing. */
  lemma LocalPlace(f: Conf, c: Counters, node: string, pick: nat)
    requires f.Valid() && f.kind == Local
    ensures PlaceOne(f, c, node, pick) == (Ok("localhost"), c)
  { }

  /** RandomPlacer answers a member of servers, or raises without any. */
  lemma RandomPlace(f: Conf, c: Counters, node: string, pick: nat)
    requires f.Valid() && f.kind == Random && (|f.servers| > 0 ==> pick < |f.servers|)
    ensures var r := PlaceOne(f, c, node, pick).0;
            (r.Ok? <==> node != "" && |f.servers| > 0) &&
            (r.Ok? ==> r.value in f.servers) &&
            (node != "" && |f.servers| == 0 ==> r == Err(ValueError))
  { }

  /** The k-th RoundRobinPlacer.place call, counting from 0 on a fresh placer,
      answers servers[k mod len(servers)]. */
  lemma {:induction false} RoundRobinCycles(f: Conf, names: seq<string>, picks: seq<nat>)
    requires f.Valid() && f.kind == RoundRobin && |f.servers| > 0
    requires |picks| == |names| && Picks(f, picks)
    requires forall k :: 0 <= k < |names| ==> names[k] != ""
    ensures var run := PlaceRun(f, Counters(0, 0, 0, 0), names, picks);
            run.0.Ok? && |run.0.value| == |names| &&
            (forall k :: 0 <= k < |names| ==> run.0.value[k] == f.servers[k % |f.servers|]) &&
            run.1.next == |names| % |f.servers|
  {
    if names != [] {
      var n := |names| - 1;
      forall k | 0 <= k < n ensures names[..n][k] != "" { assert names[..n][k] == names[k]; }
      RoundRobinCycles(f, names[..n], picks[..n]);
      PlaceRunStep(f, Counters(0, 0, 0, 0), names, picks);
      var len := |f.servers|;
      assert (n % len + 1) % len == (n + 1) % len by {
        ModSucc(n, len);
      }
    }
  }

  lemma ModSucc(n: nat, len: nat)
    requires len > 0
    ensures (n % len + 1) % len == (n + 1) % len
  {
    var q, r := n / len, n % len;
    assert n == q * len + r;
    if r + 1 < len {
      ModUnique(n + 1, len, q, r + 1);
    } else {
      ModUnique(n + 1, len, q + 1, 0);
      ModUnique(r + 1, len, 1, 0);
    }
  }

  /** How many of names fall in each HostSwitchBinPlacer branch. */
  function CountIn(names: seq<string>, s: set<string>): nat {
    if names == [] then 0
    else CountIn(names[..|names| - 1], s) + (if names[|names| - 1] in s then 1 else 0)
  }

  /** The servdict index HostSwitchBinPlacer uses for names[k] after a
      successful run over names[..k]: the per-kind count so far divided by
      the kind's bin size, and 0 for unknown names. */
  function BinIndex(f: Conf, names: seq<string>, k: nat): nat
    requires f.Valid() && k < |names|
  {
    var n := names[k];
    var pre := names[..k];
    if n in f.hset then CountIn(pre, f.hset) / f.hbin
    else if n in f.sset then CountIn(pre, f.sset - f.hset) / f.sbin
    else if n in f.cset then CountIn(pre, f.cset - f.hset - f.sset) / f.cbin
    else 0
  }

  /** A HostSwitchBinPlacer run succeeds exactly when every index it looks up
      is a server index, and then answers servers[BinIndex]. */
  lemma {:induction false} HostSwitchBinRun(f: Conf, names: seq<string>, picks: seq<nat>)
    requires f.Valid() && f.kind == HostSwitchBin
    requires |picks| == |names| && Picks(f, picks)
    ensures var run := PlaceRun(f, Counters(0, 0, 0, 0), names, picks);
            (run.0.Ok? <==> forall k :: 0 <= k < |names| ==> BinIndex(f, names, k) < |f.servers|) &&
            (run.0.Ok? ==>
               |run.0.value| == |names| &&
               (forall k :: 0 <= k < |names| ==> run.0.value[k] == f.servers[BinIndex(f, names, k)]) &&
               run.1 == Counters(0, CountIn(names, f.hset), CountIn(names, f.sset - f.hset),
                                 CountIn(names, f.cset - f.hset - f.sset)))
  {
    if names != [] {
      var n := |names| - 1;
      var pre := names[..n];
      HostSwitchBinRun(f, pre, picks[..n]);
      PlaceRunStep(f, Counters(0, 0, 0, 0), names, picks);
      forall k | 0 <= k < n ensures BinIndex(f, pre, k) == BinIndex(f, names, k) {
        assert pre[..k] == names[..k] && pre[k] == names[k];
      }
      var prev := PlaceRun(f, Counters(0, 0, 0, 0), pre, picks[..n]);
      if prev.0.Ok? {
        var one := PlaceOne(f, prev.1, names[n], picks[n]);
        assert one.0 == ServerAt(f.servers, BinIndex(f, names, n));
      } else {
        var k :| 0 <= k < n && BinIndex(f, pre, k) >= |f.servers|;
        assert BinIndex(f, names, k) >= |f.servers|;
      }
    }
  }

  /** What building a placer of the given kind fixes, or the exception its
      constructor raises. */
  function PlacerSetup(kind: Kind, servers: seq<string>, hosts: seq<string>, switches: seq<string>,
                 controllers: seq<string>, links: seq<(string, string)>): (r: Result<Conf, Exc>)
    ensures r.Ok? ==> r.value.Valid() && r.value.kind == kind && r.value.servers == servers
  {
    var hs, ss, cs := Members(hosts), Members(switches), Members(controllers);
    match kind
    case SwitchBin =>
      (match Placement(servers, hosts, switches, controllers, links)
       case Err(e) => Err(e)
       case Ok(p) => Ok(Conf(kind, servers, hs, ss, cs, p, 1, 1, 1)))
    case HostSwitchBin =>
      if |servers| == 0 then Err(ZeroDivisionError)
      else Ok(Conf(kind, servers, hs, ss, cs, map[], AtLeastOne(|hosts| / |servers|),
                   AtLeastOne(|switches| / |servers|), AtLeastOne(|controllers| / |servers|)))
    case _ => Ok(Conf(kind, servers, hs, ss, cs, map[], 1, 1, 1))
  }

  /** The work of the placer constructors. */
  method SetupPlacer(kind: Kind, servers: seq<string>, hosts: seq<string>, switches: seq<string>,
                     controllers: seq<string>, links: seq<(string, string)>) returns (r: Result<Conf, Exc>)
    ensures r == PlacerSetup(kind, servers, hosts, switches, controllers, links)
  {
    var hs, ss, cs := Members(hosts), Members(switches), Members(controllers);
    if kind == SwitchBin {
      var p := CalculatePlacement(servers, hosts, switches, controllers, links);
      if p.Err? {
        return Err(p.error);
      }
      return Ok(Conf(kind, servers, hs, ss, cs, p.value, 1, 1, 1));
    } else if kind == HostSwitchBin {
      if |servers| == 0 {
        return Err(ZeroDivisionError);
      }
      return Ok(Conf(kind, servers, hs, ss, cs, map[], AtLeastOne(|hosts| / |servers|),
                     AtLeastOne(|switches| / |servers|), AtLeastOne(|controllers| / |servers|)));
    }
    return Ok(Conf(kind, servers, hs, ss, cs, map[], 1, 1, 1));
  }

  // ------------------------------------------------------------------
  // The placer objects
  // ------------------------------------------------------------------

  /** Placer(servers, nodes, hosts, switches, controllers, links) and its
      subclasses; `raised` is what the constructor raised, if anything. */
  class Placer {
    const kind: Kind
    const servers: seq<string>
    const nodes: seq<string>
    const hosts: seq<string>
    const switches: seq<string>
    const controllers: seq<string>
    const links: seq<(string, string)>
    const hset: set<string>
    const sset: set<string>
    const cset: set<string>
    const placement: map<string, string>
    const hbin: nat
    const sbin: nat
    const cbin: nat
    const raised: Option<Exc>
    var next: nat
    var hind: nat
    var sind: nat
    var cind: nat

    function Setup(): Conf {
      Conf(kind, servers, hset, sset, cset, placement, hbin, sbin, cbin)
    }

    function Progress(): Counters reads this {
      Counters(next, hind, sind, cind)
    }

    /** SwitchBinPlacer precomputes calculatePlacement; HostSwitchBinPlacer
        divides each kind's count by the number of servers (at least 1). */
    constructor (kind: Kind, servers: seq<string>, nodes: seq<string>, hosts: seq<string>,
                 switches: seq<string>, controllers: seq<string>, links: seq<(string, string)>)
      ensures this.kind == kind && this.servers == servers && this.nodes == nodes
      ensures this.hosts == hosts && this.switches == switches && this.controllers == controllers
      ensures this.links == links
      ensures hset == Members(hosts) && sset == Members(switches) && cset == Members(controllers)
      ensures Setup().Valid() && Progress() == Counters(0, 0, 0, 0)
      ensures PlacerSetup(kind, servers, hosts, switches, controllers, links) ==
                if raised.None? then Ok(Setup()) else Err(raised.value)
    {
      this.kind := kind;
      this.servers := servers;
      this.nodes := nodes;
      this.hosts := hosts;
      this.switches := switches;
      this.controllers := controllers;
      this.links := links;
      hset := Members(hosts);
      sset := Members(switches);
      cset := Members(controllers);
      var r := SetupPlacer(kind, servers, hosts, switches, controllers, links);
      if r.Ok? {
        placement := r.value.placement;
        hbin, sbin, cbin := r.value.hbin, r.value.sbin, r.value.cbin;
        raised := None;
      } else {
        placement := map[];
        hbin, sbin, cbin := 1, 1, 1;
        raised := Some(r.error);
      }
      next, hind, sind, cind := 0, 0, 0, 0;
    }

    /** place(node); `pick` is what randrange returns for RandomPlacer. */
    method Place(node: string, pick: nat) returns (r: Result<string, Exc>)
      requires raised == None && Setup().Valid()
      requires kind == Random && |servers| > 0 ==> pick < |servers|
      modifies this
      ensures (r, Progress()) == PlaceOne(Setup(), old(Progress()), node, pick)
    {
      match kind
      case Local =>
        r := Ok("localhost");
      case Random =>
        if node == "" {
          r := Err(AssertionError);
        } else if |servers| == 0 {
          r := Err(ValueError);
        } else {
          r := Ok(servers[pick]);
        }
      case RoundRobin =>
        if node == "" {
          r := Err(AssertionError);
        } else if next >= |servers| {
          r := Err(IndexError);
        } else {
          r := Ok(servers[next]);
          next := (next + 1) % |servers|;
        }
      case SwitchBin =>
        if node in placement {
          r := Ok(placement[node]);
        } else {
          r := Err(KeyError(node));
        }
      case HostSwitchBin =>
        if node in hset {
          r := ServerAt(servers, hind / hbin);
          if r.Ok? { hind := hind + 1; }
        } else if node in sset {
          r := ServerAt(servers, sind / sbin);
          if r.Ok? { sind := sind + 1; }
        } else if node in cset {
          r := ServerAt(servers, cind / cbin);
          if r.Ok? { cind := cind + 1; }
        } else {
          r := ServerAt(servers, 0);
        }
    }
  }

  /** max(x, 1) */
  function AtLeastOne(x: nat): (r: nat)
    ensures r >= 1 && (x >= 1 ==> r == x)
  {
    if x < 1 then 1 else x
  }
}
