// The pure parts of the cluster CLI (mininet/cluster/cli.py, with a copy in
// examples/clustercli.py): the colour list that do_plot zips with the
// servers, and the text do_placement prints.
module ClusterCli {
  import opened Wrappers
  import opened Text

  // ------------------------------------------------------------- colorsFor

  const Palette: seq<string> := ["red", "lightgreen", "cyan", "yellow", "orange",
                                 "magenta", "pink", "grey", "brown", "white"]

  /** colors * reps. */
  function Repeated(s: seq<string>, reps: nat): (r: seq<string>)
    ensures |r| == |s| * reps
  {
    if reps == 0 then [] else s + Repeated(s, reps - 1)
  }

  lemma ModStep(i: int, m: int)
    requires m > 0 && i >= m
    ensures (i - m) % m == i % m
  {
    var q, r := i / m, i % m;
    assert i == q * m + r;
    ModUnique(i - m, m, q - 1, r);
  }

  /** Entry i of the repeated list is entry i mod len of the original. */
  lemma {:induction false} RepeatedAt(s: seq<string>, reps: nat, i: nat)
    requires |s| > 0 && i < |s| * reps
    ensures Repeated(s, reps)[i] == s[i % |s|]
  {
    if i >= |s| {
      RepeatedAt(s, reps - 1, i - |s|);
      ModStep(i, |s|);
    }
  }

  function Max(a: int, b: int): int { if a >= b then a else b }
  function Min(a: int, b: int): int { if a <= b then a else b }

  /** Python 2's `a / b` on non-negative ints. */
  function Div(a: nat, b: nat): nat requires b > 0 { a / b }

  /** colorsFor as written: reps = max(1, slen / clen) with floor division,
      then the first slen entries of colors * reps. */
  function ColorsForAsWritten(items: seq<string>): (r: seq<string>)
  {
    var reps: nat := Max(1, Div(|items|, |Palette|));
    var all := Repeated(Palette, reps);
    all[..Min(|items|, |all|)]
  }

  /** The number of colours is min(n, 10 * max(1, n div 10)), and colour i
      is palette entry i mod 10. */
  lemma ColorsForAsWrittenShape(items: seq<string>)
    ensures var r := ColorsForAsWritten(items);
            |r| == Min(|items|, 10 * Max(1, |items| / 10)) &&
            forall i :: 0 <= i < |r| ==> r[i] == Palette[i % 10]
  {
    var r := ColorsForAsWritten(items);
    var reps: nat := Max(1, Div(|items|, |Palette|));
    forall i | 0 <= i < |r| ensures r[i] == Palette[i % 10] {
      RepeatedAt(Palette, reps, i);
    }
  }

  /** Up to ten items get exactly the first palette entries. */
  lemma ColorsForAsWrittenSmall(items: seq<string>)
    requires |items| <= 10
    ensures ColorsForAsWritten(items) == Palette[..|items|]
  {
    assert Repeated(Palette, 1) == Palette;
  }

  /** A positive multiple of ten gets one colour per item. */
  lemma ColorsForAsWrittenMultiple(items: seq<string>)
    requires |items| > 0 && |items| % 10 == 0
    ensures |ColorsForAsWritten(items)| == |items|
  {
    var n := |items|;
    assert n == 10 * (n / 10);
  }

  /** Fifteen servers get only ten colours, so do_plot's colour lookup
      fails for the nodes on the last five servers. */
  lemma ColorsForAsWrittenShort()
    ensures var items := ["s1", "s2", "s3", "s4", "s5", "s6", "s7", "s8",
                          "s9", "s10", "s11", "s12", "s13", "s14", "s15"];
            |ColorsForAsWritten(items)| == 10 < |items|
  {
    assert Repeated(Palette, 1) == Palette;
  }

  /** colorsFor as evidently intended: reps rounded up, one colour per item. */
  function ColorsFor(items: seq<string>): (r: seq<string>)
  {
    var reps: nat := Max(1, Div(|items| + 9, |Palette|));
    var all := Repeated(Palette, reps);
    all[..Min(|items|, |all|)]
  }

  /** Every item gets a colour, and colour i is palette entry i mod 10. */
  lemma ColorsForShape(items: seq<string>)
    ensures var r := ColorsFor(items);
            |r| == |items| && forall i :: 0 <= i < |r| ==> r[i] == Palette[i % 10]
  {
    var r := ColorsFor(items);
    var reps: nat := Max(1, Div(|items| + 9, |Palette|));
    assert |items| <= 10 * reps;
    forall i | 0 <= i < |r| ensures r[i] == Palette[i % 10] {
      RepeatedAt(Palette, reps, i);
    }
  }

  /** The version as written gives a prefix of the intended list, all of it
      when n <= 10 or n is a multiple of ten. */
  lemma ColorsForAgree(items: seq<string>)
    ensures var w, c := ColorsForAsWritten(items), ColorsFor(items);
            |w| <= |c| && w == c[..|w|] &&
            (|items| <= 10 || |items| % 10 == 0 ==> w == c)
  {
    var w, c := ColorsForAsWritten(items), ColorsFor(items);
    ColorsForAsWrittenShape(items);
    ColorsForShape(items);
    if |items| % 10 == 0 && |items| > 0 {
      ColorsForAsWrittenMultiple(items);
    }
  }

  // ---------------------------------------------------------- do_placement

  /** A node's name and, when it has that attribute, its server. */
  datatype NodeInfo = NodeInfo(name: string, server: Option<string>)

  /** [n.name for n in nodes if hasattr(n, 'server') and n.server == server] */
  function NamesOn(nodes: seq<NodeInfo>, server: string): (r: seq<string>)
    ensures |r| <= |nodes|
  {
    if nodes == [] then []
    else
      var rest := NamesOn(nodes[1..], server);
      if nodes[0].server == Some(server) then [nodes[0].name] + rest else rest
  }

  /** A name is listed exactly when some node of that name sits on the server. */
  lemma {:induction false} NamesOnExactly(nodes: seq<NodeInfo>, server: string, x: string)
    ensures x in NamesOn(nodes, server) <==>
            exists i :: 0 <= i < |nodes| && nodes[i].name == x && nodes[i].server == Some(server)
  {
    if nodes != [] {
      NamesOnExactly(nodes[1..], server, x);
      if x in NamesOn(nodes[1..], server) {
        var i :| 0 <= i < |nodes[1..]| && nodes[1..][i].name == x && nodes[1..][i].server == Some(server);
        assert nodes[i + 1].name == x;
      }
      if exists i :: 0 <= i < |nodes| && nodes[i].name == x && nodes[i].server == Some(server) {
        var i :| 0 <= i < |nodes| && nodes[i].name == x && nodes[i].server == Some(server);
        if i > 0 {
          assert nodes[1..][i - 1] == nodes[i];
        }
      }
    }
  }

  /** The names keep the nodes' order: listing two parts lists their names
      one after the other. */
  lemma {:induction false} NamesOnAppend(a: seq<NodeInfo>, b: seq<NodeInfo>, server: string)
    ensures NamesOn(a + b, server) == NamesOn(a, server) + NamesOn(b, server)
  {
    if a != [] {
      assert (a + b)[1..] == a[1..] + b && (a + b)[0] == a[0];
      NamesOnAppend(a[1..], b, server);
    } else {
      assert a + b == b;
    }
  }

  /** do_placement's output: one line per server, in server order, listing
      the hosts, switches and controllers placed on it. */
  function PlacementReport(servers: seq<string>, hosts: seq<NodeInfo>, switches: seq<NodeInfo>,
                           controllers: seq<NodeInfo>): (lines: seq<string>)
    ensures |lines| == |servers|
  {
    var nodes := hosts + switches + controllers;
    seq(|servers|, k requires 0 <= k < |servers| => servers[k] + ": " + Join(NamesOn(nodes, servers[k]), ' ') + "\n")
  }

  /** Line k names server k, and the space-separated list after ": " splits
      back into exactly the names of the nodes on it (none when it is
      empty), provided names contain no space. */
  lemma PlacementReportLine(servers: seq<string>, hosts: seq<NodeInfo>, switches: seq<NodeInfo>,
                            controllers: seq<NodeInfo>, k: nat)
    requires k < |servers|
    requires forall n :: n in hosts + switches + controllers ==> ' ' !in n.name
    ensures var nodes := hosts + switches + controllers;
            var names := NamesOn(nodes, servers[k]);
            exists body ::
              PlacementReport(servers, hosts, switches, controllers)[k] == servers[k] + ": " + body + "\n" &&
              (names == [] ==> body == "") &&
              (names != [] ==> Split(body, ' ') == names)
  {
    var nodes := hosts + switches + controllers;
    var names := NamesOn(nodes, servers[k]);
    var body := Join(names, ' ');
    if names != [] {
      forall i | 0 <= i < |names| ensures ' ' !in names[i] {
        NamesOnExactly(nodes, servers[k], names[i]);
      }
      SplitJoin(names, ' ');
    }
    assert PlacementReport(servers, hosts, switches, controllers)[k] == servers[k] + ": " + body + "\n";
  }
}
