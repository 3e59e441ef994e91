// The first, single-file version of the emulator (mininet.py at the top of
// the repository): its Node class's interface bookkeeping and shell
// protocol, links between nodes, the ping summary parser, the address and
// name generators and the recursive tree builder. Reading the shell is an
// oracle: the chunks os.read would return are parameters.
module Legacy {
  import opened Wrappers
  import opened Text
  import Util
  import Net

  // ------------------------------------------------------------ commands

  /** The sentinel the shell echoes when a command is done: chr(0177). */
  const Sentinel: char := 127 as char

  /** What follows the separator: an echo of the sentinel (the shell is
      handed the four characters \0177). */
  const EchoSentinel: string := " echo -n '\\0177' \n"

  const Ifconfig: string := "/sbin/ifconfig"

  /** A command is a string or a list of words. */
  datatype Command = Line(s: string) | Words(ws: seq<string>)

  /** sendCmd's text. A trailing '&' (the last character of a string, the
      last word of a list) is cut off and becomes the separator, otherwise
      the separator is ';'; a list is then joined with spaces. An empty
      command has no last element. */
  function CommandText(cmd: Command): (r: Result<string, Exc>)
    ensures r.Err? <==> (if cmd.Line? then cmd.s == [] else cmd.ws == [])
    ensures r.Ok? ==> EndsWith(r.value, EchoSentinel)
  {
    match cmd
      case Line(s) =>
        if s == [] then Err(IndexError)
        else if s[|s| - 1] == '&' then Ok(s[..|s| - 1] + "&" + EchoSentinel)
        else Ok(s + ";" + EchoSentinel)
      case Words(ws) =>
        if ws == [] then Err(IndexError)
        else if ws[|ws| - 1] == "&" then Ok(Join(ws[..|ws| - 1], ' ') + "&" + EchoSentinel)
        else Ok(Join(ws, ' ') + ";" + EchoSentinel)
  }

  /** The command string itself reaches the shell unchanged: it is followed
      by ';' unless it already ends in '&', then by the sentinel echo. */
  lemma CommandLineKept(s: string)
    requires s != []
    ensures CommandText(Line(s)).Ok?
    ensures var t := CommandText(Line(s)).value;
      StartsWith(t, s) && |t| == |s| + (if s[|s| - 1] == '&' then 0 else 1) + |EchoSentinel|
      && (s[|s| - 1] != '&' ==> t[|s|] == ';')
  {
    var t := CommandText(Line(s)).value;
    if s[|s| - 1] == '&' {
      assert s[..|s| - 1] + "&" == s;
      assert t == s + EchoSentinel;
    } else {
      assert t == s + (";" + EchoSentinel);
    }
    assert t[..|s|] == s;
  }

  /** A word list that does not end in the word "&" is sent as its words
      joined with spaces, then ';'. */
  lemma CommandWordsJoined(ws: seq<string>)
    requires ws != [] && ws[|ws| - 1] != "&"
    ensures CommandText(Words(ws)) == Ok(Join(ws, ' ') + ";" + EchoSentinel)
  {
  }

  /** A chunk ends the output when its last character is the sentinel. */
  predicate Ends(data: string) { |data| > 0 && data[|data| - 1] == Sentinel }

  /** waitOutput over the chunks read: everything up to the first chunk that
      ends in the sentinel, without that sentinel; None while no chunk did
      (the real call is still blocked reading). */
  function WaitText(chunks: seq<string>): Option<string>
    decreases |chunks|
  {
    if chunks == [] then None
    else if Ends(chunks[0]) then Some(chunks[0][..|chunks[0]| - 1])
    else match WaitText(chunks[1..])
      case None => None
      case Some(o) => Some(chunks[0] + o)
  }

  /** p before an output, if there is one. */
  function Prepend(p: string, o: Option<string>): Option<string> {
    match o
      case None => None
      case Some(x) => Some(p + x)
  }

  /** One chunk of waitOutput's loop. */
  lemma WaitTextStep(output: string, chunks: seq<string>, i: nat)
    requires i < |chunks|
    ensures Prepend(output, WaitText(chunks[i..])) ==
      if Ends(chunks[i]) then Some(output + chunks[i][..|chunks[i]| - 1])
      else Prepend(output + chunks[i], WaitText(chunks[i + 1..]))
  {
    assert chunks[i..][1..] == chunks[i + 1..];
    var rest := WaitText(chunks[i + 1..]);
    if !Ends(chunks[i]) && rest.Some? {
      assert output + (chunks[i] + rest.value) == (output + chunks[i]) + rest.value;
    }
  }

  /** The output is found exactly when some chunk ends in the sentinel, and
      then it is the chunks up to the first such one, joined, with that one
      sentinel removed. */
  lemma {:induction false} WaitTextFirst(chunks: seq<string>) returns (k: nat)
    requires WaitText(chunks).Some?
    ensures k < |chunks| && Ends(chunks[k]) && forall i :: 0 <= i < k ==> !Ends(chunks[i])
    ensures WaitText(chunks).value + [Sentinel] == Util.Concat(chunks[..k + 1])
    decreases |chunks|
  {
    var c := chunks[0];
    if Ends(c) {
      k := 0;
      assert chunks[..1] == [c];
      assert c[..|c| - 1] + [Sentinel] == c;
    } else {
      var j := WaitTextFirst(chunks[1..]);
      k := j + 1;
      assert chunks[..k + 1] == [c] + chunks[1..][..j + 1];
      assert WaitText(chunks).value + [Sentinel] == c + (WaitText(chunks[1..]).value + [Sentinel]);
    }
  }

  lemma {:induction false} WaitTextNone(chunks: seq<string>)
    ensures WaitText(chunks).None? <==> forall i :: 0 <= i < |chunks| ==> !Ends(chunks[i])
    decreases |chunks|
  {
    if chunks != [] {
      WaitTextNone(chunks[1..]);
      if !Ends(chunks[0]) {
        forall i | 0 <= i < |chunks[1..]| ensures chunks[1..][i] == chunks[i + 1] { }
      }
    }
  }

  // ---------------------------------------------------------------- nodes

  /** A shell in a network namespace: its interfaces, their addresses, the
      far end of each link, and whether a command is still running. */
  class Node {
    const name: string
    const inNamespace: bool
    /** The pid of the shell Popen started, which the operating system picks. */
    const pid: int
    var intfCount: nat
    var intfs: seq<string>
    var ips: map<string, string>
    var connection: map<string, (Node, string)>
    var waiting: bool
    /** The texts written to the shell, in order. */
    var sent: seq<string>

    /** The interfaces are the names newIntf handed out, one per count. */
    ghost predicate Valid()
      reads this
    {
      |intfs| == intfCount && ListedBy(intfs, IntfName)
    }

    /** Node(name, inNamespace): no interfaces, addresses or links yet. */
    constructor (name: string, inNamespace: bool, pid: int)
      ensures Valid()
      ensures this.name == name && this.inNamespace == inNamespace && this.pid == pid
      ensures intfCount == 0 && intfs == [] && ips == map[] && connection == map[]
      ensures !waiting && sent == []
    {
      this.name := name;
      this.inNamespace := inNamespace;
      this.pid := pid;
      intfCount := 0;
      intfs := [];
      ips := map[];
      connection := map[];
      waiting := false;
      sent := [];
    }

    /** intfName: node-ethN. */
    function IntfName(n: int): string {
      name + "-eth" + IntToDec(n)
    }

    /** newIntf: the name for the next count, then the count moves on. */
    method NewIntf() returns (n: string)
      requires Valid()
      modifies this
      ensures Valid()
      ensures n == IntfName(old(intfCount)) && intfCount == old(intfCount) + 1
      ensures intfs == old(intfs) + [n]
      ensures ips == old(ips) && connection == old(connection) && waiting == old(waiting) && sent == old(sent)
    {
      n := IntfName(intfCount);
      ListedBySnoc(intfs, IntfName, n);
      intfCount := intfCount + 1;
      intfs := intfs + [n];
    }

    /** sendCmd: only when no command is running; the text goes to the shell
        and the node waits for the sentinel. */
    method SendCmd(cmd: Command) returns (err: Option<Exc>)
      modifies this
      ensures old(waiting) ==> err == Some(AssertionError)
      ensures !old(waiting) && CommandText(cmd).Err? ==> err == Some(CommandText(cmd).error)
      ensures err.None? <==> !old(waiting) && CommandText(cmd).Ok?
      ensures err.None? ==> waiting && sent == old(sent) + [CommandText(cmd).value]
      ensures err.Some? ==> waiting == old(waiting) && sent == old(sent)
      ensures intfCount == old(intfCount) && intfs == old(intfs) && ips == old(ips) && connection == old(connection)
    {
      if waiting {
        return Some(AssertionError);
      }
      var t := CommandText(cmd);
      if t.Err? {
        return Some(t.error);
      }
      sent := sent + [t.value];
      waiting := true;
      err := None;
    }

    /** monitor: one chunk read; a chunk ending in the sentinel completes the
        command and loses the sentinel. */
    method Monitor(data: string) returns (r: Result<(bool, string), Exc>)
      modifies this
      ensures !old(waiting) ==> r == Err(AssertionError) && !waiting
      ensures old(waiting) ==> r.Ok? && (r.value.0 <==> Ends(data)) && waiting == !Ends(data)
      ensures old(waiting) && Ends(data) ==> r.value.1 + [Sentinel] == data
      ensures old(waiting) && !Ends(data) ==> r.value.1 == data
      ensures intfCount == old(intfCount) && intfs == old(intfs) && ips == old(ips)
      ensures connection == old(connection) && sent == old(sent)
    {
      if !waiting {
        return Err(AssertionError);
      }
      if |data| > 0 && data[|data| - 1] == Sentinel {
        waiting := false;
        r := Ok((true, data[..|data| - 1]));
      } else {
        r := Ok((false, data));
      }
    }

    /** waitOutput: chunks are read until one ends in the sentinel. When the
        chunks fails out first, the result is None and the node still waits. */
    method WaitOutput(chunks: seq<string>) returns (r: Result<Option<string>, Exc>)
      modifies this
      ensures r == (if old(waiting) then Ok(WaitText(chunks)) else Err(AssertionError))
      ensures waiting == (old(waiting) && WaitText(chunks).None?)
      ensures intfCount == old(intfCount) && intfs == old(intfs) && ips == old(ips)
      ensures connection == old(connection) && sent == old(sent)
    {
      if !waiting {
        return Err(AssertionError);
      }
      var output := "";
      var i := 0;
      assert Prepend(output, WaitText(chunks)) == WaitText(chunks) by {
        if WaitText(chunks).Some? {
          assert output + WaitText(chunks).value == WaitText(chunks).value;
        }
      }
      while i < |chunks|
        invariant 0 <= i <= |chunks|
        invariant WaitText(chunks) == Prepend(output, WaitText(chunks[i..]))
        invariant waiting && intfCount == old(intfCount) && intfs == old(intfs) && ips == old(ips)
        invariant connection == old(connection) && sent == old(sent)
      {
        var data := chunks[i];
        WaitTextStep(output, chunks, i);
        if |data| > 0 && data[|data| - 1] == Sentinel {
          output := output + data[..|data| - 1];
          waiting := false;
          return Ok(Some(output));
        }
        output := output + data;
        i := i + 1;
      }
      return Ok(None);
    }

    /** cmd: sendCmd, then waitOutput. */
    method Cmd(cmd: Command, chunks: seq<string>) returns (r: Result<Option<string>, Exc>)
      modifies this
      ensures old(waiting) ==> r == Err(AssertionError) && waiting && sent == old(sent)
      ensures !old(waiting) && CommandText(cmd).Err? ==> r == Err(CommandText(cmd).error) && !waiting && sent == old(sent)
      ensures !old(waiting) && CommandText(cmd).Ok? ==>
        r == Ok(WaitText(chunks)) && sent == old(sent) + [CommandText(cmd).value]
        && waiting == WaitText(chunks).None?
      ensures intfCount == old(intfCount) && intfs == old(intfs) && ips == old(ips) && connection == old(connection)
    {
      var err := SendCmd(cmd);
      if err.Some? {
        return Err(err.value);
      }
      r := WaitOutput(chunks);
    }

    /** setIP: ifconfig intf ip+bits up; once the command has finished, the
        address is recorded for the interface. */
    method SetIP(intf: string, ip: string, bits: string, chunks: seq<string>) returns (r: Result<Option<string>, Exc>)
      requires Valid()
      modifies this
      ensures Valid()
      ensures old(waiting) ==> r == Err(AssertionError) && ips == old(ips) && sent == old(sent)
      ensures !old(waiting) ==> (r == Ok(WaitText(chunks))
        && sent == old(sent) + [Join([Ifconfig, intf, ip + bits, "up"], ' ') + ";" + EchoSentinel])
      ensures ips == (if r.Ok? && r.value.Some? then old(ips)[intf := ip] else old(ips))
      ensures intfCount == old(intfCount) && intfs == old(intfs) && connection == old(connection)
    {
      CommandWordsJoined([Ifconfig, intf, ip + bits, "up"]);
      r := Cmd(Words([Ifconfig, intf, ip + bits, "up"]), chunks);
      if r.Ok? && r.value.Some? {
        ips := ips[intf := ip];
      }
    }
  }

  /** Element i of s is f(i). */
  ghost predicate ListedBy(s: seq<string>, f: int -> string) {
    forall i :: 0 <= i < |s| ==> s[i] == f(i)
  }

  lemma ListedBySnoc(s: seq<string>, f: int -> string, x: string)
    requires ListedBy(s, f) && x == f(|s|)
    ensures ListedBy(s + [x], f)
  {
    forall i | 0 <= i < |s| + 1 ensures (s + [x])[i] == f(i) {
      if i < |s| {
        assert (s + [x])[i] == s[i];
      }
    }
  }

  /** Interface names of one node are distinct. */
  lemma IntfNameDistinct(n: Node, i: nat, j: nat)
    requires n.IntfName(i) == n.IntfName(j)
    ensures i == j
  {
    var p := n.name + "-eth";
    assert NatToDec(i) == n.IntfName(i)[|p|..];
    assert NatToDec(j) == n.IntfName(j)[|p|..];
    DecRoundTrip(i);
    DecRoundTrip(j);
  }

  /** So a node's interfaces never repeat. */
  lemma IntfsDistinct(n: Node)
    requires n.Valid()
    ensures forall i, j :: 0 <= i < j < |n.intfs| ==> n.intfs[i] != n.intfs[j]
  {
    forall i, j | 0 <= i < j < |n.intfs| ensures n.intfs[i] != n.intfs[j] {
      assert n.intfs[i] == n.IntfName(i) && n.intfs[j] == n.IntfName(j);
      if n.intfs[i] == n.intfs[j] {
        IntfNameDistinct(n, i, j);
      }
    }
  }

  // ---------------------------------------------------------------- links

  /** How a step that runs commands on the host and in node shells ends:
      done, with an exception or exit, or still blocked in waitOutput
      because no chunk of the shell's output has ended in the sentinel. */
  datatype Status = Done | Failed(error: Exc) | Blocked

  /** The host commands checkRun runs are told apart by `fails`, the set of
      command lines that exit with a nonzero status, for which check_call
      raises CalledProcessError. This one makes a veth pair. */
  function AddPairCmd(intf1: string, intf2: string): string {
    "ip link add name " + intf1 + " type veth peer name " + intf2
  }

  /** The command that moves intf into the namespace of the shell with that
      pid; the pid is written with backquotes, in decimal. */
  function MoveCmd(intf: string, pid: int): string {
    "ip link set " + intf + " netns " + IntToDec(pid)
  }

  const ShowCmd: string := "ip link show"

  /** The text cmd('ip link show') writes to a shell. */
  lemma ShowText()
    ensures CommandText(Line(ShowCmd)) == Ok(ShowCmd + ";" + EchoSentinel)
  {
  }

  /** Whether the shell's reply to `ip link show` has arrived and lists intf. */
  predicate Listed(chunks: seq<string>, intf: string) {
    WaitText(chunks).Some? && Contains(WaitText(chunks).value, intf)
  }

  /** How moveIntf ends: CalledProcessError when `ip link set` fails;
      then node.cmd's assertion on a node that is waiting; still blocked
      when the listing never ends; exit(1) when it lacks intf. */
  function MoveStatus(intf: string, pid: int, waiting: bool, fails: set<string>, chunks: seq<string>): Status {
    if MoveCmd(intf, pid) in fails then Failed(CalledProcessError(MoveCmd(intf, pid)))
    else if waiting then Failed(AssertionError)
    else if WaitText(chunks).None? then Blocked
    else if Contains(WaitText(chunks).value, intf) then Done
    else Failed(Exit(1))
  }

  /** moveIntf succeeds exactly when the move works, no command is running
      and the listing that comes back names the interface. */
  lemma MoveDoneIff(intf: string, pid: int, waiting: bool, fails: set<string>, chunks: seq<string>)
    ensures MoveStatus(intf, pid, waiting, fails, chunks) == Done <==>
      MoveCmd(intf, pid) !in fails && !waiting && Listed(chunks, intf)
  {
  }

  /** Whether moveIntf (when go says it runs) gets as far as the shell. */
  predicate Shown(go: bool, intf: string, pid: int, waiting: bool, fails: set<string>) {
    go && MoveCmd(intf, pid) !in fails && !waiting
  }

  /** The texts moveIntf writes to the node's shell. */
  function MoveSent(go: bool, intf: string, pid: int, waiting: bool, fails: set<string>): seq<string> {
    if Shown(go, intf, pid, waiting, fails) then [ShowCmd + ";" + EchoSentinel] else []
  }

  /** Whether the node waits afterwards: it stays waiting only when the
      listing has not ended. */
  function MoveWaiting(go: bool, intf: string, pid: int, waiting: bool, fails: set<string>, chunks: seq<string>): bool {
    if Shown(go, intf, pid, waiting, fails) then WaitText(chunks).None? else waiting
  }

  /** makeIntfPair: removes any old interfaces of the two names (quietRun,
      whose output is ignored), then makes the veth pair with checkRun. */
  method MakeIntfPair(intf1: string, intf2: string, fails: set<string>) returns (err: Option<Exc>, cmds: seq<string>)
    ensures cmds == ["ip link del " + intf1, "ip link del " + intf2, AddPairCmd(intf1, intf2)]
    ensures err.None? <==> AddPairCmd(intf1, intf2) !in fails
    ensures err.Some? ==> err.value == CalledProcessError(AddPairCmd(intf1, intf2))
  {
    cmds := ["ip link del " + intf1, "ip link del " + intf2];
    var add := AddPairCmd(intf1, intf2);
    cmds := cmds + [add];
    err := if add !in fails then None else Some(CalledProcessError(add));
  }

  /** moveIntf(intf, node): `ip link set intf netns pid` on the host, then
      node.cmd('ip link show'), whose reply is `chunks`, must name intf. */
  method MoveIntf(intf: string, node: Node, fails: set<string>, chunks: seq<string>) returns (st: Status)
    modifies node
    ensures st == MoveStatus(intf, node.pid, old(node.waiting), fails, chunks)
    ensures node.sent == old(node.sent) + MoveSent(true, intf, node.pid, old(node.waiting), fails)
    ensures node.waiting == MoveWaiting(true, intf, node.pid, old(node.waiting), fails, chunks)
    ensures node.intfCount == old(node.intfCount) && node.intfs == old(node.intfs)
    ensures node.ips == old(node.ips) && node.connection == old(node.connection)
  {
    var cmd := MoveCmd(intf, node.pid);
    if cmd in fails {
      return Failed(CalledProcessError(cmd));
    }
    ShowText();
    var links := node.Cmd(Line(ShowCmd), chunks);
    if links.Err? {
      st := Failed(links.error);
    } else if links.value.None? {
      st := Blocked;
    } else if Contains(links.value.value, intf) {
      st := Done;
    } else {
      st := Failed(Exit(1));
    }
  }

  /** How the moves of createLink end once the veth pair exists: the move
      of each end that lives in a namespace, in turn, the second one seeing
      the shell the first one left when both ends are one node. */
  function MovesStatus(intf1: string, intf2: string, ns1: bool, pid1: int, w1: bool, ns2: bool, pid2: int, w2: bool,
                       same: bool, fails: set<string>, chunks1: seq<string>, chunks2: seq<string>): Status {
    if ns1 && MoveStatus(intf1, pid1, w1, fails, chunks1) != Done then MoveStatus(intf1, pid1, w1, fails, chunks1)
    else if ns2 then MoveStatus(intf2, pid2, if same && ns1 then false else w2, fails, chunks2)
    else Done
  }

  /** How createLink ends: makeIntfPair, then the moves. */
  function LinkStatus(intf1: string, intf2: string, ns1: bool, pid1: int, w1: bool, ns2: bool, pid2: int, w2: bool,
                      same: bool, fails: set<string>, chunks1: seq<string>, chunks2: seq<string>): Status {
    if AddPairCmd(intf1, intf2) in fails then Failed(CalledProcessError(AddPairCmd(intf1, intf2)))
    else MovesStatus(intf1, intf2, ns1, pid1, w1, ns2, pid2, w2, same, fails, chunks1, chunks2)
  }

  /** For ends whose shells are idle, createLink completes exactly when the
      veth pair is made and each end in a namespace is moved and then
      listed by its shell. */
  lemma LinkDoneIff(intf1: string, intf2: string, ns1: bool, pid1: int, ns2: bool, pid2: int, same: bool,
                    fails: set<string>, chunks1: seq<string>, chunks2: seq<string>)
    ensures LinkStatus(intf1, intf2, ns1, pid1, false, ns2, pid2, false, same, fails, chunks1, chunks2) == Done <==>
      && AddPairCmd(intf1, intf2) !in fails
      && (ns1 ==> MoveCmd(intf1, pid1) !in fails && Listed(chunks1, intf1))
      && (ns2 ==> MoveCmd(intf2, pid2) !in fails && Listed(chunks2, intf2))
  {
    MoveDoneIff(intf1, pid1, false, fails, chunks1);
    MoveDoneIff(intf2, pid2, false, fails, chunks2);
  }

  /** An end in a namespace whose shell does not list the moved interface
      ends the program with exit(1), once the earlier steps have worked. */
  lemma LinkExitsUnlisted(intf1: string, intf2: string, pid1: int, ns2: bool, pid2: int, same: bool,
                          fails: set<string>, chunks1: seq<string>, chunks2: seq<string>)
    requires AddPairCmd(intf1, intf2) !in fails && MoveCmd(intf1, pid1) !in fails
    requires WaitText(chunks1).Some? && !Contains(WaitText(chunks1).value, intf1)
    ensures LinkStatus(intf1, intf2, true, pid1, false, ns2, pid2, false, same, fails, chunks1, chunks2) == Failed(Exit(1))
  {
  }

  /** The two moves of createLink, each made only for an end in a
      namespace, the second only once the first is done. */
  method MoveEnds(intf1: string, intf2: string, node1: Node, node2: Node, fails: set<string>,
                  chunks1: seq<string>, chunks2: seq<string>) returns (st: Status)
    modifies node1, node2
    ensures st == MovesStatus(intf1, intf2, node1.inNamespace, node1.pid, old(node1.waiting),
                              node2.inNamespace, node2.pid, old(node2.waiting), node1 == node2, fails, chunks1, chunks2)
    ensures var go2 := node2.inNamespace && (node1.inNamespace ==> MoveStatus(intf1, node1.pid, old(node1.waiting), fails, chunks1) == Done);
      var w2 := if node1 == node2 then MoveWaiting(node1.inNamespace, intf1, node1.pid, old(node1.waiting), fails, chunks1)
                else old(node2.waiting);
      && (node1 != node2 ==>
            node1.sent == old(node1.sent) + MoveSent(node1.inNamespace, intf1, node1.pid, old(node1.waiting), fails)
            && node2.sent == old(node2.sent) + MoveSent(go2, intf2, node2.pid, w2, fails)
            && node1.waiting == MoveWaiting(node1.inNamespace, intf1, node1.pid, old(node1.waiting), fails, chunks1)
            && node2.waiting == MoveWaiting(go2, intf2, node2.pid, w2, fails, chunks2))
      && (node1 == node2 ==>
            node1.sent == old(node1.sent) + MoveSent(node1.inNamespace, intf1, node1.pid, old(node1.waiting), fails)
                                          + MoveSent(go2, intf2, node2.pid, w2, fails)
            && node1.waiting == MoveWaiting(go2, intf2, node2.pid, w2, fails, chunks2))
    ensures node1.intfCount == old(node1.intfCount) && node1.intfs == old(node1.intfs)
    ensures node2.intfCount == old(node2.intfCount) && node2.intfs == old(node2.intfs)
    ensures node1.ips == old(node1.ips) && node2.ips == old(node2.ips)
    ensures node1.connection == old(node1.connection) && node2.connection == old(node2.connection)
  {
    st := Done;
    if node1.inNamespace {
      st := MoveIntf(intf1, node1, fails, chunks1);
      if st != Done {
        return;
      }
    }
    if node2.inNamespace {
      st := MoveIntf(intf2, node2, fails, chunks2);
    }
  }

  /** createLink: a new interface on each node (two of one node for a
      loop), the veth pair, the moves into the namespaces, and only then
      each end recorded as connected to the other. `fails` gives the host
      commands' outcomes, and chunks1 and chunks2 what the shells of node1
      and node2 print for `ip link show` once their end is moved. */
  method CreateLink(node1: Node, node2: Node, fails: set<string>, chunks1: seq<string>, chunks2: seq<string>)
    returns (intf1: string, intf2: string, st: Status)
    requires node1.Valid() && node2.Valid()
    modifies node1, node2
    ensures node1.Valid() && node2.Valid()
    ensures intf1 == node1.IntfName(old(node1.intfCount))
    ensures intf2 == node2.IntfName(old(node2.intfCount) + (if node1 == node2 then 1 else 0))
    ensures node1 != node2 ==> node1.intfCount == old(node1.intfCount) + 1 && node2.intfCount == old(node2.intfCount) + 1
    ensures node1 == node2 ==> node1.intfCount == old(node1.intfCount) + 2
    ensures st == LinkStatus(intf1, intf2, node1.inNamespace, node1.pid, old(node1.waiting),
                             node2.inNamespace, node2.pid, old(node2.waiting), node1 == node2,
                             fails, chunks1, chunks2)
    ensures st != Done ==> node1.connection == old(node1.connection) && node2.connection == old(node2.connection)
    ensures st == Done && node1 != node2 ==> (node1.connection == old(node1.connection)[intf1 := (node2, intf2)]
                                             && node2.connection == old(node2.connection)[intf2 := (node1, intf1)])
    ensures st == Done && node1 == node2 ==>
      node1.connection == old(node1.connection)[intf1 := (node2, intf2)][intf2 := (node1, intf1)]
    ensures AddPairCmd(intf1, intf2) in fails ==> node1.sent == old(node1.sent) && node2.sent == old(node2.sent)
    ensures AddPairCmd(intf1, intf2) !in fails ==>
      var go2 := node2.inNamespace && (node1.inNamespace ==> MoveStatus(intf1, node1.pid, old(node1.waiting), fails, chunks1) == Done);
      var w2 := if node1 == node2 then MoveWaiting(node1.inNamespace, intf1, node1.pid, old(node1.waiting), fails, chunks1)
                else old(node2.waiting);
      && (node1 != node2 ==>
            node1.sent == old(node1.sent) + MoveSent(node1.inNamespace, intf1, node1.pid, old(node1.waiting), fails)
            && node2.sent == old(node2.sent) + MoveSent(go2, intf2, node2.pid, w2, fails)
            && node1.waiting == MoveWaiting(node1.inNamespace, intf1, node1.pid, old(node1.waiting), fails, chunks1)
            && node2.waiting == MoveWaiting(go2, intf2, node2.pid, w2, fails, chunks2))
      && (node1 == node2 ==>
            node1.sent == old(node1.sent) + MoveSent(node1.inNamespace, intf1, node1.pid, old(node1.waiting), fails)
                                          + MoveSent(go2, intf2, node2.pid, w2, fails)
            && node1.waiting == MoveWaiting(go2, intf2, node2.pid, w2, fails, chunks2))
    ensures st == Done ==> node1.waiting == old(node1.waiting) && node2.waiting == old(node2.waiting)
    ensures node1.ips == old(node1.ips) && node2.ips == old(node2.ips)
  {
    intf1 := node1.NewIntf();
    intf2 := node2.NewIntf();
    var err, _ := MakeIntfPair(intf1, intf2, fails);
    if err.Some? {
      return intf1, intf2, Failed(err.value);
    }
    st := MoveEnds(intf1, intf2, node1, node2, fails, chunks1, chunks2);
    if st != Done {
      return;
    }
    node1.connection := node1.connection[intf1 := (node2, intf2)];
    node2.connection := node2.connection[intf2 := (node1, intf1)];
  }

  // ------------------------------------------------------- ping summary

  /** parsePing: the first "N packets transmitted, M received"; without one
      the program exits with status 1. */
  function ParsePing(s: string): (r: Result<(int, int), Exc>)
    ensures r.Err? <==> Net.SearchPing(s).None?
    ensures r.Err? ==> r.error == Exit(1)
    ensures r.Ok? ==> r.value.0 >= 0 && r.value.1 >= 0
  {
    match Net.SearchPing(s)
      case None => Err(Exit(1))
      case Some(p) =>
        Net.SearchPingDigits(s);
        Ok((DecValue(p.0), DecValue(p.1)))
  }

  /** The summary line ping prints is read back. */
  lemma ParsePingReads(pre: string, n: nat, m: nat, post: string)
    requires forall i :: 0 <= i < |pre| ==> !IsDigit(pre[i])
    ensures ParsePing(pre + (NatToDec(n) + Net.Transmitted + NatToDec(m) + Net.Received + post)) == Ok((n, m))
  {
    Net.SearchPingFinds(pre, NatToDec(n), NatToDec(m), post);
    DecRoundTrip(n);
    DecRoundTrip(m);
  }

  /** Where it finds a summary, the later parser of mininet/net.py reads the
      same counts, unless the text reports an unreachable network. */
  lemma ParsePingAgrees(s: string)
    requires ParsePing(s).Ok? && !Contains(s, Net.Unreachable)
    ensures ParsePing(s).value == Net.ParsePing(s)
  {
  }

  // ------------------------------------------------------- generators

  /** A generator's k-th address, counting from 0, as (c, d); None once it
      has stopped. */
  function IpYield(c0: int, d0: int, k: nat): Option<(int, int)> {
    if k == 0 then Some((c0, d0)) else IpNext(IpYield(c0, d0, k - 1))
  }

  /** One resumption of the generator's loop: d + 1, or back to 1 with
      c + 1, or the end once c passes 254. */
  function IpNext(p: Option<(int, int)>): Option<(int, int)> {
    match p
      case None => None
      case Some(q) =>
        if q.1 + 1 > 254 then (if q.0 + 1 > 254 then None else Some((q.0 + 1, 1)))
        else Some((q.0, q.1 + 1))
  }

  function Quad(a: int, b: int, c: int, d: int): string {
    IntToDec(a) + "." + IntToDec(b) + "." + IntToDec(c) + "." + IntToDec(d)
  }

  /** ipGen(A, B, c, d): yields A.B.c.d, then counts d up to 254 and wraps
      it to 1 with c + 1, stopping once c would pass 254. */
  class IpGen {
    const a: int
    const b: int
    ghost const c0: int
    ghost const d0: int
    var c: int
    var d: int
    var started: bool
    var stopped: bool
    /** How many times next() has been called. */
    ghost var calls: nat

    ghost predicate Valid()
      reads this
    {
      (!started <==> calls == 0)
      && (!started ==> c == c0 && d == d0 && !stopped)
      && (started && !stopped ==> IpYield(c0, d0, calls - 1) == Some((c, d)))
      && (stopped ==> started && IpYield(c0, d0, calls - 1).None?)
    }

    constructor (a: int, b: int, c: int, d: int)
      ensures Valid()
      ensures this.a == a && this.b == b && c0 == c && d0 == d && calls == 0
    {
      this.a, this.b := a, b;
      c0, d0 := c, d;
      this.c, this.d := c, d;
      started, stopped := false, false;
      calls := 0;
    }

    /** next(): the next address, None for StopIteration. */
    method Next() returns (r: Option<string>)
      requires Valid()
      modifies this
      ensures Valid() && calls == old(calls) + 1
      ensures r == (match IpYield(c0, d0, old(calls))
                      case None => None
                      case Some(p) => Some(Quad(a, b, p.0, p.1)))
    {
      if !started {
        started := true;
        r := Some(Quad(a, b, c, d));
      } else if stopped {
        r := None;
      } else {
        d := d + 1;
        if d > 254 {
          d := 1;
          c := c + 1;
          if c > 254 {
            stopped := true;
          }
        }
        r := if stopped then None else Some(Quad(a, b, c, d));
      }
      calls := calls + 1;
    }
  }

  /** Once d starts in 1..254, the k-th address is the k-th in the
      sequence of 254 addresses per value of c. */
  lemma {:induction false} IpYieldClosed(c0: int, d0: int, k: nat)
    requires c0 <= 254 && 1 <= d0 <= 254
    ensures IpYield(c0, d0, k) == IpAt(c0, d0, k)
  {
    if k > 0 {
      IpYieldClosed(c0, d0, k - 1);
      IpAtStep(c0, d0, k - 1);
    }
  }

  /** The k-th address in closed form: t = d - 1 + k counts addresses from
      c.1, 254 per value of c. */
  function IpAt(c0: int, d0: int, k: nat): Option<(int, int)> {
    var t := d0 - 1 + k;
    if t < (255 - c0) * 254 then Some((c0 + t / 254, t % 254 + 1)) else None
  }

  lemma IpAtStep(c0: int, d0: int, k: nat)
    requires c0 <= 254 && 1 <= d0 <= 254
    ensures IpAt(c0, d0, k + 1) == IpNext(IpAt(c0, d0, k))
  {
    var t := d0 - 1 + k;
    IpStepArith(c0, t);
    IpStepArith(c0, t + 1);
  }

  lemma IpStepArith(c0: int, u: nat)
    ensures (u + 1) / 254 == u / 254 + (if u % 254 == 253 then 1 else 0)
    ensures (u + 1) % 254 == (if u % 254 == 253 then 0 else u % 254 + 1)
    ensures c0 <= 254 ==> (u < (255 - c0) * 254 <==> c0 + u / 254 <= 254)
  {
    var q, r := u / 254, u % 254;
    assert u == 254 * q + r;
    if r == 253 {
      ModUnique(u + 1, 254, q + 1, 0);
    } else {
      ModUnique(u + 1, 254, q, r + 1);
    }
    if c0 <= 254 {
      if c0 + q <= 254 {
        assert u < 254 * (q + 1) <= (255 - c0) * 254;
      } else {
        assert (255 - c0) * 254 <= 254 * q <= u;
      }
    }
  }

  /** From c.d with d in 1..254, the generator yields (255 - c) * 254 -
      (d - 1) addresses, all different. */
  lemma IpYieldCount(c0: int, d0: int, k: nat)
    requires c0 <= 254 && 1 <= d0 <= 254
    ensures IpYield(c0, d0, k).Some? <==> k < (255 - c0) * 254 - (d0 - 1)
  {
    IpYieldClosed(c0, d0, k);
  }

  lemma IpYieldDistinct(c0: int, d0: int, j: nat, k: nat)
    requires c0 <= 254 && 1 <= d0 <= 254 && j < k
    requires IpYield(c0, d0, j).Some? && IpYield(c0, d0, k).Some?
    ensures IpYield(c0, d0, j) != IpYield(c0, d0, k)
  {
    IpYieldClosed(c0, d0, j);
    IpYieldClosed(c0, d0, k);
    var s, t := d0 - 1 + j, d0 - 1 + k;
    assert s == 254 * (s / 254) + s % 254 && t == 254 * (t / 254) + t % 254;
  }

  /** The control network's generator starts at 10.123.0.1. */
  lemma IpYieldFirst()
    ensures IpYield(0, 1, 0) == Some((0, 1)) && IpYield(0, 1, 253) == Some((0, 254))
    ensures IpYield(0, 1, 254) == Some((1, 1))
  {
    IpYieldClosed(0, 1, 253);
    IpYieldClosed(0, 1, 254);
  }

  /** nameGen(prefix): prefix0, prefix1, ... without end. */
  class NameGen {
    const prefix: string
    var i: nat

    constructor (prefix: string)
      ensures this.prefix == prefix && i == 0
    {
      this.prefix := prefix;
      i := 0;
    }

    method Next() returns (n: string)
      modifies this
      ensures n == GenName(prefix, old(i)) && i == old(i) + 1
    {
      n := prefix + NatToDec(i);
      i := i + 1;
    }
  }

  function GenName(prefix: string, k: nat): string { prefix + NatToDec(k) }

  /** No name is produced twice. */
  lemma GenNameDistinct(prefix: string, j: nat, k: nat)
    requires GenName(prefix, j) == GenName(prefix, k)
    ensures j == k
  {
    assert NatToDec(j) == GenName(prefix, j)[|prefix|..];
    assert NatToDec(k) == GenName(prefix, k)[|prefix|..];
    DecRoundTrip(j);
    DecRoundTrip(k);
  }

  /** dpgen(): the datapath names nl:0, nl:1, ... */
  method DpGen() returns (g: NameGen)
    ensures fresh(g) && g.prefix == "nl:" && g.i == 0
  {
    g := new NameGen("nl:");
  }

  // ------------------------------------------------------------ treeNet

  function Fan(fanout: int): nat { if fanout < 0 then 0 else fanout }

  function TreeHosts(depth: nat, fanout: int): nat {
    if depth == 0 then 1 else Fan(fanout) * TreeHosts(depth - 1, fanout)
  }

  function TreeSwitches(depth: nat, fanout: int): nat {
    if depth == 0 then 0 else 1 + Fan(fanout) * TreeSwitches(depth - 1, fanout)
  }

  function Power(b: nat, e: nat): nat { if e == 0 then 1 else b * Power(b, e - 1) }

  /** A tree has fanout^depth hosts and 1 + fanout + ... + fanout^(depth-1)
      switches. */
  lemma {:induction false} TreeCounts(depth: nat, fanout: int)
    ensures TreeHosts(depth, fanout) == Power(Fan(fanout), depth)
    ensures TreeSwitches(depth, fanout) * (Fan(fanout) - 1) == Power(Fan(fanout), depth) - 1
  {
    if depth > 0 {
      TreeCounts(depth - 1, fanout);
      var f := Fan(fanout);
      SumArith(f, TreeSwitches(depth - 1, fanout), Power(f, depth - 1));
    }
  }

  lemma SumArith(f: int, s: int, p: int)
    requires s * (f - 1) == p - 1
    ensures (1 + f * s) * (f - 1) == f * p - 1
  {
    assert (1 + f * s) * (f - 1) == (f - 1) + f * (s * (f - 1));
  }

  /** Names k.. of a generator's sequence, in order. */
  ghost predicate NamedFrom(nodes: seq<Node>, prefix: string, start: nat) {
    forall k :: 0 <= k < |nodes| ==> nodes[k].name == GenName(prefix, start + k)
  }

  /** treeNet: depth 0 is one host; otherwise a switch (linked to the
      controller first for a user datapath), then each subtree in turn,
      its root linked to the switch. Switches are listed in pre-order,
      hosts left to right, with names taken from the generators as they
      are created. A createLink that does not complete ends the build with
      its status. `pids(name)` is the pid of the shell node `name` gets,
      out(name, intf) what that shell prints for `ip link show` once intf
      is moved into it, and `fails` is as for CreateLink. */
  method TreeNet(controller: Node, depth: nat, fanout: int, snames: NameGen, hnames: NameGen, kernel: bool,
                 fails: set<string>, pids: string -> int, out: (string, string) -> seq<string>)
    returns (root: Node, switches: seq<Node>, hosts: seq<Node>, st: Status)
    requires snames != hnames && controller.Valid()
    modifies snames, hnames, controller
    ensures fresh(root) && root.Valid() && controller.Valid()
    ensures depth == 0 ==> st == Done && switches == [] && hosts == [root] && root.intfCount == 0 && root.inNamespace
    ensures depth == 0 ==> root.name == GenName(hnames.prefix, old(hnames.i)) && root.pid == pids(root.name)
    ensures depth > 0 ==> root.name == GenName(snames.prefix, old(snames.i)) && root.pid == pids(root.name)
    ensures st == Done && depth > 0 ==> (switches != [] && switches[0] == root
      && root.intfCount == Fan(fanout) + (if kernel then 0 else 1) && root.inNamespace == !kernel)
    ensures st == Done ==> |hosts| == TreeHosts(depth, fanout) && |switches| == TreeSwitches(depth, fanout)
    ensures st == Done ==> hnames.i == old(hnames.i) + |hosts| && snames.i == old(snames.i) + |switches|
    ensures st == Done ==> NamedFrom(hosts, hnames.prefix, old(hnames.i)) && NamedFrom(switches, snames.prefix, old(snames.i))
    ensures st == Done ==> controller.intfCount == old(controller.intfCount) + (if kernel then 0 else |switches|)
    decreases depth, 2
  {
    if depth == 0 {
      var name := hnames.Next();
      root := new Node(name, true, pids(name));
      return root, [], [root], Done;
    }
    var name := snames.Next();
    root := new Node(name, !kernel, pids(name));
    switches, hosts := [root], [];
    assert root != controller;
    ghost var sn, hn := snames.i, hnames.i;
    if !kernel {
      var shown1, shown2 := out(root.name, root.IntfName(root.intfCount)), out(controller.name, controller.IntfName(controller.intfCount));
      var _, _, st0 := CreateLink(root, controller, fails, shown1, shown2);
      assert snames.i == sn && hnames.i == hn;
      assert root.Valid() && controller.Valid() && root.intfCount == 1;
      assert controller.intfCount == old(controller.intfCount) + 1;
      if st0 != Done {
        return root, switches, hosts, st0;
      }
    }
    switches, hosts, st := AddSubtrees(root, controller, depth, fanout, snames, hnames, kernel, fails, pids, out,
                                       old(snames.i), old(hnames.i));
    assert st == Done ==> switches != [] && switches[0] == root;
  }

  /** The loop of treeNet over the fanout subtrees below root; it stops
      at the first link that does not complete. */
  method AddSubtrees(root: Node, controller: Node, depth: nat, fanout: int, snames: NameGen, hnames: NameGen,
                     kernel: bool, fails: set<string>, pids: string -> int, out: (string, string) -> seq<string>,
                     ghost s0: nat, ghost h0: nat)
    returns (switches: seq<Node>, hosts: seq<Node>, st: Status)
    requires depth > 0 && snames != hnames && root != controller
    requires root.Valid() && controller.Valid() && root.inNamespace == !kernel
    requires root.intfCount == (if kernel then 0 else 1)
    requires root.name == GenName(snames.prefix, s0) && snames.i == s0 + 1 && hnames.i == h0
    modifies root, snames, hnames, controller
    ensures root.Valid() && controller.Valid()
    ensures st == Done ==> root.intfCount == Fan(fanout) + (if kernel then 0 else 1)
    ensures st == Done ==> switches != [] && switches[0] == root
    ensures st == Done ==> |switches| == TreeSwitches(depth, fanout) && |hosts| == TreeHosts(depth, fanout)
    ensures st == Done ==> hnames.i == h0 + |hosts| && snames.i == s0 + |switches|
    ensures st == Done ==> NamedFrom(hosts, hnames.prefix, h0) && NamedFrom(switches, snames.prefix, s0)
    ensures st == Done ==> controller.intfCount == old(controller.intfCount) + (if kernel then 0 else |switches| - 1)
    decreases depth, 1
  {
    ghost var c0 := controller.intfCount;
    ghost var sw, hs := TreeSwitches(depth - 1, fanout), TreeHosts(depth - 1, fanout);
    switches, hosts, st := [root], [], Done;
    var i := 0;
    while i < Fan(fanout) && st == Done
      invariant 0 <= i <= Fan(fanout)
      invariant root.Valid() && controller.Valid()
      invariant st == Done ==> Grown(root, controller, snames, hnames, kernel, s0, h0, c0, sw, hs, i, switches, hosts)
    {
      switches, hosts, st := AddSubtree(root, controller, depth, fanout, snames, hnames, kernel, fails, pids, out,
                                        s0, h0, c0, sw, hs, i, switches, hosts);
      i := i + 1;
    }
  }

  /** The state of treeNet's loop after i subtrees of sw switches and hs
      hosts each. */
  ghost predicate Grown(root: Node, controller: Node, snames: NameGen, hnames: NameGen, kernel: bool,
                        s0: nat, h0: nat, c0: nat, sw: nat, hs: nat, i: nat, switches: seq<Node>, hosts: seq<Node>)
    reads root, controller, snames, hnames
  {
    root.Valid() && root.intfCount == i + (if kernel then 0 else 1)
    && ListsGrown(snames.prefix, hnames.prefix, s0, h0, sw, hs, i, switches, hosts) && switches[0] == root
    && hnames.i == h0 + |hosts| && snames.i == s0 + |switches|
    && controller.Valid()
    && controller.intfCount == c0 + (if kernel then 0 else |switches| - 1)
  }

  /** The lists after i subtrees: the root switch, then i blocks of sw
      switches, and i blocks of hs hosts, named in order. */
  ghost predicate ListsGrown(sp: string, hp: string, s0: nat, h0: nat, sw: nat, hs: nat, i: nat,
                             switches: seq<Node>, hosts: seq<Node>) {
    |switches| == 1 + i * sw && |hosts| == i * hs
    && NamedFrom(hosts, hp, h0) && NamedFrom(switches, sp, s0)
  }

  lemma ListsGrownStep(sp: string, hp: string, s0: nat, h0: nat, sw: nat, hs: nat, i: nat,
                       switches: seq<Node>, hosts: seq<Node>, slist: seq<Node>, hlist: seq<Node>)
    requires ListsGrown(sp, hp, s0, h0, sw, hs, i, switches, hosts)
    requires |slist| == sw && |hlist| == hs
    requires NamedFrom(slist, sp, s0 + |switches|) && NamedFrom(hlist, hp, h0 + |hosts|)
    ensures ListsGrown(sp, hp, s0, h0, sw, hs, i + 1, switches + slist, hosts + hlist)
    ensures (switches + slist)[0] == switches[0]
  {
    NamedAppend(switches, slist, sp, s0);
    NamedAppend(hosts, hlist, hp, h0);
    MulStep(i, sw);
    MulStep(i, hs);
  }

  /** One subtree: built one level down, its root linked to root. */
  method AddSubtree(root: Node, controller: Node, depth: nat, fanout: int, snames: NameGen, hnames: NameGen,
                    kernel: bool, fails: set<string>, pids: string -> int, out: (string, string) -> seq<string>,
                    ghost s0: nat, ghost h0: nat, ghost c0: nat, ghost sw: nat, ghost hs: nat,
                    ghost i: nat, switches: seq<Node>, hosts: seq<Node>)
    returns (switches': seq<Node>, hosts': seq<Node>, st: Status)
    requires depth > 0 && snames != hnames && root != controller
    requires sw == TreeSwitches(depth - 1, fanout) && hs == TreeHosts(depth - 1, fanout)
    requires Grown(root, controller, snames, hnames, kernel, s0, h0, c0, sw, hs, i, switches, hosts)
    modifies root, snames, hnames, controller
    ensures root.Valid() && controller.Valid()
    ensures st == Done ==> Grown(root, controller, snames, hnames, kernel, s0, h0, c0, sw, hs, i + 1, switches', hosts')
    decreases depth, 0
  {
    var child, slist, hlist, st0 := TreeNet(controller, depth - 1, fanout, snames, hnames, kernel, fails, pids, out);
    if st0 != Done {
      return switches, hosts, st0;
    }
    var shown1, shown2 := out(root.name, root.IntfName(root.intfCount)), out(child.name, child.IntfName(child.intfCount));
    switches', hosts', st := LinkSubtree(root, child, controller, snames, hnames, kernel, fails, shown1, shown2,
                                         s0, h0, c0, sw, hs, i, switches, hosts, slist, hlist);
  }

  /** The createLink that joins a built subtree to root, and the lists
      that then grow by the subtree's. */
  method LinkSubtree(root: Node, child: Node, controller: Node, snames: NameGen, hnames: NameGen, kernel: bool,
                     fails: set<string>, shown1: seq<string>, shown2: seq<string>,
                     ghost s0: nat, ghost h0: nat, ghost c0: nat, ghost sw: nat, ghost hs: nat, ghost i: nat,
                     switches: seq<Node>, hosts: seq<Node>, slist: seq<Node>, hlist: seq<Node>)
    returns (switches': seq<Node>, hosts': seq<Node>, st: Status)
    requires root != controller && child != root && child != controller && child.Valid()
    requires root.Valid() && root.intfCount == i + (if kernel then 0 else 1)
    requires ListsGrown(snames.prefix, hnames.prefix, s0, h0, sw, hs, i, switches, hosts) && switches[0] == root
    requires |slist| == sw && |hlist| == hs
    requires NamedFrom(slist, snames.prefix, s0 + |switches|) && NamedFrom(hlist, hnames.prefix, h0 + |hosts|)
    requires hnames.i == h0 + |hosts| + |hlist| && snames.i == s0 + |switches| + |slist|
    requires controller.Valid() && controller.intfCount == c0 + (if kernel then 0 else |switches| + |slist| - 1)
    modifies root, child
    ensures root.Valid() && controller.Valid()
    ensures st == Done ==> Grown(root, controller, snames, hnames, kernel, s0, h0, c0, sw, hs, i + 1, switches', hosts')
  {
    var _, _, st1 := CreateLink(root, child, fails, shown1, shown2);
    if st1 != Done {
      return switches, hosts, st1;
    }
    ListsGrownStep(snames.prefix, hnames.prefix, s0, h0, sw, hs, i, switches, hosts, slist, hlist);
    switches', hosts', st := switches + slist, hosts + hlist, Done;
  }

  lemma MulStep(i: nat, x: nat)
    ensures (i + 1) * x == i * x + x
  {
  }

  lemma NamedAppend(a: seq<Node>, b: seq<Node>, prefix: string, start: nat)
    requires NamedFrom(a, prefix, start) && NamedFrom(b, prefix, start + |a|)
    ensures NamedFrom(a + b, prefix, start)
  {
    forall k | 0 <= k < |a + b| ensures (a + b)[k].name == GenName(prefix, start + k) {
      if k >= |a| {
        assert (a + b)[k] == b[k - |a|];
      }
    }
  }
}
