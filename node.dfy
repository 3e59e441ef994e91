// The node, interface and link objects of mininet/node.py and
// mininet/link.py: a Node's shell-protocol fields (read buffer, waiting
// flag, last pid and command, the text written to the shell), its port
// and interface tables, the Intf fields setIP and updateIP assign, and
// the two interfaces a Link creates.  The values these objects compute
// are functions of modules Shell and Links.
module Nodes {
  import opened Wrappers
  import opened Text
  import Shell
  import Links
  import Util

  // ------------------------------------------------------ sets of ports

  ghost predicate IsMin(m: nat, s: set<nat>) { m in s && forall x :: x in s ==> m <= x }
  ghost predicate IsMax(m: nat, s: set<nat>) { m in s && forall x :: x in s ==> x <= m }

  lemma {:induction false} MinExists(s: set<nat>)
    requires s != {}
    ensures exists m :: IsMin(m, s)
    decreases |s|
  {
    var x :| x in s;
    var rest := s - {x};
    if rest == {} {
      forall y | y in s ensures x <= y { assert y !in rest; }
      assert IsMin(x, s);
    } else {
      MinExists(rest);
      var m :| IsMin(m, rest);
      var k := if x < m then x else m;
      forall y | y in s ensures k <= y { if y != x { assert y in rest; } }
      assert IsMin(k, s);
    }
  }

  lemma {:induction false} MaxExists(s: set<nat>)
    requires s != {}
    ensures exists m :: IsMax(m, s)
    decreases |s|
  {
    var x :| x in s;
    var rest := s - {x};
    if rest == {} {
      forall y | y in s ensures y <= x { assert y !in rest; }
      assert IsMax(x, s);
    } else {
      MaxExists(rest);
      var m :| IsMax(m, rest);
      var k := if x > m then x else m;
      forall y | y in s ensures y <= k { if y != x { assert y in rest; } }
      assert IsMax(k, s);
    }
  }

  /** Python's min() of a non-empty set of ints. */
  ghost function MinOf(s: set<nat>): (m: nat)
    requires s != {}
    ensures IsMin(m, s)
  {
    MinExists(s);
    var m :| IsMin(m, s); m
  }

  /** Python's max() of a non-empty set of ints. */
  ghost function MaxOf(s: set<nat>): (m: nat)
    requires s != {}
    ensures IsMax(m, s)
  {
    MaxExists(s);
    var m :| IsMax(m, s); m
  }

  /** sorted() of a set of ints. */
  ghost function SortedSet(s: set<nat>): seq<nat>
    decreases |s|
  {
    if s == {} then [] else var m := MinOf(s); [m] + SortedSet(s - {m})
  }

  /** sorted() lists every element once, in strictly increasing order. */
  lemma {:induction false} SortedSetSpec(s: set<nat>)
    ensures var r := SortedSet(s);
      |r| == |s| && (forall x :: x in r <==> x in s)
      && (forall i, j :: 0 <= i < j < |r| ==> r[i] < r[j])
    decreases |s|
  {
    if s != {} {
      var m := MinOf(s);
      var rest := SortedSet(s - {m});
      SortedSetSpec(s - {m});
      var r := [m] + rest;
      assert forall j :: 1 <= j < |r| ==> r[j] == rest[j - 1];
      forall i, j | 0 <= i < j < |r| ensures r[i] < r[j] {
        assert r[j] in s - {m};
      }
    }
  }

  method MinOfSet(s: set<nat>) returns (m: nat)
    requires s != {}
    ensures m == MinOf(s)
  {
    m :| m in s;
    var rest := s - {m};
    while rest != {}
      invariant rest <= s && m in s
      invariant forall x :: x in s && x !in rest ==> m <= x
      decreases |rest|
    {
      var x :| x in rest;
      if x < m { m := x; }
      rest := rest - {x};
    }
    assert IsMin(m, s);
  }

  method MaxOfSet(s: set<nat>) returns (m: nat)
    requires s != {}
    ensures m == MaxOf(s)
  {
    m :| m in s;
    var rest := s - {m};
    while rest != {}
      invariant rest <= s && m in s
      invariant forall x :: x in s && x !in rest ==> x <= m
      decreases |rest|
    {
      var x :| x in rest;
      if x > m { m := x; }
      rest := rest - {x};
    }
    assert IsMax(m, s);
  }

  // ------------------------------------------------ the interface tables

  /** intfs (port -> intf) and ports (intf -> port) are mutual inverses. */
  ghost predicate Inverse<I>(intfs: map<nat, I>, ports: map<I, nat>) {
    (forall p :: p in intfs ==> intfs[p] in ports && ports[intfs[p]] == p)
    && (forall i :: i in ports ==> ports[i] in intfs && intfs[ports[i]] == i)
  }

  /** newPort(): portBase with no ports, else the largest port + 1. */
  ghost function NewPortOf<I>(portBase: nat, ports: map<I, nat>): nat {
    if ports == map[] then portBase else MaxOf(ports.Values) + 1
  }

  /** When the tables agree, newPort() is above every port in use, so it is
      free, and a node without interfaces starts at portBase. */
  lemma NewPortFresh<I>(portBase: nat, intfs: map<nat, I>, ports: map<I, nat>)
    requires Inverse(intfs, ports)
    ensures NewPortOf(portBase, ports) !in intfs
    ensures forall p :: p in intfs ==> p < NewPortOf(portBase, ports)
    ensures intfs == map[] ==> NewPortOf(portBase, ports) == portBase
  {
    if ports != map[] {
      var m := MaxOf(ports.Values);
      forall p | p in intfs ensures p <= m {
        assert ports[intfs[p]] in ports.Values;
      }
      var i :| i in ports;
      assert ports[i] in intfs;
    }
  }

  /** addIntf keeps the tables inverse when both the port and the
      interface are new to the node. */
  lemma AddKeepsInverse<I>(intfs: map<nat, I>, ports: map<I, nat>, intf: I, p: nat)
    requires Inverse(intfs, ports) && p !in intfs && intf !in ports
    ensures Inverse(intfs[p := intf], ports[intf := p])
  {
    var i2, p2 := intfs[p := intf], ports[intf := p];
    forall q | q in i2 ensures i2[q] in p2 && p2[i2[q]] == q {
      if q != p { assert intfs[q] != intf; }
    }
    forall j | j in p2 ensures p2[j] in i2 && i2[p2[j]] == j {
      if j != intf { assert ports[j] != p; }
    }
  }

  /** Re-using a port drops the interface that had it from intfs while
      ports still maps it, so the tables stop being inverse. */
  lemma AddSamePortBreaksInverse<I>(intfs: map<nat, I>, ports: map<I, nat>, intf: I, p: nat)
    requires Inverse(intfs, ports) && p in intfs && intfs[p] != intf
    ensures !Inverse(intfs[p := intf], ports[intf := p])
  {
    var old1 := intfs[p];
    assert old1 in ports[intf := p] && ports[intf := p][old1] == p;
  }

  /** The name table never maps a name to an interface of another name. */
  ghost predicate NamedByKey(nameToIntf: map<string, Intf>)
    reads nameToIntf.Values
  {
    forall n :: n in nameToIntf ==> nameToIntf[n].name == n
  }

  /** intf() argument: nothing (or a falsy value), a name, or an object. */
  datatype IntfArg = NoIntf | IntfNamed(s: string) | IntfObj(intf: Intf)

  function ArgObjs(arg: IntfArg): set<Intf> {
    if arg.IntfObj? then {arg.intf} else {}
  }

  function OptObjs(o: Option<Intf>): set<Intf> {
    if o.Some? then {o.value} else {}
  }

  /** Node.setIP's address text: ip, with "/prefixLen" added when ip has no '/'. */
  function NodeIpText(ip: string, prefixLen: int): (t: string)
    ensures '/' in t
  {
    if '/' in ip then ip else
      var t := ip + "/" + IntToDec(prefixLen);
      assert t[|ip|] == '/';
      t
  }

  lemma NoSlashInDec(n: int)
    ensures '/' !in IntToDec(n)
  {
    var s := IntToDec(n);
    if n >= 0 {
      assert s == NatToDec(n);
    } else {
      assert s == "-" + NatToDec(-n);
      forall i | 0 <= i < |s| ensures s[i] != '/' {
        if i > 0 { assert s[i] == NatToDec(-n)[i - 1]; }
      }
    }
  }

  /** A bare address gets the prefix length as its own field, so the
      interface stores exactly the address and the decimal prefix. */
  lemma NodeIpTextFields(ip: string, prefixLen: int, given: Option<string>)
    requires '/' !in ip
    ensures Links.IpFields(NodeIpText(ip, prefixLen), given) == Ok((ip, Some(IntToDec(prefixLen))))
  {
    NoSlashInDec(prefixLen);
    Links.IpFieldsRoundTrip(ip, IntToDec(prefixLen), given);
  }

  /** The text '%s' % None that Intf.setIP uses for a missing prefix. */
  function PrefixText(prefixLen: Option<string>): string {
    if prefixLen.Some? then prefixLen.value else "None"
  }

  /** The ifconfig words Intf.setIP runs (after 'ifconfig <name>'), or the
      ValueError of unpacking a split with other than one '/'. */
  function SetIPWords(ipstr: string, prefixLen: Option<string>): (r: Result<seq<string>, Exc>)
    ensures r.Err? <==> Links.IpFields(ipstr, prefixLen).Err?
    ensures r.Ok? && '/' in ipstr ==> r.value == [ipstr, "up"]
    ensures r.Ok? && '/' !in ipstr ==> r.value == [ipstr + "/" + PrefixText(prefixLen)]
  {
    match Links.IpFields(ipstr, prefixLen)
    case Err(e) => Err(e)
    case Ok(_) => Ok(if '/' in ipstr then [ipstr, "up"] else [ipstr + "/" + PrefixText(prefixLen)])
  }

  // ---------------------------------------------------------- interfaces

  class Intf {
    var name: string
    var node: Node
    var link: Link?
    var mac: Option<string>
    var ip: Option<string>
    var prefixLen: Option<string>

    /** A new interface, added to its node on the given port (or
        newPort() when none is given), then configured with no
        parameters: config() brings it up and takes its ip and mac from
        what `ifconfig <name>` prints, here shown. */
    constructor (name: string, node: Node, port: Option<nat>, link: Link?, shown: string)
      modifies node
      ensures this.name == name && this.node == node && this.link == link
      ensures ip == Links.UpdatedIP(shown) && mac == Links.UpdatedMAC(shown) && prefixLen.None?
      ensures var p := if port.Some? then port.value else old(node.NextPort());
        node.intfs == old(node.intfs)[p := this] && node.ports == old(node.ports)[this := p]
        && node.nameToIntf == old(node.nameToIntf)[name := this]
      ensures node.dpid == old(node.dpid) && node.controlIntf == old(node.controlIntf) && node.execed == old(node.execed)
    {
      this.name := name;
      this.node := node;
      this.link := link;
      mac, ip, prefixLen := None, None, None;
      new;
      node.AddIntf(this, port);
      var _ := UpdateIP(shown);
      var _ := UpdateMAC(shown);
    }

    /** setIP: "a/b" stores ip a and prefixLen b and runs ifconfig a/b up;
        a bare address stores the given prefixLen; other than one '/' is
        a ValueError that leaves the fields as they were. */
    method SetIP(ipstr: string, prefixLen: Option<string>) returns (r: Result<seq<string>, Exc>)
      modifies this
      ensures r == (match SetIPWords(ipstr, prefixLen)
                    case Err(e) => Err(e)
                    case Ok(w) => Ok(["ifconfig", name] + w))
      ensures match Links.IpFields(ipstr, prefixLen)
        case Ok(f) => ip == Some(f.0) && this.prefixLen == f.1
        case Err(_) => ip == old(ip) && this.prefixLen == old(this.prefixLen)
      ensures name == old(name) && node == old(node) && link == old(link) && mac == old(mac)
    {
      if '/' in ipstr {
        var parts := Split(ipstr, '/');
        if |parts| != 2 {
          return Err(ValueError);
        }
        ip, this.prefixLen := Some(parts[0]), Some(parts[1]);
        r := Ok(["ifconfig", name] + [ipstr, "up"]);
      } else {
        ip, this.prefixLen := Some(ipstr), prefixLen;
        r := Ok(["ifconfig", name] + [ipstr + "/" + PrefixText(prefixLen)]);
      }
    }

    /** updateIP: the first dotted quad of ifconfig's output, or None. */
    method UpdateIP(ifconfig: string) returns (r: Option<string>)
      modifies this
      ensures r == ip == Links.UpdatedIP(ifconfig)
      ensures name == old(name) && node == old(node) && link == old(link) && mac == old(mac)
      ensures prefixLen == old(prefixLen)
    {
      ip := Links.FirstQuad(ifconfig);
      r := ip;
    }

    /** updateMAC: the first MAC-shaped text of ifconfig's output, or None. */
    method UpdateMAC(ifconfig: string) returns (r: Option<string>)
      modifies this
      ensures r == mac == Links.UpdatedMAC(ifconfig)
      ensures name == old(name) && node == old(node) && link == old(link) && ip == old(ip)
      ensures prefixLen == old(prefixLen)
    {
      mac := Links.FirstMac(ifconfig);
      r := mac;
    }
  }

  // --------------------------------------------------------------- nodes

  class Node {
    const name: string
    const inNamespace: bool
    const isSwitch: bool
    /** 0 for nodes, 1 for switches (OpenFlow ports start at 1). */
    const portBase: nat

    var intfs: map<nat, Intf>
    var ports: map<Intf, nat>
    var nameToIntf: map<string, Intf>

    var readbuf: string
    var waiting: bool
    var lastPid: Option<int>
    var lastCmd: Option<string>
    /** Everything written to the shell's stdin, one entry per write. */
    var written: seq<string>
    /** A switch's datapath id. */
    var dpid: Option<string>
    /** A switch's controlIntf; None while the attribute is unset, which
        is the case for a switch in a namespace and for other nodes. */
    var controlIntf: Option<Intf>
    /** Whether the node's shell has exec'ed its program; nothing in
        the modelled code sets it. */
    var execed: bool

    constructor (name: string, inNamespace: bool, isSwitch: bool)
      ensures this.name == name && this.inNamespace == inNamespace && this.isSwitch == isSwitch
      ensures portBase == (if isSwitch then 1 else 0)
      ensures intfs == map[] && ports == map[] && nameToIntf == map[]
      ensures Proto() == Shell.ShellState("", false, None) && Log() == (None, [])
      ensures dpid.None? && controlIntf.None? && !execed
    {
      this.name := name;
      this.inNamespace := inNamespace;
      this.isSwitch := isSwitch;
      portBase := if isSwitch then 1 else 0;
      intfs, ports, nameToIntf := map[], map[], map[];
      readbuf, waiting, lastPid, lastCmd, written := "", false, None, None, [];
      dpid, controlIntf, execed := None, None, false;
    }

    function Proto(): Shell.ShellState
      reads this
    {
      Shell.ShellState(readbuf, waiting, lastPid)
    }

    function Log(): (Option<string>, seq<string>)
      reads this
    {
      (lastCmd, written)
    }

    // ------------------------------------------------- shell protocol

    /** read(maxbytes), where os.read returned data. */
    method Read(maxbytes: nat, data: string) returns (result: string)
      modifies this
      ensures Shell.Taken(result, readbuf) == Shell.ReadStep(old(readbuf), maxbytes, data)
      ensures waiting == old(waiting) && lastPid == old(lastPid) && Log() == old(Log())
      ensures intfs == old(intfs) && ports == old(ports) && nameToIntf == old(nameToIntf) && dpid == old(dpid)
    {
      var count := |readbuf|;
      if count < maxbytes {
        readbuf := readbuf + data;
      }
      if maxbytes >= |readbuf| {
        result := readbuf;
        readbuf := "";
      } else {
        result := readbuf[..maxbytes];
        readbuf := readbuf[maxbytes..];
      }
    }

    /** Split the buffer at its first newline. */
    method TakeLine() returns (line: Option<string>)
      modifies this
      ensures (line, readbuf) == Shell.LineOf(old(readbuf))
      ensures waiting == old(waiting) && lastPid == old(lastPid) && Log() == old(Log())
      ensures intfs == old(intfs) && ports == old(ports) && nameToIntf == old(nameToIntf) && dpid == old(dpid)
    {
      if '\n' !in readbuf {
        return None;
      }
      var pos := IndexOf(readbuf, '\n').value;
      line := Some(readbuf[..pos]);
      readbuf := readbuf[pos + 1..];
    }

    /** readline as written: the old buffer is stored again in front of
        what read() returns. */
    method ReadlineAsWritten(data: string) returns (line: Option<string>)
      modifies this
      ensures (line, readbuf) == Shell.ReadlineAsWritten(old(readbuf), data)
      ensures waiting == old(waiting) && lastPid == old(lastPid) && Log() == old(Log())
      ensures intfs == old(intfs) && ports == old(ports) && nameToIntf == old(nameToIntf) && dpid == old(dpid)
    {
      var before := readbuf;
      var r := Read(1024, data);
      readbuf := before + r;
      line := TakeLine();
    }

    /** readline as intended: what read() returns, then what it left. */
    method Readline(data: string) returns (line: Option<string>)
      modifies this
      ensures (line, readbuf) == Shell.Readline(old(readbuf), data)
      ensures waiting == old(waiting) && lastPid == old(lastPid) && Log() == old(Log())
      ensures intfs == old(intfs) && ports == old(ports) && nameToIntf == old(nameToIntf) && dpid == old(dpid)
    {
      var r := Read(1024, data);
      readbuf := r + readbuf;
      line := TakeLine();
    }

    /** Node.sendCmd; printPid None takes its default, True.  Returns the
        exception raised, if any. */
    method NodeSendCmd(args: Shell.CmdArgs, printPid: Option<bool>, builtIns: string) returns (err: Option<Exc>)
      modifies this
      ensures var pp := if printPid.Some? then printPid.value else true;
        match Shell.SendText(old(waiting), args, pp, builtIns)
        case Err(e) => err == Some(e) && Proto() == old(Proto()) && Log() == old(Log())
        case Ok(s) => err.None? && lastCmd == Some(s.cmd) && written == old(written) + [s.text]
                      && Proto() == Shell.ShellState(old(readbuf), true, None)
      ensures intfs == old(intfs) && ports == old(ports) && nameToIntf == old(nameToIntf) && dpid == old(dpid)
      ensures controlIntf == old(controlIntf) && execed == old(execed)
    {
      if waiting {
        return Some(AssertionError);
      }
      var pp := if printPid.Some? then printPid.value else true;
      var sent := CommandFor(args, pp, builtIns);
      if sent.Err? {
        return Some(sent.error);
      }
      lastCmd := Some(sent.value.cmd);
      written := written + [sent.value.text];
      lastPid := None;
      waiting := true;
      err := None;
    }

    /** sendCmd as dispatched on the node's class: Switch.sendCmd makes the
        printPid default False and, once the switch has exec'ed, only logs
        an error and sends nothing. */
    method SendCmd(args: Shell.CmdArgs, printPid: Option<bool>, builtIns: string) returns (err: Option<Exc>)
      modifies this
      ensures isSwitch && old(execed) ==> err.None? && Proto() == old(Proto()) && Log() == old(Log())
      ensures !(isSwitch && old(execed)) ==>
        var pp := if printPid.Some? then printPid.value else !isSwitch;
        match Shell.SendText(old(waiting), args, pp, builtIns)
        case Err(e) => err == Some(e) && Proto() == old(Proto()) && Log() == old(Log())
        case Ok(s) => err.None? && lastCmd == Some(s.cmd) && written == old(written) + [s.text]
                      && Proto() == Shell.ShellState(old(readbuf), true, None)
      ensures intfs == old(intfs) && ports == old(ports) && nameToIntf == old(nameToIntf) && dpid == old(dpid)
      ensures controlIntf == old(controlIntf) && execed == old(execed)
    {
      if !isSwitch {
        err := NodeSendCmd(args, printPid, builtIns);
      } else if !execed {
        err := NodeSendCmd(args, Some(if printPid.Some? then printPid.value else false), builtIns);
      } else {
        err := None;
      }
    }

    /** monitor(), where os.read returned data. */
    method Monitor(data: string) returns (out: string)
      modifies this
      ensures (out, Proto()) == Shell.MonitorStep(old(Proto()), data)
      ensures Log() == old(Log())
      ensures intfs == old(intfs) && ports == old(ports) && nameToIntf == old(nameToIntf) && dpid == old(dpid)
    {
      var d := Read(1024, data);
      d := TakeMarkers(d);
      out := TakeSentinel(d);
    }

    /** The marker part of monitor(): lastPid from the first marker, and
        the markers removed. */
    method TakeMarkers(data: string) returns (d: string)
      modifies this
      ensures d == Shell.Unmarked(data)
      ensures lastPid == (if Shell.MarkedPid(data).Some? then Shell.MarkedPid(data) else old(lastPid))
      ensures readbuf == old(readbuf) && waiting == old(waiting) && Log() == old(Log())
      ensures intfs == old(intfs) && ports == old(ports) && nameToIntf == old(nameToIntf) && dpid == old(dpid)
    {
      d := data;
      if Shell.Mark in d {
        var markers := Shell.FirstMarker(d);
        if markers.Some? {
          Shell.FirstMarkerAfter(d);
          lastPid := Shell.MarkerPid(markers.value);
          d := Shell.RemoveMarkers(d);
        }
      }
    }

    /** The sentinel part of monitor(): waiting cleared when it is seen. */
    method TakeSentinel(d: string) returns (out: string)
      modifies this
      ensures out == Shell.Unsentineled(d).0 && waiting == (old(waiting) && !Shell.Unsentineled(d).1)
      ensures readbuf == old(readbuf) && lastPid == old(lastPid) && Log() == old(Log())
      ensures intfs == old(intfs) && ports == old(ports) && nameToIntf == old(nameToIntf) && dpid == old(dpid)
    {
      out := d;
      if |d| > 0 && d[|d| - 1] == Shell.Sentinel {
        waiting := false;
        out := d[..|d| - 1];
      } else if Shell.Sentinel in d {
        waiting := false;
        out := ReplaceAll(d, [Shell.Sentinel], "");
      }
    }

    /** waitOutput: monitor() while waiting, where successive os.read calls
        return the chunks; used counts the chunks consumed.  The loop also
        ends when the chunks run out. */
    method WaitOutput(chunks: seq<string>) returns (output: string, used: nat)
      modifies this
      ensures (output, Proto(), used) == Shell.WaitRun(old(Proto()), chunks)
      ensures Log() == old(Log())
      ensures intfs == old(intfs) && ports == old(ports) && nameToIntf == old(nameToIntf) && dpid == old(dpid)
    {
      output := "";
      used := 0;
      Shell.ResumeBounds(output, Proto(), chunks, used);
      while waiting && used < |chunks|
        invariant used <= |chunks|
        invariant Shell.Resume(output, Proto(), chunks, used) == Shell.WaitRun(old(Proto()), chunks)
        invariant Log() == old(Log())
        invariant intfs == old(intfs) && ports == old(ports) && nameToIntf == old(nameToIntf) && dpid == old(dpid)
        decreases |chunks| - used
      {
        Shell.ResumeStep(output, Proto(), chunks, used);
        var data := Monitor(chunks[used]);
        output := output + data;
        used := used + 1;
      }
      Shell.ResumeBounds(output, Proto(), chunks, used);
    }

    // ---------------------------------------------- interface tables

    ghost function NextPort(): nat
      reads this
    {
      NewPortOf(portBase, ports)
    }

    method NewPort() returns (p: nat)
      ensures p == NextPort()
    {
      if |ports| > 0 {
        var m := MaxOfSet(ports.Values);
        return m + 1;
      }
      return portBase;
    }

    /** addIntf: the port (newPort() when none is given) maps to intf, intf
        to the port and intf's name to intf.  The tables stay inverse when
        port and interface are both new to the node. */
    method AddIntf(intf: Intf, port: Option<nat>)
      modifies this
      ensures var p := if port.Some? then port.value else old(NextPort());
        intfs == old(intfs)[p := intf] && ports == old(ports)[intf := p]
        && nameToIntf == old(nameToIntf)[intf.name := intf]
      ensures old(Inverse(intfs, ports)) && intf !in old(ports) && (port.None? || port.value !in old(intfs))
              ==> Inverse(intfs, ports)
      ensures old(NamedByKey(nameToIntf)) ==> NamedByKey(nameToIntf)
      ensures Proto() == old(Proto()) && Log() == old(Log()) && dpid == old(dpid)
      ensures controlIntf == old(controlIntf) && execed == old(execed)
    {
      var p: nat;
      if port.None? {
        p := NewPort();
        if Inverse(intfs, ports) {
          NewPortFresh(portBase, intfs, ports);
        }
      } else {
        p := port.value;
      }
      if Inverse(intfs, ports) && intf !in ports && p !in intfs {
        AddKeepsInverse(intfs, ports, intf, p);
      }
      intfs := intfs[p := intf];
      ports := ports[intf := p];
      nameToIntf := nameToIntf[intf.name := intf];
    }

    /** defaultIntf's interface: the one on the lowest port, None without any. */
    ghost function DefaultOf(): Option<Intf>
      reads this
    {
      if intfs == map[] then None else Some(intfs[MinOf(intfs.Keys)])
    }

    /** defaultIntf as dispatched on the node's class: a switch's control
        interface (an interface object is always truthy, so Node's version
        is never reached from Switch), an AttributeError when the switch
        has none, and for other nodes Node.defaultIntf. */
    ghost function DefaultFor(): Result<Option<Intf>, Exc>
      reads this
    {
      if !isSwitch then Ok(DefaultOf())
      else if controlIntf.Some? then Ok(controlIntf)
      else Err(AttributeError)
    }

    /** defaultIntf: for a node the interface on the lowest port, which is
        the first of intfList, and None when there are no interfaces; for a
        switch its control interface, raising when it has none. */
    method DefaultIntf() returns (r: Result<Option<Intf>, Exc>)
      ensures r == DefaultFor()
      ensures !isSwitch && intfs != map[] ==> r == Ok(Some(intfs[SortedSet(intfs.Keys)[0]]))
      ensures !isSwitch && intfs == map[] ==> r == Ok(None)
      ensures isSwitch ==> (r.Err? <==> controlIntf.None?) && (r.Ok? ==> r.value == controlIntf)
    {
      if isSwitch {
        if controlIntf.Some? {
          return Ok(controlIntf);
        }
        return Err(AttributeError);
      }
      if intfs.Keys == {} {
        return Ok(None);
      }
      var p := MinOfSet(intfs.Keys);
      r := Ok(Some(intfs[p]));
    }

    /** intfList: the interfaces in increasing port order. */
    method IntfList() returns (r: seq<Intf>)
      ensures var ks := SortedSet(intfs.Keys);
        |r| == |ks| && forall i :: 0 <= i < |r| ==> ks[i] in intfs && r[i] == intfs[ks[i]]
    {
      var rem := intfs.Keys;
      r := [];
      ghost var done: seq<nat> := [];
      while rem != {}
        invariant rem <= intfs.Keys
        invariant done + SortedSet(rem) == SortedSet(intfs.Keys)
        invariant |r| == |done|
        invariant forall i :: 0 <= i < |r| ==> done[i] in intfs && r[i] == intfs[done[i]]
        decreases |rem|
      {
        var m := MinOfSet(rem);
        assert SortedSet(rem) == [m] + SortedSet(rem - {m});
        done := done + [m];
        r := r + [intfs[m]];
        rem := rem - {m};
      }
    }

    ghost function Lookup(arg: IntfArg): Result<Option<Intf>, Exc>
      reads this
    {
      match arg
      case NoIntf => DefaultFor()
      case IntfNamed(n) =>
        if n == "" then DefaultFor()
        else if n in nameToIntf then Ok(Some(nameToIntf[n]))
        else Err(KeyError(n))
      case IntfObj(i) => Ok(Some(i))
    }

    /** intf(arg): the default interface for a falsy argument, the named
        one (KeyError for an unknown name), or the object itself. */
    method IntfFor(arg: IntfArg) returns (r: Result<Option<Intf>, Exc>)
      ensures r == Lookup(arg)
    {
      match arg {
        case NoIntf =>
          r := DefaultIntf();
        case IntfNamed(n) =>
          if n == "" {
            r := DefaultIntf();
          } else if n in nameToIntf {
            r := Ok(Some(nameToIntf[n]));
          } else {
            r := Err(KeyError(n));
          }
        case IntfObj(i) =>
          r := Ok(Some(i));
      }
    }

    /** setIP(ip, prefixLen, intf): looks the interface up and calls its
        setIP with ip, to which "/prefixLen" is added when ip has no '/';
        calling setIP on the missing default interface is an
        AttributeError. */
    method SetIP(ip: string, prefixLen: int, arg: IntfArg) returns (r: Result<seq<string>, Exc>)
      modifies intfs.Values, nameToIntf.Values, ArgObjs(arg), OptObjs(controlIntf)
      ensures var text := NodeIpText(ip, prefixLen);
        match old(Lookup(arg))
        case Err(e) => r == Err(e)
        case Ok(None) => r == Err(AttributeError)
        case Ok(Some(i)) =>
          r == (match SetIPWords(text, None) case Err(e) => Err(e) case Ok(w) => Ok(["ifconfig", old(i.name)] + w))
          && (match Links.IpFields(text, None)
              case Ok(f) => i.ip == Some(f.0) && i.prefixLen == f.1
              case Err(_) => i.ip == old(i.ip) && i.prefixLen == old(i.prefixLen))
    {
      var text := NodeIpText(ip, prefixLen);
      var target := IntfFor(arg);
      match target {
        case Err(e) => r := Err(e);
        case Ok(found) =>
          if found.None? {
            return Err(AttributeError);
          }
          var i := found.value;
          if arg.IntfNamed? && arg.s != "" {
            assert i in nameToIntf.Values;
          } else if !arg.IntfObj? && !isSwitch {
            assert i == intfs[MinOf(intfs.Keys)];
          }
          r := i.SetIP(text, None);
      }
    }
  }

  // --------------------------------------------------------------- links

  class Link {
    var intf1: Intf
    var intf2: Intf

    /** Link(node1, node2, port1, port2, intfName1, intfName2): missing
        ports come from newPort() and missing names from intfName, all
        computed before either interface is added, so a self-link without
        ports gives both interfaces the same port.  Each interface takes
        its ip and mac from what ifconfig shows for it. */
    constructor (node1: Node, node2: Node, port1: Option<nat>, port2: Option<nat>,
                 intfName1: Option<string>, intfName2: Option<string>, shown1: string, shown2: string)
      modifies node1, node2
      ensures var p1 := if port1.Some? then port1.value else old(node1.NextPort());
        var p2 := if port2.Some? then port2.value else old(node2.NextPort());
        fresh(intf1) && fresh(intf2) && intf1 != intf2 && intf1 in node1.ports && intf2 in node2.ports
        && intf1.name == (if intfName1.Some? && intfName1.value != "" then intfName1.value else Links.IntfName(node1.name, p1))
        && intf2.name == (if intfName2.Some? && intfName2.value != "" then intfName2.value else Links.IntfName(node2.name, p2))
        && intf1.node == node1 && intf2.node == node2 && intf1.link == this && intf2.link == this
        && node1.ports[intf1] == p1 && node2.ports[intf2] == p2
        && (node1 != node2 ==> node1.intfs == old(node1.intfs)[p1 := intf1] && node2.intfs == old(node2.intfs)[p2 := intf2])
        && (node1 == node2 ==> node1.intfs == old(node1.intfs)[p1 := intf1][p2 := intf2])
        && (node1 == node2 && port1.None? && port2.None? ==> p1 == p2 && node1.intfs[p1] == intf2)
      ensures intf1.ip == Links.UpdatedIP(shown1) && intf1.mac == Links.UpdatedMAC(shown1)
      ensures intf2.ip == Links.UpdatedIP(shown2) && intf2.mac == Links.UpdatedMAC(shown2)
    {
      var p1: nat, p2: nat;
      if port1.None? { p1 := node1.NewPort(); } else { p1 := port1.value; }
      if port2.None? { p2 := node2.NewPort(); } else { p2 := port2.value; }
      var n1 := if intfName1.Some? && intfName1.value != "" then intfName1.value else Links.IntfName(node1.name, p1);
      var n2 := if intfName2.Some? && intfName2.value != "" then intfName2.value else Links.IntfName(node2.name, p2);
      var i1, i2 := AddPair(node1, n1, p1, node2, n2, p2, shown1, shown2);
      intf1, intf2 := i1, i2;
      new;
      intf1.link := this;
      intf2.link := this;
    }
  }

  /** The command sendCmd records and the line it writes, once the
      waiting assertion has passed. */
  method CommandFor(args: Shell.CmdArgs, printPid: bool, builtIns: string) returns (r: Result<Shell.Sent, Exc>)
    ensures r == Shell.SendText(false, args, printPid, builtIns)
  {
    var joined: string;
    match args {
      case ListArg(items) => joined := Join(items, ' ');
      case Args(items) =>
        if items == [] {
          return Err(UnboundLocalError);
        }
        joined := Join(items, ' ');
    }
    var sent := Decorate(joined, printPid, builtIns);
    r := Ok(sent);
  }

  method Decorate(joined: string, printPid: bool, builtIns: string) returns (s: Shell.Sent)
    ensures s == Shell.Decorated(joined, printPid, builtIns)
  {
    var cmd := joined;
    if !HasWordChar(cmd) {
      cmd := "echo -n";
    }
    var pp := printPid && !Util.IsShellBuiltin(cmd, builtIns);
    var line: string;
    if |cmd| > 0 && cmd[|cmd| - 1] == '&' {
      line := cmd + Shell.BackgroundSuffix;
    } else {
      line := cmd + Shell.SentinelSuffix;
      var builtin := Util.IsShellBuiltin(line, builtIns);
      if pp && !builtin {
        line := Shell.PidPrefix + line;
      }
    }
    s := Shell.Sent(cmd, line + "\n");
  }

  /** The two interfaces of a link, added on the ports computed for them. */
  method AddPair(node1: Node, n1: string, p1: nat, node2: Node, n2: string, p2: nat, shown1: string, shown2: string)
    returns (i1: Intf, i2: Intf)
    modifies node1, node2
    ensures fresh(i1) && fresh(i2) && i1 != i2 && i1 in node1.ports && i2 in node2.ports
    ensures i1.name == n1 && i2.name == n2 && i1.node == node1 && i2.node == node2
    ensures i1.link == null && i2.link == null
    ensures node1.ports[i1] == p1 && node2.ports[i2] == p2
    ensures node1 != node2 ==> node1.intfs == old(node1.intfs)[p1 := i1] && node2.intfs == old(node2.intfs)[p2 := i2]
    ensures node1 == node2 ==> node1.intfs == old(node1.intfs)[p1 := i1][p2 := i2]
    ensures i1.ip == Links.UpdatedIP(shown1) && i1.mac == Links.UpdatedMAC(shown1)
    ensures i2.ip == Links.UpdatedIP(shown2) && i2.mac == Links.UpdatedMAC(shown2)
  {
    i1 := new Intf(n1, node1, Some(p1), null, shown1);
    i2 := new Intf(n2, node2, Some(p2), null, shown2);
  }

  // ---------------------------------------------------------- switches

  const MaxInt: nat := 0x7fff_ffff_ffff_ffff

  const DpidMessage: string :=
    "Unable to derive default datapath ID - please either specify a dpid or use a canonical switch name such as s23."

  /** re.findall(r'\d+', s)[0]: the first maximal run of digits. */
  function FirstDigits(s: string): (r: Option<string>)
    ensures r.Some? ==> r.value != [] && AllDigits(r.value)
  {
    if s == [] then None
    else if IsDigit(s[0]) then
      Shell.DigitRunDigits(s);
      Some(s[..Links.DigitRun(s)])
    else FirstDigits(s[1..])
  }

  /** There is a run exactly when the text holds a digit. */
  lemma {:induction false} FirstDigitsNone(s: string)
    ensures FirstDigits(s).None? <==> forall i :: 0 <= i < |s| ==> !IsDigit(s[i])
  {
    if s != [] && !IsDigit(s[0]) {
      FirstDigitsNone(s[1..]);
      assert forall i :: 1 <= i < |s| ==> s[i] == s[1..][i - 1];
    }
  }

  /** The run found is the first one: text without digits, then the run,
      then the end or a non-digit. */
  lemma {:induction false} FirstDigitsOf(pre: string, d: string, post: string)
    requires forall i :: 0 <= i < |pre| ==> !IsDigit(pre[i])
    requires d != [] && AllDigits(d)
    requires post == [] || !IsDigit(post[0])
    ensures FirstDigits(pre + d + post) == Some(d)
  {
    var s := pre + d + post;
    if pre == [] {
      Links.RunOf(d, post);
      assert s == d + post;
      assert s[..|d|] == d;
    } else {
      assert s[1..] == pre[1..] + d + post;
      FirstDigitsOf(pre[1..], d, post);
    }
  }

  /** hex(n)[2:] in Python 2: a value above sys.maxint is a long, whose
      hex() ends in 'L'. */
  function PyHex(n: nat): string {
    NatToHex(n) + (if n > MaxInt then "L" else "")
  }

  /** Switch.defaultDpid: the hex of the first digit run in the name,
      left-padded with '0' to dpidLen and never truncated. */
  function DefaultDpid(name: string, dpidLen: nat): Result<string, Exc> {
    match FirstDigits(name)
    case None => Err(Raised(DpidMessage))
    case Some(d) => Ok(PadLeft(PyHex(DecValue(d)), dpidLen, '0'))
  }

  lemma {:induction false} HexLeadingZeros(z: string, h: string)
    requires forall i :: 0 <= i < |z| ==> z[i] == '0'
    ensures HexToNat(z + h) == HexToNat(h)
    decreases |h|
  {
    if h == [] {
      assert z + h == z;
      ZerosHex(z);
    } else {
      var s := z + h;
      assert s[..|s| - 1] == z + h[..|h| - 1];
      HexLeadingZeros(z, h[..|h| - 1]);
    }
  }

  lemma {:induction false} ZerosHex(z: string)
    requires forall i :: 0 <= i < |z| ==> z[i] == '0'
    ensures HexToNat(z) == 0
  {
    if z != [] { ZerosHex(z[..|z| - 1]); }
  }

  /** A name without digits raises; otherwise the dpid is exactly
      max(dpidLen, digits) long, all the padding is '0', and, for values up
      to sys.maxint, it reads back as the number in the name. */
  lemma DefaultDpidSpec(name: string, dpidLen: nat)
    ensures DefaultDpid(name, dpidLen).Err? <==> forall i :: 0 <= i < |name| ==> !IsDigit(name[i])
    ensures DefaultDpid(name, dpidLen).Err? ==> DefaultDpid(name, dpidLen).error == Raised(DpidMessage)
    ensures DefaultDpid(name, dpidLen).Ok? ==>
      var v := DecValue(FirstDigits(name).value);
      var r := DefaultDpid(name, dpidLen).value;
      var h := PyHex(v);
      |r| == (if |h| >= dpidLen then |h| else dpidLen) && EndsWith(r, h)
      && (forall i :: 0 <= i < |r| - |h| ==> r[i] == '0')
      && (v <= MaxInt ==> HexToNat(r) == v)
  {
    FirstDigitsNone(name);
    if FirstDigits(name).Some? {
      var v := DecValue(FirstDigits(name).value);
      var r := DefaultDpid(name, dpidLen).value;
      var h := PyHex(v);
      if v <= MaxInt {
        assert h == NatToHex(v);
        var z := r[..|r| - |h|];
        assert r == z + h;
        HexLeadingZeros(z, h);
        HexRoundTrip(v);
      }
    }
  }

  /** s123 on a 16-digit switch: 123 is 0x7b. */
  lemma DefaultDpidS123()
    ensures DefaultDpid("s123", 16) == Ok("000000000000007b")
  {
    FirstDigitsOf("s", "123", "");
    assert "s123" == "s" + "123" + "";
    assert DecValue("123") == 123 by {
      assert "123"[..2] == "12" && "12"[..1] == "1" && "1"[..0] == "";
    }
    assert NatToHex(123) == "7b" by {
      assert NatToHex(7) == "7";
      assert HexDigit(11) == 'b';
    }
    assert PyHex(123) == "7b";
    assert PadLeft("7b", 16, '0') == "000000000000007b";
  }

  /** 'A' has no digit. */
  lemma DefaultDpidNoDigits()
    ensures DefaultDpid("A", 16) == Err(Raised(DpidMessage))
  {
    FirstDigitsNone("A");
  }

  /** self.dpid = dpid if dpid else self.defaultDpid(). */
  function SwitchDpid(dpid: Option<string>, name: string, dpidLen: nat): Result<string, Exc> {
    if dpid.Some? && dpid.value != "" then Ok(dpid.value) else DefaultDpid(name, dpidLen)
  }

  /** Switch(name, dpid): a node on portBase 1 whose dpid is the given one
      or the derived one; outside a namespace it gets control interface
      'lo' on port 0, configured from what ifconfig shows for lo.  A
      failed derivation raises. */
  method NewSwitch(name: string, inNamespace: bool, dpid: Option<string>, dpidLen: nat, loShown: string)
    returns (r: Result<Node, Exc>)
    ensures r.Err? <==> SwitchDpid(dpid, name, dpidLen).Err?
    ensures r.Err? ==> r.error == SwitchDpid(dpid, name, dpidLen).error
    ensures r.Ok? ==>
      var s := r.value;
      fresh(s) && s.name == name && s.isSwitch && s.portBase == 1
      && s.dpid == Some(SwitchDpid(dpid, name, dpidLen).value)
      && !s.execed
      && (inNamespace ==> s.intfs == map[] && s.controlIntf.None?
                          && s.Proto() == Shell.ShellState("", false, None) && s.Log() == (None, []))
      && (!inNamespace ==> s.intfs.Keys == {0} && s.intfs[0].name == "lo" && s.NextPort() == 1
                           && s.controlIntf == Some(s.intfs[0])
                           && s.intfs[0].ip == Links.UpdatedIP(loShown) && s.intfs[0].mac == Links.UpdatedMAC(loShown))
  {
    var s := new Node(name, inNamespace, true);
    var d := SwitchDpid(dpid, name, dpidLen);
    if d.Err? {
      return Err(d.error);
    }
    s.dpid := Some(d.value);
    if !inNamespace {
      var lo := new Intf("lo", s, Some(0), null, loShown);
      s.controlIntf := Some(lo);
      assert s.ports == map[lo := 0];
      var vs := s.ports.Values;
      assert 0 in vs by { assert s.ports[lo] == 0; }
      forall v | v in vs ensures v == 0 {
        var k :| k in s.ports && s.ports[k] == v;
      }
    }
    r := Ok(s);
  }

  // -------------------------------------------------- controllerUUIDs

  /** OVSSwitch.controllerUUIDs on the output of `ovs-vsctl -- get Bridge
      <sw> Controller`: the stripped comma-separated entries of a
      bracketed list, and [] otherwise. */
  function ControllerUUIDs(out: string): seq<string> {
    match Bracketed(Strip(out))
    case None => []
    case Some(inner) => Entries(inner)
  }

  /** What a text of the form "[...]" holds between its brackets. */
  function Bracketed(c: string): (r: Option<string>)
    ensures r.Some? <==> StartsWith(c, "[") && EndsWith(c, "]")
    ensures r.Some? ==> c == "[" + r.value + "]"
  {
    if StartsWith(c, "[") && EndsWith(c, "]") then
      assert c[..1] == "[" && c[|c| - 1..] == "]";
      assert c[0] == '[' && c[|c| - 1] == ']';
      assert c == "[" + c[1..|c| - 1] + "]";
      Some(c[1..|c| - 1])
    else None
  }

  /** [c.strip() for c in inner.split(',')] */
  function Entries(inner: string): (r: seq<string>)
    ensures |r| == |Split(inner, ',')|
    ensures forall i :: 0 <= i < |r| ==> r[i] == Strip(Split(inner, ',')[i])
  {
    var parts := Split(inner, ',');
    seq(|parts|, i requires 0 <= i < |parts| => Strip(parts[i]))
  }

  lemma BracketedOf(body: string)
    ensures Bracketed(Strip("[" + body + "]")) == Some(body)
  {
    var c := "[" + body + "]";
    StripNoSpace(c);
    assert c[..1] == "[" && c[|c| - 1..] == "]";
  }

  lemma EntriesOf(body: string, uuids: seq<string>)
    requires Split(body, ',') == uuids
    requires forall i :: 0 <= i < |uuids| ==> Strip(uuids[i]) == uuids[i]
    ensures Entries(body) == uuids
  {
  }

  /** A list printed as "[u1,u2,...]" reads back as its entries. */
  lemma ControllerUUIDsOfList(uuids: seq<string>)
    requires |uuids| >= 1
    requires forall i :: 0 <= i < |uuids| ==> ',' !in uuids[i] && Strip(uuids[i]) == uuids[i]
    ensures ControllerUUIDs("[" + Join(uuids, ',') + "]") == uuids
  {
    var body := Join(uuids, ',');
    BracketedOf(body);
    SplitJoin(uuids, ',');
    EntriesOf(body, uuids);
  }

  /** Anything that is not a bracketed list gives no controllers. */
  lemma ControllerUUIDsNotList(out: string)
    requires !StartsWith(Strip(out), "[") || !EndsWith(Strip(out), "]")
    ensures ControllerUUIDs(out) == []
  {
  }

  /** The form ovs-vsctl prints for no controllers, "[]", gives one empty
      entry rather than none. */
  lemma ControllerUUIDsEmptyList()
    ensures ControllerUUIDs("[]") == [""]
  {
    BracketedOf("");
    assert "[" + "" + "]" == "[]";
    assert Split("", ',') == [""];
  }
}
