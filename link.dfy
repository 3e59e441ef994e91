// The value-level parts of mininet/link.py: canonical interface names,
// the address text Intf.setIP splits and Intf.updateIP scans, and the
// tc command lists TCIntf builds.  The interface and link objects
// themselves are classes of module Nodes.
module Links {
  import opened Wrappers
  import opened Text
  import Addr

  // ------------------------------------------------------------- intfName

  /** Link.intfName: node.name + '-eth' + repr(n). */
  function IntfName(node: string, n: int): string {
    node + "-eth" + IntToDec(n)
  }

  /** The name starts with the node's name and "-eth", and the port number
      reads back from the rest. */
  lemma IntfNameParse(node: string, n: nat)
    ensures var r := IntfName(node, n);
            |r| > |node| + 4 && r[..|node| + 4] == node + "-eth" &&
            AllDigits(r[|node| + 4..]) && DecValue(r[|node| + 4..]) == n
  {
    var r := IntfName(node, n);
    assert r[|node| + 4..] == NatToDec(n);
    DecRoundTrip(n);
  }

  // ----------------------------------------------------------- Intf.setIP

  /** What Intf.setIP stores in (ip, prefixLen): the two halves of
      `ipstr.split('/')`, whose unpacking raises ValueError unless there is
      exactly one '/'; without a '/', ipstr and the given prefixLen. */
  function IpFields(ipstr: string, prefixLen: Option<string>): Result<(string, Option<string>), Exc> {
    if '/' in ipstr then
      var parts := Split(ipstr, '/');
      if |parts| == 2 then Ok((parts[0], Some(parts[1]))) else Err(ValueError)
    else Ok((ipstr, prefixLen))
  }

  /** "a/b" gives back a and b; text without '/' keeps the given prefix. */
  lemma IpFieldsRoundTrip(a: string, b: string, prefixLen: Option<string>)
    requires '/' !in a && '/' !in b
    ensures IpFields(a + "/" + b, prefixLen) == Ok((a, Some(b)))
    ensures IpFields(a, prefixLen) == Ok((a, prefixLen))
  {
    assert (a + "/" + b)[|a|] == '/';
    SplitPrefix(a, b, '/');
    SplitNoSep(b, '/');
  }

  /** A second '/' makes the unpacking fail. */
  lemma IpFieldsTwoSlashes(a: string, b: string, c: string, prefixLen: Option<string>)
    requires '/' !in a && '/' !in b
    ensures IpFields(a + "/" + b + "/" + c, prefixLen) == Err(ValueError)
  {
    var s := a + "/" + b + "/" + c;
    assert s[|a|] == '/';
    assert s == a + "/" + (b + "/" + c);
    SplitPrefix(a, b + "/" + c, '/');
    SplitPrefix(b, c, '/');
  }

  // ---------------------------------------------------------- Intf.updateIP

  /** The length of the run of digits s starts with. */
  function DigitRun(s: string): (n: nat)
    ensures n <= |s|
  {
    if s != [] && IsDigit(s[0]) then 1 + DigitRun(s[1..]) else 0
  }

  /** The length of a run of digits and the '.' after it, if s starts so. */
  function DotField(s: string): (e: Option<nat>)
    ensures e.Some? ==> 0 < e.value <= |s|
  {
    var a := DigitRun(s);
    if a == 0 || a >= |s| || s[a] != '.' then None else Some(a + 1)
  }

  /** The length of n fields "digits." followed by one more run of
      digits at the start of s, if s starts so. */
  function Fields(s: string, n: nat): (e: Option<nat>)
    ensures e.Some? ==> 0 < e.value <= |s|
  {
    if n == 0 then
      var d := DigitRun(s);
      if d == 0 then None else Some(d)
    else
      match DotField(s)
      case None => None
      case Some(j) =>
        match Fields(s[j..], n - 1)
        case None => None
        case Some(m) => Some(j + m)
  }

  /** The length of a match of \d+\.\d+\.\d+\.\d+ at the start of s, if
      there is one; each \d+ takes the whole run, as backtracking cannot
      help. */
  function QuadLen(s: string): (e: Option<nat>)
    ensures e.Some? ==> 0 < e.value <= |s|
  {
    Fields(s, 3)
  }

  /** The first match (re.findall(...)[0]), scanning from the left. */
  function FirstQuad(s: string): (r: Option<string>)
  {
    if s == [] then None
    else match QuadLen(s)
      case Some(e) => Some(s[..e])
      case None => FirstQuad(s[1..])
  }

  /** updateIP: the first dotted quad of the ifconfig text, or None. */
  function UpdatedIP(ifconfig: string): Option<string> {
    FirstQuad(ifconfig)
  }

  /** None means no match starts anywhere in the text. */
  lemma {:induction false} FirstQuadNone(s: string)
    ensures FirstQuad(s).None? <==> forall j :: 0 <= j < |s| ==> QuadLen(s[j..]).None?
  {
    if s != [] {
      assert s[0..] == s;
      if QuadLen(s).None? {
        var t := s[1..];
        FirstQuadNone(t);
        forall j | 1 <= j < |s| ensures s[j..] == t[j - 1..] { }
      }
    }
  }

  /** The address found is the leftmost match. */
  lemma {:induction false} FirstQuadAt(s: string, j: nat)
    requires j < |s| && QuadLen(s[j..]).Some?
    requires forall k :: 0 <= k < j ==> QuadLen(s[k..]).None?
    ensures FirstQuad(s) == Some(s[j..][..QuadLen(s[j..]).value])
  {
    assert s[0..] == s;
    if j > 0 {
      var t := s[1..];
      assert t[j - 1..] == s[j..];
      forall k | 0 <= k < j - 1 ensures QuadLen(t[k..]).None? {
        assert t[k..] == s[k + 1..];
      }
      FirstQuadAt(t, j - 1);
    }
  }

  /** A string of digits followed by a non-digit or the end is one run. */
  lemma {:induction false} RunOf(a: string, rest: string)
    requires AllDigits(a)
    requires rest == [] || !IsDigit(rest[0])
    ensures DigitRun(a + rest) == |a|
  {
    if a != [] {
      assert (a + rest)[1..] == a[1..] + rest;
      RunOf(a[1..], rest);
    } else {
      assert a + rest == rest;
    }
  }

  lemma DotFieldOf(a: string, rest: string)
    requires a != [] && AllDigits(a)
    ensures DotField(a + "." + rest) == Some(|a| + 1) && (a + "." + rest)[|a| + 1..] == rest
  {
    assert a + "." + rest == a + ("." + rest);
    RunOf(a, "." + rest);
  }

  /** No match can start where there is no digit. */
  lemma {:induction false} FirstQuadSkip(before: string, s: string)
    requires forall k :: 0 <= k < |before| ==> !IsDigit(before[k])
    ensures FirstQuad(before + s) == FirstQuad(s)
  {
    if before != [] {
      assert (before + s)[1..] == before[1..] + s;
      FirstQuadSkip(before[1..], s);
    } else {
      assert before + s == s;
    }
  }

  /** One more field in front adds its length. */
  lemma FieldsCons(a: string, rest: string, k: nat, m: nat)
    requires a != [] && AllDigits(a) && k >= 1 && Fields(rest, k - 1) == Some(m)
    ensures Fields(a + "." + rest, k) == Some(|a| + 1 + m)
  {
    DotFieldOf(a, rest);
  }

  /** Runs of digits joined by '.', before a non-digit or the end, are
      read as that many fields. */
  lemma {:induction false} FieldsJoin(parts: seq<string>, post: string)
    requires |parts| > 0
    requires forall i :: 0 <= i < |parts| ==> parts[i] != [] && AllDigits(parts[i])
    requires post == [] || !IsDigit(post[0])
    ensures Fields(Join(parts, '.') + post, |parts| - 1) == Some(|Join(parts, '.')|)
  {
    if |parts| == 1 {
      RunOf(parts[0], post);
    } else {
      var tail := parts[1..];
      assert forall i :: 0 <= i < |tail| ==> tail[i] == parts[i + 1];
      FieldsJoin(tail, post);
      FieldsJoinStep(parts[0], tail, post, |parts| - 1);
    }
  }

  lemma FieldsJoinStep(head: string, tail: seq<string>, post: string, k: nat)
    requires head != [] && AllDigits(head) && |tail| > 0 && k == |tail|
    requires Fields(Join(tail, '.') + post, |tail| - 1) == Some(|Join(tail, '.')|)
    ensures Fields(Join([head] + tail, '.') + post, k) == Some(|Join([head] + tail, '.')|)
  {
    var j := Join(tail, '.');
    FieldsCons(head, j + post, k, |j|);
    assert ([head] + tail)[1..] == tail;
    assert Join([head] + tail, '.') + post == head + "." + (j + post);
  }

  /** updateIP reads back four runs of digits joined by '.', when nothing
      before them is a digit and a non-digit follows them. */
  lemma UpdatedIPReadsQuad(before: string, parts: seq<string>, after: string)
    requires |parts| == 4
    requires forall i :: 0 <= i < |parts| ==> parts[i] != [] && AllDigits(parts[i])
    requires forall k :: 0 <= k < |before| ==> !IsDigit(before[k])
    requires after == [] || !IsDigit(after[0])
    ensures UpdatedIP(before + Join(parts, '.') + after) == Some(Join(parts, '.'))
  {
    var q := Join(parts, '.');
    FieldsJoin(parts, after);
    var t := q + after;
    assert t[..|q|] == q;
    assert before + q + after == before + t;
    FirstQuadSkip(before, t);
  }

  /** updateIP reads back the address ipStr printed into ifconfig's text,
      when nothing before it is a digit and a non-digit follows it. */
  lemma UpdatedIPReadsIpStr(before: string, ip: int, after: string)
    requires forall k :: 0 <= k < |before| ==> !IsDigit(before[k])
    requires after == [] || !IsDigit(after[0])
    ensures UpdatedIP(before + Addr.IpStr(ip) + after) == Some(Addr.IpStr(ip))
  {
    var q := Addr.IpStr(ip);
    Addr.IpStrShape(ip);
    JoinSplit(q, '.');
    UpdatedIPReadsQuad(before, Split(q, '.'), after);
  }

  // ------------------------------------------------------ Intf.updateMAC

  /** `..:..:..:..:..:..` matches at the start of s: a ':' at every third of
      the first 17 characters, and anything but a newline elsewhere. */
  predicate MacAt(s: string) {
    |s| >= 17 && forall k :: 0 <= k < 17 ==> if k % 3 == 2 then s[k] == ':' else s[k] != '\n'
  }

  /** The first match (re.findall(...)[0]), scanning from the left. */
  function FirstMac(s: string): (r: Option<string>)
    ensures r.Some? ==> |r.value| == 17 && MacAt(r.value)
    decreases |s|
  {
    if |s| < 17 then None
    else if MacAt(s) then Some(s[..17])
    else FirstMac(s[1..])
  }

  /** updateMAC: the first MAC-shaped text of the ifconfig output, or None. */
  function UpdatedMAC(ifconfig: string): Option<string> {
    FirstMac(ifconfig)
  }

  /** None means no match starts anywhere; otherwise the MAC found is the
      match at the leftmost position where one starts. */
  lemma FirstMacAt(s: string)
    ensures FirstMac(s).None? <==> forall j :: 0 <= j < |s| ==> !MacAt(s[j..])
    ensures FirstMac(s).Some? ==>
      exists j :: 0 <= j < |s| && MacAt(s[j..]) && FirstMac(s).value == s[j..j + 17]
                  && forall i :: 0 <= i < j ==> !MacAt(s[i..])
  {
    FirstMacNone(s);
    FirstMacLeftmost(s);
  }

  lemma {:induction false} FirstMacNone(s: string)
    ensures FirstMac(s).None? <==> forall j :: 0 <= j < |s| ==> !MacAt(s[j..])
    decreases |s|
  {
    if |s| < 17 {
      forall j | 0 <= j < |s| ensures !MacAt(s[j..]) { }
    } else if MacAt(s) {
      assert s[0..] == s;
    } else {
      FirstMacNone(s[1..]);
      assert s[0..] == s;
      forall j | 1 <= j < |s| ensures s[j..] == s[1..][j - 1..] { }
    }
  }

  lemma {:induction false} FirstMacLeftmost(s: string)
    ensures FirstMac(s).Some? ==>
      exists j :: 0 <= j < |s| && MacAt(s[j..]) && FirstMac(s).value == s[j..j + 17]
                  && forall i :: 0 <= i < j ==> !MacAt(s[i..])
    decreases |s|
  {
    if |s| >= 17 && MacAt(s) {
      assert s[0..] == s && s[0..17] == s[..17];
    } else if |s| >= 17 {
      var t := s[1..];
      FirstMacLeftmost(t);
      if FirstMac(t).Some? {
        var j :| 0 <= j < |t| && MacAt(t[j..]) && FirstMac(t).value == t[j..j + 17]
                 && forall i :: 0 <= i < j ==> !MacAt(t[i..]);
        assert s[j + 1..] == t[j..];
        assert t[j..j + 17] == s[j + 1..j + 18];
        forall i | 0 <= i < j + 1 ensures !MacAt(s[i..]) {
          if i == 0 { assert s[0..] == s; } else { assert s[i..] == t[i - 1..]; }
        }
      }
    }
  }

  /** updateMAC reads back a MAC printed after text without ':', when its
      first two characters are no ':'. */
  lemma {:induction false} UpdatedMACReads(before: string, m: string, after: string)
    requires |m| == 17 && MacAt(m) && m[0] != ':' && m[1] != ':'
    requires ':' !in before
    ensures UpdatedMAC(before + m + after) == Some(m)
    decreases |before|
  {
    var s := before + m + after;
    if before == [] {
      assert s == m + after;
      assert MacAt(s);
      assert s[..17] == m;
    } else {
      assert s[2] == (if |before| > 2 then before[2] else m[2 - |before|]);
      assert !MacAt(s);
      assert s[1..] == before[1..] + m + after;
      UpdatedMACReads(before[1..], m, after);
    }
  }

  /** macColonHex's text, the way ifconfig prints it, is read back. */
  lemma UpdatedMACReadsColonHex(before: string, mac: int, after: string)
    requires ':' !in before
    ensures UpdatedMAC(before + Addr.MacColonHex(mac) + after) == Some(Addr.MacColonHex(mac))
  {
    UpdatedMACReads(before, Addr.MacColonHex(mac), after);
  }

  // --------------------------------------------------------- tc commands

  /** A delay or jitter value: a number or a string such as '5ms'. */
  datatype Amount = Num(x: real) | Str(s: string)

  predicate Truthy(v: Option<Amount>) {
    v.Some? && match v.value case Num(x) => x != 0.0 case Str(s) => s != ""
  }

  /** `v < 0` as Python 2 evaluates it: a string is never less than 0. */
  predicate Negative(v: Option<Amount>) {
    v.Some? && v.value.Num? && v.value.x < 0.0
  }

  /** The tc commands, with the numbers they print kept as values. */
  datatype TcCmd =
    | DelRoot
    | HfscQdisc
    | HfscClass(rate: real)
    | TbfQdisc(rate: real, latency: real)
    | HtbQdisc
    | HtbClass(rate: real)
    | RedQdisc(parent: string, rate: real, ecn: bool)
    | Netem(parent: string, delay: Option<Amount>, jitter: Option<Amount>, loss: Option<real>, limit: Option<int>)

  /** A number as Python 2 holds it: an int or a float. */
  datatype PyNum = PyInt(n: int) | PyFloat(x: real)

  function Value(v: PyNum): real {
    match v
    case PyInt(n) => n as real
    case PyFloat(x) => x
  }

  /** Python 2's a / b on ints, which floors (Dafny's / on int is Euclidean). */
  function FloorDiv(a: int, b: int): (q: int)
    requires b != 0
    ensures b > 0 ==> q * b <= a < (q + 1) * b
    ensures b < 0 ==> (q + 1) * b < a <= q * b
  {
    if b > 0 then a / b else (-a) / (-b)
  }

  /** 15 * 8 / v: floor division for an int, real division for a float,
      ZeroDivisionError for zero. */
  function TbfLatency(v: PyNum): (r: Result<real, Exc>)
    ensures r.Err? <==> Value(v) == 0.0
  {
    if Value(v) == 0.0 then Err(ZeroDivisionError)
    else match v
      case PyInt(n) => Ok(FloorDiv(120, n) as real)
      case PyFloat(x) => Ok(120.0 / x)
  }

  /** An int bandwidth gets the whole milliseconds of 120 / bw, a float one
      the exact quotient: for bw 7 that is 17 and 120 / 7. */
  lemma TbfLatencyFloors(n: int)
    requires n > 0
    ensures TbfLatency(PyInt(n)).Ok? && TbfLatency(PyFloat(n as real)).Ok?
    ensures var l := TbfLatency(PyInt(n)).value;
      l == l.Floor as real && l * (n as real) <= 120.0 < (l + 1.0) * (n as real)
    ensures TbfLatency(PyFloat(n as real)).value * (n as real) == 120.0
    ensures n == 7 ==> TbfLatency(PyInt(n)).value == 17.0 != TbfLatency(PyFloat(n as real)).value
  {
    var q := FloorDiv(120, n);
    assert (q as real) * (n as real) == (q * n) as real;
    assert ((q + 1) as real) * (n as real) == ((q + 1) * n) as real;
    if n == 7 {
      assert q == 17;
      assert 17.0 * 7.0 != 120.0;
    }
  }

  /** TCIntf.bwCmds: the commands and the parent the next qdisc hangs on.
      A bandwidth outside 0..1000 is only reported.  With tbf and no
      latency the default 15 * 8 / bw (on the bandwidth in force, which a
      positive speedup replaces for a switch) divides by zero when it is 0. */
  function BwCmds(bw: Option<PyNum>, speedup: PyNum, nodeName: string, useHfsc: bool, useTbf: bool,
                  latency: Option<real>, ecn: bool, red: bool): Result<(seq<TcCmd>, string), Exc>
  {
    if bw.Some? && Value(bw.value) != 0.0 && (Value(bw.value) < 0.0 || Value(bw.value) > 1000.0) then Ok(([], " root "))
    else if bw.None? then Ok(([], " root "))
    else
      var bwIn := if Value(speedup) > 0.0 && nodeName[..if |nodeName| < 1 then |nodeName| else 1] == "s" then speedup else bw.value;
      var rate := Value(bwIn);
      var shaping: Result<seq<TcCmd>, Exc> :=
        if useHfsc then Ok([HfscQdisc, HfscClass(rate)])
        else if useTbf then
          (if latency.Some? then Ok([TbfQdisc(rate, latency.value)])
           else match TbfLatency(bwIn)
             case Err(e) => Err(e)
             case Ok(l) => Ok([TbfQdisc(rate, l)]))
        else Ok([HtbQdisc, HtbClass(rate)]);
      match shaping
      case Err(e) => Err(e)
      case Ok(cmds) =>
        if ecn then Ok((cmds + [RedQdisc(" parent 5:1 ", rate, true)], " parent 6: "))
        else if red then Ok((cmds + [RedQdisc(" parent 5:1 ", rate, false)], " parent 6: "))
        else Ok((cmds, " parent 5:1 "))
  }

  /** No bandwidth, or one out of range, gives no commands and the root;
      otherwise the shaping qdisc hangs on 5:1, and a RED/ECN qdisc, if
      asked for, on 6:.  The only exception is tbf's default latency at
      bandwidth 0. */
  lemma BwCmdsParent(bw: Option<PyNum>, speedup: PyNum, nodeName: string, useHfsc: bool, useTbf: bool,
                     latency: Option<real>, ecn: bool, red: bool)
    ensures var r := BwCmds(bw, speedup, nodeName, useHfsc, useTbf, latency, ecn, red);
            (r.Err? <==> bw.Some? && Value(bw.value) == 0.0 && !useHfsc && useTbf && latency.None? &&
                         !(Value(speedup) > 0.0 && |nodeName| >= 1 && nodeName[0] == 's')) &&
            (bw.None? || Value(bw.value) < 0.0 || Value(bw.value) > 1000.0 ==> r == Ok(([], " root "))) &&
            (r.Ok? && bw.Some? && 0.0 <= Value(bw.value) <= 1000.0 ==>
               r.value.0 != [] && r.value.1 == (if ecn || red then " parent 6: " else " parent 5:1 "))
  {
    if |nodeName| >= 1 {
      assert nodeName[..1] == "s" <==> nodeName[0] == 's';
    }
  }

  /** TCIntf.delayCmds: a negative delay or jitter, or a loss outside
      0..100, is only reported; otherwise one netem qdisc when anything is
      set, which then becomes the parent. */
  function DelayCmds(parent: string, delay: Option<Amount>, jitter: Option<Amount>, loss: Option<real>,
                     maxQueueSize: Option<int>): (seq<TcCmd>, string)
  {
    if Truthy(delay) && Negative(delay) then ([], parent)
    else if Truthy(jitter) && Negative(jitter) then ([], parent)
    else if loss.Some? && loss.value != 0.0 && (loss.value < 0.0 || loss.value > 100.0) then ([], parent)
    else if delay.None? && jitter.None? && loss.None? && maxQueueSize.None? then ([], parent)
    else ([Netem(parent, delay, jitter, loss, maxQueueSize)], " parent 10:1 ")
  }

  /** Either nothing changes, or exactly one netem command on the given
      parent is issued and the parent becomes 10:1. */
  lemma DelayCmdsShape(parent: string, delay: Option<Amount>, jitter: Option<Amount>, loss: Option<real>,
                       maxQueueSize: Option<int>)
    ensures var (cmds, p) := DelayCmds(parent, delay, jitter, loss, maxQueueSize);
            var bad := Negative(delay) || Negative(jitter) ||
                       (loss.Some? && (loss.value < 0.0 || loss.value > 100.0));
            var none := delay.None? && jitter.None? && loss.None? && maxQueueSize.None?;
            (bad || none ==> cmds == [] && p == parent) &&
            (!bad && !none ==> cmds == [Netem(parent, delay, jitter, loss, maxQueueSize)] && p == " parent 10:1 ")
  { }

  /** TCIntf.config after Intf.config: None when bw and max_queue_size are
      None and delay and loss are falsy (jitter alone configures nothing);
      otherwise delete the root qdisc, then the bandwidth commands, then
      delay on the parent those leave. */
  function TcConfig(bw: Option<PyNum>, delay: Option<Amount>, jitter: Option<Amount>, loss: Option<real>,
                    maxQueueSize: Option<int>, speedup: PyNum, nodeName: string, useHfsc: bool, useTbf: bool,
                    latency: Option<real>, ecn: bool, red: bool): Result<Option<(seq<TcCmd>, string)>, Exc>
  {
    if bw.None? && !Truthy(delay) && (loss.None? || loss.value == 0.0) && maxQueueSize.None? then Ok(None)
    else
      match BwCmds(bw, speedup, nodeName, useHfsc, useTbf, latency, ecn, red)
      case Err(e) => Err(e)
      case Ok((bwcmds, parent)) =>
        var (delaycmds, parent') := DelayCmds(parent, delay, jitter, loss, maxQueueSize);
        Ok(Some(([DelRoot] + bwcmds + delaycmds, parent')))
  }

  /** Nothing is issued exactly in the unset case; any command list starts
      by deleting the root qdisc, and a delay-only configuration hangs
      netem on the root. */
  lemma TcConfigShape(bw: Option<PyNum>, delay: Option<Amount>, jitter: Option<Amount>, loss: Option<real>,
                      maxQueueSize: Option<int>, speedup: PyNum, nodeName: string, useHfsc: bool, useTbf: bool,
                      latency: Option<real>, ecn: bool, red: bool)
    ensures var r := TcConfig(bw, delay, jitter, loss, maxQueueSize, speedup, nodeName, useHfsc, useTbf, latency, ecn, red);
            var unset := bw.None? && !Truthy(delay) && (loss.None? || loss.value == 0.0) && maxQueueSize.None?;
            (r == Ok(None) <==> unset) &&
            (r.Ok? && r.value.Some? ==> |r.value.value.0| >= 1 && r.value.value.0[0] == DelRoot) &&
            (bw.None? && Truthy(delay) && !Negative(delay) && !Negative(jitter) && (loss.None? || 0.0 <= loss.value <= 100.0) ==>
               r == Ok(Some(([DelRoot, Netem(" root ", delay, jitter, loss, maxQueueSize)], " parent 10:1 "))))
  {
    assert [DelRoot] + [] + [Netem(" root ", delay, jitter, loss, maxQueueSize)] ==
           [DelRoot, Netem(" root ", delay, jitter, loss, maxQueueSize)];
  }
}
