// mininet/utilib.py: helpers that take the base networks chosen for several
// Mininet instances ("10.0.0.0/8", ...), check that no two of them coincide,
// and derive one base per instance by bumping the first octet.
module UtiLib {
  import opened Wrappers
  import opened Text
  import opened Bits
  import Util
  import Addr

  /** A Python list of strings, which popleft and networkcheck change in place. */
  class PyList {
    var items: seq<string>

    constructor(items0: seq<string>)
      ensures items == items0
    {
      items := items0;
    }
  }

  /** list.reverse(): the same elements back to front. */
  function Reversed(s: seq<string>): (r: seq<string>)
    ensures |r| == |s| && forall i :: 0 <= i < |s| ==> r[i] == s[|s| - 1 - i]
  {
    if s == [] then [] else Reversed(s[1..]) + [s[0]]
  }

  /** Reversing twice restores the list. */
  lemma ReversedTwice(s: seq<string>)
    ensures Reversed(Reversed(s)) == s
  {
    var r := Reversed(Reversed(s));
    assert forall i :: 0 <= i < |s| ==> r[i] == s[i];
  }

  /** pop() of the reversed list takes the first element and leaves the rest reversed. */
  lemma ReversedPop(s: seq<string>)
    requires s != []
    ensures var r := Reversed(s); r[|r| - 1] == s[0] && r[..|r| - 1] == Reversed(s[1..])
  {
    var r := Reversed(s);
    var t := Reversed(s[1..]);
    assert forall i :: 0 <= i < |t| ==> r[..|r| - 1][i] == t[i];
  }

  // ------------------------------------------------------------- popleft

  /**
   * popleft(ipbase): reverse, pop the last element, parse it with int(),
   * reverse again. An empty list raises IndexError; an element int() refuses
   * raises ValueError and leaves the rest of the list reversed.
   */
  method Popleft(ipbase: PyList) returns (number: Result<int, Exc>)
    modifies ipbase
    ensures old(ipbase.items) == [] ==> number == Err(IndexError) && ipbase.items == []
    ensures old(ipbase.items) != [] && PyInt(old(ipbase.items)[0]).Some? ==>
      number == Ok(PyInt(old(ipbase.items)[0]).value) && ipbase.items == old(ipbase.items)[1..]
    ensures old(ipbase.items) != [] && PyInt(old(ipbase.items)[0]).None? ==>
      number == Err(ValueError) && ipbase.items == Reversed(old(ipbase.items)[1..])
  {
    ghost var s := ipbase.items;
    ipbase.items := Reversed(ipbase.items);
    if ipbase.items == [] {
      return Err(IndexError);
    }
    ReversedPop(s);
    var last := ipbase.items[|ipbase.items| - 1];
    ipbase.items := ipbase.items[..|ipbase.items| - 1];
    var v := PyInt(last);
    if v.None? {
      return Err(ValueError);
    }
    ReversedTwice(s[1..]);
    ipbase.items := Reversed(ipbase.items);
    return Ok(v.value);
  }

  // ------------------------------------------------------------ inttobin

  /** inttobin(power): the sum of 2^i for i in range(0, power), so 2^power - 1, and 0 when power <= 0. */
  method Inttobin(power: int) returns (num: int)
    ensures power >= 0 ==> num == Pow2(power) - 1
    ensures power < 0 ==> num == 0
  {
    num := 0;
    var i := 0;
    while i < power
      invariant 0 <= i <= (if power > 0 then power else 0)
      invariant num == Pow2(i) - 1
    {
      num := num + Pow2(i);
      i := i + 1;
    }
  }

  // ------------------------------------------------------------- compare

  /** Python's a <= b on strings. */
  predicate StrLe(a: string, b: string) { !Util.StrLess(b, a) }

  /** compare(net1, net2, broad1, broad2): False when one range starts after the other ends. */
  function Compare(net1: string, net2: string, broad1: string, broad2: string): (r: bool)
  {
    !(Util.StrLess(broad2, net1) || Util.StrLess(broad1, net2))
  }

  /** compare() does not depend on which network is named first. */
  lemma CompareSymmetric(net1: string, net2: string, broad1: string, broad2: string)
    ensures Compare(net1, net2, broad1, broad2) == Compare(net2, net1, broad2, broad1)
  {
  }

  /** Two string ranges that share a point are reported as coinciding. */
  lemma CompareShared(net1: string, net2: string, broad1: string, broad2: string, x: string)
    requires StrLe(net1, x) && StrLe(x, broad1) && StrLe(net2, x) && StrLe(x, broad2)
    ensures Compare(net1, net2, broad1, broad2)
  {
    if Util.StrLess(broad2, net1) {
      Util.StrLessTotal(x, broad2);
      if x != broad2 { Util.StrLessTrans(x, broad2, net1); }
    }
    if Util.StrLess(broad1, net2) {
      Util.StrLessTotal(x, broad1);
      if x != broad1 { Util.StrLessTrans(x, broad1, net2); }
    }
  }

  /** Two coinciding ranges, each well ordered, share the later of their starts. */
  lemma CompareWitness(net1: string, net2: string, broad1: string, broad2: string) returns (x: string)
    requires StrLe(net1, broad1) && StrLe(net2, broad2) && Compare(net1, net2, broad1, broad2)
    ensures StrLe(net1, x) && StrLe(x, broad1) && StrLe(net2, x) && StrLe(x, broad2)
  {
    Util.StrLessTotal(net1, net2);
    Util.StrLessTotal(net1, net1);
    Util.StrLessTotal(net2, net2);
    x := if Util.StrLess(net1, net2) then net2 else net1;
  }

  // ----------------------------------------------------------- broadcast

  /** What int(octet) | inttobin(k) leaves: the low k bits of v set, the others kept. */
  function Fill(v: int, k: nat): int { v - v % Pow2(k) + Pow2(k) - 1 }

  /** The host-bit count of the one octet the loop touches: never more than 8. */
  function Touched(subnet: int): nat requires subnet >= 0 { if subnet < 8 then subnet else 8 }

  /**
   * The broadcast string networkcheck builds for one network and its host-bit
   * count `subnet` (32 minus the prefix length): the first four '.'-fields
   * concatenated, the fourth with its low bits set when subnet >= 0. Fewer than
   * four fields raise IndexError; a fourth field int() refuses raises ValueError.
   */
  function BroadcastOf(network: string, subnet: int): (r: Result<string, Exc>)
  {
    var net := Split(network, '.');
    if |net| < 4 then Err(IndexError)
    else if subnet < 0 then Ok(net[0] + net[1] + net[2] + net[3])
    else match PyInt(net[3])
      case None => Err(ValueError)
      case Some(v) => Ok(net[0] + net[1] + net[2] + IntToDec(Fill(v, Touched(subnet))))
  }

  /** OR-ing a value whose low 8 bits are set with fewer ones changes nothing. */
  lemma FillTwice(v: int, k: nat)
    requires k <= 8
    ensures Fill(Fill(v, 8), k) == Fill(v, 8)
  {
    Pow2Consts();
    Pow2Add(8 - k, k);
    assert 8 - k + k == 8;
    var p, q, t := Pow2(k), Pow2(8 - k), v / 256;
    assert q * p == 256;
    assert Fill(v, 8) == 256 * t + 255;
    FillArith(t, p, q);
    DivModUnique(Fill(v, 8), p, q * t + q - 1, p - 1);
  }

  lemma FillArith(t: int, p: int, q: int)
    requires q * p == 256 && p >= 1
    ensures 256 * t + 255 == (q * t + q - 1) * p + (p - 1)
  {
    assert (q * t + q - 1) * p == q * p * t + q * p - p;
  }

  /** One pass of the loop body leaves the octet at its final value. */
  lemma FillStep(v0: int, x: int, subnet: int, s: int, mask: int)
    requires 0 <= s <= subnet && mask == Pow2(Touched(s)) - 1
    requires s == subnet ==> x == v0
    requires s < subnet ==> subnet >= 8 && x == Fill(v0, 8)
    ensures Or(x, mask) == Fill(v0, Touched(subnet))
  {
    OrLowOnes(x, Touched(s));
    if s < subnet {
      FillTwice(v0, Touched(s));
    }
  }

  /**
   * The two while loops of networkcheck for one network: while subnet >= 0,
   * net[3] becomes str(int(net[3]) | inttobin(min(subnet, 8))) and subnet
   * drops by 8 (j is never advanced); then the four fields are concatenated.
   */
  method Broadcast(network: string, subnet: int) returns (r: Result<string, Exc>)
    ensures r == BroadcastOf(network, subnet)
  {
    var net := Split(network, '.');
    ghost var orig := net;
    ghost var v0: int := 0;
    var s := subnet;
    var j := 3;
    while s >= 0
      invariant s <= subnet
      invariant s == subnet ==> net == orig
      invariant s < subnet ==> subnet >= 0 && s <= subnet - 8 && |orig| >= 4 && PyInt(orig[3]) == Some(v0)
      invariant s < subnet ==> net == orig[3 := IntToDec(Fill(v0, Touched(subnet)))]
      decreases s
    {
      if s < subnet {
        PyIntOfInt(Fill(v0, Touched(subnet)));
      }
      if |net| <= j {
        return Err(IndexError);
      }
      var x := PyInt(net[j]);
      if x.None? {
        return Err(ValueError);
      }
      if s == subnet {
        v0 := x.value;
      }
      var mask;
      if s < 8 {
        s := s % 8;
        mask := Inttobin(s);
      } else {
        mask := Inttobin(8);
      }
      FillStep(v0, x.value, subnet, s, mask);
      net := net[j := IntToDec(Or(x.value, mask))];
      s := s - 8;
    }
    if |net| < 4 {
      return Err(IndexError);
    }
    return Ok(net[0] + net[1] + net[2] + net[3]);
  }

  /** The filled octet has its low k bits set and every higher bit of v. */
  lemma FillMeaning(v: int, k: nat)
    ensures Fill(v, k) % Pow2(k) == Pow2(k) - 1 && Fill(v, k) / Pow2(k) == v / Pow2(k)
  {
    var p := Pow2(k);
    assert Fill(v, k) == (v / p) * p + (p - 1);
    DivModUnique(Fill(v, k), p, v / p, p - 1);
  }

  // -------------------------------------------------------- networkcheck

  /**
   * The body of networkcheck's for loop for one adjacent pair: split each entry
   * at '/' into exactly two parts (else ValueError), int() both prefix lengths,
   * build both broadcast strings and compare the dotted networks with them.
   */
  function PairCheck(x: string, y: string): (r: Result<bool, Exc>)
  {
    PairFrom(Split(x, '/'), Split(y, '/'))
  }

  /** The same step on the two '/'-splits. */
  function PairFrom(p1: seq<string>, p2: seq<string>): (r: Result<bool, Exc>)
  {
    if |p1| != 2 || |p2| != 2 then Err(ValueError)
    else if PyInt(p1[1]).None? || PyInt(p2[1]).None? then Err(ValueError)
    else
      var b1 := BroadcastOf(p1[0], 32 - PyInt(p1[1]).value);
      var b2 := BroadcastOf(p2[0], 32 - PyInt(p2[1]).value);
      if b1.Err? then Err(b1.error)
      else if b2.Err? then Err(b2.error)
      else Ok(Compare(p1[0], p2[0], b1.value, b2.value))
  }

  method PairStep(x: string, y: string) returns (r: Result<bool, Exc>)
    ensures r == PairCheck(x, y)
  {
    var p1 := Split(x, '/');
    var p2 := Split(y, '/');
    if |p1| != 2 || |p2| != 2 {
      return Err(ValueError);
    }
    var subnet1 := PyInt(p1[1]);
    var subnet2 := PyInt(p2[1]);
    if subnet1.None? || subnet2.None? {
      return Err(ValueError);
    }
    var broadcast1 := Broadcast(p1[0], 32 - subnet1.value);
    if broadcast1.Err? {
      return Err(broadcast1.error);
    }
    var broadcast2 := Broadcast(p2[0], 32 - subnet2.value);
    if broadcast2.Err? {
      return Err(broadcast2.error);
    }
    return Ok(Compare(p1[0], p2[0], broadcast1.value, broadcast2.value));
  }

  /** The loop from index i on, for a pair step f: the first pair that raises or coincides decides; Ok(false) stands for None. */
  function CheckBy(f: (string, string) -> Result<bool, Exc>, s: seq<string>, i: nat): Result<bool, Exc>
    decreases |s| - i
  {
    if i + 1 >= |s| then Ok(false)
    else
      var c := f(s[i], s[i + 1]);
      if c == Ok(false) then CheckBy(f, s, i + 1) else c
  }

  /** What networkcheck returns on the sorted list. */
  function Check(s: seq<string>): Result<bool, Exc> { CheckBy(PairCheck, s, 0) }

  /** The sorted order Python's list.sort() gives strings. */
  function SortStrings(s: seq<string>): (r: seq<string>)
    ensures multiset(r) == multiset(s)
    ensures forall i, j :: 0 <= i < j < |r| ==> StrLe(r[i], r[j])
  {
    Util.SortByCorrect(s, Util.Plain);
    var r := Util.SortBy(s, Util.Plain);
    forall i, j | 0 <= i < j < |r| ensures StrLe(r[i], r[j]) {
      Util.PlainLess(r[j], r[i]);
    }
    r
  }

  /**
   * networkcheck(ipbaseargs): sorts the list in place, then checks each
   * adjacent pair; True at the first pair compare() accepts, None (false here)
   * when none does.
   */
  method Networkcheck(ipbaseargs: PyList) returns (r: Result<bool, Exc>)
    modifies ipbaseargs
    ensures ipbaseargs.items == SortStrings(old(ipbaseargs.items))
    ensures r == Check(ipbaseargs.items)
  {
    ipbaseargs.items := SortStrings(ipbaseargs.items);
    var s := ipbaseargs.items;
    var index := 0;
    while index + 1 < |s|
      invariant s == ipbaseargs.items && Check(s) == CheckBy(PairCheck, s, index)
    {
      var c := PairStep(s[index], s[index + 1]);
      if c != Ok(false) {
        return c;
      }
      index := index + 1;
    }
    return Ok(false);
  }

  /** A check that reports coincidence or an error names the first pair that did, after pairs that passed. */
  lemma {:induction false} CheckByStops(f: (string, string) -> Result<bool, Exc>, s: seq<string>, i: nat) returns (k: nat)
    requires CheckBy(f, s, i) != Ok(false)
    ensures i <= k && k + 1 < |s| && CheckBy(f, s, i) == f(s[k], s[k + 1])
    ensures forall m :: i <= m < k ==> f(s[m], s[m + 1]) == Ok(false)
    decreases |s| - i
  {
    if f(s[i], s[i + 1]) == Ok(false) {
      k := CheckByStops(f, s, i + 1);
    } else {
      k := i;
    }
  }

  /** The check gives None exactly when every adjacent pair from i on passes. */
  lemma {:induction false} CheckByNone(f: (string, string) -> Result<bool, Exc>, s: seq<string>, i: nat)
    ensures CheckBy(f, s, i) == Ok(false) <==>
      forall m :: i <= m && m + 1 < |s| ==> f(s[m], s[m + 1]) == Ok(false)
    decreases |s| - i
  {
    if i + 1 < |s| {
      CheckByNone(f, s, i + 1);
    }
  }

  /** networkcheck returns True, or raises, at the first adjacent pair that does so, after pairs that all passed. */
  lemma CheckStops(s: seq<string>) returns (k: nat)
    requires Check(s) != Ok(false)
    ensures k + 1 < |s| && Check(s) == PairCheck(s[k], s[k + 1])
    ensures forall m :: 0 <= m < k ==> PairCheck(s[m], s[m + 1]) == Ok(false)
  {
    k := CheckByStops(PairCheck, s, 0);
  }

  /** networkcheck returns None exactly when no adjacent pair coincides or raises. */
  lemma CheckNone(s: seq<string>)
    ensures Check(s) == Ok(false) <==> forall m :: 0 <= m && m + 1 < |s| ==> PairCheck(s[m], s[m + 1]) == Ok(false)
  {
    CheckByNone(PairCheck, s, 0);
  }

  // ------------------------------------------------- getipbasefornetwork

  /**
   * getipbasefornetwork(ipdefaultbase, index): the first octet int()-ed plus
   * index, then the next three octets and the text after the first '/'.
   * int() fails first (ValueError); a missing octet or prefix is an IndexError.
   */
  function GetIpBase(ipdefaultbase: string, index: int): (r: Result<string, Exc>)
  {
    var addr := Split(ipdefaultbase, '/');
    BaseOf(addr, Split(addr[0], '.'), index)
  }

  /** getIpBase on the '/'-fields addr of the base and the '.'-fields netw of its network. */
  function BaseOf(addr: seq<string>, netw: seq<string>, index: int): Result<string, Exc>
    requires |addr| >= 1 && |netw| >= 1
  {
    if PyInt(netw[0]).None? then Err(ValueError)
    else if |netw| < 4 || |addr| < 2 then Err(IndexError)
    else Ok(IntToDec(PyInt(netw[0]).value + index) + "." + netw[1] + "." + netw[2] + "." + netw[3] + "/" + addr[1])
  }

  /**
   * A base that parses comes back with index added to its first octet, the
   * other three octets unchanged and the prefix after '/' unchanged; stated on
   * the fields of the base, which split into parts free of their separators.
   */
  lemma GetIpBaseFields(addr: seq<string>, netw: seq<string>, index: int)
    requires |addr| >= 1 && |netw| >= 1
    requires forall k :: 0 <= k < |addr| ==> '/' !in addr[k]
    requires forall k :: 0 <= k < |netw| ==> '.' !in netw[k] && '/' !in netw[k]
    ensures BaseOf(addr, netw, index).Ok? <==> PyInt(netw[0]).Some? && |netw| >= 4 && |addr| >= 2
    ensures var r := BaseOf(addr, netw, index);
      r.Ok? ==>
        var parts := Split(r.value, '/');
        |parts| == 2 && parts[1] == addr[1]
        && var q := Split(parts[0], '.');
        |q| == 4 && q[0] == IntToDec(PyInt(netw[0]).value + index) && q[1] == netw[1] && q[2] == netw[2] && q[3] == netw[3]
        && PyInt(q[0]) == Some(PyInt(netw[0]).value + index)
  {
    var r := BaseOf(addr, netw, index);
    if r.Ok? {
      var v := PyInt(netw[0]).value + index;
      IntToDecChars(v, '.');
      IntToDecChars(v, '/');
      Rejoin(IntToDec(v), netw[1], netw[2], netw[3], addr[1]);
      var net := IntToDec(v) + "." + netw[1] + "." + netw[2] + "." + netw[3];
      assert r.value == net + "/" + addr[1];
      var parts := Split(r.value, '/');
      assert parts[0] == net && Split(parts[0], '.')[0] == IntToDec(v);
      PyIntOfInt(v);
    }
  }

  /** Four octets and a prefix, free of separators, split back apart. */
  lemma Rejoin(w: string, x: string, y: string, z: string, prefix: string)
    requires '.' !in w && '.' !in x && '.' !in y && '.' !in z
    requires '/' !in w && '/' !in x && '/' !in y && '/' !in z && '/' !in prefix
    ensures var net := w + "." + x + "." + y + "." + z;
      Split(net + "/" + prefix, '/') == [net, prefix] && Split(net, '.') == [w, x, y, z]
  {
    var net := w + "." + x + "." + y + "." + z;
    Addr.SplitFour(w, x, y, z);
    assert '/' !in net;
    assert net + "/" + prefix == net + ['/'] + prefix;
    SplitPrefix(net, prefix, '/');
    SplitNoSep(prefix, '/');
  }

  /** Bumping by i and then by j is bumping by i + j. */
  lemma GetIpBaseCompose(ipdefaultbase: string, i: int, j: int)
    requires GetIpBase(ipdefaultbase, i).Ok?
    ensures GetIpBase(GetIpBase(ipdefaultbase, i).value, j) == GetIpBase(ipdefaultbase, i + j)
  {
    var addr := Split(ipdefaultbase, '/');
    var netw := Split(addr[0], '.');
    SplitKeepsOut(addr[0], '.', '/');
    GetIpBaseFields(addr, netw, i);
    assert GetIpBase(ipdefaultbase, i) == BaseOf(addr, netw, i);
    var r := GetIpBase(ipdefaultbase, i).value;
    var addr2 := Split(r, '/');
    var netw2 := Split(addr2[0], '.');
    SplitKeepsOut(addr2[0], '.', '/');
    assert GetIpBase(r, j) == BaseOf(addr2, netw2, j);
    assert GetIpBase(ipdefaultbase, i + j) == BaseOf(addr, netw, i + j);
  }

  // ------------------------------------- networkcheck on disjoint networks

  /**
   * As written, the dotted network is compared with a broadcast string whose
   * fields are run together, and only the fourth octet is ever filled in:
   * 10.0.0.0/24 and 10.0.1.0/24 share no address, yet networkcheck reports
   * them as coinciding.
   */
  lemma PairCheckDisjointCoincide()
    ensures PairCheck("10.0.0.0/24", "10.0.1.0/24") == Ok(true)
  {
    var x, y := "10.0.0.0/24", "10.0.1.0/24";
    SlashNet1();
    SlashNet2();
    Dec24();
    BroadcastNets();
    RunTogetherOrder();
    PairFromOf(Split(x, '/'), Split(y, '/'));
  }

  /** The dotted networks sort no later than the run-together broadcasts. */
  lemma RunTogetherOrder()
    ensures !Util.StrLess("1001255", "10.0.0.0") && !Util.StrLess("1000255", "10.0.1.0")
  {
  }

  /** The pair step once each of its parts is known. */
  lemma PairFromOf(p1: seq<string>, p2: seq<string>)
    requires |p1| == 2 && |p2| == 2 && PyInt(p1[1]).Some? && PyInt(p2[1]).Some?
    requires BroadcastOf(p1[0], 32 - PyInt(p1[1]).value).Ok? && BroadcastOf(p2[0], 32 - PyInt(p2[1]).value).Ok?
    ensures PairFrom(p1, p2) == Ok(Compare(p1[0], p2[0],
      BroadcastOf(p1[0], 32 - PyInt(p1[1]).value).value, BroadcastOf(p2[0], 32 - PyInt(p2[1]).value).value))
  {
  }

  /** Both example broadcasts. */
  lemma BroadcastNets()
    ensures BroadcastOf("10.0.0.0", 8) == Ok("1000255") && BroadcastOf("10.0.1.0", 8) == Ok("1001255")
  {
    DecOctets();
    Broadcast1();
    Broadcast2();
  }

  lemma Broadcast1()
    requires PyInt("0") == Some(0) && IntToDec(255) == "255"
    ensures BroadcastOf("10.0.0.0", 8) == Ok("1000255")
  {
    DotNet1();
    BroadcastLast("10.0.0.0", "1000");
    Glued();
  }

  lemma Broadcast2()
    requires PyInt("0") == Some(0) && IntToDec(255) == "255"
    ensures BroadcastOf("10.0.1.0", 8) == Ok("1001255")
  {
    DotNet2();
    BroadcastLast("10.0.1.0", "1001");
    Glued();
  }

  lemma Glued()
    ensures "1000" + "255" == "1000255" && "1001" + "255" == "1001255"
  {
    var c, d := "1000" + "255", "1001" + "255";
    assert |c| == 7 && c[0] == '1' && c[1] == '0' && c[2] == '0' && c[3] == '0' && c[4] == '2' && c[5] == '5' && c[6] == '5';
    assert |d| == 7 && d[0] == '1' && d[1] == '0' && d[2] == '0' && d[3] == '1' && d[4] == '2' && d[5] == '5' && d[6] == '5';
  }

  lemma SlashNet1()
    ensures var p := Split("10.0.0.0/24", '/'); |p| == 2 && p[0] == "10.0.0.0" && p[1] == "24"
  {
    var a, b := "10.0.0.0", "24";
    assert '/' !in a && '/' !in b;
    SplitSlash(a, b);
    assert "10.0.0.0/24" == a + "/" + b;
  }

  lemma SlashNet2()
    ensures var p := Split("10.0.1.0/24", '/'); |p| == 2 && p[0] == "10.0.1.0" && p[1] == "24"
  {
    var a, b := "10.0.1.0", "24";
    assert '/' !in a && '/' !in b;
    SplitSlash(a, b);
    assert "10.0.1.0/24" == a + "/" + b;
  }

  lemma DotNet1()
    ensures var p := Split("10.0.0.0", '.'); |p| == 4 && p[0] + p[1] + p[2] == "1000" && p[3] == "0"
  {
    var w, x := "10", "0";
    assert '.' !in w && '.' !in x;
    Addr.SplitFour(w, x, x, x);
    assert "10.0.0.0" == w + "." + x + "." + x + "." + x;
    var c := w + x + x;
    assert |c| == 4 && c[0] == '1' && c[1] == '0' && c[2] == '0' && c[3] == '0';
    assert c == "1000";
  }

  lemma DotNet2()
    ensures var p := Split("10.0.1.0", '.'); |p| == 4 && p[0] + p[1] + p[2] == "1001" && p[3] == "0"
  {
    var w, x, y := "10", "0", "1";
    assert '.' !in w && '.' !in x && '.' !in y;
    Addr.SplitFour(w, x, y, x);
    assert "10.0.1.0" == w + "." + x + "." + y + "." + x;
    var c := w + x + y;
    assert |c| == 4 && c[0] == '1' && c[1] == '0' && c[2] == '0' && c[3] == '1';
    assert c == "1001";
  }

  /** a/b splits at '/' into a and b when neither holds a '/'. */
  lemma SplitSlash(a: string, b: string)
    requires '/' !in a && '/' !in b
    ensures Split(a + "/" + b, '/') == [a, b]
  {
    assert a + "/" + b == a + ['/'] + b;
    SplitPrefix(a, b, '/');
    SplitNoSep(b, '/');
  }

  /** int() and str() of the example's numbers. */
  lemma DecOctets()
    ensures PyInt("24") == Some(24) && PyInt("0") == Some(0) && IntToDec(255) == "255"
  {
    Dec24();
    Dec0();
    Dec255();
  }

  lemma Dec0()
    ensures PyInt("0") == Some(0)
  {
    var b := "0";
    assert AllDigits(b);
    PyIntOfDigits(b);
  }

  lemma Dec255()
    ensures IntToDec(255) == "255"
  {
    assert NatToDec(255) == NatToDec(25) + "5";
    assert NatToDec(25) == NatToDec(2) + "5";
  }

  lemma Dec24()
    ensures PyInt("24") == Some(24)
  {
    var a := "24";
    assert AllDigits(a);
    PyIntOfDigits(a);
    assert DecValue(a) == DecValue("2") * 10 + 4 by { assert a[..1] == "2"; }
  }

  /** A network whose fourth field is "0", with all 8 host bits of that octet set. */
  lemma BroadcastLast(net: string, front: string)
    requires PyInt("0") == Some(0) && IntToDec(255) == "255"
    requires var p := Split(net, '.'); |p| == 4 && p[0] + p[1] + p[2] == front && p[3] == "0"
    ensures BroadcastOf(net, 8) == Ok(front + "255")
  {
    Pow2Consts();
    assert Fill(0, 8) == 255;
  }

  // ------------------------------------- the evidently intended comparison

  /** The first and last address of the network that holds ip and has hostBits host bits. */
  function NetRange(ip: int, hostBits: nat): (r: (int, int))
    ensures r.0 <= r.1
  {
    var lo := ip - ip % Pow2(hostBits);
    (lo, lo + Pow2(hostBits) - 1)
  }

  /** a lies in the network of ip: the two agree above the host bits. */
  predicate InNet(a: int, ip: int, hostBits: nat) { a / Pow2(hostBits) == ip / Pow2(hostBits) }

  /** The range holds exactly the addresses that agree with ip above the host bits. */
  lemma NetRangeMembers(ip: int, hostBits: nat, a: int)
    ensures NetRange(ip, hostBits).0 <= a <= NetRange(ip, hostBits).1 <==> InNet(a, ip, hostBits)
  {
    var p := Pow2(hostBits);
    var lo := ip - ip % p;
    assert lo == ip / p * p;
    if lo <= a <= lo + p - 1 {
      DivModUnique(a, p, ip / p, a - lo);
    }
    if InNet(a, ip, hostBits) {
      assert a == a / p * p + a % p;
    }
  }

  /** Two ranges meet when neither ends before the other starts. */
  predicate Meet(r1: (int, int), r2: (int, int)) { r1.0 <= r2.1 && r2.0 <= r1.1 }

  /**
   * The pair step as its comment evidently intends: both networks parsed with
   * ipParse, the prefix lengths kept within 0..32 (else ValueError), and the
   * two address ranges tested for a shared address.
   */
  function IntendedPairFrom(p1: seq<string>, p2: seq<string>): (r: Result<bool, Exc>)
  {
    if |p1| != 2 || |p2| != 2 then Err(ValueError)
    else if PyInt(p1[1]).None? || PyInt(p2[1]).None? then Err(ValueError)
    else if !(0 <= PyInt(p1[1]).value <= 32 && 0 <= PyInt(p2[1]).value <= 32) then Err(ValueError)
    else IntendedMeet(Addr.IpParse(p1[0]), Addr.IpParse(p2[0]), 32 - PyInt(p1[1]).value, 32 - PyInt(p2[1]).value)
  }

  /** The last stage of the corrected step, on the parsed networks and their host-bit counts. */
  function IntendedMeet(ip1: Result<int, Exc>, ip2: Result<int, Exc>, h1: nat, h2: nat): Result<bool, Exc> {
    if ip1.Err? then Err(ip1.error)
    else if ip2.Err? then Err(ip2.error)
    else Ok(Meet(NetRange(ip1.value, h1), NetRange(ip2.value, h2)))
  }

  function IntendedPairCheck(x: string, y: string): Result<bool, Exc> {
    IntendedPairFrom(Split(x, '/'), Split(y, '/'))
  }

  /** Two networks meet exactly when some address lies in both. */
  lemma MeetIffShared(ip1: int, h1: nat, ip2: int, h2: nat)
    ensures Meet(NetRange(ip1, h1), NetRange(ip2, h2)) <==> exists a :: InNet(a, ip1, h1) && InNet(a, ip2, h2)
  {
    var r1, r2 := NetRange(ip1, h1), NetRange(ip2, h2);
    if Meet(r1, r2) {
      var a := if r1.0 < r2.0 then r2.0 else r1.0;
      NetRangeMembers(ip1, h1, a);
      NetRangeMembers(ip2, h2, a);
    }
    if exists a :: InNet(a, ip1, h1) && InNet(a, ip2, h2) {
      var a :| InNet(a, ip1, h1) && InNet(a, ip2, h2);
      NetRangeMembers(ip1, h1, a);
      NetRangeMembers(ip2, h2, a);
    }
  }

  /** The corrected step reports a pair as coinciding exactly when the two networks share an address. */
  lemma IntendedMeetMeaning(ip1: Result<int, Exc>, ip2: Result<int, Exc>, h1: nat, h2: nat)
    requires IntendedMeet(ip1, ip2, h1, h2).Ok?
    ensures ip1.Ok? && ip2.Ok?
    ensures IntendedMeet(ip1, ip2, h1, h2).value <==> exists a :: InNet(a, ip1.value, h1) && InNet(a, ip2.value, h2)
  {
    MeetIffShared(ip1.value, h1, ip2.value, h2);
  }

  /** The corrected step rejects what it cannot parse, with the error of the parse that failed. */
  lemma IntendedPairErrors(p1: seq<string>, p2: seq<string>)
    ensures IntendedPairFrom(p1, p2).Err? <==>
      |p1| != 2 || |p2| != 2 || PyInt(p1[1]).None? || PyInt(p2[1]).None? ||
      !(0 <= PyInt(p1[1]).value <= 32 && 0 <= PyInt(p2[1]).value <= 32) ||
      Addr.IpParse(p1[0]).Err? || Addr.IpParse(p2[0]).Err?
  {
  }

  /** The two adjacent /24 networks of the as-written example do not meet under the corrected step. */
  lemma IntendedDisjoint()
    ensures IntendedPairCheck("10.0.0.0/24", "10.0.1.0/24") == Ok(false)
  {
    var x, y := "10.0.0.0/24", "10.0.1.0/24";
    SlashNet1();
    SlashNet2();
    Dec24();
    IpTen(0);
    IpTen(1);
    IntendedFromOf(Split(x, '/'), Split(y, '/'), 167772160, 167772416);
    AdjacentRanges();
  }

  lemma IntendedFromOf(p1: seq<string>, p2: seq<string>, ip1: int, ip2: int)
    requires |p1| == 2 && |p2| == 2 && PyInt(p1[1]) == Some(24) && PyInt(p2[1]) == Some(24)
    requires Addr.IpParse(p1[0]) == Ok(ip1) && Addr.IpParse(p2[0]) == Ok(ip2)
    ensures IntendedPairFrom(p1, p2) == IntendedMeet(Ok(ip1), Ok(ip2), 8, 8)
  {
  }

  lemma AdjacentRanges()
    ensures IntendedMeet(Ok(167772160), Ok(167772416), 8, 8) == Ok(false)
  {
    Pow2Consts();
  }

  /** "10.0.c.0" parses to the number of 10.0.c.0, for the third octet c of the example. */
  lemma IpTen(c: nat)
    requires c <= 1
    ensures Addr.IpParse(if c == 0 then "10.0.0.0" else "10.0.1.0") == Ok(167772160 + c * 256)
  {
    Addr.IpParseDotted(10, 0, c, 0);
    DottedTen(c);
  }

  lemma DottedTen(c: nat)
    requires c <= 1
    ensures Addr.Dotted(10, 0, c, 0) == if c == 0 then "10.0.0.0" else "10.0.1.0"
  {
    assert NatToDec(10) == "10" by { assert NatToDec(1) == "1"; }
    var d := Addr.Dotted(10, 0, c, 0);
    var t := if c == 0 then "10.0.0.0" else "10.0.1.0";
    assert d == "10" + "." + "0" + "." + NatToDec(c) + "." + "0";
    assert |d| == 8 && d[0] == '1' && d[1] == '0' && d[2] == '.' && d[3] == '0' && d[4] == '.' && d[6] == '.' && d[7] == '0';
    assert d[5] == t[5];
  }
}
