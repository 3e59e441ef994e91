// IP and MAC address formatting and parsing of mininet/util.py.
module Addr {
  import opened Wrappers
  import opened Text
  import opened Bits

  // ---------------------------------------------------------- ipStr/ipNum

  /** (ip >> k) & 0xff, for the divisor d = 2^k. */
  function Octet(ip: int, d: nat): (o: nat)
    requires d > 0
    ensures o < 256
  {
    ip / d % 256
  }

  function Dotted(w: nat, x: nat, y: nat, z: nat): string {
    NatToDec(w) + "." + NatToDec(x) + "." + NatToDec(y) + "." + NatToDec(z)
  }

  /** ipStr: "%i.%i.%i.%i" of ip >> 24, >> 16, >> 8 and ip, each & 0xff. */
  function IpStr(ip: int): string {
    Dotted(Octet(ip, 16777216), Octet(ip, 65536), Octet(ip, 256), Octet(ip, 1))
  }

  /** ipNum: w << 24 | x << 16 | y << 8 | z. */
  function IpNum(w: int, x: int, y: int, z: int): int {
    Or(Or(Or(w * 16777216, x * 65536), y * 256), z)
  }

  /** For x, y, z in 0..255 the ORs of ipNum are additions. */
  lemma IpNumOctets(w: int, x: int, y: int, z: int)
    requires 0 <= x < 256 && 0 <= y < 256 && 0 <= z < 256
    ensures IpNum(w, x, y, z) == w * 16777216 + x * 65536 + y * 256 + z
  {
    OrHigh(w, x);
    OrMiddle(w, x, y);
    OrLow(w, x, y, z);
  }

  lemma OrHigh(w: int, x: int)
    requires 0 <= x < 256
    ensures Or(w * 16777216, x * 65536) == w * 16777216 + x * 65536
  {
    Pow2Consts();
    OrShiftAt(w, x * 65536, 24, 16777216, w * 16777216);
  }

  lemma OrMiddle(w: int, x: int, y: int)
    requires 0 <= y < 256
    ensures Or(w * 16777216 + x * 65536, y * 256) == w * 16777216 + x * 65536 + y * 256
  {
    Pow2Consts();
    OctetShifts(w, x, y);
    OrShiftAt(w * 256 + x, y * 256, 16, 65536, w * 16777216 + x * 65536);
  }

  lemma OrLow(w: int, x: int, y: int, z: int)
    requires 0 <= z < 256
    ensures Or(w * 16777216 + x * 65536 + y * 256, z) == w * 16777216 + x * 65536 + y * 256 + z
  {
    Pow2Consts();
    OctetShifts(w, x, y);
    OrShiftAt(w * 65536 + x * 256 + y, z, 8, 256, w * 16777216 + x * 65536 + y * 256);
  }

  /** OrShiftAdd with the shifted value and the power of two given by name. */
  lemma OrShiftAt(v: int, low: int, k: nat, p: int, a: int)
    requires p == Pow2(k) && a == v * p && 0 <= low < p
    ensures Or(a, low) == a + low
  {
    OrShiftAdd(v, low, k);
  }

  lemma OctetShifts(w: int, x: int, y: int)
    ensures (w * 256 + x) * 65536 == w * 16777216 + x * 65536
    ensures (w * 65536 + x * 256 + y) * 256 == w * 16777216 + x * 65536 + y * 256
  {
  }

  // ------------------------------------------------------------- ipParse

  /** [int(arg) for arg in fields], None at the first ValueError. */
  function ParseInts(fields: seq<string>): (r: Option<seq<int>>)
    ensures r.Some? ==> |r.value| == |fields|
  {
    if fields == [] then Some([])
    else match PyInt(fields[0])
      case None => None
      case Some(v) =>
        match ParseInts(fields[1..])
          case None => None
          case Some(vs) => Some([v] + vs)
  }

  /** ParseInts succeeds exactly when int() accepts every field, and then holds their values. */
  lemma {:induction false} ParseIntsSpec(fields: seq<string>)
    ensures ParseInts(fields).Some? <==> forall i :: 0 <= i < |fields| ==> PyInt(fields[i]).Some?
    ensures ParseInts(fields).Some? ==>
      forall i :: 0 <= i < |fields| ==> PyInt(fields[i]) == Some(ParseInts(fields).value[i])
  {
    if fields != [] {
      ParseIntsSpec(fields[1..]);
      assert forall i :: 1 <= i < |fields| ==> fields[i] == fields[1..][i - 1];
    }
  }

  /** ipParse: int() of each '.'-field, then ipNum(*args), which needs exactly four. */
  function IpParse(ip: string): Result<int, Exc> {
    match ParseInts(Split(ip, '.'))
      case None => Err(ValueError)
      case Some(args) =>
        if |args| != 4 then Err(TypeError) else Ok(IpNum(args[0], args[1], args[2], args[3]))
  }

  lemma DecNoDot(n: nat)
    ensures '.' !in NatToDec(n) && '/' !in NatToDec(n) && ':' !in NatToDec(n)
  {
    var s := NatToDec(n);
    assert forall i :: 0 <= i < |s| ==> s[i] != '.' && s[i] != '/' && s[i] != ':';
  }

  /** The decimal renderings of a list of numbers. */
  function Decs(vs: seq<nat>): (r: seq<string>)
    ensures |r| == |vs|
  {
    if vs == [] then [] else [NatToDec(vs[0])] + Decs(vs[1..])
  }

  lemma {:induction false} ParseIntsDecs(vs: seq<nat>)
    ensures ParseInts(Decs(vs)) == Some(vs)
  {
    if vs != [] {
      var ds := Decs(vs);
      assert ds[0] == NatToDec(vs[0]) && ds[1..] == Decs(vs[1..]);
      PyIntOfDec(vs[0]);
      ParseIntsDecs(vs[1..]);
      assert ParseInts(ds) == Some([vs[0]] + vs[1..]);
      assert [vs[0]] + vs[1..] == vs;
    }
  }

  lemma DottedFields(w: nat, x: nat, y: nat, z: nat)
    ensures Split(Dotted(w, x, y, z), '.') == [NatToDec(w), NatToDec(x), NatToDec(y), NatToDec(z)]
    ensures Split(Dotted(w, x, y, z), '.') == Decs([w, x, y, z])
  {
    DecNoDot(w); DecNoDot(x); DecNoDot(y); DecNoDot(z);
    SplitFour(NatToDec(w), NatToDec(x), NatToDec(y), NatToDec(z));
    DecsFour(w, x, y, z);
  }

  /** Four dot-free fields joined by dots split back into the four. */
  lemma SplitFour(a: string, b: string, c: string, d: string)
    requires '.' !in a && '.' !in b && '.' !in c && '.' !in d
    ensures Split(a + "." + b + "." + c + "." + d, '.') == [a, b, c, d]
  {
    var parts := [a, b, c, d];
    JoinFour(a, b, c, d);
    assert forall i :: 0 <= i < |parts| ==> '.' !in parts[i];
    SplitJoin(parts, '.');
  }

  lemma JoinFour(a: string, b: string, c: string, d: string)
    ensures Join([a, b, c, d], '.') == a + "." + b + "." + c + "." + d
  {
    JoinCons(c, [d], '.');
    JoinCons(b, [c] + [d], '.');
    JoinCons(a, [b] + ([c] + [d]), '.');
    assert [a] + ([b] + ([c] + [d])) == [a, b, c, d];
  }

  lemma JoinCons(x: string, rest: seq<string>, c: char)
    requires rest != []
    ensures Join([x] + rest, c) == x + [c] + Join(rest, c)
  {
    assert ([x] + rest)[1..] == rest;
  }

  lemma DecsFour(w: nat, x: nat, y: nat, z: nat)
    ensures Decs([w, x, y, z]) == [NatToDec(w), NatToDec(x), NatToDec(y), NatToDec(z)]
  {
    DecsCons(z, []);
    DecsCons(y, [z]);
    DecsCons(x, [y, z]);
    DecsCons(w, [x, y, z]);
    assert [z] == [z] + [];
    assert [y, z] == [y] + [z];
    assert [x, y, z] == [x] + [y, z];
    assert [w, x, y, z] == [w] + [x, y, z];
  }

  lemma DecsCons(v: nat, vs: seq<nat>)
    ensures Decs([v] + vs) == [NatToDec(v)] + Decs(vs)
  {
    assert ([v] + vs)[1..] == vs;
  }

  lemma ParseDottedFields(w: nat, x: nat, y: nat, z: nat)
    ensures ParseInts(Split(Dotted(w, x, y, z), '.')) == Some([w, x, y, z])
  {
    DottedFields(w, x, y, z);
    ParseIntsDecs([w, x, y, z]);
  }

  /** Parsing dotted octets gives them back as ipNum's four arguments. */
  lemma IpParseDotted(w: nat, x: nat, y: nat, z: nat)
    requires w < 256 && x < 256 && y < 256 && z < 256
    ensures IpParse(Dotted(w, x, y, z)) == Ok(w * 16777216 + x * 65536 + y * 256 + z)
  {
    ParseDottedFields(w, x, y, z);
    IpNumOctets(w, x, y, z);
  }

  /** Every 32-bit address survives ipStr then ipParse. */
  lemma IpParseIpStr(n: int)
    requires 0 <= n < 4294967296
    ensures IpParse(IpStr(n)) == Ok(n)
  {
    var z := n % 256;
    var n1 := n / 256;
    var y := n1 % 256;
    var n2 := n1 / 256;
    var x := n2 % 256;
    var w := n2 / 256;
    assert n == 256 * n1 + z && n1 == 256 * n2 + y && n2 == 256 * w + x;
    assert n == w * 16777216 + x * 65536 + y * 256 + z;
    assert w < 256;
    DivModUnique(n, 16777216, w, x * 65536 + y * 256 + z);
    DivModUnique(n, 65536, n2, y * 256 + z);
    DivModUnique(n2, 256, w, x);
    DivModUnique(n1, 256, n2, y);
    assert Octet(n, 16777216) == w && Octet(n, 65536) == x && Octet(n, 256) == y && Octet(n, 1) == z;
    IpParseDotted(w, x, y, z);
  }

  /** ipStr prints four octets, each in 0..255, without leading zeros. */
  lemma IpStrShape(ip: int)
    ensures var f := Split(IpStr(ip), '.');
      |f| == 4 && forall i :: 0 <= i < 4 ==>
        (AllDigits(f[i]) && f[i] != [] && DecValue(f[i]) < 256 && (|f[i]| > 1 ==> f[i][0] != '0'))
  {
    var w, x, y, z := Octet(ip, 16777216), Octet(ip, 65536), Octet(ip, 256), Octet(ip, 1);
    DottedFields(w, x, y, z);
    DecRoundTrip(w); DecRoundTrip(x); DecRoundTrip(y); DecRoundTrip(z);
  }

  // --------------------------------------------------------------- ipAdd

  /** The top `p` bits of a 32-bit view of base, as an address. */
  function TopBits(base: int, p: nat): int
    requires p <= 32
  {
    base % Pow2(32) / Pow2(32 - p) * Pow2(32 - p)
  }

  /**
   * ipAdd: imax = 0xffffffff >> prefixLen; assert i <= imax;
   * mask = 0xffffffff ^ imax; ipStr((ipBaseNum & mask) + i).
   * A negative prefixLen is Python's ValueError "negative shift count".
   */
  function IpAdd(i: int, prefixLen: int, ipBaseNum: int): Result<string, Exc> {
    match IpAddNum(i, prefixLen, ipBaseNum)
      case Err(e) => Err(e)
      case Ok(n) => Ok(IpStr(n))
  }

  /** The number ipAdd formats. */
  function IpAddNum(i: int, prefixLen: int, ipBaseNum: int): Result<int, Exc> {
    if prefixLen < 0 then Err(ValueError)
    else
      var imax := 0xffffffff / Pow2(prefixLen);
      if i > imax then Err(AssertionError)
      else
        var mask := Xor(0xffffffff, imax);
        Ok(And(ipBaseNum, mask) + i)
  }

  lemma ShiftOnes(p: nat)
    requires p <= 32
    ensures 0xffffffff / Pow2(p) == Pow2(32 - p) - 1
  {
    assert Pow2(32) - 1 == 0xffffffff by { Pow2Consts(); }
    OnesDiv(32, p);
  }

  /** ipAdd accepts i exactly up to 2^(32-p) - 1 and adds it to the base's top p bits. */
  lemma IpAddTopBits(i: int, p: nat, base: int)
    requires p <= 32
    ensures IpAddNum(i, p, base).Ok? <==> i <= Pow2(32 - p) - 1
    ensures IpAddNum(i, p, base).Ok? ==> IpAddNum(i, p, base).value == TopBits(base, p) + i
  {
    ShiftOnes(p);
    MaskIsTopBits(base, p);
  }

  /** ipAdd's mask keeps the top p bits of the 32-bit base. */
  lemma MaskIsTopBits(base: int, p: nat)
    requires p <= 32
    ensures And(base, Xor(0xffffffff, 0xffffffff / Pow2(p))) == TopBits(base, p)
  {
    MaskValue(p);
    AndTopBits(base, p, Xor(0xffffffff, 0xffffffff / Pow2(p)));
  }

  /** mask = 0xffffffff ^ (0xffffffff >> p) is p ones followed by 32 - p zeros. */
  lemma MaskValue(p: nat)
    requires p <= 32
    ensures Xor(0xffffffff, 0xffffffff / Pow2(p)) == Pow2(32) - Pow2(32 - p)
  {
    assert 0xffffffff / Pow2(p) == Pow2(32 - p) - 1 by { ShiftOnes(p); }
    Pow2Consts();
    XorOnes(32, 32 - p);
  }

  lemma AndTopBits(base: int, p: nat, mask: int)
    requires p <= 32 && mask == Pow2(32) - Pow2(32 - p)
    ensures And(base, mask) == TopBits(base, p)
  {
    AndTop(base, 32, p, mask);
  }

  /** The AND with n - p high ones keeps the top p of n bits. */
  lemma AndTop(base: int, n: nat, p: nat, mask: int)
    requires p <= n && mask == Pow2(n) - Pow2(n - p)
    ensures And(base, mask) == base % Pow2(n) / Pow2(n - p) * Pow2(n - p)
  {
    AndMask(base, n, n - p);
  }

  /** A prefix length beyond 32 leaves only i = 0, which keeps the whole base. */
  lemma IpAddLongPrefix(i: int, p: nat, base: int)
    requires p > 32
    ensures IpAdd(i, p, base).Ok? <==> i <= 0
    ensures IpAdd(i, p, base).Ok? ==> IpAdd(i, p, base).value == IpStr(base % 4294967296 + i)
  {
    IpAddNumLong(i, p, base);
    IpAddOfNum(i, p, base, IpAddNum(i, p, base));
  }

  /** The number behind IpAddLongPrefix. */
  lemma IpAddNumLong(i: int, p: nat, base: int)
    requires p > 32
    ensures IpAddNum(i, p, base) == if i > 0 then Err(AssertionError) else Ok(base % 4294967296 + i)
  {
    var imax := 0xffffffff / Pow2(p);
    var mask := Xor(0xffffffff, imax);
    IpAddNumCases(i, p, base, imax, mask);
    LongImax(p);
    XorZero(0xffffffff);
    LowOnes32(base);
  }

  /** ipAdd formats the number IpAddNum computes. */
  lemma IpAddOfNum(i: int, p: int, base: int, n: Result<int, Exc>)
    requires IpAddNum(i, p, base) == n
    ensures n.Err? ==> IpAdd(i, p, base) == Err(n.error)
    ensures n.Ok? ==> IpAdd(i, p, base) == Ok(IpStr(n.value))
  {
  }

  /** ipAdd's number in terms of its imax and mask. */
  lemma IpAddNumCases(i: int, p: nat, base: int, imax: int, mask: int)
    requires imax == 0xffffffff / Pow2(p) && mask == Xor(0xffffffff, imax)
    ensures IpAddNum(i, p, base) == if i > imax then Err(AssertionError) else Ok(And(base, mask) + i)
  {
  }

  /** 0xffffffff >> p is 0 once p passes 32. */
  lemma LongImax(p: nat)
    requires p > 32
    ensures 0xffffffff / Pow2(p) == 0
  {
    Pow2Consts();
    Pow2Add(32, p - 32);
    assert Pow2(p) >= Pow2(32) by {
      assert Pow2(p - 32) >= 1;
    }
    DivModUnique(0xffffffff, Pow2(p), 0, 0xffffffff);
  }

  lemma LowOnes32(base: int)
    ensures And(base, 0xffffffff) == base % 4294967296
  {
    Pow2Consts();
    AndLowOnes(base, 32);
  }

  lemma DivBelow(x: int, m: nat, k: nat)
    requires m > 0 && 0 <= x < k * m
    ensures x / m < k
  {
    var q := x / m;
    assert q * m <= x;
    PosFactor(k - q, m);
  }

  lemma PosFactor(a: int, m: nat)
    requires m > 0 && a * m > 0
    ensures a > 0
  {
  }

  /** The address bits ipAdd forms for an in-range i fit in 32 bits. */
  lemma TopBitsRoom(base: int, p: nat, i: int)
    requires p <= 32 && 0 <= i <= Pow2(32 - p) - 1
    ensures 0 <= TopBits(base, p) + i < 4294967296
  {
    var m := Pow2(32 - p);
    var e := Pow2(p);
    assert e * m == 4294967296 by { Pow2Consts(); Pow2Add(p, 32 - p); }
    assert Pow2(32) == 4294967296 by { Pow2Consts(); }
    RoomArith(base % 4294967296, m, e, i);
  }

  lemma RoomArith(x: int, m: nat, e: nat, i: int)
    requires m > 0 && e * m == 4294967296 && 0 <= x < e * m && 0 <= i < m
    ensures 0 <= x / m * m + i < 4294967296
  {
    var q := x / m;
    DivBelow(x, m, e);
    MulAtLeast(e - q, m);
    assert (e - q) * m == e * m - q * m;
    if q >= 1 { MulAtLeast(q, m); }
  }

  /** Adding a non-negative in-range i gives an address that parses back. */
  lemma IpAddParses(i: int, p: nat, base: int)
    requires p <= 32 && 0 <= i <= Pow2(32 - p) - 1
    ensures IpAdd(i, p, base).Ok?
    ensures IpParse(IpAdd(i, p, base).value) == Ok(TopBits(base, p) + i)
  {
    IpAddTopBits(i, p, base);
    TopBitsRoom(base, p, i);
    IpParseIpStr(TopBits(base, p) + i);
  }

  // ------------------------------------------------------------ netParse

  /**
   * netParse exactly as written: with no '/', `ip` is never bound and the
   * return statement raises UnboundLocalError.
   */
  function NetParseAsWritten(ipstr: string): Result<(int, int), Exc> {
    if '/' in ipstr then
      var parts := Split(ipstr, '/');
      if |parts| != 2 then Err(ValueError)
      else match PyInt(parts[1])
        case None => Err(ValueError)
        case Some(pf) =>
          match IpParse(parts[0])
            case Err(e) => Err(e)
            case Ok(ip) => Ok((ip, pf))
    else Err(UnboundLocalError)
  }

  /** netParse as intended: a bare address has prefix length 0. */
  function NetParse(ipstr: string): Result<(int, int), Exc> {
    if '/' in ipstr then NetParseAsWritten(ipstr)
    else match IpParse(ipstr)
      case Err(e) => Err(e)
      case Ok(ip) => Ok((ip, 0))
  }

  /** The address netParse's documentation describes fails as written. */
  lemma NetParseUnbound()
    ensures NetParseAsWritten("10.0.0.1") == Err(UnboundLocalError)
    ensures NetParse("10.0.0.1") == Ok((167772161, 0))
  {
    assert '/' !in "10.0.0.1" by {
      assert forall i :: 0 <= i < |"10.0.0.1"| ==> "10.0.0.1"[i] != '/';
    }
    assert Dotted(10, 0, 0, 1) == "10.0.0.1";
    IpParseDotted(10, 0, 0, 1);
  }

  /** netParse of "a.b.c.d/p" gives the address and p; of "a.b.c.d" the address and 0. */
  lemma NetParseRoundTrip(n: int, p: nat)
    requires 0 <= n < 4294967296
    ensures NetParse(IpStr(n) + "/" + NatToDec(p)) == Ok((n, p))
    ensures NetParse(IpStr(n)) == Ok((n, 0))
  {
    var a := IpStr(n);
    var b := NatToDec(p);
    DecNoDot(p);
    NoSlashInDotted(Octet(n, 16777216), Octet(n, 65536), Octet(n, 256), Octet(n, 1));
    var s := a + "/" + b;
    assert s == a + ['/'] + b;
    assert s[|a|] == '/';
    SplitPrefix(a, b, '/');
    SplitNoSep(b, '/');
    PyIntOfDec(p);
    IpParseIpStr(n);
  }

  lemma NoSlashInDotted(w: nat, x: nat, y: nat, z: nat)
    ensures '/' !in Dotted(w, x, y, z)
  {
    DecNoDot(w); DecNoDot(x); DecNoDot(y); DecNoDot(z);
  }

  // ---------------------------------------------------------- _colonHex

  /** ((0xff << (i * 8)) & val) >> (i * 8). */
  function ColonPiece(val: int, i: nat): int {
    And(255 * Pow2(8 * i), val) / Pow2(8 * i)
  }

  /** The byte of val at position i. */
  function ByteAt(val: int, i: nat): (b: nat)
    ensures b < 256
  {
    val / Pow2(8 * i) % 256
  }

  lemma {:induction false} AndComm(a: int, b: int)
    ensures And(a, b) == And(b, a)
    decreases Size(a) + Size(b)
  {
    if !(Sign(a) && Sign(b)) { AndComm(a / 2, b / 2); }
  }

  /** The shifted-mask expression of _colonHex is the i-th byte. */
  lemma ColonPieceIsByte(val: int, i: nat)
    ensures ColonPiece(val, i) == ByteAt(val, i)
  {
    var k := 8 * i;
    Pow2Add(k, 8);
    Pow2Consts();
    assert 255 * Pow2(k) == Pow2(k + 8) - Pow2(k);
    AndComm(255 * Pow2(k), val);
    AndMask(val, k + 8, k);
    DivDiv(val, Pow2(k), 256);
    var hi := val / Pow2(k) % 256;
    assert val % Pow2(k + 8) == hi * Pow2(k) + val % Pow2(k);
    DivModUnique(val % Pow2(k + 8), Pow2(k), hi, val % Pow2(k));
    assert (val % Pow2(k + 8) / Pow2(k) * Pow2(k)) / Pow2(k) == hi by {
      DivModUnique(hi * Pow2(k), Pow2(k), hi, 0);
    }
  }

  /** The '%02x' pieces of _colonHex, most significant byte first. */
  function HexPieces(val: int, n: nat): (p: seq<string>)
    ensures |p| == n
  {
    seq(n, j requires 0 <= j < n => Hex2(ByteAt(val, n - 1 - j)))
  }

  function ColonHexSpec(val: int, n: nat): string {
    Join(HexPieces(val, n), ':')
  }

  /** _colonHex: the loop over byte positions from bytecount - 1 down to 0. */
  method ColonHex(val: int, bytecount: int) returns (chStr: string)
    ensures chStr == ColonHexSpec(val, if bytecount < 0 then 0 else bytecount)
  {
    var n: nat := if bytecount < 0 then 0 else bytecount;
    var pieces: seq<string> := [];
    var i := n - 1;   // range(bytecount - 1, -1, -1) is empty when bytecount <= 0
    while i > -1
      invariant -1 <= i < n
      invariant |pieces| == n - 1 - i
      invariant forall j :: 0 <= j < |pieces| ==> pieces[j] == Hex2(ByteAt(val, n - 1 - j))
    {
      var piece := ColonPiece(val, i);
      ColonPieceIsByte(val, i);
      pieces := pieces + [Hex2(piece)];
      i := i - 1;
    }
    assert pieces == HexPieces(val, n);
    chStr := Join(pieces, ':');
  }

  /** macColonHex: six colon-separated two-digit groups. */
  function MacColonHex(mac: int): (s: string)
    ensures |s| == 17
    ensures forall k :: 0 <= k < 17 ==> (s[k] == ':' <==> k % 3 == 2)
    ensures '\n' !in s
  {
    HexPiecesNoColon(mac, 6);
    JoinPairs(HexPieces(mac, 6));
    JoinNoNewline(HexPieces(mac, 6));
    ColonHexSpec(mac, 6)
  }

  /** Joining two-character groups with ':' puts a colon at every third position. */
  lemma {:induction false} JoinPairs(p: seq<string>)
    requires |p| >= 1
    requires forall j :: 0 <= j < |p| ==> |p[j]| == 2 && ':' !in p[j]
    ensures |Join(p, ':')| == 3 * |p| - 1
    ensures forall k :: 0 <= k < |Join(p, ':')| ==> (Join(p, ':')[k] == ':' <==> k % 3 == 2)
  {
    if |p| > 1 {
      JoinPairs(p[1..]);
      var rest := Join(p[1..], ':');
      var s := Join(p, ':');
      assert s == p[0] + [':'] + rest;
      forall k | 0 <= k < |s| ensures s[k] == ':' <==> k % 3 == 2 {
        if k < 2 {
          assert s[k] == p[0][k];
        } else if k >= 3 {
          assert s[k] == rest[k - 3];
        }
      }
    }
  }

  /** Groups without a newline, joined by ':', hold no newline. */
  lemma {:induction false} JoinNoNewline(p: seq<string>)
    requires forall j :: 0 <= j < |p| ==> '\n' !in p[j]
    ensures '\n' !in Join(p, ':')
  {
    if |p| > 1 {
      JoinNoNewline(p[1..]);
      assert Join(p, ':') == p[0] + [':'] + Join(p[1..], ':');
    }
  }

  lemma HexPiecesNoColon(val: int, n: nat)
    ensures forall j :: 0 <= j < n ==> |HexPieces(val, n)[j]| == 2 && ':' !in HexPieces(val, n)[j]
    ensures forall j :: 0 <= j < n ==> '\n' !in HexPieces(val, n)[j]
  {
    forall j | 0 <= j < n ensures |HexPieces(val, n)[j]| == 2 && ':' !in HexPieces(val, n)[j] && '\n' !in HexPieces(val, n)[j] {
      var b := ByteAt(val, n - 1 - j);
      assert HexPieces(val, n)[j] == Hex2(b);
      assert Hex2(b) == [HexDigit(b / 16), HexDigit(b % 16)];
    }
  }

  // ------------------------------------------------- reading the text back

  lemma HexDigitValue(d: nat)
    requires d < 16
    ensures HexValue(HexDigit(d)) == d
  {
  }

  /** Reading colon-separated hex groups back, most significant first. */
  function ColonValue(pieces: seq<string>): nat {
    if pieces == [] then 0
    else ColonValue(pieces[..|pieces| - 1]) * 256 + HexToNat(pieces[|pieces| - 1])
  }

  lemma Hex2Value(b: nat)
    requires b < 256
    ensures HexToNat(Hex2(b)) == b
  {
    var s := Hex2(b);
    assert s[..1] == [HexDigit(b / 16)];
    assert HexToNat(s[..1]) == HexToNat(s[..1][..0]) * 16 + HexValue(HexDigit(b / 16));
    assert s[..1][..0] == [];
    HexDigitValue(b / 16);
    HexDigitValue(b % 16);
    assert HexToNat(s) == HexToNat(s[..1]) * 16 + HexValue(HexDigit(b % 16));
  }

  lemma ByteAtShift(val: int, k: nat)
    ensures ByteAt(val, k + 1) == ByteAt(val / 256, k)
  {
    Pow2Consts();
    Pow2Add(8, 8 * k);
    assert 8 * (k + 1) == 8 + 8 * k;
    DivDiv(val, 256, Pow2(8 * k));
  }

  lemma {:induction false} ColonValuePieces(val: int, n: nat)
    ensures ColonValue(HexPieces(val, n)) == val % Pow2(8 * n)
    decreases n
  {
    if n > 0 {
      var p := HexPieces(val, n);
      var q := HexPieces(val / 256, n - 1);
      assert p[..n - 1] == q by {
        forall j | 0 <= j < n - 1 ensures p[j] == q[j] {
          ByteAtShift(val, n - 2 - j);
        }
      }
      ColonValuePieces(val / 256, n - 1);
      Hex2Value(ByteAt(val, 0));
      assert p[n - 1] == Hex2(ByteAt(val, 0));
      LowByteSplit(val, n);
    }
  }

  /** The low 8n bits are the low byte under the next 8(n - 1) bits. */
  lemma LowByteSplit(val: int, n: nat)
    requires n > 0
    ensures (val / 256 % Pow2(8 * (n - 1))) * 256 + ByteAt(val, 0) == val % Pow2(8 * n)
  {
    assert Pow2(8) == 256;
    assert ByteAt(val, 0) == val % 256;
    Pow2Add(8, 8 * (n - 1));
    assert 8 * n == 8 + 8 * (n - 1);
    DivDiv(val, 256, Pow2(8 * (n - 1)));
  }

  /** macColonHex is read back as the low 48 bits of the MAC value. */
  lemma MacRoundTrip(mac: int)
    ensures ColonValue(Split(MacColonHex(mac), ':')) == mac % 281474976710656
  {
    HexPiecesNoColon(mac, 6);
    SplitJoin(HexPieces(mac, 6), ':');
    ColonValuePieces(mac, 6);
    Pow2Consts();
  }
}
