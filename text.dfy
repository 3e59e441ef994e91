// Character classes, decimal and hexadecimal numerals, and the handful of
// Python string operations (split, join, strip, find, replace, int()) that
// the modelled code relies on.  Python's `\d`, `\w` and `\s` are ASCII here.
module Text {
  import opened Wrappers

  predicate IsDigit(c: char) { '0' <= c <= '9' }
  predicate IsLower(c: char) { 'a' <= c <= 'z' }
  predicate IsUpper(c: char) { 'A' <= c <= 'Z' }
  predicate IsAlnum(c: char) { IsDigit(c) || IsLower(c) || IsUpper(c) }
  /** Python's `\w`. */
  predicate IsWord(c: char) { IsAlnum(c) || c == '_' }
  /** Python's `\s` and the characters str.strip() removes. */
  predicate IsSpace(c: char) {
    c == ' ' || c == '\t' || c == '\n' || c == '\r' || c == '\U{0B}' || c == '\U{0C}'
  }

  predicate AllDigits(s: string) { forall i :: 0 <= i < |s| ==> IsDigit(s[i]) }
  predicate HasWordChar(s: string) { exists i :: 0 <= i < |s| && IsWord(s[i]) }

  // ---------------------------------------------------------------- decimal

  function DigitChar(d: nat): (c: char)
    requires d < 10
    ensures IsDigit(c) && c as int - '0' as int == d
  {
    ('0' as int + d) as char
  }

  function DigitValue(c: char): (d: nat)
    requires IsDigit(c)
    ensures d < 10 && DigitChar(d) == c
  {
    c as int - '0' as int
  }

  /** Python's str()/repr() of a non-negative integer, C's "%d". */
  function NatToDec(n: nat): (s: string)
    ensures |s| >= 1 && AllDigits(s)
    ensures |s| > 1 ==> s[0] != '0'
    ensures n < 10 <==> |s| == 1
  {
    if n < 10 then [DigitChar(n)] else NatToDec(n / 10) + [DigitChar(n % 10)]
  }

  /** The value of a string of decimal digits (leading zeros allowed). */
  function DecValue(s: string): nat
    requires AllDigits(s)
  {
    if s == [] then 0 else DecValue(s[..|s| - 1]) * 10 + DigitValue(s[|s| - 1])
  }

  lemma {:induction false} DecRoundTrip(n: nat)
    ensures DecValue(NatToDec(n)) == n
  {
    if n >= 10 {
      var s := NatToDec(n);
      assert s[..|s| - 1] == NatToDec(n / 10);
      DecRoundTrip(n / 10);
    }
  }

  /** Python's str() of an integer of either sign. */
  function IntToDec(i: int): (s: string)
    ensures |s| >= 1
  {
    if i < 0 then "-" + NatToDec(-i) else NatToDec(i)
  }

  // -------------------------------------------------------------- searching

  /** str.find for a character, None for -1. */
  function IndexOf(s: string, c: char): (r: Option<nat>)
    ensures r.None? <==> c !in s
    ensures r.Some? ==> r.value < |s| && s[r.value] == c && c !in s[..r.value]
  {
    if s == [] then None
    else if s[0] == c then Some(0)
    else match IndexOf(s[1..], c)
      case None => None
      case Some(k) => assert s[1..][..k] == s[1..k + 1]; Some(k + 1)
  }

  predicate IsInfixAt(s: string, t: string, i: nat) {
    i + |t| <= |s| && s[i..i + |t|] == t
  }

  /** Python's `t in s` for strings. */
  predicate Contains(s: string, t: string) {
    exists i: nat | i <= |s| :: IsInfixAt(s, t, i)
  }

  predicate StartsWith(s: string, t: string) { |t| <= |s| && s[..|t|] == t }
  predicate EndsWith(s: string, t: string) { |t| <= |s| && s[|s| - |t|..] == t }

  /** Division with remainder has one answer. */
  lemma ModUnique(x: int, m: int, q: int, r: int)
    requires m > 0 && 0 <= r < m && x == q * m + r
    ensures x % m == r
  {
    var d := q - x / m;
    assert x == (x / m) * m + x % m;
    assert d * m == x % m - r;
  }

  // -------------------------------------------------------- split and join

  /** str.split(c) for a one-character separator. */
  function Split(s: string, c: char): (r: seq<string>)
    ensures |r| >= 1
    ensures forall i :: 0 <= i < |r| ==> c !in r[i]
  {
    if s == [] then [[]]
    else
      var rest := Split(s[1..], c);
      if s[0] == c then [[]] + rest else [[s[0]] + rest[0]] + rest[1..]
  }

  /** c.join(parts). */
  function Join(parts: seq<string>, c: char): string {
    if parts == [] then []
    else if |parts| == 1 then parts[0]
    else parts[0] + [c] + Join(parts[1..], c)
  }

  lemma {:induction false} JoinSplit(s: string, c: char)
    ensures Join(Split(s, c), c) == s
  {
    if s != [] {
      JoinSplit(s[1..], c);
      var rest := Split(s[1..], c);
      if s[0] != c && |rest| > 1 {
        assert Join(rest, c) == rest[0] + [c] + Join(rest[1..], c);
      }
    }
  }

  lemma {:induction false} SplitJoin(parts: seq<string>, c: char)
    requires |parts| >= 1
    requires forall i :: 0 <= i < |parts| ==> c !in parts[i]
    ensures Split(Join(parts, c), c) == parts
  {
    if |parts| == 1 {
      SplitNoSep(parts[0], c);
    } else {
      SplitJoin(parts[1..], c);
      SplitPrefix(parts[0], Join(parts[1..], c), c);
      assert parts == [parts[0]] + parts[1..];
    }
  }

  lemma {:induction false} SplitNoSep(s: string, c: char)
    requires c !in s
    ensures Split(s, c) == [s]
  {
    if s != [] {
      SplitNoSep(s[1..], c);
      assert s == [s[0]] + s[1..];
    }
  }

  /** Splitting `a + [c] + b` when `a` has no separator. */
  lemma {:induction false} SplitPrefix(a: string, b: string, c: char)
    requires c !in a
    ensures Split(a + [c] + b, c) == [a] + Split(b, c)
  {
    if a == [] {
      assert ([c] + b)[1..] == b;
    } else {
      assert (a + [c] + b)[1..] == a[1..] + [c] + b;
      SplitPrefix(a[1..], b, c);
      assert a == [a[0]] + a[1..];
    }
  }

  /** A string holding the separator splits into at least two parts. */
  lemma {:induction false} SplitSeveral(s: string, c: char)
    requires c in s
    ensures |Split(s, c)| >= 2
  {
    if s[0] != c {
      assert c in s[1..] by {
        var k :| 0 <= k < |s| && s[k] == c;
        assert s[1..][k - 1] == c;
      }
      SplitSeveral(s[1..], c);
    }
  }

  /** The first part of a split heads the string, and with a second part it is followed by the separator and that part. */
  lemma {:induction false} SplitTwoParts(s: string, c: char)
    ensures StartsWith(s, Split(s, c)[0])
    ensures |Split(s, c)| >= 2 ==> StartsWith(s, Split(s, c)[0] + [c] + Split(s, c)[1])
  {
    if s != [] {
      SplitTwoParts(s[1..], c);
      var rest := Split(s[1..], c);
      if s[0] == c {
        assert s == [c] + s[1..];
        assert StartsWith(s, [] + [c] + rest[0]) by {
          assert s[..|rest[0]| + 1] == [c] + s[1..][..|rest[0]|];
        }
      } else {
        assert s == [s[0]] + s[1..];
        assert s[..|rest[0]| + 1] == [s[0]] + s[1..][..|rest[0]|];
        if |rest| >= 2 {
          var w := rest[0] + [c] + rest[1];
          assert s[..|w| + 1] == [s[0]] + s[1..][..|w|];
          assert [s[0]] + rest[0] + [c] + rest[1] == [s[0]] + w;
        }
      }
    }
  }

  /** A character absent from s is absent from every part of its split. */
  lemma {:induction false} SplitKeepsOut(s: string, c: char, d: char)
    requires d !in s
    ensures forall i :: 0 <= i < |Split(s, c)| ==> d !in Split(s, c)[i]
  {
    if s != [] {
      assert d !in s[1..] by {
        assert forall k :: 0 <= k < |s[1..]| ==> s[1..][k] == s[k + 1];
      }
      SplitKeepsOut(s[1..], c, d);
    }
  }

  /** str.split(c, 1). */
  function SplitOnce(s: string, c: char): (r: seq<string>)
    ensures c !in s ==> r == [s]
    ensures c in s ==> |r| == 2 && c !in r[0] && r[0] + [c] + r[1] == s
  {
    match IndexOf(s, c)
      case None => [s]
      case Some(k) =>
        assert s == s[..k] + [c] + s[k + 1..];
        [s[..k], s[k + 1..]]
  }

  // ----------------------------------------------------------------- strip

  function LStrip(s: string): (r: string)
    ensures |r| <= |s|
  {
    if s != [] && IsSpace(s[0]) then LStrip(s[1..]) else s
  }

  function RStrip(s: string): (r: string)
    ensures |r| <= |s|
  {
    if s != [] && IsSpace(s[|s| - 1]) then RStrip(s[..|s| - 1]) else s
  }

  /** str.strip() with no argument. */
  function Strip(s: string): (r: string) {
    RStrip(LStrip(s))
  }

  /** strip() removes only leading and trailing white space. */
  lemma {:induction false} LStripShape(s: string)
    ensures LStrip(s) == s[|s| - |LStrip(s)|..]
    ensures LStrip(s) == [] || !IsSpace(LStrip(s)[0])
    ensures forall i :: 0 <= i < |s| - |LStrip(s)| ==> IsSpace(s[i])
  {
    if s != [] && IsSpace(s[0]) { LStripShape(s[1..]); }
  }

  lemma StripNoSpace(s: string)
    requires s != [] && !IsSpace(s[0]) && !IsSpace(s[|s| - 1])
    ensures Strip(s) == s
  {
  }

  // -------------------------------------------------------------- int(...)

  /**
   * Python's int(s) on a string: surrounding whitespace, then an optional
   * sign, then at least one decimal digit; anything else is a ValueError
   * (None here).
   */
  function PyInt(s: string): Option<int> {
    var t := Strip(s);
    if t != [] && (t[0] == '-' || t[0] == '+') then
      var u := t[1..];
      var v: int := if u != [] && AllDigits(u) then DecValue(u) else 0;
      if u != [] && AllDigits(u) then Some(if t[0] == '-' then -v else v)
      else None
    else if t != [] && AllDigits(t) then Some(DecValue(t))
    else None
  }

  lemma PyIntOfDec(n: nat)
    ensures PyInt(NatToDec(n)) == Some(n)
  {
    var s := NatToDec(n);
    StripNoSpace(s);
    DecRoundTrip(n);
  }

  /** int(s) of a string of digits is its decimal value. */
  lemma PyIntOfDigits(s: string)
    requires s != [] && AllDigits(s)
    ensures PyInt(s) == Some(DecValue(s))
  {
    StripNoSpace(s);
  }

  /** int(str(i)) == i for an integer of either sign. */
  lemma PyIntOfInt(i: int)
    ensures PyInt(IntToDec(i)) == Some(i)
  {
    if i < 0 {
      var d := NatToDec(-i);
      DecRoundTrip(-i);
      PyIntNegative(d);
      assert IntToDec(i) == "-" + d;
    } else {
      PyIntOfDec(i);
    }
  }

  /** A minus sign before a run of digits parses to the negated value. */
  lemma PyIntNegative(d: string)
    requires d != [] && AllDigits(d)
    ensures PyInt("-" + d) == Some(-(DecValue(d) as int))
  {
    var s := "-" + d;
    assert s[1..] == d && s[|s| - 1] == d[|d| - 1];
    assert !IsSpace(s[0]) && IsDigit(s[|s| - 1]);
    StripNoSpace(s);
  }

  /** str() of an integer holds only digits and a leading '-'. */
  lemma IntToDecChars(i: int, c: char)
    requires !IsDigit(c) && c != '-'
    ensures c !in IntToDec(i)
  {
    var d := NatToDec(if i < 0 then -i else i);
    assert c !in d by {
      forall k | 0 <= k < |d| ensures d[k] != c {
        assert IsDigit(d[k]);
      }
    }
  }

  // --------------------------------------------------------------- replace

  /** str.replace(pat, rep): every non-overlapping occurrence, left to right. */
  function ReplaceAll(s: string, pat: string, rep: string): (r: string)
    requires pat != []
    ensures !Contains(s, pat) ==> r == s
    decreases |s|
  {
    if |s| < |pat| then s
    else if s[..|pat|] == pat then
      assert IsInfixAt(s, pat, 0);
      rep + ReplaceAll(s[|pat|..], pat, rep)
    else
      var rest := ReplaceAll(s[1..], pat, rep);
      assert !Contains(s, pat) ==> !Contains(s[1..], pat) by {
        if Contains(s[1..], pat) {
          var i: nat :| i <= |s[1..]| && IsInfixAt(s[1..], pat, i);
          assert IsInfixAt(s, pat, i + 1);
        }
      }
      [s[0]] + rest
  }

  // ----------------------------------------------------------- hexadecimal

  function HexDigit(d: nat): (c: char)
    requires d < 16
  {
    if d < 10 then DigitChar(d) else ('a' as int + d - 10) as char
  }

  /** Lowercase hexadecimal without leading zeros ("0" for zero). */
  function NatToHex(n: nat): (s: string)
    ensures |s| >= 1
    ensures n < 16 ==> |s| == 1
  {
    if n < 16 then [HexDigit(n)] else NatToHex(n / 16) + [HexDigit(n % 16)]
  }

  function HexValue(c: char): nat {
    if IsDigit(c) then c as int - '0' as int
    else if 'a' <= c <= 'f' then c as int - 'a' as int + 10
    else 0
  }

  function HexToNat(s: string): nat {
    if s == [] then 0 else HexToNat(s[..|s| - 1]) * 16 + HexValue(s[|s| - 1])
  }

  lemma {:induction false} HexRoundTrip(n: nat)
    ensures HexToNat(NatToHex(n)) == n
  {
    if n >= 16 {
      var s := NatToHex(n);
      assert s[..|s| - 1] == NatToHex(n / 16);
      HexRoundTrip(n / 16);
    }
  }

  /** Left-pads with `c` up to width `w` (str.rjust). */
  function PadLeft(s: string, w: nat, c: char): (r: string)
    ensures |r| == if |s| >= w then |s| else w
    ensures EndsWith(r, s)
    ensures forall i :: 0 <= i < |r| - |s| ==> r[i] == c
  {
    if |s| >= w then s else seq(w - |s|, _ => c) + s
  }

  /** Python's '%02x' of a byte. */
  function Hex2(b: nat): (s: string)
    requires b < 256
    ensures |s| == 2
  {
    [HexDigit(b / 16), HexDigit(b % 16)]
  }

  // ------------------------------------------------------------------ repr

  /** repr of a Python 2 str: in single quotes unless the text holds a single
      quote and no double one; backslash, the quote, tab, newline and return
      escaped, and other bytes outside ' '..'~' as \xhh. */
  function Repr(s: string): (r: string)
    ensures |r| >= |s| + 2 && r[0] == r[|r| - 1]
    ensures r[0] == (if '\'' in s && '"' !in s then '"' else '\'')
  {
    var q := if '\'' in s && '"' !in s then '"' else '\'';
    [q] + ReprBody(s, q) + [q]
  }

  function ReprBody(s: string, q: char): (r: string)
    ensures |r| >= |s|
  {
    if s == [] then [] else ReprChar(s[0], q) + ReprBody(s[1..], q)
  }

  function ReprChar(c: char, q: char): (r: string)
    ensures |r| >= 1
  {
    if c == q || c == '\\' then ['\\', c]
    else if c == '\t' then "\\t"
    else if c == '\n' then "\\n"
    else if c == '\r' then "\\r"
    else if c < ' ' || c > '~' then "\\x" + [HexDigit((c as int / 16) % 16), HexDigit(c as int % 16)]
    else [c]
  }

  /** A printable text without quotes or backslashes is shown as itself in single quotes. */
  lemma {:induction false} ReprPlain(s: string)
    requires forall i :: 0 <= i < |s| ==> ' ' <= s[i] <= '~' && s[i] != '\'' && s[i] != '\\'
    ensures Repr(s) == "'" + s + "'"
  {
    ReprBodyPlain(s, '\'');
  }

  lemma {:induction false} ReprBodyPlain(s: string, q: char)
    requires forall i :: 0 <= i < |s| ==> ' ' <= s[i] <= '~' && s[i] != q && s[i] != '\\'
    ensures ReprBody(s, q) == s
  {
    if s != [] {
      ReprBodyPlain(s[1..], q);
    }
  }

  /** repr of a Python 2 list of strs, such as dict.keys(): the items' reprs
      between brackets, separated by ", ". */
  function ListRepr(items: seq<string>): (r: string)
    ensures |r| >= 2 && r[0] == '[' && r[|r| - 1] == ']'
    ensures items == [] <==> r == "[]"
  {
    "[" + ItemReprs(items) + "]"
  }

  function ItemReprs(items: seq<string>): (r: string)
    ensures items == [] <==> r == []
  {
    if items == [] then []
    else if |items| == 1 then Repr(items[0])
    else Repr(items[0]) + ", " + ItemReprs(items[1..])
  }

  /** A list of plain names is shown with each name in single quotes. */
  lemma ListReprPlain2(a: string, b: string)
    requires forall i :: 0 <= i < |a| ==> ' ' <= a[i] <= '~' && a[i] != '\'' && a[i] != '\\'
    requires forall i :: 0 <= i < |b| ==> ' ' <= b[i] <= '~' && b[i] != '\'' && b[i] != '\\'
    ensures ListRepr([a, b]) == "['" + a + "', '" + b + "']"
  {
    ReprPlain(a);
    ReprPlain(b);
    assert [a, b][1..] == [b];
    assert ItemReprs([b]) == Repr(b);
    assert ItemReprs([a, b]) == Repr(a) + ", " + Repr(b);
  }
}
