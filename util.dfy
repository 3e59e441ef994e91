// The pure helpers of mininet/util.py other than the address functions:
// retry's counting, natural sort keys, irange, splitArgs and the lookups of
// customConstructor/buildTopo, plus isShellBuiltin's test.
module Util {
  import opened Wrappers
  import opened Text

  // ------------------------------------------------------------------ retry

  /**
   * The value of `tries` when retry's loop `while not fn() and tries < retries`
   * stops, starting from k; fn(j) is the result of the (j+1)-th call.
   */
  function Tries(retries: int, fn: nat -> bool, k: nat): nat
    decreases retries - k
  {
    if fn(k) || k >= retries then k else Tries(retries, fn, k + 1)
  }

  /** The loop stops at the first success or once `retries` retries are spent. */
  lemma {:induction false} TriesStop(retries: int, fn: nat -> bool, k: nat)
    ensures var t := Tries(retries, fn, k);
      k <= t && (fn(t) || t >= retries) && (forall j :: k <= j < t ==> !fn(j))
      && (k <= retries ==> t <= retries) && (k > retries ==> t == k)
    decreases retries - k
  {
    if !(fn(k) || k >= retries) {
      TriesStop(retries, fn, k + 1);
    }
  }

  /**
   * retry as written: fn is called tries + 1 times, and the function exits(1)
   * whenever tries reached retries, even when that last call succeeded.
   */
  method RetryAsWritten(retries: int, fn: nat -> bool) returns (calls: nat, exited: bool)
    ensures calls == Tries(retries, fn, 0) + 1
    ensures exited <==> calls - 1 >= retries
  {
    var tries: nat := 0;
    calls := 1;
    var ok := fn(0);
    while !ok && tries < retries
      invariant calls == tries + 1 && ok == fn(tries)
      invariant Tries(retries, fn, tries) == Tries(retries, fn, 0)
      decreases retries - tries
    {
      tries := tries + 1;
      ok := fn(tries);
      calls := calls + 1;
    }
    exited := tries >= retries;
  }

  /**
   * With retries = 1, a first call that fails and a second that succeeds:
   * tries ends at 1 = retries with the last call a success, so retry as
   * written exits(1) although fn succeeded.
   */
  lemma RetryGivesUpAfterSuccess()
    ensures var fn: nat -> bool := k => k == 1;
      Tries(1, fn, 0) == 1 && fn(Tries(1, fn, 0)) && Tries(1, fn, 0) >= 1
  {
    var fn: nat -> bool := k => k == 1;
    assert Tries(1, fn, 1) == 1;
  }

  /** retry as intended: give up exactly when the last call failed too. */
  method Retry(retries: int, fn: nat -> bool) returns (calls: nat, exited: bool)
    ensures calls == Tries(retries, fn, 0) + 1
    ensures exited <==> !fn(calls - 1)
  {
    var tries: nat := 0;
    calls := 1;
    var ok := fn(0);
    while !ok && tries < retries
      invariant calls == tries + 1 && ok == fn(tries)
      invariant Tries(retries, fn, tries) == Tries(retries, fn, 0)
      decreases retries - tries
    {
      tries := tries + 1;
      ok := fn(tries);
      calls := calls + 1;
    }
    exited := !ok;
  }

  /** The corrected retry gives up iff every one of its calls, at most retries + 1, failed. */
  lemma RetryGivesUpIffAllFail(retries: int, fn: nat -> bool)
    ensures var t := Tries(retries, fn, 0);
      (!fn(t) <==> forall j :: 0 <= j <= t ==> !fn(j))
      && (!fn(t) ==> t == (if retries < 0 then 0 else retries))
      && t + 1 <= (if retries < 0 then 0 else retries) + 1
  {
    TriesStop(retries, fn, 0);
  }

  // ---------------------------------------------------------------- natural

  /** An element of a natural sort key: text, or the int of a digit run. */
  datatype Piece = Txt(s: string) | Num(n: nat)

  function TakeNonDigits(s: string): (t: string)
    ensures |t| <= |s| && t == s[..|t|] && (forall i :: 0 <= i < |t| ==> !IsDigit(t[i]))
    ensures |t| < |s| ==> IsDigit(s[|t|])
  {
    if s != [] && !IsDigit(s[0]) then [s[0]] + TakeNonDigits(s[1..]) else []
  }

  function TakeDigits(s: string): (d: string)
    ensures |d| <= |s| && d == s[..|d|] && AllDigits(d)
    ensures |d| < |s| ==> !IsDigit(s[|d|])
  {
    if s != [] && IsDigit(s[0]) then [s[0]] + TakeDigits(s[1..]) else []
  }

  /**
   * re.split(r'(\d+)', text): the text between maximal digit runs, with the
   * runs themselves kept at the odd positions.
   */
  function DigitSplit(s: string): (r: seq<string>)
    ensures |r| % 2 == 1
    decreases |s|
  {
    var t := TakeNonDigits(s);
    var rest := s[|t|..];
    if rest == [] then [t]
    else
      var d := TakeDigits(rest);
      [t, d] + DigitSplit(rest[|d|..])
  }

  function Concat(parts: seq<string>): string {
    if parts == [] then [] else parts[0] + Concat(parts[1..])
  }

  lemma {:induction false} ConcatAppend(a: seq<string>, b: seq<string>)
    ensures Concat(a + b) == Concat(a) + Concat(b)
  {
    if a == [] {
      assert a + b == b;
    } else {
      assert (a + b)[0] == a[0];
      assert (a + b)[1..] == a[1..] + b;
      ConcatAppend(a[1..], b);
    }
  }

  predicate NoDigits(s: string) { forall i :: 0 <= i < |s| ==> !IsDigit(s[i]) }

  /** Gluing the pieces of re.split back together gives the text. */
  lemma {:induction false} DigitSplitConcat(s: string)
    ensures Concat(DigitSplit(s)) == s
    decreases |s|
  {
    var t := TakeNonDigits(s);
    var rest := s[|t|..];
    assert s == t + rest by { assert t == s[..|t|]; }
    if rest == [] {
      assert DigitSplit(s) == [t];
      assert Concat([t]) == t + Concat([]);
    } else {
      var d := TakeDigits(rest);
      var after := rest[|d|..];
      assert rest == d + after by { assert d == rest[..|d|]; }
      assert DigitSplit(s) == [t, d] + DigitSplit(after);
      DigitSplitConcat(after);
      ConcatTwo(t, d, DigitSplit(after));
    }
  }

  lemma ConcatTwo(t: string, d: string, tail: seq<string>)
    ensures Concat([t, d] + tail) == t + (d + Concat(tail))
  {
    var r := [t, d] + tail;
    assert r[1..] == [d] + tail;
    assert r[1..][1..] == tail;
  }

  /** Even pieces hold no digit; odd pieces are non-empty digit runs. */
  predicate PartsShaped(r: seq<string>) {
    forall i :: 0 <= i < |r| ==>
      if i % 2 == 0 then NoDigits(r[i]) else r[i] != [] && AllDigits(r[i])
  }

  lemma PartsShapedCons(t: string, d: string, tail: seq<string>)
    requires NoDigits(t) && d != [] && AllDigits(d) && PartsShaped(tail)
    ensures PartsShaped([t, d] + tail)
  {
    var r := [t, d] + tail;
    forall i | 2 <= i < |r| ensures r[i] == tail[i - 2] && i % 2 == (i - 2) % 2 { }
  }

  lemma {:induction false} DigitSplitParts(s: string)
    ensures PartsShaped(DigitSplit(s))
    decreases |s|
  {
    var t := TakeNonDigits(s);
    var rest := s[|t|..];
    if rest != [] {
      var d := TakeDigits(rest);
      DigitSplitParts(rest[|d|..]);
      assert d != [] by { assert IsDigit(rest[0]); }
      PartsShapedCons(t, d, DigitSplit(rest[|d|..]));
    }
  }

  /** int(s) if s.isdigit() else s; ''.isdigit() is False. */
  function NumPiece(s: string): Piece {
    if s != [] && AllDigits(s) then Num(DecValue(s)) else Txt(s)
  }

  /** natural(text): the sort key mininet uses for node names. */
  function Natural(text: string): (key: seq<Piece>)
    ensures |key| == |DigitSplit(text)|
  {
    var parts := DigitSplit(text);
    seq(|parts|, i requires 0 <= i < |parts| => NumPiece(parts[i]))
  }

  /** The key alternates text and numbers, starting and ending with text. */
  lemma NaturalAlternates(text: string)
    ensures |Natural(text)| % 2 == 1
    ensures forall i :: 0 <= i < |Natural(text)| ==> (Natural(text)[i].Num? <==> i % 2 == 1)
    ensures forall i :: 0 <= i < |Natural(text)| && i % 2 == 1 ==>
      AllDigits(DigitSplit(text)[i]) && Natural(text)[i] == Num(DecValue(DigitSplit(text)[i]))
  {
    DigitSplitParts(text);
    var parts := DigitSplit(text);
    forall i | 0 <= i < |parts| && i % 2 == 0 ensures Natural(text)[i].Txt? {
      if parts[i] != [] {
        assert !IsDigit(parts[i][0]);
      }
    }
  }

  /** Printing a key back: text as is, numbers in decimal. */
  function Render(key: seq<Piece>): string {
    if key == [] then []
    else (match key[0] case Txt(s) => s case Num(n) => NatToDec(n)) + Render(key[1..])
  }

  /** A digit run with a leading zero is not printed back: natural("s007") reads as "s7". */
  lemma NaturalDropsLeadingZeros()
    ensures Natural("s007") == [Txt("s"), Num(7), Txt("")]
    ensures Render(Natural("s007")) == "s7"
  {
    KeyS007();
    RenderS7();
  }

  lemma KeyS007()
    ensures Natural("s007") == [Txt("s"), Num(7), Txt("")]
  {
    SplitS007();
    DecValue007();
    var parts := DigitSplit("s007");
    assert NumPiece(parts[0]) == Txt("s") && NumPiece(parts[2]) == Txt("");
    assert NumPiece(parts[1]) == Num(7) by { assert AllDigits("007"); }
  }

  lemma RenderS7()
    ensures Render([Txt("s"), Num(7), Txt("")]) == "s7"
  {
    var key := [Txt("s"), Num(7), Txt("")];
    assert key[1..][1..][1..] == [];
    assert NatToDec(7) == "7";
    assert Render(key[1..][1..]) == "";
    assert Render(key[1..]) == "7";
  }

  lemma SplitS007()
    ensures DigitSplit("s007") == ["s", "007", ""]
  {
    var s := "s007";
    assert TakeNonDigits(s) == "s";
    assert s[1..] == "007";
    assert TakeDigits("007") == "007";
    assert "007"[3..] == "";
    assert DigitSplit("") == [""];
  }

  lemma DecValue007()
    ensures DecValue("007") == 7
  {
    assert "007"[..2] == "00";
    assert "00"[..1] == "0";
    assert "0"[..0] == "";
  }

  /** naturalSeq(t): the keys of each element. */
  function NaturalSeq(t: seq<string>): (keys: seq<seq<Piece>>)
    ensures |keys| == |t| && forall i :: 0 <= i < |t| ==> keys[i] == Natural(t[i])
  {
    seq(|t|, i requires 0 <= i < |t| => Natural(t[i]))
  }

  // ------------------------------------------- Python 2 ordering of the keys

  /** Python 2 str comparison: lexicographic by character code. */
  predicate StrLess(a: string, b: string)
    decreases |a|
  {
    if a == [] then b != []
    else if b == [] then false
    else if a[0] != b[0] then a[0] < b[0]
    else StrLess(a[1..], b[1..])
  }

  /** Python 2 puts numbers before strings. */
  predicate PieceLess(a: Piece, b: Piece) {
    match (a, b)
      case (Num(x), Num(y)) => x < y
      case (Num(_), Txt(_)) => true
      case (Txt(_), Num(_)) => false
      case (Txt(x), Txt(y)) => StrLess(x, y)
  }

  /** Python list comparison of two keys. */
  predicate KeyLess(a: seq<Piece>, b: seq<Piece>)
    decreases |a|
  {
    if a == [] then b != []
    else if b == [] then false
    else if a[0] != b[0] then PieceLess(a[0], b[0])
    else KeyLess(a[1..], b[1..])
  }

  lemma {:induction false} StrLessTotal(a: string, b: string)
    ensures a == b || StrLess(a, b) || StrLess(b, a)
    ensures !(StrLess(a, b) && StrLess(b, a))
    decreases |a|
  {
    if a != [] && b != [] {
      StrLessTotal(a[1..], b[1..]);
      if a[0] == b[0] && a[1..] == b[1..] {
        assert a == [a[0]] + a[1..] && b == [b[0]] + b[1..];
      }
    }
  }

  lemma {:induction false} StrLessTrans(a: string, b: string, c: string)
    requires StrLess(a, b) && StrLess(b, c)
    ensures StrLess(a, c)
    decreases |a|
  {
    if a != [] && a[0] == b[0] && b[0] == c[0] {
      StrLessTrans(a[1..], b[1..], c[1..]);
    }
  }

  lemma PieceLessTotal(a: Piece, b: Piece)
    ensures a == b || PieceLess(a, b) || PieceLess(b, a)
    ensures !(PieceLess(a, b) && PieceLess(b, a))
  {
    if a.Txt? && b.Txt? { StrLessTotal(a.s, b.s); }
  }

  lemma PieceLessTrans(a: Piece, b: Piece, c: Piece)
    requires PieceLess(a, b) && PieceLess(b, c)
    ensures PieceLess(a, c)
  {
    if a.Txt? && b.Txt? && c.Txt? { StrLessTrans(a.s, b.s, c.s); }
  }

  /** Key comparison is a strict total order. */
  lemma {:induction false} KeyLessTotal(a: seq<Piece>, b: seq<Piece>)
    ensures a == b || KeyLess(a, b) || KeyLess(b, a)
    ensures !(KeyLess(a, b) && KeyLess(b, a))
    decreases |a|
  {
    if a != [] && b != [] {
      PieceLessTotal(a[0], b[0]);
      KeyLessTotal(a[1..], b[1..]);
      if a[0] == b[0] && a[1..] == b[1..] {
        assert a == [a[0]] + a[1..] && b == [b[0]] + b[1..];
      }
    }
  }

  lemma {:induction false} KeyLessTrans(a: seq<Piece>, b: seq<Piece>, c: seq<Piece>)
    ensures KeyLess(a, b) && KeyLess(b, c) ==> KeyLess(a, c)
    decreases |a|
  {
    if a != [] && b != [] && c != [] {
      if a[0] == b[0] && b[0] == c[0] {
        KeyLessTrans(a[1..], b[1..], c[1..]);
      } else {
        PieceLessTotal(a[0], c[0]);
        PieceLessTotal(a[0], b[0]);
        if PieceLess(a[0], b[0]) && PieceLess(b[0], c[0]) {
          PieceLessTrans(a[0], b[0], c[0]);
        }
      }
    }
  }

  /** "Not greater" is transitive, since key comparison is a total order. */
  lemma KeyLeTrans(a: seq<Piece>, b: seq<Piece>, c: seq<Piece>)
    ensures !KeyLess(b, a) && !KeyLess(c, b) ==> !KeyLess(c, a)
  {
    KeyLessTotal(a, b);
    KeyLessTrans(c, a, b);
  }

  // ---------------------------------------- sorted( names, key=natural )

  predicate SortedBy(s: seq<string>, key: string -> seq<Piece>) {
    forall i, j :: 0 <= i < j < |s| ==> !KeyLess(key(s[j]), key(s[i]))
  }

  /** Inserts x after every element whose key is not greater (keeps sorted() stable). */
  function InsertBy(x: string, s: seq<string>, key: string -> seq<Piece>): (r: seq<string>)
    ensures multiset(r) == multiset(s) + multiset{x}
    ensures |r| == |s| + 1
  {
    if s == [] then [x]
    else if KeyLess(key(x), key(s[|s| - 1])) then
      assert s == s[..|s| - 1] + [s[|s| - 1]];
      InsertBy(x, s[..|s| - 1], key) + [s[|s| - 1]]
    else s + [x]
  }

  lemma {:induction false} InsertBySorted(x: string, s: seq<string>, key: string -> seq<Piece>)
    requires SortedBy(s, key)
    ensures SortedBy(InsertBy(x, s, key), key)
    decreases |s|, 1
  {
    if s != [] {
      var last := s[|s| - 1];
      if KeyLess(key(x), key(last)) {
        InsertBeforeLast(x, s, key);
      } else {
        var r := s + [x];
        forall i, j | 0 <= i < j < |r| ensures !KeyLess(key(r[j]), key(r[i])) {
          if j == |s| {
            KeyLeTrans(key(s[i]), key(last), key(x));
          } else {
            assert r[i] == s[i] && r[j] == s[j];
          }
        }
      }
    }
  }

  lemma {:induction false} InsertBeforeLast(x: string, s: seq<string>, key: string -> seq<Piece>)
    requires SortedBy(s, key) && s != [] && KeyLess(key(x), key(s[|s| - 1]))
    ensures SortedBy(InsertBy(x, s, key), key)
    decreases |s|, 0
  {
    var last := s[|s| - 1];
    var init := s[..|s| - 1];
    InsertBySorted(x, init, key);
    var r := InsertBy(x, init, key);
    forall i | 0 <= i < |r| ensures !KeyLess(key(last), key(r[i])) {
      KeyLessTotal(key(x), key(last));
      assert r[i] in multiset(r);
      if r[i] != x {
        assert r[i] in init;
        var k :| 0 <= k < |init| && init[k] == r[i];
        assert s[k] == r[i];
      }
    }
    var r2 := r + [last];
    assert r2 == InsertBy(x, s, key);
    forall i, j | 0 <= i < j < |r2| ensures !KeyLess(key(r2[j]), key(r2[i])) {
      if j < |r| { assert r2[i] == r[i] && r2[j] == r[j]; }
    }
  }

  /** Insertion sort by key: sorted() with a key function. */
  function SortBy(s: seq<string>, key: string -> seq<Piece>): (r: seq<string>)
    ensures |r| == |s|
  {
    if s == [] then [] else InsertBy(s[|s| - 1], SortBy(s[..|s| - 1], key), key)
  }

  /** The result is sorted by key and is a permutation of the input. */
  lemma {:induction false} SortByCorrect(s: seq<string>, key: string -> seq<Piece>)
    ensures SortedBy(SortBy(s, key), key)
    ensures multiset(SortBy(s, key)) == multiset(s)
  {
    if s != [] {
      SortByCorrect(s[..|s| - 1], key);
      InsertBySorted(s[|s| - 1], SortBy(s[..|s| - 1], key), key);
      assert s == s[..|s| - 1] + [s[|s| - 1]];
    }
  }

  /** The elements of s whose key is k, in their order in s. */
  function WithKey(s: seq<string>, key: string -> seq<Piece>, k: seq<Piece>): seq<string> {
    if s == [] then []
    else WithKey(s[..|s| - 1], key, k) + (if key(s[|s| - 1]) == k then [s[|s| - 1]] else [])
  }

  lemma WithKeySnoc(s: seq<string>, x: string, key: string -> seq<Piece>, k: seq<Piece>)
    ensures WithKey(s + [x], key, k) == WithKey(s, key, k) + (if key(x) == k then [x] else [])
  {
    assert (s + [x])[..|s|] == s;
  }

  /** Inserting x adds it after every element of equal key. */
  lemma {:induction false} InsertByStable(x: string, s: seq<string>, key: string -> seq<Piece>, k: seq<Piece>)
    ensures WithKey(InsertBy(x, s, key), key, k) == WithKey(s, key, k) + (if key(x) == k then [x] else [])
    decreases |s|
  {
    if s == [] {
      WithKeySnoc([], x, key, k);
    } else {
      var init, last := s[..|s| - 1], s[|s| - 1];
      if KeyLess(key(x), key(last)) {
        InsertByStable(x, init, key, k);
        WithKeySnoc(InsertBy(x, init, key), last, key, k);
        KeyLessTotal(key(x), key(x));
      } else {
        WithKeySnoc(s, x, key, k);
      }
    }
  }

  /** sorted() is stable: the elements of each key keep their order. */
  lemma {:induction false} SortByStable(s: seq<string>, key: string -> seq<Piece>, k: seq<Piece>)
    ensures WithKey(SortBy(s, key), key, k) == WithKey(s, key, k)
  {
    if s != [] {
      SortByStable(s[..|s| - 1], key, k);
      InsertByStable(s[|s| - 1], SortBy(s[..|s| - 1], key), key, k);
    }
  }

  /** sorted(names, key=natural). */
  function NaturalSort(s: seq<string>): seq<string> {
    SortBy(s, Natural)
  }

  lemma NaturalSortCorrect(s: seq<string>)
    ensures forall i, j :: 0 <= i < j < |NaturalSort(s)| ==>
      !KeyLess(Natural(NaturalSort(s)[j]), Natural(NaturalSort(s)[i]))
    ensures multiset(NaturalSort(s)) == multiset(s)
  {
    SortByCorrect(s, Natural);
  }

  /** Python 2 orders str values by character code; as a sort key, a single text piece. */
  function Plain(x: string): seq<Piece> { [Txt(x)] }

  lemma PlainLess(x: string, y: string)
    ensures KeyLess(Plain(x), Plain(y)) <==> StrLess(x, y)
  {
    var a, b := Plain(x), Plain(y);
    if x == y {
      StrLessTotal(x, y);
      assert a[1..] == [] && b[1..] == [];
    }
  }

  // ------------------------------------------------------------ sorted(keys)

  /** Strictly increasing in string order, hence without repeats. */
  ghost predicate Strict(s: seq<string>) {
    forall i, j :: 0 <= i < j < |s| ==> StrLess(s[i], s[j])
  }

  /** Two positions of a sequence in which every element occurs once hold different elements. */
  lemma Apart(s: seq<string>, i: int, j: int)
    requires 0 <= i < j < |s| && multiset(s)[s[i]] <= 1
    ensures s[i] != s[j]
  {
    assert s == s[..j] + s[j..];
    assert s[..j][i] == s[i] && s[j..][0] == s[j];
    assert multiset(s[..j])[s[i]] >= 1 && multiset(s[j..])[s[j]] >= 1;
  }

  /** Sorting a list without repeats in string order makes it strictly increasing. */
  lemma PlainSortStrict(s: seq<string>)
    requires forall x :: multiset(s)[x] <= 1
    ensures Strict(SortBy(s, Plain)) && multiset(SortBy(s, Plain)) == multiset(s)
  {
    SortByCorrect(s, Plain);
    var r := SortBy(s, Plain);
    forall i, j | 0 <= i < j < |r| ensures StrLess(r[i], r[j]) {
      assert !KeyLess(Plain(r[j]), Plain(r[i]));
      PlainLess(r[j], r[i]);
      Apart(r, i, j);
      StrLessTotal(r[i], r[j]);
    }
  }

  /** sorted(keys): the keys in string order. */
  ghost function SortedKeys(keys: set<string>): (r: seq<string>)
    ensures |r| == |keys| && Strict(r)
    ensures forall x :: x in r <==> x in keys
  {
    var e := Enumerate(keys);
    PlainSortStrict(e);
    var r := SortBy(e, Plain);
    assert forall x :: x in r <==> x in multiset(e);
    r
  }

  lemma FirstIn(s: seq<string>)
    requires s != []
    ensures s[0] in s
  {
  }

  /** The first element of a strictly increasing list is below the others. */
  lemma StrictFirst(s: seq<string>, x: string)
    requires Strict(s) && x in s
    ensures x == s[0] || StrLess(s[0], x)
  {
    var k :| 0 <= k < |s| && s[k] == x;
    if k > 0 {
      assert StrLess(s[0], s[k]);
    }
  }

  /** A strictly increasing list is fixed by its elements. */
  lemma {:induction false} StrictUnique(a: seq<string>, b: seq<string>)
    requires Strict(a) && Strict(b) && forall x :: x in a <==> x in b
    ensures a == b
    decreases |a|
  {
    if a != [] {
      assert a[0] in b && b[0] in a;
      StrictFirst(b, a[0]);
      StrictFirst(a, b[0]);
      StrLessTotal(a[0], b[0]);
      assert a == [a[0]] + a[1..] && b == [b[0]] + b[1..];
      StrLessTotal(a[0], a[0]);
      forall x ensures x in a[1..] <==> x in b[1..] {
        if x in a[1..] {
          var k :| 0 <= k < |a[1..]| && a[1..][k] == x;
          assert StrLess(a[0], a[k + 1]) && x != a[0] && x in b;
        }
        if x in b[1..] {
          var k :| 0 <= k < |b[1..]| && b[1..][k] == x;
          assert StrLess(b[0], b[k + 1]) && x != b[0] && x in a;
        }
      }
      StrictUnique(a[1..], b[1..]);
    } else if b != [] {
      FirstIn(b);
      assert false;
    }
  }

  /** d.keys(): the keys in some order, each once. */
  method KeyList<V>(d: map<string, V>) returns (r: seq<string>)
    ensures forall x :: multiset(r)[x] == if x in d then 1 else 0
  {
    r := [];
    var rest := d.Keys;
    while rest != {}
      invariant rest <= d.Keys
      invariant forall x :: multiset(r)[x] == if x in d && x !in rest then 1 else 0
      decreases |rest|
    {
      var x :| x in rest;
      r := r + [x];
      rest := rest - {x};
    }
  }

  /** keys = d.keys(); keys.sort(): whatever order keys() gave, the sorted list is the same. */
  method SortedKeyList<V>(d: map<string, V>) returns (r: seq<string>)
    ensures r == SortedKeys(d.Keys)
  {
    var keys := KeyList(d);
    r := SortBy(keys, Plain);
    PlainSortStrict(keys);
    forall x ensures x in r <==> x in SortedKeys(d.Keys) {
      assert x in r <==> x in multiset(keys);
    }
    StrictUnique(r, SortedKeys(d.Keys));
  }

  /** A dictionary's keys in its (unmodelled) iteration order: each once. */
  ghost function Enumerate(s: set<string>): (r: seq<string>)
    ensures |r| == |s|
    ensures forall x :: multiset(r)[x] == if x in s then 1 else 0
    decreases |s|
  {
    if s == {} then []
    else
      var x :| x in s;
      [x] + Enumerate(s - {x})
  }

  // ----------------------------------------------------------------- irange

  /** irange(start, end) = range(start, end + 1): the inclusive range. */
  function IRange(start: int, end: int): (r: seq<int>)
    ensures |r| == if end < start then 0 else end - start + 1
    ensures forall i :: 0 <= i < |r| ==> r[i] == start + i
    decreases end - start
  {
    if end < start then [] else [start] + IRange(start + 1, end)
  }

  /** Membership in irange is exactly the closed interval. */
  lemma IRangeMembers(start: int, end: int, x: int)
    ensures x in IRange(start, end) <==> start <= x <= end
  {
    if start <= x <= end {
      assert IRange(start, end)[x - start] == x;
    }
  }

  // -------------------------------------------------------------- splitArgs

  /** makeNumeric's result: an int, a float literal (kept as text), or the string. */
  datatype Arg = IntArg(i: int) | FloatArg(text: string) | StrArg(s: string)

  /** makeNumeric(s); which strings float() accepts is a parameter. */
  function MakeNumeric(s: string, isFloat: string -> bool): (a: Arg)
    ensures a.IntArg? <==> PyInt(s).Some?
    ensures a.IntArg? ==> PyInt(s) == Some(a.i)
    ensures a.StrArg? ==> a.s == s && !isFloat(s)
  {
    match PyInt(s)
      case Some(v) => IntArg(v)
      case None => if isFloat(s) then FloatArg(s) else StrArg(s)
  }

  /** [makeNumeric(s) for s in params if '=' not in s]. */
  function Positional(params: seq<string>, isFloat: string -> bool): (r: seq<Arg>)
    ensures |r| <= |params|
  {
    if params == [] then []
    else
      var rest := Positional(params[1..], isFloat);
      if '=' in params[0] then rest else [MakeNumeric(params[0], isFloat)] + rest
  }

  /** The part of a keyword field before its first '='. */
  function KeyOf(s: string): string requires '=' in s { SplitOnce(s, '=')[0] }
  function ValOf(s: string): string requires '=' in s { SplitOnce(s, '=')[1] }

  /** The kwargs dictionary after the loop has seen `params`. */
  function Kwargs(params: seq<string>, isFloat: string -> bool): map<string, Arg> {
    if params == [] then map[]
    else
      var before := Kwargs(params[..|params| - 1], isFloat);
      var s := params[|params| - 1];
      if '=' in s then before[KeyOf(s) := MakeNumeric(ValOf(s), isFloat)] else before
  }

  /**
   * splitArgs: the first ','-field names the function, fields without '='
   * are positional, the others fill kwargs with a later key replacing an earlier one.
   */
  method SplitArgs(argstr: string, isFloat: string -> bool)
    returns (fn: string, args: seq<Arg>, kwargs: map<string, Arg>)
    ensures fn == Split(argstr, ',')[0]
    ensures args == Positional(Split(argstr, ',')[1..], isFloat)
    ensures kwargs == Kwargs(Split(argstr, ',')[1..], isFloat)
  {
    var split := Split(argstr, ',');
    fn := split[0];
    var params := split[1..];
    args := Positional(params, isFloat);
    kwargs := map[];
    var i := 0;
    while i < |params|
      invariant 0 <= i <= |params|
      invariant kwargs == Kwargs(params[..i], isFloat)
    {
      var s := params[i];
      assert params[..i + 1][..i] == params[..i];
      if '=' in s {
        var kv := SplitOnce(s, '=');
        kwargs := kwargs[kv[0] := MakeNumeric(kv[1], isFloat)];
      }
      i := i + 1;
    }
    assert params[..i] == params;
  }

  /** Field s is a keyword field for key k. */
  predicate Names(s: string, k: string) { '=' in s && KeyOf(s) == k }

  /** One more field adds its key, if it has one. */
  lemma KwargsStep(params: seq<string>, isFloat: string -> bool, k: string)
    requires params != []
    ensures k in Kwargs(params, isFloat) <==>
      k in Kwargs(params[..|params| - 1], isFloat) || Names(params[|params| - 1], k)
  {
  }

  /** A key is in kwargs iff some field with '=' names it. */
  lemma KwargsDomain(params: seq<string>, isFloat: string -> bool, k: string)
    ensures k in Kwargs(params, isFloat) <==> exists i :: 0 <= i < |params| && Names(params[i], k)
  {
    if k in Kwargs(params, isFloat) {
      var i := KwargsWitness(params, isFloat, k);
    }
    if exists i :: 0 <= i < |params| && Names(params[i], k) {
      var i :| 0 <= i < |params| && Names(params[i], k);
      KwargsHas(params, isFloat, k, i);
    }
  }

  /** A key of kwargs comes from a field naming it. */
  lemma {:induction false} KwargsWitness(params: seq<string>, isFloat: string -> bool, k: string) returns (i: nat)
    requires k in Kwargs(params, isFloat)
    ensures i < |params| && Names(params[i], k)
  {
    var last := |params| - 1;
    KwargsStep(params, isFloat, k);
    if Names(params[last], k) {
      i := last;
    } else {
      var init := params[..last];
      i := KwargsWitness(init, isFloat, k);
      assert params[i] == init[i];
    }
  }

  /** A field naming k puts k into kwargs. */
  lemma {:induction false} KwargsHas(params: seq<string>, isFloat: string -> bool, k: string, i: nat)
    requires i < |params| && Names(params[i], k)
    ensures k in Kwargs(params, isFloat)
  {
    var last := |params| - 1;
    KwargsStep(params, isFloat, k);
    if i < last {
      var init := params[..last];
      assert init[i] == params[i];
      KwargsHas(init, isFloat, k, i);
    }
  }

  /** The value under k comes from the last field naming k. */
  lemma {:induction false} KwargsLastWins(params: seq<string>, isFloat: string -> bool, k: string, i: nat)
    requires i < |params| && Names(params[i], k)
    requires forall j :: i < j < |params| ==> !Names(params[j], k)
    ensures k in Kwargs(params, isFloat)
    ensures Kwargs(params, isFloat)[k] == MakeNumeric(ValOf(params[i]), isFloat)
  {
    if i < |params| - 1 {
      var init := params[..|params| - 1];
      assert init[i] == params[i];
      KwargsLastWins(init, isFloat, k, i);
      assert !Names(params[|params| - 1], k);
    }
  }

  /** Positional keeps the fields without '=' in order: it distributes over concatenation. */
  lemma {:induction false} PositionalAppend(a: seq<string>, b: seq<string>, isFloat: string -> bool)
    ensures Positional(a + b, isFloat) == Positional(a, isFloat) + Positional(b, isFloat)
  {
    if a == [] {
      assert a + b == b;
    } else {
      assert (a + b)[1..] == a[1..] + b;
      PositionalAppend(a[1..], b, isFloat);
    }
  }

  /** A single field is positional exactly when it has no '='. */
  lemma PositionalOne(p: string, isFloat: string -> bool)
    ensures Positional([p], isFloat) == if '=' in p then [] else [MakeNumeric(p, isFloat)]
  {
    assert [p][1..] == [];
  }

  // ------------------------------------- customConstructor and buildTopo

  /** What customConstructor returns: the constructor found, with the extra args. */
  datatype Customized<C> = Customized(ctor: C, newargs: seq<Arg>, kwargs: map<string, Arg>)

  /**
   * customConstructor: an unknown name raises before anything is built,
   * naming the known ones; keys is the order in which the dictionary
   * lists its names.
   */
  method CustomConstructor<C>(constructors: map<string, C>, keys: seq<string>, argStr: string, isFloat: string -> bool)
    returns (r: Result<Customized<C>, Exc>)
    requires forall k :: k in constructors <==> k in keys
    ensures r.Err? <==> Split(argStr, ',')[0] !in constructors
    ensures r.Err? ==> r.error == Raised("error: " + Split(argStr, ',')[0] + " is unknown - please specify one of " + ListRepr(keys))
    ensures r.Ok? ==> r.value.ctor == constructors[Split(argStr, ',')[0]]
    ensures r.Ok? ==> r.value.newargs == Positional(Split(argStr, ',')[1..], isFloat)
    ensures r.Ok? ==> r.value.kwargs == Kwargs(Split(argStr, ',')[1..], isFloat)
  {
    var cname, newargs, kwargs := SplitArgs(argStr, isFloat);
    if cname !in constructors {
      return Err(Raised("error: " + cname + " is unknown - please specify one of " + ListRepr(keys)));
    }
    return Ok(Customized(constructors[cname], newargs, kwargs));
  }

  /**
   * The call the customized constructor makes for (name, *args, **params):
   * the string's keyword arguments override the caller's, and its positional
   * arguments, when it has any, replace the caller's.
   */
  function CallCustomized<C>(c: Customized<C>, args: seq<Arg>, params: map<string, Arg>)
    : (call: (C, seq<Arg>, map<string, Arg>))
    ensures call.0 == c.ctor
    ensures call.1 == if c.newargs == [] then args else c.newargs
    ensures forall k :: k in call.2 <==> k in params || k in c.kwargs
    ensures forall k :: k in c.kwargs ==> call.2[k] == c.kwargs[k]
    ensures forall k :: k in params && k !in c.kwargs ==> call.2[k] == params[k]
  {
    (c.ctor, if c.newargs == [] then args else c.newargs, params + c.kwargs)
  }

  /** buildTopo: an unknown topology name raises, else its constructor is called with the parsed arguments. */
  method BuildTopo<C>(topos: map<string, C>, topoStr: string, isFloat: string -> bool)
    returns (r: Result<(C, seq<Arg>, map<string, Arg>), Exc>)
    ensures r.Err? <==> Split(topoStr, ',')[0] !in topos
    ensures r.Ok? ==> r.value == (topos[Split(topoStr, ',')[0]],
      Positional(Split(topoStr, ',')[1..], isFloat), Kwargs(Split(topoStr, ',')[1..], isFloat))
  {
    var topo, args, kwargs := SplitArgs(topoStr, isFloat);
    if topo !in topos {
      return Err(Raised("Invalid topo name " + topo));
    }
    return Ok((topos[topo], args, kwargs));
  }

  // --------------------------------------------------------- isShellBuiltin

  /** isShellBuiltin: the word before the first space (at index > 0) occurs
      in the builtins text; a command with no space, or one that starts
      with a space, is looked up whole. */
  function IsShellBuiltin(cmd: string, builtIns: string): bool {
    var word := match IndexOf(cmd, ' ')
      case Some(space) => if space > 0 then cmd[..space] else cmd
      case None => cmd;
    Contains(builtIns, word)
  }

  /** The word isShellBuiltin looks up. */
  lemma IsShellBuiltinWord(cmd: string, builtIns: string)
    ensures forall i :: 0 < i < |cmd| && cmd[i] == ' ' && ' ' !in cmd[..i] ==>
      (IsShellBuiltin(cmd, builtIns) <==> Contains(builtIns, cmd[..i]))
    ensures ' ' !in cmd ==> (IsShellBuiltin(cmd, builtIns) <==> Contains(builtIns, cmd))
    ensures cmd != [] && cmd[0] == ' ' ==> (IsShellBuiltin(cmd, builtIns) <==> Contains(builtIns, cmd))
  {
  }
}
