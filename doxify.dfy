// util/doxify.py: the line rewriter that turns mininet's plain docstrings
// into epydoc markup, a two-state machine whose state is the global
// `comment` flag.
module Doxify {
  import opened Wrappers
  import opened Text

  // --------------------------------------------------------- substitutions

  /** fixReturns: every 'returns:' becomes '@returns'. */
  function FixReturns(line: string): string {
    ReplaceAll(line, "returns:", "@returns")
  }

  /** Length of the run of \w characters at the start of s. */
  function WordRun(s: string): (n: nat)
    ensures n <= |s| && (forall k :: 0 <= k < n ==> IsWord(s[k]))
    ensures n < |s| ==> !IsWord(s[n])
  {
    if s == [] || !IsWord(s[0]) then 0
    else
      var n := 1 + WordRun(s[1..]);
      assert forall k :: 1 <= k < n ==> s[k] == s[1..][k - 1];
      n
  }

  /**
   * re.sub(r'(\w+):', r'@param \1', s). A match needs a full run of \w that
   * ends just before a ':' (a shorter run would end on a \w, not on ':'), so
   * the scan either rewrites a whole run with its colon or steps over it.
   */
  function ParamSub(s: string): string
    decreases |s|
  {
    if s == [] then []
    else
      var w := WordRun(s);
      if w == 0 then [s[0]] + ParamSub(s[1..])
      else if w < |s| && s[w] == ':' then "@param " + s[..w] + ParamSub(s[w + 1..])
      else s[..w] + ParamSub(s[w..])
  }

  /** fixParam: 'word:' becomes '@param word', then every '   @' becomes '@'. */
  function FixParam(line: string): string {
    ReplaceAll(ParamSub(line), "   @", "@")
  }

  /** A text without ':' has no parameter to rewrite. */
  lemma {:induction false} ParamSubNoColon(s: string)
    requires ':' !in s
    ensures ParamSub(s) == s
    decreases |s|
  {
    if s != [] {
      var w := WordRun(s);
      if w == 0 {
        assert ':' !in s[1..];
        ParamSubNoColon(s[1..]);
      } else {
        assert ':' !in s[w..];
        ParamSubNoColon(s[w..]);
        assert s == s[..w] + s[w..];
      }
    }
  }

  /** A word followed by ':' is rewritten to '@param word'. */
  lemma ParamSubWord(w: string, rest: string)
    requires w != [] && forall k :: 0 <= k < |w| ==> IsWord(w[k])
    ensures ParamSub(w + ":" + rest) == "@param " + w + ParamSub(rest)
  {
    var s := w + ":" + rest;
    WordRunIs(s, |w|);
    assert s[..|w|] == w && s[|w| + 1..] == rest;
  }

  /** A character outside \w is copied. */
  lemma ParamSubOther(c: char, rest: string)
    requires !IsWord(c)
    ensures ParamSub([c] + rest) == [c] + ParamSub(rest)
  {
    assert ([c] + rest)[1..] == rest;
  }

  /** A run of m \w characters ended by something else is what WordRun takes. */
  lemma {:induction false} WordRunIs(s: string, m: nat)
    requires m <= |s| && (forall k :: 0 <= k < m ==> IsWord(s[k])) && (m < |s| ==> !IsWord(s[m]))
    ensures WordRun(s) == m
  {
    if m > 0 {
      assert forall k :: 0 <= k < m - 1 ==> s[1..][k] == s[k + 1];
      WordRunIs(s[1..], m - 1);
    }
  }

  // -------------------------------------------------------------- matchers

  /** Length of the run of \s characters at the start of s. */
  function SpaceRun(s: string): (n: nat)
    ensures n <= |s| && (forall k :: 0 <= k < n ==> IsSpace(s[k]))
    ensures n < |s| ==> !IsSpace(s[n])
  {
    if s == [] || !IsSpace(s[0]) then 0
    else
      var n := 1 + SpaceRun(s[1..]);
      assert forall k :: 1 <= k < n ==> s[k] == s[1..][k - 1];
      n
  }

  /** spaces.match(line): the line starts with \s+. */
  predicate Indented(line: string) { SpaceRun(line) > 0 }

  /**
   * singleLineExp.match(line), for \s+"([^"]+)": the leading whitespace, a
   * '"', at least one other character and a second '"'.
   */
  predicate SingleLine(line: string) {
    var w := SpaceRun(line);
    0 < w < |line| && line[w] == '"' &&
      match IndexOf(line[w + 1..], '"')
        case None => false
        case Some(k) => k > 0
  }

  const Triple: string := "\"\"\""

  /** commentStartExp.match(line): the leading whitespace, then '"""'. */
  predicate CommentStart(line: string) {
    var w := SpaceRun(line);
    0 < w && StartsWith(line[w..], Triple)
  }

  /** commentEndExp.search(line): '"""' at the end, or just before a final newline, as '$' allows. */
  predicate CommentEnd(line: string) {
    EndsWith(line, Triple) || EndsWith(line, Triple + "\n")
  }

  // ---------------------------------------------------------------- fixLine

  /** What fixLine returns and the comment flag it leaves, from the flag it found. */
  function FixLineOf(line: string, comment: bool): (string, bool) {
    if !Indented(line) then (line, comment)
    else if SingleLine(line) then (ReplaceAll(line, "\"", Triple), comment)
    else
      var inComment := comment || CommentStart(line);
      var out := if inComment then FixDoc(line) else line;
      (out, if CommentEnd(out) then false else inComment)
  }

  /** What fixLines writes, line by line, and the flag after the last line. */
  function FixAllOf(lines: seq<string>, comment: bool): (seq<string>, bool) {
    Fold(FixLineOf, lines, comment)
  }

  /** Feeding lines one at a time through a rewriter with a flag. */
  function Fold(f: (string, bool) -> (string, bool), lines: seq<string>, comment: bool): (seq<string>, bool)
  {
    if lines == [] then ([], comment)
    else
      var first := f(lines[0], comment);
      var r := Fold(f, lines[1..], first.1);
      ([first.0] + r.0, r.1)
  }

  /** Feeding one more line after a prefix: its rewrite is appended and its flag carried on. */
  lemma {:induction false} FoldSnoc(f: (string, bool) -> (string, bool), lines: seq<string>, line: string, comment: bool)
    ensures var p := Fold(f, lines, comment); var last := f(line, p.1);
      Fold(f, lines + [line], comment) == (p.0 + [last.0], last.1)
    decreases |lines|
  {
    if lines == [] {
      assert lines + [line] == [line];
      assert [line][1..] == [];
      var last := f(line, comment);
      assert Fold(f, [line][1..], last.1) == ([], last.1);
      assert Fold(f, [line], comment) == ([last.0] + [], last.1);
      assert [last.0] + [] == [last.0] == Fold(f, lines, comment).0 + [last.0];
    } else {
      var first := f(lines[0], comment);
      assert (lines + [line])[1..] == lines[1..] + [line];
      FoldSnoc(f, lines[1..], line, first.1);
      var p := Fold(f, lines[1..], first.1);
      var last := f(line, p.1);
      assert [first.0] + (p.0 + [last.0]) == ([first.0] + p.0) + [last.0];
    }
  }

  /** Rewriting line i extends what was written for the lines before it. */
  lemma FoldPrefixNext(f: (string, bool) -> (string, bool), lines: seq<string>, i: nat, start: bool,
                       written: seq<string>, before: bool, out: string, after: bool)
    requires i < |lines|
    requires (written, before) == Fold(f, lines[..i], start)
    requires (out, after) == f(lines[i], before)
    ensures (written + [out], after) == Fold(f, lines[..i + 1], start)
  {
    FoldSnoc(f, lines[..i], lines[i], start);
    assert lines[..i + 1] == lines[..i] + [lines[i]];
  }

  /** The rewriter with its global flag. */
  class Doxifier {
    var comment: bool

    constructor()
      ensures !comment
    {
      comment := false;
    }

    /** fixLine(line). */
    method FixLine(line: string) returns (out: string)
      modifies this
      ensures (out, comment) == FixLineOf(line, old(comment))
    {
      if !Indented(line) {
        return line;
      }
      if SingleLine(line) {
        return ReplaceAll(line, "\"", Triple);
      }
      if CommentStart(line) {
        comment := true;
      }
      out := line;
      if comment {
        out := FixReturns(out);
        out := FixParam(out);
      }
      if CommentEnd(out) {
        comment := false;
      }
    }

    /** fixLines(lines, fid), with what os.write sends to fid returned in order. */
    method FixLines(lines: seq<string>) returns (written: seq<string>)
      modifies this
      ensures (written, comment) == FixAllOf(lines, old(comment))
    {
      written := [];
      var i := 0;
      ghost var start := comment;
      assert lines[..0] == [];
      while i < |lines|
        invariant 0 <= i <= |lines|
        invariant (written, comment) == Fold(FixLineOf, lines[..i], start)
      {
        ghost var before := comment;
        var out := FixLine(lines[i]);
        FoldPrefixNext(FixLineOf, lines, i, start, written, before, out, comment);
        written := written + [out];
        i := i + 1;
      }
      assert lines[..i] == lines;
    }
  }

  // ----------------------------------------------------------- properties

  /** A line that does not start with whitespace is written unchanged and leaves the flag alone. */
  lemma UnindentedUnchanged(line: string, comment: bool)
    requires line == [] || !IsSpace(line[0])
    ensures FixLineOf(line, comment) == (line, comment)
  {
  }

  /**
   * A docstring: an opening line that starts with whitespace and '"""', body
   * lines, and a closing line that ends in '"""'. Each is rewritten by
   * fixReturns then fixParam, and the flag is clear again afterwards.
   */
  lemma DocstringRewritten(lines: seq<string>, comment: bool)
    requires |lines| >= 1
    requires forall i :: 0 <= i < |lines| ==> Indented(lines[i]) && !SingleLine(lines[i])
    requires comment || CommentStart(lines[0])
    requires forall i :: 0 <= i < |lines| - 1 ==> !CommentEnd(FixDoc(lines[i]))
    requires CommentEnd(FixDoc(lines[|lines| - 1]))
    ensures |FixAllOf(lines, comment).0| == |lines|
    ensures forall i :: 0 <= i < |lines| ==> FixAllOf(lines, comment).0[i] == FixDoc(lines[i])
    ensures !FixAllOf(lines, comment).1
  {
    InComment(lines[0], comment);
    forall i | 1 <= i < |lines| ensures FixLineOf(lines[i], true) == (FixDoc(lines[i]), !CommentEnd(FixDoc(lines[i]))) {
      InComment(lines[i], true);
    }
    EndsAtLast(FixLineOf, FixDoc, CommentEnd, lines, comment);
    FoldInside(FixLineOf, FixDoc, lines, comment);
  }

  /** A flag that e clears on the last rewritten line only is still set after every earlier one. */
  lemma EndsAtLast(f: (string, bool) -> (string, bool), g: string -> string, e: string -> bool, lines: seq<string>, comment: bool)
    requires |lines| >= 1
    requires f(lines[0], comment) == (g(lines[0]), !e(g(lines[0])))
    requires forall i :: 1 <= i < |lines| ==> f(lines[i], true) == (g(lines[i]), !e(g(lines[i])))
    requires forall i :: 0 <= i < |lines| - 1 ==> !e(g(lines[i]))
    requires e(g(lines[|lines| - 1]))
    ensures f(lines[0], comment) == (g(lines[0]), |lines| > 1)
    ensures forall i :: 1 <= i < |lines| ==> f(lines[i], true) == (g(lines[i]), i < |lines| - 1)
  {
  }

  /** The docstring rewrite: fixReturns, then fixParam. */
  function FixDoc(line: string): string { FixParam(FixReturns(line)) }

  /** Lines that f rewrites by g, keeping the flag set until the last, come out rewritten with the flag clear. */
  lemma {:induction false} FoldInside(f: (string, bool) -> (string, bool), g: string -> string, lines: seq<string>, comment: bool)
    requires |lines| >= 1
    requires f(lines[0], comment) == (g(lines[0]), |lines| > 1)
    requires forall i :: 1 <= i < |lines| ==> f(lines[i], true) == (g(lines[i]), i < |lines| - 1)
    ensures |Fold(f, lines, comment).0| == |lines|
    ensures forall i :: 0 <= i < |lines| ==> Fold(f, lines, comment).0[i] == g(lines[i])
    ensures !Fold(f, lines, comment).1
  {
    var rest := lines[1..];
    if |lines| == 1 {
      assert rest == [];
    } else {
      assert forall i :: 0 <= i < |rest| ==> rest[i] == lines[i + 1];
      FoldInside(f, g, rest, true);
    }
  }

  /** Inside a comment, or on its opening line, an indented line is rewritten. */
  lemma InComment(line: string, comment: bool)
    requires Indented(line) && !SingleLine(line) && (comment || CommentStart(line))
    ensures FixLineOf(line, comment) == (FixDoc(line), !CommentEnd(FixDoc(line)))
  {
  }

  /** Quoting then unquoting: tripling every '"' is undone by collapsing every '"""'. */
  lemma {:induction false} TripleRoundTrip(s: string)
    ensures ReplaceAll(ReplaceAll(s, "\"", Triple), Triple, "\"") == s
    decreases |s|
  {
    if s != [] {
      var r := ReplaceAll(s[1..], "\"", Triple);
      TripleRoundTrip(s[1..]);
      if s[0] == '"' {
        assert s[..1] == "\"";
        assert ReplaceAll(s, "\"", Triple) == Triple + r;
        assert (Triple + r)[..3] == Triple && (Triple + r)[3..] == r;
        assert s == "\"" + s[1..];
      } else {
        assert s[..1] != "\"";
        assert ReplaceAll(s, "\"", Triple) == [s[0]] + r;
        var t := [s[0]] + r;
        if |t| >= 3 {
          assert t[..3] != Triple by { assert t[0] != '"'; }
          assert t[1..] == r;
        } else {
          NoQuoteShort(s[1..]);
          assert ReplaceAll(s[1..], "\"", Triple) == s[1..];
          assert t == s;
        }
      }
    }
  }

  /** A tail shorter than two characters after tripling held no quote. */
  lemma {:induction false} NoQuoteShort(s: string)
    requires |ReplaceAll(s, "\"", Triple)| < 2
    ensures ReplaceAll(s, "\"", Triple) == s
  {
    if s != [] {
      assert s[..1] != "\"";
      assert |ReplaceAll(s[1..], "\"", Triple)| < 1;
      NoQuoteShort(s[1..]);
    }
  }

  // --------------------------------------------------- the module's test()

  /** fixLine(' "foo"') == ' """foo"""'. */
  lemma SingleLineTest(comment: bool)
    ensures FixLineOf(" \"foo\"", comment) == (" \"\"\"foo\"\"\"", comment)
  {
    var line := " \"foo\"";
    assert SpaceRun(line) == 1 by { WordsAfterSpace(line); }
    assert line[2..] == "foo\"";
    assert IndexOf("foo\"", '"') == Some(3);
    assert SingleLine(line);
    QuoteTrip();
  }

  lemma WordsAfterSpace(line: string)
    requires |line| >= 2 && line[0] == ' ' && line[1] == '"'
    ensures SpaceRun(line) == 1
  {
    assert line[1..][0] == '"';
  }

  lemma QuoteTrip()
    ensures ReplaceAll(" \"foo\"", "\"", Triple) == " \"\"\"foo\"\"\""
  {
    var s := " \"foo\"";
    assert s[0] == ' ' && s[1] == '"' && s[2] == 'f' && s[3] == 'o' && s[4] == 'o' && s[5] == '"';
    QuoteSix(s);
    QuotedFoo();
  }

  /** The quotes of a six-character line shaped like ' "foo"', tripled. */
  lemma QuoteSix(s: string)
    requires |s| == 6 && s[0] == ' ' && s[1] == '"' && s[2] == 'f' && s[3] == 'o' && s[4] == 'o' && s[5] == '"'
    ensures ReplaceAll(s, "\"", Triple) == " " + (Triple + ("f" + ("o" + ("o" + Triple))))
  {
    var q := "\"";
    assert s[6..] == [] && ReplaceAll([], q, Triple) == [];
    QuoteCons(s[5], s[6..]);
    assert [s[5]] + s[6..] == s[5..];
    assert ReplaceAll(s[5..], q, Triple) == Triple;
    QuoteCons(s[4], s[5..]);
    assert [s[4]] + s[5..] == s[4..] && [s[4]] == "o";
    QuoteCons(s[3], s[4..]);
    assert [s[3]] + s[4..] == s[3..] && [s[3]] == "o";
    QuoteCons(s[2], s[3..]);
    assert [s[2]] + s[3..] == s[2..] && [s[2]] == "f";
    QuoteCons(s[1], s[2..]);
    assert [s[1]] + s[2..] == s[1..];
    QuoteCons(s[0], s[1..]);
    assert [s[0]] + s[1..] == s && [s[0]] == " ";
  }

  /** Tripling quotes, one character at a time. */
  lemma QuoteCons(c: char, s: string)
    ensures ReplaceAll([c] + s, "\"", Triple) == (if c == '"' then Triple else [c]) + ReplaceAll(s, "\"", Triple)
  {
    var t := [c] + s;
    assert t[..1] == [c] && t[1..] == s;
  }

  lemma QuotedFoo()
    ensures " " + (Triple + ("f" + ("o" + ("o" + Triple)))) == " \"\"\"foo\"\"\""
  {
    var g := " " + (Triple + ("f" + ("o" + ("o" + Triple))));
    assert |g| == 10;
    assert g[0] == ' ' && g[1] == '"' && g[2] == '"' && g[3] == '"' && g[4] == 'f';
    assert g[5] == 'o' && g[6] == 'o' && g[7] == '"' && g[8] == '"' && g[9] == '"';
  }

  /** fixParam('foo: bar') == '@param foo bar'. */
  lemma FixParamTest()
    ensures FixParam("foo: bar") == "@param foo bar"
  {
    FooBar();
    NoColonBar();
    FooWord();
    ParamSubWord("foo", " bar");
    ParamGlued();
    AtFirstOnly();
    NoInfixAt("@param foo bar", "   @");
  }

  lemma FooWord()
    ensures forall k :: 0 <= k < |"foo"| ==> IsWord("foo"[k])
  {
    var w := "foo";
    assert w[0] == 'f' && w[1] == 'o' && w[2] == 'o';
    assert IsLower('f') && IsLower('o');
  }

  lemma AtFirstOnly()
    ensures var s, pat := "@param foo bar", "   @";
      forall i :: 0 <= i < |s| && s[i] == pat[|pat| - 1] ==> i < |pat| - 1
  {
    var s := "@param foo bar";
    assert "   @"[3] == '@';
    assert |s| == 14 && s[0] == '@';
    assert s[1] == 'p' && s[2] == 'a' && s[3] == 'r' && s[4] == 'a' && s[5] == 'm' && s[6] == ' ';
    assert s[7] == 'f' && s[8] == 'o' && s[9] == 'o' && s[10] == ' ' && s[11] == 'b' && s[12] == 'a' && s[13] == 'r';
  }

  lemma FooBar()
    ensures "foo: bar" == "foo" + ":" + " bar"
  {
  }

  lemma NoColonBar()
    ensures ParamSub(" bar") == " bar"
  {
    var b := " bar";
    assert ':' !in b;
    ParamSubNoColon(b);
  }

  lemma ParamGlued()
    ensures "@param " + "foo" + " bar" == "@param foo bar"
  {
  }

  /** A text whose only occurrences of pat's last character sit too early to end a match. */
  lemma NoInfixAt(s: string, pat: string)
    requires pat != [] && forall i :: 0 <= i < |s| && s[i] == pat[|pat| - 1] ==> i < |pat| - 1
    ensures ReplaceAll(s, pat, "@") == s
  {
    forall i: nat | i <= |s| ensures !IsInfixAt(s, pat, i) {
      if i + |pat| <= |s| {
        assert s[i..i + |pat|][|pat| - 1] == s[i + |pat| - 1];
      }
    }
  }

  /**
   * Inside a comment 'returns:' is taken by fixReturns first, so it becomes
   * '@returns'; fixParam alone would have read it as the parameter 'returns'.
   */
  lemma ReturnsFirst(rest: string)
    requires ':' !in rest && '@' !in rest
    ensures FixDoc("returns:" + rest) == "@returns" + rest
    ensures ParamSub("returns:" + rest) == "@param returns" + rest
  {
    ReturnsReplaced(rest);
    ReturnsKept(rest);
    ReturnsAsParam(rest);
  }

  lemma ReturnsReplaced(rest: string)
    requires ':' !in rest
    ensures FixReturns("returns:" + rest) == "@returns" + rest
  {
    var s := "returns:" + rest;
    assert s[..8] == "returns:" && s[8..] == rest;
    LastAbsent(rest, "returns:", "@returns");
  }

  lemma ReturnsKept(rest: string)
    requires ':' !in rest && '@' !in rest
    ensures FixParam("@returns" + rest) == "@returns" + rest
  {
    var r := "returns";
    ReturnsWord();
    var t := "@returns" + rest;
    assert t == ['@'] + (r + rest);
    ParamSubOther('@', r + rest);
    assert ':' !in r + rest;
    ParamSubNoColon(r + rest);
    AtOnlyFirst(r, rest);
    NoInfixAt(t, "   @");
  }

  lemma AtOnlyFirst(r: string, rest: string)
    requires '@' !in r && '@' !in rest
    ensures var t := "@" + r + rest; forall i :: 0 <= i < |t| && t[i] == '@' ==> i < 3
  {
    var t := "@" + r + rest;
    forall i | 0 < i < |t| ensures t[i] != '@' {
      if i > |r| {
        assert t[i] == rest[i - 1 - |r|];
      } else {
        assert t[i] == r[i - 1];
      }
    }
  }

  lemma ReturnsAsParam(rest: string)
    requires ':' !in rest
    ensures ParamSub("returns:" + rest) == "@param returns" + rest
  {
    ReturnsWord();
    ReturnsGlue();
    ParamWordColon("returns", rest);
  }

  lemma ReturnsGlue()
    ensures "returns" + ":" == "returns:" && "@param " + "returns" == "@param returns"
  {
  }

  /** A word, a ':' and a text without ':' become '@param word' and that text. */
  lemma ParamWordColon(w: string, rest: string)
    requires w != [] && (forall k :: 0 <= k < |w| ==> IsWord(w[k])) && ':' !in rest
    ensures ParamSub(w + ":" + rest) == "@param " + w + rest
  {
    ParamSubWord(w, rest);
    ParamSubNoColon(rest);
  }

  lemma ReturnsWord()
    ensures forall k :: 0 <= k < |"returns"| ==> IsWord("returns"[k]) && "returns"[k] != '@' && "returns"[k] != ':'
  {
    var r := "returns";
    assert r[0] == 'r' && r[1] == 'e' && r[2] == 't' && r[3] == 'u' && r[4] == 'r' && r[5] == 'n' && r[6] == 's';
    assert IsLower('r') && IsLower('e') && IsLower('t') && IsLower('u') && IsLower('n') && IsLower('s');
  }

  /** A text without the last character of pat has nothing to replace. */
  lemma LastAbsent(s: string, pat: string, rep: string)
    requires pat != [] && pat[|pat| - 1] !in s
    ensures ReplaceAll(s, pat, rep) == s
  {
    forall i: nat | i <= |s| ensures !IsInfixAt(s, pat, i) {
      if i + |pat| <= |s| {
        assert s[i..i + |pat|][|pat| - 1] == s[i + |pat| - 1];
      }
    }
  }

  /** commentStartExp matches '   """foo"""'. */
  lemma CommentStartTest()
    ensures CommentStart("   \"\"\"foo\"\"\"")
  {
    var line := "   \"\"\"foo\"\"\"";
    SpaceRunIs(line, 3);
    assert line[3..][..3] == Triple;
  }

  lemma {:induction false} SpaceRunIs(s: string, m: nat)
    requires m <= |s| && (forall k :: 0 <= k < m ==> IsSpace(s[k])) && (m < |s| ==> !IsSpace(s[m]))
    ensures SpaceRun(s) == m
  {
    if m > 0 {
      assert forall k :: 0 <= k < m - 1 ==> s[1..][k] == s[k + 1];
      SpaceRunIs(s[1..], m - 1);
    }
  }
}
