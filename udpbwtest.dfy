// examples/udpbwtest.py: the buffered readline over a host's output, the
// parser of udpbwtest's per-second report lines, and the loop that groups
// the reports of all hosts by second.
module UdpBwTest {
  import opened Wrappers
  import opened Text
  import Nodes

  // ---------------------------------------------------------------- readline

  /**
   * readline(host, buffer), with what host.read(1024) returned passed in as
   * data: the first complete line of buffer + data and the text after its
   * newline, or None and the grown buffer when no newline has arrived.
   */
  function ReadLine(buffer: string, data: string): (r: (Option<string>, string))
    ensures r.0.None? <==> '\n' !in buffer + data
    ensures r.0.None? ==> r.1 == buffer + data
    ensures r.0.Some? ==> r.0.value + "\n" + r.1 == buffer + data && '\n' !in r.0.value
  {
    var b := buffer + data;
    match IndexOf(b, '\n')
      case None => (None, b)
      case Some(pos) =>
        assert b == b[..pos] + "\n" + b[pos + 1..];
        (Some(b[..pos]), b[pos + 1..])
  }

  /** A buffer that already holds a line gives that line back whatever comes after it. */
  lemma ReadLineFirst(line: string, rest: string, data: string)
    requires '\n' !in line
    ensures ReadLine(line + "\n" + rest, data) == (Some(line), rest + data)
  {
    var b := line + "\n" + rest + data;
    assert b == line + "\n" + (rest + data);
    var r := ReadLine(line + "\n" + rest, data);
    LineUnique(line, rest + data, r.0.value, r.1);
  }

  /** The text before the first newline is determined by the buffer. */
  lemma LineUnique(a: string, b: string, c: string, d: string)
    requires '\n' !in a && '\n' !in c && a + "\n" + b == c + "\n" + d
    ensures a == c && b == d
  {
    var s := a + "\n" + b;
    NewlineAt(a, b);
    NewlineAt(c, d);
    assert |a| == |c|;
    assert a == s[..|a|] == c;
    assert b == s[|a| + 1..] == d;
  }

  lemma NewlineAt(a: string, b: string)
    ensures var s := a + "\n" + b;
      |s| == |a| + 1 + |b| && s[|a|] == '\n' && (forall k :: 0 <= k < |a| ==> s[k] == a[k])
  {
  }

  // ------------------------------------------------------------- parsebwtest

  const InText: string := " s: in "
  const OutText: string := " Mbps, out "
  const MbpsText: string := " Mbps"

  /** The character classes of the pattern: \d, or [\d\.] when dots is set. */
  predicate Accepts(c: char, dots: bool) { IsDigit(c) || (dots && c == '.') }

  predicate AllAccepted(s: string, dots: bool) { forall k :: 0 <= k < |s| ==> Accepts(s[k], dots) }

  /** Length of the longest prefix of s in the class: what a greedy + takes. */
  function Span(s: string, dots: bool): (n: nat)
    ensures n <= |s| && AllAccepted(s[..n], dots)
    ensures n < |s| ==> !Accepts(s[n], dots)
  {
    if s == [] || !Accepts(s[0], dots) then 0
    else
      var n := 1 + Span(s[1..], dots);
      assert forall k :: 1 <= k < n ==> s[..n][k] == s[1..][..n - 1][k - 1];
      n
  }

  /**
   * parsebwtest(line): re.match of '(\d+) s: in ([\d\.]+) Mbps, out ([\d\.]+) Mbps'
   * at the start of line, and its three groups. Each class is followed by a
   * character outside it, so each greedy + takes the whole run.
   */
  function ParseBwTest(line: string): (r: Option<(string, string, string)>)
    ensures Parses(r)
  {
    var a := Span(line, false);
    var s1 := line[a..];
    if a == 0 || !StartsWith(s1, InText) then None
    else
      var s2 := s1[|InText|..];
      var b := Span(s2, true);
      if b == 0 || !StartsWith(s2[b..], OutText) then None
      else
        var s3 := s2[b..][|OutText|..];
        var c := Span(s3, true);
        if c == 0 || !StartsWith(s3[c..], MbpsText) then None
        else Some((line[..a], s2[..b], s3[..c]))
  }

  /** What a match can yield: a run of digits and two runs of digits and dots. */
  predicate Parses(p: Option<(string, string, string)>) {
    p.Some? ==> Fields(p.value.0, p.value.1, p.value.2) && AllDigits(p.value.0)
  }

  /** A report line: time, in and out bandwidth, then anything. */
  function Report(time: string, inbw: string, outbw: string, tail: string): string {
    time + (InText + (inbw + (OutText + (outbw + (MbpsText + tail)))))
  }

  /** The field shapes the three groups admit. */
  predicate Fields(time: string, inbw: string, outbw: string) {
    time != [] && AllAccepted(time, false) && inbw != [] && AllAccepted(inbw, true) && outbw != [] && AllAccepted(outbw, true)
  }

  /** Every report line parses back to its three fields. */
  lemma ParseReport(time: string, inbw: string, outbw: string, tail: string)
    requires Fields(time, inbw, outbw)
    ensures ParseBwTest(Report(time, inbw, outbw, tail)) == Some((time, inbw, outbw))
  {
    var r3 := MbpsText + tail;
    var r2 := OutText + (outbw + r3);
    var r1 := InText + (inbw + r2);
    assert InText[0] == ' ' && OutText[0] == ' ' && MbpsText[0] == ' ';
    SpanCut(time, r1, false);
    PrefixCut(InText, inbw + r2);
    SpanCut(inbw, r2, true);
    PrefixCut(OutText, outbw + r3);
    SpanCut(outbw, r3, true);
    PrefixCut(MbpsText, tail);
  }

  /** A line parses only when it is a report line of the fields it yields. */
  lemma ParseSound(line: string) returns (tail: string)
    requires ParseBwTest(line).Some?
    ensures var (time, inbw, outbw) := ParseBwTest(line).value;
      Fields(time, inbw, outbw) && line == Report(time, inbw, outbw, tail)
  {
    var a := Span(line, false);
    var s1 := line[a..];
    var s2 := s1[|InText|..];
    var b := Span(s2, true);
    var s3 := s2[b..][|OutText|..];
    var c := Span(s3, true);
    tail := s3[c..][|MbpsText|..];
    CutAt(s3, c, MbpsText);
    CutAt(s2, b, OutText);
    CutAt(line, a, InText);
  }

  /** s is its first n characters, then p, then what follows p. */
  lemma CutAt(s: string, n: nat, p: string)
    requires n <= |s| && StartsWith(s[n..], p)
    ensures s == s[..n] + (p + s[n..][|p|..])
  {
    assert s[n..] == p + s[n..][|p|..];
  }

  lemma SpanCut(u: string, v: string, dots: bool)
    requires AllAccepted(u, dots) && v != [] && !Accepts(v[0], dots)
    ensures Span(u + v, dots) == |u| && (u + v)[..|u|] == u && (u + v)[|u|..] == v
  {
    var s := u + v;
    assert s[..|u|] == u && s[|u|] == v[0];
    SpanIs(s, dots, |u|);
  }

  /** A run of m accepted characters ended by a rejected one or the end is what Span takes. */
  lemma {:induction false} SpanIs(s: string, dots: bool, m: nat)
    requires m <= |s| && AllAccepted(s[..m], dots) && (m < |s| ==> !Accepts(s[m], dots))
    ensures Span(s, dots) == m
  {
    if m > 0 {
      assert s[..m][0] == s[0];
      var t := s[1..][..m - 1];
      forall k | 0 <= k < |t| ensures Accepts(t[k], dots) {
        assert t[k] == s[..m][k + 1];
      }
      SpanIs(s[1..], dots, m - 1);
    }
  }

  lemma PrefixCut(p: string, rest: string)
    ensures StartsWith(p + rest, p) && (p + rest)[|p|..] == rest
  {
    assert (p + rest)[..|p|] == p;
  }

  // ------------------------------------------------------------ the grouping

  /** A text float() accepts among the [\d\.]+ runs: at most one dot and not a lone dot. */
  predicate FloatText(s: string) { DotCount(s) <= 1 && s != "." }

  function DotCount(s: string): nat {
    if s == [] then 0 else DotCount(s[..|s| - 1]) + (if s[|s| - 1] == '.' then 1 else 0)
  }

  /** One host's report for one second; the bandwidths are kept as their decimal text. */
  datatype Sample = Sample(host: string, inbw: string, outbw: string)

  /**
   * The state of udpbwtest's monitoring loop: results by second, the totals
   * printed so far (the second and the group printTotal was given), and the
   * ValueError of a float() that failed, which ends the loop.
   */
  datatype Tally = Tally(results: map<nat, seq<Sample>>, totals: seq<(nat, seq<Sample>)>, error: Option<Exc>)

  /** What one (host, line) from monitor() does to the tally. */
  function Step(t: Tally, host: string, line: string, hostCount: nat): Tally {
    Parsed(t, host, ParseBwTest(line), hostCount)
  }

  /** The step on what parsebwtest made of the line. */
  function Parsed(t: Tally, host: string, p: Option<(string, string, string)>, hostCount: nat): Tally
    requires Parses(p)
  {
    if t.error.Some? then t
    else match p
      case None => t
      case Some((time, inbw, outbw)) =>
        if !FloatText(inbw) || !FloatText(outbw) then t.(error := Some(ValueError))
        else Append(t, DecValue(time), Sample(host, inbw, outbw), hostCount)
  }

  /** Appending a sample to its second's group, printing the group when it reaches hostCount. */
  function Append(t: Tally, sec: nat, x: Sample, hostCount: nat): Tally {
    var result := Group(t, sec) + [x];
    Tally(t.results[sec := result], if |result| == hostCount then t.totals + [(sec, result)] else t.totals, t.error)
  }

  /** The tally after the lines monitor() yielded, in order. */
  function TallyOf(events: seq<(string, string)>, hostCount: nat): Tally {
    if events == [] then Tally(map[], [], None)
    else Step(TallyOf(events[..|events| - 1], hostCount), events[|events| - 1].0, events[|events| - 1].1, hostCount)
  }

  /**
   * The loop of udpbwtest() over the (host, line) pairs monitor() yields, up
   * to its (None, '') sentinel: each parsed line is appended to its second's
   * group, and printTotal is called when a group reaches hostCount entries.
   */
  method Udpbwtest(events: seq<(string, string)>, hostCount: nat) returns (t: Tally)
    ensures t == TallyOf(events, hostCount)
  {
    var results: map<nat, seq<Sample>> := map[];
    var totals: seq<(nat, seq<Sample>)> := [];
    var i := 0;
    while i < |events|
      invariant 0 <= i <= |events|
      invariant TallyOf(events[..i], hostCount) == Tally(results, totals, None)
    {
      var (host, line) := events[i];
      TallyNext(events, i, hostCount);
      var parsed := ParseBwTest(line);
      if parsed.Some? {
        var (time, inbw, outbw) := parsed.value;
        if !FloatText(inbw) || !FloatText(outbw) {
          t := Tally(results, totals, Some(ValueError));
          ErrorSticks(events, i + 1, hostCount);
          return;
        }
        var sec := DecValue(time);
        var result := (if sec in results then results[sec] else []) + [Sample(host, inbw, outbw)];
        if |result| == hostCount {
          totals := totals + [(sec, result)];
        }
        results := results[sec := result];
      }
      i := i + 1;
    }
    assert events[..i] == events;
    t := Tally(results, totals, None);
  }

  lemma TallyNext(events: seq<(string, string)>, i: nat, hostCount: nat)
    requires i < |events|
    ensures TallyOf(events[..i + 1], hostCount) == Parsed(TallyOf(events[..i], hostCount), events[i].0, ParseBwTest(events[i].1), hostCount)
  {
    assert events[..i + 1][..i] == events[..i];
  }

  /** Once a float() has failed, later lines change nothing. */
  lemma {:induction false} ErrorSticks(events: seq<(string, string)>, i: nat, hostCount: nat)
    requires i <= |events| && TallyOf(events[..i], hostCount).error.Some?
    ensures TallyOf(events, hostCount) == TallyOf(events[..i], hostCount)
    decreases |events| - i
  {
    if i < |events| {
      assert events[..i + 1][..i] == events[..i];
      ErrorSticks(events, i + 1, hostCount);
    } else {
      assert events[..i] == events;
    }
  }

  /** A report line whose in or out bandwidth float() rejects. */
  predicate BadLine(line: string) { BadParse(ParseBwTest(line)) }

  predicate BadParse(p: Option<(string, string, string)>) {
    p.Some? && (!FloatText(p.value.1) || !FloatText(p.value.2))
  }

  /** A step fails exactly when the tally had failed or the line is a bad report. */
  lemma ParsedError(t: Tally, host: string, p: Option<(string, string, string)>, hostCount: nat)
    requires Parses(p)
    ensures Parsed(t, host, p, hostCount).error.Some? <==> t.error.Some? || BadParse(p)
    ensures Parsed(t, host, p, hostCount).error.Some? ==>
      Parsed(t, host, p, hostCount).error.value == if t.error.Some? then t.error.value else ValueError
  {
  }

  /** The loop ends in ValueError only after a line float() rejects. */
  lemma {:induction false} TallyErrorWitness(events: seq<(string, string)>, hostCount: nat) returns (i: nat)
    requires TallyOf(events, hostCount).error.Some?
    ensures i < |events| && BadLine(events[i].1)
    ensures TallyOf(events, hostCount).error.value == ValueError
  {
    var pre := events[..|events| - 1];
    var (host, line) := events[|events| - 1];
    var t0 := TallyOf(pre, hostCount);
    ParsedError(t0, host, ParseBwTest(line), hostCount);
    if t0.error.Some? {
      i := TallyErrorWitness(pre, hostCount);
      assert events[i] == pre[i];
    } else {
      i := |events| - 1;
    }
  }

  /** A line float() rejects ends the loop in ValueError. */
  lemma TallyErrorAt(events: seq<(string, string)>, hostCount: nat, i: nat)
    requires i < |events| && BadLine(events[i].1)
    ensures TallyOf(events, hostCount).error.Some?
  {
    var pre := events[..i + 1][..i];
    assert pre == events[..i];
    ParsedError(TallyOf(pre, hostCount), events[i].0, ParseBwTest(events[i].1), hostCount);
    assert TallyOf(events[..i + 1], hostCount) == Parsed(TallyOf(pre, hostCount), events[i].0, ParseBwTest(events[i].1), hostCount);
    ErrorSticks(events, i + 1, hostCount);
  }

  /** The samples of second sec among the lines that parse, in arrival order. */
  function SamplesAt(events: seq<(string, string)>, sec: nat): seq<Sample> {
    if events == [] then []
    else
      var (host, line) := events[|events| - 1];
      SamplesAt(events[..|events| - 1], sec) + SampleOf(host, ParseBwTest(line), sec)
  }

  /** The sample a parsed line contributes to second sec. */
  function SampleOf(host: string, p: Option<(string, string, string)>, sec: nat): seq<Sample>
    requires Parses(p)
  {
    match p
      case None => []
      case Some((time, inbw, outbw)) => if DecValue(time) == sec then [Sample(host, inbw, outbw)] else []
  }

  function SamplesFn(events: seq<(string, string)>): nat -> seq<Sample> {
    (sec: nat) => SamplesAt(events, sec)
  }

  /** The group a second holds in the tally. */
  function Group(t: Tally, sec: nat): seq<Sample> {
    if sec in t.results then t.results[sec] else []
  }

  predicate Printed(t: Tally, sec: nat) { exists k :: 0 <= k < |t.totals| && t.totals[k].0 == sec }

  /**
   * The tally holds, for each second, the samples f gives it; a second has
   * been printed exactly when f gives it at least hostCount samples (and
   * hostCount is positive), each print shows the first hostCount of them, and
   * no second is printed twice.
   */
  ghost predicate Explains(t: Tally, f: nat -> seq<Sample>, hostCount: nat) {
    (forall sec: nat :: Group(t, sec) == f(sec)) &&
    (forall sec: nat :: Printed(t, sec) <==> 0 < hostCount <= |f(sec)|) &&
    (forall k :: 0 <= k < |t.totals| ==>
      hostCount <= |f(t.totals[k].0)| && t.totals[k].1 == f(t.totals[k].0)[..hostCount]) &&
    (forall j, k :: 0 <= j < k < |t.totals| ==> t.totals[j].0 != t.totals[k].0)
  }

  /**
   * Without a failed float(), each second's group is that second's samples in
   * arrival order; a second's total is printed exactly once, when its group
   * reaches hostCount entries, and shows the first hostCount samples.
   */
  lemma {:induction false} TallyMeaning(events: seq<(string, string)>, hostCount: nat)
    requires TallyOf(events, hostCount).error.None?
    ensures Explains(TallyOf(events, hostCount), SamplesFn(events), hostCount)
  {
    if events == [] {
      assert forall sec: nat :: !Printed(TallyOf(events, hostCount), sec);
    } else {
      var pre := events[..|events| - 1];
      var (host, line) := events[|events| - 1];
      var t0 := TallyOf(pre, hostCount);
      assert t0.error.None?;
      TallyMeaning(pre, hostCount);
      var p := ParseBwTest(line);
      assert forall sec: nat :: SamplesFn(events)(sec) == SamplesFn(pre)(sec) + SampleOf(host, p, sec);
      ParsedExplains(t0, SamplesFn(pre), SamplesFn(events), host, p, hostCount);
    }
  }

  lemma ParsedExplains(t: Tally, f0: nat -> seq<Sample>, f1: nat -> seq<Sample>, host: string,
                       p: Option<(string, string, string)>, hostCount: nat)
    requires Parses(p) && Explains(t, f0, hostCount) && t.error.None? && Parsed(t, host, p, hostCount).error.None?
    requires forall sec: nat :: f1(sec) == f0(sec) + SampleOf(host, p, sec)
    ensures Explains(Parsed(t, host, p, hostCount), f1, hostCount)
  {
    match p
      case None =>
        assert forall sec: nat :: f1(sec) == f0(sec);
      case Some((time, inbw, outbw)) =>
        var x := Sample(host, inbw, outbw);
        assert forall sec: nat :: f1(sec) == f0(sec) + (if sec == DecValue(time) then [x] else []);
        AppendExplains(t, f0, f1, hostCount, DecValue(time), x);
  }

  /** A sample appended to second s keeps the tally explained by the grown samples. */
  lemma AppendExplains(t: Tally, f0: nat -> seq<Sample>, f1: nat -> seq<Sample>, hostCount: nat, s: nat, x: Sample)
    requires Explains(t, f0, hostCount)
    requires forall sec: nat :: f1(sec) == f0(sec) + (if sec == s then [x] else [])
    ensures Explains(Append(t, s, x, hostCount), f1, hostCount)
  {
    AppendGroups(t, f0, f1, hostCount, s, x);
    AppendTotals(t, f0, f1, hostCount, s, x);
    AppendPrinted(t, f0, f1, hostCount, s, x);
  }

  lemma AppendGroups(t: Tally, f0: nat -> seq<Sample>, f1: nat -> seq<Sample>, hostCount: nat, s: nat, x: Sample)
    requires forall sec: nat :: Group(t, sec) == f0(sec)
    requires forall sec: nat :: f1(sec) == f0(sec) + (if sec == s then [x] else [])
    ensures forall sec: nat :: Group(Append(t, s, x, hostCount), sec) == f1(sec)
  {
    var t1 := Append(t, s, x, hostCount);
    forall sec: nat ensures Group(t1, sec) == f1(sec) {
      if sec != s { assert f1(sec) == f0(sec) + []; }
    }
  }

  lemma AppendTotals(t: Tally, f0: nat -> seq<Sample>, f1: nat -> seq<Sample>, hostCount: nat, s: nat, x: Sample)
    requires Explains(t, f0, hostCount)
    requires forall sec: nat :: f1(sec) == f0(sec) + (if sec == s then [x] else [])
    ensures var t1 := Append(t, s, x, hostCount);
      (forall k :: 0 <= k < |t1.totals| ==>
        hostCount <= |f1(t1.totals[k].0)| && t1.totals[k].1 == f1(t1.totals[k].0)[..hostCount]) &&
      (forall j, k :: 0 <= j < k < |t1.totals| ==> t1.totals[j].0 != t1.totals[k].0)
  {
    var t1 := Append(t, s, x, hostCount);
    forall k | 0 <= k < |t.totals|
      ensures hostCount <= |f1(t.totals[k].0)| && t.totals[k].1 == f1(t.totals[k].0)[..hostCount]
    {
      var sec := t.totals[k].0;
      assert f1(sec)[..hostCount] == f0(sec)[..hostCount];
    }
    if |t1.totals| > |t.totals| {
      assert Group(t, s) == f0(s) && |f0(s)| + 1 == hostCount;
      assert !Printed(t, s);
      assert t1.totals[|t.totals|] == (s, f1(s));
      assert f1(s)[..hostCount] == f1(s);
    }
  }

  lemma AppendPrinted(t: Tally, f0: nat -> seq<Sample>, f1: nat -> seq<Sample>, hostCount: nat, s: nat, x: Sample)
    requires Explains(t, f0, hostCount)
    requires forall sec: nat :: f1(sec) == f0(sec) + (if sec == s then [x] else [])
    ensures forall sec: nat :: Printed(Append(t, s, x, hostCount), sec) <==> 0 < hostCount <= |f1(sec)|
  {
    var t1 := Append(t, s, x, hostCount);
    assert Group(t, s) == f0(s);
    forall sec: nat ensures Printed(t1, sec) <==> 0 < hostCount <= |f1(sec)| {
      if sec == s {
        if |f1(s)| == hostCount && 0 < hostCount {
          assert t1.totals[|t.totals|].0 == s;
        } else if 0 < hostCount <= |f1(s)| {
          var k :| 0 <= k < |t.totals| && t.totals[k].0 == s;
          assert t1.totals[k].0 == s;
        } else if Printed(t1, s) {
          var k :| 0 <= k < |t1.totals| && t1.totals[k].0 == s;
          assert k < |t.totals| && Printed(t, s);
        }
      } else {
        assert f1(sec) == f0(sec) + [];
        if Printed(t1, sec) {
          var k :| 0 <= k < |t1.totals| && t1.totals[k].0 == sec;
          assert k < |t.totals|;
        }
        if Printed(t, sec) {
          var k :| 0 <= k < |t.totals| && t.totals[k].0 == sec;
          assert t1.totals[k].0 == sec;
        }
      }
    }
  }

  // ------------------------------------------------------------- the report

  /**
   * The final report: each second with its group, in ascending order of the
   * seconds and measured from the earliest one.
   */
  ghost function FinalReport(results: map<nat, seq<Sample>>): (r: seq<(int, seq<Sample>)>)
    ensures |r| == |results.Keys|
    ensures r != [] ==> r[0].0 == 0
    ensures forall i, j :: 0 <= i < j < |r| ==> 0 <= r[i].0 < r[j].0
  {
    var times := Nodes.SortedSet(results.Keys);
    Nodes.SortedSetSpec(results.Keys);
    assert forall i :: 0 <= i < |times| ==> times[i] in results;
    seq(|times|, i requires 0 <= i < |times| => (times[i] - times[0], results[times[i]]))
  }

  /** The report lists every second once, with its group, shifted by the earliest second. */
  lemma FinalReportCovers(results: map<nat, seq<Sample>>)
    requires results != map[]
    ensures var r, first := FinalReport(results), Nodes.MinOf(results.Keys);
      (forall i :: 0 <= i < |r| ==> r[i].0 + first in results && r[i].1 == results[r[i].0 + first]) &&
      (forall sec :: sec in results ==> exists i :: 0 <= i < |r| && r[i].0 == sec - first)
  {
    var times := Nodes.SortedSet(results.Keys);
    Nodes.SortedSetSpec(results.Keys);
    var r := FinalReport(results);
    assert results.Keys != {};
    assert times[0] == Nodes.MinOf(results.Keys);
    forall sec | sec in results ensures exists i :: 0 <= i < |r| && r[i].0 == sec - times[0] {
      assert sec in times;
      var i :| 0 <= i < |times| && times[i] == sec;
      assert r[i].0 == sec - times[0];
    }
  }
}
