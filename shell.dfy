// The shell protocol of mininet/node.py's Node as values: the read
// buffer, the line splitting of readline, the pid markers and the
// sentinel monitor looks for, and the text sendCmd writes to the shell.
// The Node class of module Nodes keeps this state in its fields.
module Shell {
  import opened Wrappers
  import opened Text
  import Links
  import Util
  import MnExec

  // ------------------------------------------------------------------ read

  /** What read() hands back and what it leaves in the buffer. */
  datatype Taken = Taken(result: string, rest: string)

  /** read(maxbytes) on buffer buf, where os.read returned data: the
      pipe is read only when the buffer holds fewer than maxbytes. */
  function ReadStep(buf: string, maxbytes: nat, data: string): Taken {
    var b := if |buf| < maxbytes then buf + data else buf;
    if maxbytes >= |b| then Taken(b, "") else Taken(b[..maxbytes], b[maxbytes..])
  }

  /** At most maxbytes come back, nothing is lost or reordered, the buffer
      is left empty unless the result is full, and nothing is read when
      the buffer already holds maxbytes. */
  lemma ReadStepSpec(buf: string, maxbytes: nat, data: string)
    ensures var t := ReadStep(buf, maxbytes, data);
      |t.result| <= maxbytes
      && t.result + t.rest == buf + (if |buf| < maxbytes then data else "")
      && (|t.result| < maxbytes ==> t.rest == "")
      && (|buf| >= maxbytes ==> t.result == buf[..maxbytes] && t.rest == buf[maxbytes..])
  {
    var b := if |buf| < maxbytes then buf + data else buf;
    if maxbytes < |b| {
      assert b[..maxbytes] + b[maxbytes..] == b;
    }
  }

  // -------------------------------------------------------------- readline

  /** Split at the first newline: the line and what follows it, or None
      and everything when there is no newline. */
  function LineOf(b: string): (r: (Option<string>, string))
    ensures r.0.None? <==> '\n' !in b
    ensures r.0.None? ==> r.1 == b
    ensures r.0.Some? ==> '\n' !in r.0.value && r.0.value + "\n" + r.1 == b
  {
    match IndexOf(b, '\n')
    case None => (None, b)
    case Some(pos) =>
      assert b == b[..pos] + "\n" + b[pos + 1..];
      (Some(b[..pos]), b[pos + 1..])
  }

  /** readline as written: `self.readbuf += self.read(1024)` loads the
      buffer before read() runs and stores old buffer + result, so text
      that was already buffered is kept twice. */
  function ReadlineAsWritten(buf: string, data: string): (Option<string>, string) {
    LineOf(buf + ReadStep(buf, 1024, data).result)
  }

  /** readline as intended: the buffer becomes the text read back followed
      by what read() left buffered. */
  function Readline(buf: string, data: string): (Option<string>, string) {
    var t := ReadStep(buf, 1024, data);
    LineOf(t.result + t.rest)
  }

  /** The intended readline returns the text before the first newline of
      buffer + new data and keeps the rest, or None and keeps everything. */
  lemma ReadlineSpec(buf: string, data: string)
    ensures var whole := buf + (if |buf| < 1024 then data else "");
      var r := Readline(buf, data);
      (r.0.None? <==> '\n' !in whole)
      && (r.0.None? ==> r.1 == whole)
      && (r.0.Some? ==> '\n' !in r.0.value && r.0.value + "\n" + r.1 == whole)
  {
    ReadStepSpec(buf, 1024, data);
  }

  /** With an empty buffer the code as written does what was intended. */
  lemma ReadlineAsWrittenEmpty(data: string)
    requires |data| <= 1024
    ensures ReadlineAsWritten("", data) == Readline("", data)
  {
    var t := ReadStep("", 1024, data);
    assert "" + data == data;
    assert t.result == data && t.rest == "";
    assert "" + t.result == t.result + t.rest;
  }

  /** With something buffered and room for the new data, the buffered text
      is seen twice. */
  lemma ReadlineAsWrittenDoubles(buf: string, data: string)
    requires 0 < |buf| && |buf| + |data| <= 1024
    ensures ReadlineAsWritten(buf, data) == LineOf(buf + buf + data)
  {
    assert ReadStep(buf, 1024, data).result == buf + data;
    assert buf + (buf + data) == buf + buf + data;
  }

  /** Buffer "b" and new data "\n": the line comes back as "bb". */
  lemma ReadlineAsWrittenExample()
    ensures ReadlineAsWritten("b", "\n") == (Some("bb"), "")
    ensures Readline("b", "\n") == (Some("b"), "")
  {
    ReadlineAsWrittenDoubles("b", "\n");
    assert "b" + "b" + "\n" == "bb" + "\n" + "";
    ReadlineSpec("b", "\n");
    assert "b" + "\n" == "b" + "\n" + "";
  }

  // --------------------------------------------------------------- markers

  const Mark: char := '\U{1}'
  const Sentinel: char := '\U{7f}'

  /** The digit run at the start of s is all digits, and a non-digit or
      the end follows it. */
  lemma {:induction false} DigitRunDigits(s: string)
    ensures AllDigits(s[..Links.DigitRun(s)])
    ensures Links.DigitRun(s) < |s| ==> !IsDigit(s[Links.DigitRun(s)])
  {
    if s != [] && IsDigit(s[0]) {
      DigitRunDigits(s[1..]);
      assert s[..Links.DigitRun(s)] == [s[0]] + s[1..][..Links.DigitRun(s[1..])];
    }
  }

  /** The length of a match of \x01\d+\n at the start of s, if any. */
  function MarkerLen(s: string): (e: Option<nat>)
    ensures e.Some? ==> 3 <= e.value <= |s|
  {
    if s != [] && s[0] == Mark then
      var d := Links.DigitRun(s[1..]);
      if 0 < d && d + 1 < |s| && s[d + 1] == '\n' then Some(d + 2) else None
    else None
  }

  /** A marker is \x01, then digits, then a newline. */
  lemma MarkerShape(s: string)
    requires MarkerLen(s).Some?
    ensures var e := MarkerLen(s).value;
      s[0] == Mark && s[e - 1] == '\n' && AllDigits(s[1..e - 1])
  {
    DigitRunDigits(s[1..]);
    var e := MarkerLen(s).value;
    assert s[1..e - 1] == s[1..][..Links.DigitRun(s[1..])];
  }

  /** re.findall(marker, s)[0]: the first marker, scanning from the left. */
  function FirstMarker(s: string): (r: Option<string>)
    decreases |s|
  {
    if s == [] then None
    else match MarkerLen(s)
      case Some(e) => Some(s[..e])
      case None => FirstMarker(s[1..])
  }

  /** None means no marker starts anywhere in the text. */
  lemma {:induction false} FirstMarkerNone(s: string)
    ensures FirstMarker(s).None? <==> forall j :: 0 <= j < |s| ==> MarkerLen(s[j..]).None?
  {
    if s != [] {
      assert s[0..] == s;
      if MarkerLen(s).None? {
        var t := s[1..];
        FirstMarkerNone(t);
        forall j | 1 <= j < |s| ensures s[j..] == t[j - 1..] { }
      }
    }
  }

  /** The marker found is the leftmost one. */
  lemma {:induction false} FirstMarkerAt(s: string, j: nat)
    requires j < |s| && MarkerLen(s[j..]).Some?
    requires forall k :: 0 <= k < j ==> MarkerLen(s[k..]).None?
    ensures FirstMarker(s) == Some(s[j..][..MarkerLen(s[j..]).value])
  {
    assert s[0..] == s;
    if j > 0 {
      var t := s[1..];
      assert t[j - 1..] == s[j..];
      forall k | 0 <= k < j - 1 ensures MarkerLen(t[k..]).None? {
        assert t[k..] == s[k + 1..];
      }
      FirstMarkerAt(t, j - 1);
    }
  }

  /** The pid a marker carries: int(marker[1:]). */
  function MarkerPid(m: string): Option<int> {
    if |m| >= 1 then PyInt(m[1..]) else None
  }

  /** int() of the digits and the newline after them is their value. */
  lemma MarkerPidValue(s: string)
    requires MarkerLen(s).Some?
    ensures var e := MarkerLen(s).value;
      AllDigits(s[1..e - 1]) && MarkerPid(s[..e]) == Some(DecValue(s[1..e - 1]))
  {
    var e := MarkerLen(s).value;
    MarkerShape(s);
    var ds := s[1..e - 1];
    assert s[..e][1..] == ds + "\n";
    assert RStrip(ds + "\n") == ds by {
      assert (ds + "\n")[..|ds + "\n"| - 1] == ds;
    }
    assert LStrip(ds + "\n") == ds + "\n";
  }

  /** re.sub(marker, '', s): every marker, left to right, removed. */
  function RemoveMarkers(s: string): (r: string)
    ensures |r| <= |s|
    decreases |s|
  {
    if s == [] then []
    else match MarkerLen(s)
      case Some(e) => RemoveMarkers(s[e..])
      case None => [s[0]] + RemoveMarkers(s[1..])
  }

  /** Removing markers deletes only \x01, digits and newlines: every other
      character occurs as often as before. */
  lemma {:induction false} RemoveMarkersKeeps(s: string, c: char)
    requires c != Mark && c != '\n' && !IsDigit(c)
    ensures multiset(RemoveMarkers(s))[c] == multiset(s)[c]
    decreases |s|
  {
    if s != [] {
      match MarkerLen(s)
      case Some(e) =>
        MarkerSkip(s, c);
        RemoveMarkersKeeps(s[e..], c);
      case None =>
        var r := RemoveMarkers(s[1..]);
        assert RemoveMarkers(s) == [s[0]] + r;
        ConsCount(s, r, c);
        RemoveMarkersKeeps(s[1..], c);
    }
  }

  /** A marker holds no character other than \x01, digits and a newline. */
  lemma MarkerSkip(s: string, c: char)
    requires c != Mark && c != '\n' && !IsDigit(c) && MarkerLen(s).Some?
    ensures multiset(s)[c] == multiset(s[MarkerLen(s).value..])[c]
  {
    var e := MarkerLen(s).value;
    MarkerShape(s);
    assert s == s[..e] + s[e..];
    assert s[..e] == [Mark] + s[1..e - 1] + ['\n'];
    assert c !in s[1..e - 1];
  }

  lemma ConsCount(s: string, r: string, c: char)
    requires s != []
    ensures multiset([s[0]] + r)[c] + multiset(s[1..])[c] == multiset(s)[c] + multiset(r)[c]
  {
    assert s == [s[0]] + s[1..];
  }

  /** Text without \x01 has no marker and is left as it is. */
  lemma {:induction false} RemoveMarkersNone(s: string)
    requires Mark !in s
    ensures RemoveMarkers(s) == s && FirstMarker(s).None?
    decreases |s|
  {
    if s != [] {
      assert Mark !in s[1..];
      RemoveMarkersNone(s[1..]);
    }
  }

  // ---------------------------------------------------------------- monitor

  /** str.replace(c, '') by its meaning: every c dropped. */
  function Without(s: string, c: char): (r: string)
    ensures c !in r
    ensures forall x :: x != c ==> multiset(r)[x] == multiset(s)[x]
  {
    if s == [] then [] else
      var rest := Without(s[1..], c);
      assert s == [s[0]] + s[1..];
      if s[0] == c then rest else [s[0]] + rest
  }

  /** str.replace of a one-character string by '' drops that character. */
  lemma {:induction false} ReplaceOne(s: string, c: char)
    ensures ReplaceAll(s, [c], "") == Without(s, c)
    decreases |s|
  {
    if s != [] {
      ReplaceOne(s[1..], c);
      if s[0] == c {
        assert s[..1] == [c];
      } else {
        assert s[..1] != [c];
      }
    }
  }

  /** What monitor() makes of the bytes read(): the output it returns, the
      pid of the first marker if there was one, and whether it saw the
      sentinel. */
  datatype Seen = Seen(out: string, pid: Option<int>, done: bool)

  /** The text after marker handling: unchanged unless a marker was found. */
  function Unmarked(data: string): string {
    if Mark in data && FirstMarker(data).Some? then RemoveMarkers(data) else data
  }

  /** The pid of the first marker, when \x01 occurs and a marker is found. */
  function MarkedPid(data: string): Option<int> {
    if Mark in data && FirstMarker(data).Some? then MarkerPid(FirstMarker(data).value) else None
  }

  /** Sentinel handling: a trailing one is cut off, otherwise all are
      removed; the flag says whether there was one. */
  function Unsentineled(d: string): (string, bool) {
    if |d| > 0 && d[|d| - 1] == Sentinel then (d[..|d| - 1], true)
    else if Sentinel in d then (ReplaceAll(d, [Sentinel], ""), true)
    else (d, false)
  }

  function MonitorData(data: string): Seen {
    var u := Unsentineled(Unmarked(data));
    Seen(u.0, MarkedPid(data), u.1)
  }

  /** Marker handling leaves every character other than \x01, digits and
      newlines as often as it was. */
  lemma UnmarkedKeeps(data: string, c: char)
    requires c != Mark && c != '\n' && !IsDigit(c)
    ensures multiset(Unmarked(data))[c] == multiset(data)[c]
  {
    if Mark in data && FirstMarker(data).Some? {
      RemoveMarkersKeeps(data, c);
    }
  }

  /** The sentinel ends the command exactly when it occurs in the data. */
  lemma MonitorDone(data: string)
    ensures MonitorData(data).done <==> Sentinel in data
  {
    var d := Unmarked(data);
    UnmarkedKeeps(data, Sentinel);
    assert Sentinel in d <==> multiset(d)[Sentinel] > 0;
    assert Sentinel in data <==> multiset(data)[Sentinel] > 0;
  }

  /** A trailing sentinel is the only one removed when the text ends with
      it; otherwise every one is removed. */
  lemma MonitorSentinelCount(data: string)
    ensures var d := Unmarked(data);
      var trailing := |d| > 0 && d[|d| - 1] == Sentinel;
      (trailing ==> multiset(MonitorData(data).out)[Sentinel] + 1 == multiset(data)[Sentinel])
      && (!trailing ==> multiset(MonitorData(data).out)[Sentinel] == 0)
  {
    var d := Unmarked(data);
    UnmarkedKeeps(data, Sentinel);
    if |d| > 0 && d[|d| - 1] == Sentinel {
      assert d == d[..|d| - 1] + [Sentinel];
    } else if Sentinel in d {
      ReplaceOne(d, Sentinel);
    } else {
      assert multiset(d)[Sentinel] == 0;
    }
  }

  /** Nothing else but markers and sentinels is taken out. */
  lemma MonitorKeeps(data: string, c: char)
    requires c != Mark && c != '\n' && !IsDigit(c) && c != Sentinel
    ensures multiset(MonitorData(data).out)[c] == multiset(data)[c]
  {
    var d := Unmarked(data);
    UnmarkedKeeps(data, c);
    if |d| > 0 && d[|d| - 1] == Sentinel {
      assert d == d[..|d| - 1] + [Sentinel];
    } else if Sentinel in d {
      ReplaceOne(d, Sentinel);
    }
  }

  /** A found marker means \x01 occurs, and its pid parses. */
  lemma {:induction false} FirstMarkerAfter(s: string)
    requires FirstMarker(s).Some?
    ensures Mark in s && MarkerPid(FirstMarker(s).value).Some?
    decreases |s|
  {
    if MarkerLen(s).Some? {
      MarkerPidValue(s);
    } else {
      FirstMarkerAfter(s[1..]);
      assert Mark in s[1..];
    }
  }

  /** The pid comes from the leftmost marker: none without one, and the
      first marker's digits when there is one. */
  lemma MonitorPid(data: string)
    ensures var m := MonitorData(data);
      (m.pid.None? <==> forall j :: 0 <= j < |data| ==> MarkerLen(data[j..]).None?)
      && (FirstMarker(data).Some? ==> m.pid == MarkerPid(FirstMarker(data).value))
  {
    FirstMarkerNone(data);
    if FirstMarker(data).Some? {
      FirstMarkerAfter(data);
    }
  }

  /** Text without \x01 in front does not change the first marker. */
  lemma {:induction false} FirstMarkerSkip(before: string, t: string)
    requires Mark !in before
    ensures FirstMarker(before + t) == FirstMarker(t)
    decreases |before|
  {
    if before != [] {
      assert (before + t)[1..] == before[1..] + t;
      assert Mark !in before[1..];
      FirstMarkerSkip(before[1..], t);
    } else {
      assert before + t == t;
    }
  }

  /** The handshake text begins with a marker of its own length. */
  lemma HandshakeMarker(ds: string, after: string)
    requires ds != [] && AllDigits(ds)
    ensures var m := [Mark] + ds + ['\n'];
      MarkerLen(m + after) == Some(|ds| + 2) && (m + after)[..|ds| + 2] == m
      && (m + after)[1..|ds| + 1] == ds
  {
    var m := [Mark] + ds + ['\n'];
    assert (m + after)[1..] == ds + (['\n'] + after);
    Links.RunOf(ds, ['\n'] + after);
  }

  /** The handshake that mnexec -p prints, after text without \x01, gives
      monitor that pid. */
  lemma MonitorReadsHandshake(before: string, pid: nat, after: string)
    requires Mark !in before
    ensures MonitorData(before + ([Mark] + NatToDec(pid) + ['\n']) + after).pid == Some(pid)
  {
    var ds := NatToDec(pid);
    var m := [Mark] + ds + ['\n'];
    var t := m + after;
    HandshakeMarker(ds, after);
    assert FirstMarker(t) == Some(m);
    var s := before + m + after;
    assert s == before + t;
    FirstMarkerSkip(before, t);
    assert s[|before|] == Mark;
    MarkerPidValue(t);
    DecRoundTrip(pid);
  }

  /** ... and that is the text the launcher's -p option writes. */
  lemma MonitorReadsLauncherPid(p: MnExec.Proc, k: MnExec.Kernel, after: string)
    requires Mark !in p.out
    ensures MonitorData(MnExec.Step(p, MnExec.PrintPid, k).out + after).pid == Some(p.pid)
  {
    MnExec.PrintPidHandshake(p, k);
    assert MnExec.Step(p, MnExec.PrintPid, k).out + after == p.out + ([Mark] + NatToDec(p.pid) + ['\n']) + after;
    MonitorReadsHandshake(p.out, p.pid, after);
  }

  // ---------------------------------------------------------------- sendCmd

  /** sendCmd's positional arguments: one list, or separate values. */
  datatype CmdArgs = ListArg(items: seq<string>) | Args(items: seq<string>)

  /** The suffix a background command gets: the shell prints ^A, the pid of
      the job and a newline, then the sentinel. */
  const BackgroundSuffix: string := " printf \"\\001%d\n\\177\" $! \n"
  /** The suffix of any other command: the shell prints the sentinel. */
  const SentinelSuffix: string := "; printf \"\\177\""
  const PidPrefix: string := "mnexec -p "

  /** What sendCmd records in lastCmd and what it writes to the shell. */
  datatype Sent = Sent(cmd: string, text: string)

  /** The command as one string; with no arguments `cmd` is never bound. */
  function CommandText(args: CmdArgs): Result<string, Exc> {
    match args
    case ListArg(items) => Ok(Join(items, ' '))
    case Args(items) => if items == [] then Err(UnboundLocalError) else Ok(Join(items, ' '))
  }

  function SendText(waiting: bool, args: CmdArgs, printPid: bool, builtIns: string): Result<Sent, Exc> {
    if waiting then Err(AssertionError)
    else match CommandText(args)
      case Err(e) => Err(e)
      case Ok(c0) => Ok(Decorated(c0, printPid, builtIns))
  }

  /** The command kept and the line written for the joined arguments c0. */
  function Decorated(c0: string, printPid: bool, builtIns: string): Sent {
    var cmd := if HasWordChar(c0) then c0 else "echo -n";
    var pp := printPid && !Util.IsShellBuiltin(cmd, builtIns);
    if |cmd| > 0 && cmd[|cmd| - 1] == '&' then Sent(cmd, cmd + BackgroundSuffix + "\n")
    else
      var c2 := cmd + SentinelSuffix;
      Sent(cmd, if pp && !Util.IsShellBuiltin(c2, builtIns) then PidPrefix + c2 + "\n" else c2 + "\n")
  }

  /** sendCmd fails with AssertionError while waiting, and with
      UnboundLocalError when there are no arguments, and in no other case. */
  lemma SendTextErrors(waiting: bool, args: CmdArgs, printPid: bool, builtIns: string)
    ensures var r := SendText(waiting, args, printPid, builtIns);
      (r == Err(AssertionError) <==> waiting)
      && (r == Err(UnboundLocalError) <==> !waiting && args == Args([]))
      && (r.Err? ==> waiting || args == Args([]))
  {
  }

  /** Otherwise the command kept is the joined arguments, or "echo -n"
      when they hold no word character; a command ending in '&' is
      followed by the pid and sentinel printf, any other by the sentinel
      printf and, when a pid is wanted, possibly prefixed with mnexec -p.
      Every line written ends in a newline. */
  lemma SendTextOk(args: CmdArgs, printPid: bool, builtIns: string)
    requires SendText(false, args, printPid, builtIns).Ok?
    ensures var r := SendText(false, args, printPid, builtIns).value;
      var joined := Join(args.items, ' ');
      var cmd := r.cmd;
      HasWordChar(cmd)
      && cmd == (if HasWordChar(joined) then joined else "echo -n")
      && EndsWith(r.text, "\n")
      && (cmd[|cmd| - 1] == '&' ==> r.text == cmd + BackgroundSuffix + "\n")
      && (cmd[|cmd| - 1] != '&' ==>
            r.text == cmd + SentinelSuffix + "\n"
            || (printPid && r.text == PidPrefix + (cmd + SentinelSuffix) + "\n"))
  {
    assert CommandText(args) == Ok(Join(args.items, ' '));
    DecoratedSpec(Join(args.items, ' '), printPid, builtIns);
  }

  /** The same for the joined text c0. */
  lemma DecoratedSpec(c0: string, printPid: bool, builtIns: string)
    ensures var r := Decorated(c0, printPid, builtIns);
      var cmd := r.cmd;
      HasWordChar(cmd)
      && cmd == (if HasWordChar(c0) then c0 else "echo -n")
      && EndsWith(r.text, "\n")
      && (cmd[|cmd| - 1] == '&' ==> r.text == cmd + BackgroundSuffix + "\n")
      && (cmd[|cmd| - 1] != '&' ==>
            r.text == cmd + SentinelSuffix + "\n"
            || (printPid && r.text == PidPrefix + (cmd + SentinelSuffix) + "\n"))
  {
    assert HasWordChar("echo -n") by { assert IsWord("echo -n"[0]); }
    var r := Decorated(c0, printPid, builtIns);
    assert r.text[|r.text| - 1] == '\n';
  }

  /** A builtin never gets the mnexec -p prefix, and without printPid no
      command does. */
  lemma SendTextNoPrefix(args: CmdArgs, printPid: bool, builtIns: string)
    requires SendText(false, args, printPid, builtIns).Ok?
    requires var cmd := SendText(false, args, printPid, builtIns).value.cmd;
      !printPid || Util.IsShellBuiltin(cmd, builtIns)
    ensures var s := SendText(false, args, printPid, builtIns).value;
      s.text == s.cmd + (if s.cmd[|s.cmd| - 1] == '&' then BackgroundSuffix else SentinelSuffix) + "\n"
  {
    SendTextOk(args, printPid, builtIns);
  }

  // ------------------------------------------------- monitor / waitOutput

  /** The fields of a Node that the shell protocol updates. */
  datatype ShellState = ShellState(readbuf: string, waiting: bool, lastPid: Option<int>)

  /** One monitor() call on state st, where os.read returned data: read(1024),
      then lastPid is set from a marker and waiting cleared by the sentinel. */
  function MonitorStep(st: ShellState, data: string): (string, ShellState) {
    var t := ReadStep(st.readbuf, 1024, data);
    var m := MonitorData(t.result);
    (m.out, ShellState(t.rest, st.waiting && !m.done, if m.pid.Some? then m.pid else st.lastPid))
  }

  /** A monitor() step: the output, and the state it leaves. */
  type Step = (ShellState, string) -> (string, ShellState)

  /** waitOutput's loop for a given monitor() step: step while waiting,
      where successive os.read calls return the chunks; the output, the
      final state and the number of chunks consumed. */
  function Loop(step: Step, st: ShellState, chunks: seq<string>): (r: (string, ShellState, nat))
    ensures r.2 <= |chunks|
    decreases |chunks|
  {
    if !st.waiting || chunks == [] then ("", st, 0)
    else
      var m := step(st, chunks[0]);
      var w := Loop(step, m.1, chunks[1..]);
      (m.0 + w.0, w.1, w.2 + 1)
  }

  /** The loop with monitor() itself: waitOutput. */
  function WaitRun(st: ShellState, chunks: seq<string>): (string, ShellState, nat) {
    Loop(MonitorStep, st, chunks)
  }

  /** out(c) for each of the first n chunks, concatenated. */
  function OutsBy(out: string -> string, chunks: seq<string>, n: nat): string
    requires n <= |chunks|
  {
    if n == 0 then "" else out(chunks[0]) + OutsBy(out, chunks[1..], n - 1)
  }

  /** What monitor() hands back for a chunk read whole. */
  function MonitorOut(c: string): string { MonitorData(c).out }

  /** What monitor() hands back for each of the first n chunks,
      concatenated. */
  function Outs(chunks: seq<string>, n: nat): string
    requires n <= |chunks|
  {
    OutsBy(MonitorOut, chunks, n)
  }

  /** A chunk that fits one read, on an empty buffer, is read whole: the
      buffer stays empty and waiting ends exactly at a sentinel. */
  lemma MonitorStepWhole(st: ShellState, c: string)
    requires st.readbuf == "" && |c| <= 1024
    ensures var m := MonitorStep(st, c);
      m.0 == MonitorOut(c) && m.1.readbuf == ""
      && (m.1.waiting <==> st.waiting && Sentinel !in c)
  {
    assert "" + c == c;
    assert ReadStep("", 1024, c) == Taken(c, "");
    MonitorDone(c);
  }

  /** The index of the first chunk holding the sentinel, |cs| if none does. */
  function FirstSentinel(cs: seq<string>): (k: nat)
    ensures k <= |cs|
  {
    if cs == [] then 0 else if Sentinel in cs[0] then 0 else 1 + FirstSentinel(cs[1..])
  }

  /** No chunk before that index holds the sentinel, and the chunk at it does. */
  lemma {:induction false} FirstSentinelSpec(cs: seq<string>)
    ensures forall i :: 0 <= i < FirstSentinel(cs) ==> Sentinel !in cs[i]
    ensures FirstSentinel(cs) < |cs| ==> Sentinel in cs[FirstSentinel(cs)]
  {
    if cs != [] && Sentinel !in cs[0] {
      FirstSentinelSpec(cs[1..]);
      assert forall i :: 1 <= i < |cs| ==> cs[i] == cs[1..][i - 1];
    }
  }

  /** Chunks that each fit one read. */
  predicate Fit(chunks: seq<string>) {
    forall i :: 0 <= i < |chunks| ==> |chunks[i]| <= 1024
  }

  lemma FitTail(chunks: seq<string>)
    requires chunks != [] && Fit(chunks)
    ensures |chunks[0]| <= 1024 && Fit(chunks[1..])
  {
    forall i | 0 <= i < |chunks[1..]| ensures |chunks[1..][i]| <= 1024 {
      assert chunks[1..][i] == chunks[i + 1];
    }
  }

  /** A step that reads a fitting chunk whole, from an empty buffer, and
      stops waiting exactly at a sentinel. */
  ghost predicate Whole(step: Step, out: string -> string) {
    forall s: ShellState, c: string | s.readbuf == "" && |c| <= 1024 ::
      step(s, c).0 == out(c) && step(s, c).1.readbuf == ""
      && (step(s, c).1.waiting <==> s.waiting && Sentinel !in c)
  }

  /** monitor() is such a step. */
  lemma MonitorWhole()
    ensures Whole(MonitorStep, MonitorOut)
  {
    forall s: ShellState, c: string | s.readbuf == "" && |c| <= 1024
      ensures MonitorStep(s, c).0 == MonitorOut(c) && MonitorStep(s, c).1.readbuf == ""
        && (MonitorStep(s, c).1.waiting <==> s.waiting && Sentinel !in c)
    {
      MonitorStepWhole(s, c);
    }
  }

  /** For such a step the loop consumes chunks up to and including the
      first that holds the sentinel (all of them when none does), is still
      waiting only if none held it, and outputs out(c) for each chunk c
      consumed, in order. */
  lemma {:induction false} LoopWhole(step: Step, out: string -> string, st: ShellState, chunks: seq<string>)
    requires Whole(step, out) && st.readbuf == "" && Fit(chunks)
    ensures var w := Loop(step, st, chunks);
      var f := FirstSentinel(chunks);
      w.1.readbuf == "" && w.0 == OutsBy(out, chunks, w.2)
      && (!st.waiting ==> w == ("", st, 0))
      && (st.waiting ==> w.2 == (if f < |chunks| then f + 1 else |chunks|) && (w.1.waiting <==> f == |chunks|))
    decreases |chunks|
  {
    if st.waiting && chunks != [] {
      FitTail(chunks);
      LoopWhole(step, out, step(st, chunks[0]).1, chunks[1..]);
    }
  }

  /** With an empty buffer and chunks that fit one read, waitOutput
      consumes chunks up to and including the first one that holds the
      sentinel (all of them when none does), is still waiting only if none
      held it, and returns monitor()'s output for each chunk consumed, in
      order. A command that was not running stops at once. */
  lemma WaitRunChunks(st: ShellState, chunks: seq<string>)
    requires st.readbuf == "" && Fit(chunks)
    ensures var w := WaitRun(st, chunks);
      var f := FirstSentinel(chunks);
      w.1.readbuf == "" && w.0 == Outs(chunks, w.2)
      && (!st.waiting ==> w == ("", st, 0))
      && (st.waiting ==> w.2 == (if f < |chunks| then f + 1 else |chunks|) && (w.1.waiting <==> f == |chunks|))
  {
    MonitorWhole();
    LoopWhole(MonitorStep, MonitorOut, st, chunks);
  }

  /** The loop's result once k chunks are consumed, with output o so far
      and state st. */
  function ResumeBy(step: Step, o: string, st: ShellState, cs: seq<string>, k: nat): (string, ShellState, nat)
    requires k <= |cs|
  {
    var w := Loop(step, st, cs[k..]);
    (o + w.0, w.1, k + w.2)
  }

  /** waitOutput's result once k chunks are consumed. */
  function Resume(o: string, st: ShellState, cs: seq<string>, k: nat): (string, ShellState, nat)
    requires k <= |cs|
  {
    ResumeBy(MonitorStep, o, st, cs, k)
  }

  /** One more step of the loop. */
  lemma ResumeByStep(step: Step, o: string, st: ShellState, cs: seq<string>, k: nat)
    requires st.waiting && k < |cs|
    ensures var m := step(st, cs[k]);
      ResumeBy(step, o, st, cs, k) == ResumeBy(step, o + m.0, m.1, cs, k + 1)
  {
    var m := step(st, cs[k]);
    assert cs[k..][1..] == cs[k + 1..];
    var w1 := Loop(step, m.1, cs[k + 1..]);
    assert o + (m.0 + w1.0) == (o + m.0) + w1.0;
  }

  /** One more monitor() call of waitOutput's loop. */
  lemma ResumeStep(o: string, st: ShellState, cs: seq<string>, k: nat)
    requires st.waiting && k < |cs|
    ensures var m := MonitorStep(st, cs[k]);
      Resume(o, st, cs, k) == Resume(o + m.0, m.1, cs, k + 1)
  {
    ResumeByStep(MonitorStep, o, st, cs, k);
  }

  /** The loop's start and its end. */
  lemma ResumeBounds(o: string, st: ShellState, cs: seq<string>, k: nat)
    requires k <= |cs|
    ensures k == 0 ==> Resume("", st, cs, 0) == WaitRun(st, cs)
    ensures !st.waiting || k == |cs| ==> Resume(o, st, cs, k) == (o, st, k)
  {
    var w := Loop(MonitorStep, st, cs);
    assert cs[0..] == cs;
    assert "" + w.0 == w.0;
    assert k == |cs| ==> cs[k..] == [];
    assert o + "" == o;
  }
}
