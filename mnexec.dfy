// The process launcher mnexec.c as a state machine over an abstract process
// record.  Every kernel call is an oracle in `Kernel`; the model follows the
// single process that keeps running (after a fork: the side fork reports).
module MnExec {
  import opened Wrappers
  import opened Text

  /** One already-parsed getopt option of "+cdnpa:g:r:vh". */
  datatype Opt =
    | Close              // -c
    | Detach             // -d
    | NetNs              // -n
    | PrintPid           // -p
    | Attach(arg: string)  // -a pid
    | Group(arg: string)   // -g group
    | RtPrio(arg: string)  // -r rtprio
    | Version            // -v
    | Help               // -h
    | Unknown            // any other option character

  /** What fork() returns to the process the model follows. */
  datatype ForkResult = ForkFailed | InChild(childPid: nat) | InParent

  /** The kernel's answers to each call mnexec makes. */
  datatype Kernel = Kernel(
    tableSize: int,               // getdtablesize()
    fork: nat -> ForkResult,      // fork() called by the given pid
    unshareOk: bool,              // unshare(CLONE_NEWNET) succeeds
    newNs: int,                   // the namespace unshare creates
    openNs: string -> int,        // open(path, O_RDONLY): descriptor or -1
    nsOf: int -> int,             // namespace of the process with that pid
    setnsOk: bool,                // setns(nsid, 0) returns 0
    canWrite: string -> bool,     // fopen(path, "w") succeeds
    schedOk: int -> bool,         // sched_setscheduler(SCHED_RR, prio) >= 0
    execOk: bool)                 // execvp does not return

  /** A line written to a cgroup task file. */
  datatype Write = Write(path: string, text: string)

  datatype Proc = Proc(
    pid: nat,
    pgrp: nat,
    sid: nat,
    netns: int,
    fds: set<int>,
    writes: seq<Write>,           // task-file writes, oldest first
    rtPrio: Option<int>,          // SCHED_RR priority once set
    out: string,                  // bytes written to stdout
    err: seq<string>,             // messages written to stderr
    status: Option<int>,          // exit status once the run has ended
    image: Option<seq<string>>)   // argv of the program execvp started

  const VersionText: string := "(devel)"

  // ------------------------------------------------------------- cgroup()

  /** validate(): alphanumerics and '/' only (the empty name passes). */
  predicate ValidPath(s: string) {
    forall i :: 0 <= i < |s| ==> IsAlnum(s[i]) || s[i] == '/'
  }

  const Controllers: seq<string> := ["cpu", "cpuacct", "cpuset"]

  function TaskPath(ctrl: string, name: string): string {
    "/sys/fs/cgroup/" + ctrl + "/" + name + "/tasks"
  }

  function Fail(p: Proc, msg: string): (q: Proc)
    ensures q.status == Some(1) && q.err == p.err + [msg]
    ensures q.writes == p.writes && q.out == p.out && q.image == p.image
  {
    p.(err := p.err + [msg], status := Some(1))
  }

  /** The writes the controller loop makes for the first `n` controllers. */
  function TaskWrites(pid: nat, name: string, ctrls: seq<string>, k: Kernel): (w: seq<Write>)
    ensures |w| <= |ctrls|
    ensures forall i :: 0 <= i < |w| ==> w[i].text == NatToDec(pid) + "\n"
  {
    if ctrls == [] then []
    else
      var path := TaskPath(ctrls[0], name);
      (if k.canWrite(path) then [Write(path, NatToDec(pid) + "\n")] else [])
        + TaskWrites(pid, name, ctrls[1..], k)
  }

  function CgroupSpec(p: Proc, name: string, k: Kernel): Proc {
    if !ValidPath(name) then Fail(p, "invalid path: " + name)
    else
      var w := TaskWrites(p.pid, name, Controllers, k);
      var q := p.(writes := p.writes + w);
      if w == [] then Fail(q, "cgroup: could not add to cgroup " + name) else q
  }

  method Validate(p: Proc, path: string) returns (q: Proc)
    ensures q == if ValidPath(path) then p else Fail(p, "invalid path: " + path)
  {
    var i := 0;
    while i < |path|
      invariant 0 <= i <= |path|
      invariant forall j :: 0 <= j < i ==> IsAlnum(path[j]) || path[j] == '/'
    {
      if !IsAlnum(path[i]) && path[i] != '/' {
        return Fail(p, "invalid path: " + path);
      }
      i := i + 1;
    }
    return p;
  }

  method Cgroup(p: Proc, gname: string, k: Kernel) returns (q: Proc)
    ensures q == CgroupSpec(p, gname, k)
  {
    q := Validate(p, gname);
    if q.status.Some? && !ValidPath(gname) {
      return;
    }
    var count;
    q, count := JoinTasks(q, gname, Controllers, k);
    if count == 0 {
      q := Fail(q, "cgroup: could not add to cgroup " + gname);
    }
  }

  /** The controller loop: write the pid to each task file the kernel lets it open. */
  method JoinTasks(p: Proc, gname: string, ctrls: seq<string>, k: Kernel) returns (q: Proc, count: nat)
    ensures q == p.(writes := p.writes + TaskWrites(p.pid, gname, ctrls, k))
    ensures count == |TaskWrites(p.pid, gname, ctrls, k)|
  {
    q := p;
    count := 0;
    var i := 0;
    while i < |ctrls|
      invariant 0 <= i <= |ctrls|
      invariant q == p.(writes := p.writes + TaskWrites(p.pid, gname, ctrls[..i], k))
      invariant count == |TaskWrites(p.pid, gname, ctrls[..i], k)|
    {
      var path := TaskPath(ctrls[i], gname);
      TaskWritesSnoc(p.pid, gname, ctrls[..i], ctrls[i], k);
      assert ctrls[..i + 1] == ctrls[..i] + [ctrls[i]];
      if k.canWrite(path) {
        count := count + 1;
        q := q.(writes := q.writes + [Write(path, NatToDec(q.pid) + "\n")]);
      }
      i := i + 1;
    }
    assert ctrls[..i] == ctrls;
  }

  lemma {:induction false} TaskWritesSnoc(pid: nat, name: string, ctrls: seq<string>, c: string, k: Kernel)
    ensures TaskWrites(pid, name, ctrls + [c], k)
         == TaskWrites(pid, name, ctrls, k)
            + (if k.canWrite(TaskPath(c, name)) then [Write(TaskPath(c, name), NatToDec(pid) + "\n")] else [])
  {
    if ctrls == [] {
      assert [c][1..] == [];
    } else {
      assert (ctrls + [c])[1..] == ctrls[1..] + [c];
      TaskWritesSnoc(pid, name, ctrls[1..], c, k);
    }
  }

  /** The three task files, in controller order, that the kernel lets mnexec open. */
  lemma CgroupWritesInOrder(p: Proc, name: string, k: Kernel)
    requires ValidPath(name)
    ensures CgroupSpec(p, name, k).writes == p.writes
      + (if k.canWrite(TaskPath("cpu", name)) then [Write(TaskPath("cpu", name), NatToDec(p.pid) + "\n")] else [])
      + (if k.canWrite(TaskPath("cpuacct", name)) then [Write(TaskPath("cpuacct", name), NatToDec(p.pid) + "\n")] else [])
      + (if k.canWrite(TaskPath("cpuset", name)) then [Write(TaskPath("cpuset", name), NatToDec(p.pid) + "\n")] else [])
  {
    var w3 := TaskWrites(p.pid, name, ["cpuset"], k);
    assert ["cpuset"][1..] == [];
    var w2 := TaskWrites(p.pid, name, ["cpuacct", "cpuset"], k);
    assert ["cpuacct", "cpuset"][1..] == ["cpuset"];
    assert Controllers[1..] == ["cpuacct", "cpuset"];
  }

  /** An invalid name ends the run with status 1 before any task file is written. */
  lemma CgroupValidatesFirst(p: Proc, name: string, k: Kernel)
    requires !ValidPath(name)
    ensures CgroupSpec(p, name, k).writes == p.writes
    ensures CgroupSpec(p, name, k).status == Some(1)
    ensures CgroupSpec(p, name, k).err == p.err + ["invalid path: " + name]
  {
  }

  /** With a valid name, cgroup() exits 1 exactly when no task file opened. */
  lemma CgroupFailsIffNoneOpened(p: Proc, name: string, k: Kernel)
    requires ValidPath(name) && p.status.None?
    ensures CgroupSpec(p, name, k).status == Some(1)
        <==> (!k.canWrite(TaskPath("cpu", name)) && !k.canWrite(TaskPath("cpuacct", name))
              && !k.canWrite(TaskPath("cpuset", name)))
  {
    CgroupWritesInOrder(p, name, k);
    var w := TaskWrites(p.pid, name, Controllers, k);
    assert CgroupSpec(p, name, k).writes == p.writes + w;
  }

  // ------------------------------------------------------------------ atoi

  function LeadingDigits(s: string): (d: string)
    ensures |d| <= |s| && AllDigits(d) && d == s[..|d|]
    ensures |d| < |s| ==> !IsDigit(s[|d|])
  {
    if s != [] && IsDigit(s[0]) then [s[0]] + LeadingDigits(s[1..]) else []
  }

  /** C's atoi(): leading white space, an optional sign, then digits; 0 without digits. */
  function Atoi(s: string): int {
    var t := LStrip(s);
    if t != [] && (t[0] == '-' || t[0] == '+') then
      var v: int := DecValue(LeadingDigits(t[1..]));
      if t[0] == '-' then -v else v
    else DecValue(LeadingDigits(t))
  }

  lemma {:induction false} LeadingDigitsAll(s: string)
    requires AllDigits(s)
    ensures LeadingDigits(s) == s
  {
    if s != [] { LeadingDigitsAll(s[1..]); }
  }

  lemma AtoiOfDec(n: nat)
    ensures Atoi(NatToDec(n)) == n
  {
    var s := NatToDec(n);
    assert !IsSpace(s[0]) && s[0] != '-' && s[0] != '+';
    assert LStrip(s) == s;
    LeadingDigitsAll(s);
    DecRoundTrip(n);
  }

  // ------------------------------------------------------------ the options

  /** setsid() by a process that is not a group leader (the only way mnexec calls it). */
  function Setsid(p: Proc): Proc {
    p.(sid := p.pid, pgrp := p.pid)
  }

  function AttachPath(target: int): string {
    "/proc/" + IntToDec(target) + "/ns/net"
  }

  /** One option's effect on a process that is still running. */
  function Step(p: Proc, o: Opt, k: Kernel): Proc {
    match o
      case Close => p.(fds := set fd | fd in p.fds && (fd <= 2 || fd > k.tableSize))
      case Detach =>
        if p.pgrp == p.pid then
          match k.fork(p.pid)
            case ForkFailed => Fail(p, "fork")
            case InParent => p.(status := Some(0))
            case InChild(c) => Setsid(p.(pid := c))
        else Setsid(p)
      case NetNs => if k.unshareOk then p.(netns := k.newNs) else Fail(p, "unshare")
      case PrintPid => p.(out := p.out + ['\U{1}'] + NatToDec(p.pid) + "\n")
      case Attach(arg) =>
        var target := Atoi(arg);
        var nsid := k.openNs(AttachPath(target));
        if nsid < 0 then Fail(p, AttachPath(target))
        else if !k.setnsOk then Fail(p.(fds := p.fds + {nsid}), "setns")
        else p.(fds := p.fds + {nsid}, netns := k.nsOf(target))
      case Group(arg) => CgroupSpec(p, arg, k)
      case RtPrio(arg) =>
        var prio := Atoi(arg);
        if k.schedOk(prio) then p.(rtPrio := Some(prio)) else Fail(p, "sched_setscheduler")
      case Version => p.(out := p.out + VersionText + "\n", status := Some(0))
      case Help => p.(status := Some(0))
      case Unknown => p.(status := Some(1))
  }

  /** The option loop: options in order until one ends the run. */
  function RunOpts(p: Proc, opts: seq<Opt>, k: Kernel): Proc
    decreases |opts|
  {
    if opts == [] || p.status.Some? then p else RunOpts(Step(p, opts[0], k), opts[1..], k)
  }

  /** After the options: exec the remaining command, or fall off main with 0. */
  function Finish(p: Proc, cmd: seq<string>, k: Kernel): Proc {
    if p.status.Some? then p
    else if cmd != [] then (if k.execOk then p.(image := Some(cmd)) else Fail(p, cmd[0]))
    else p.(status := Some(0))
  }

  function RunSpec(p: Proc, opts: seq<Opt>, cmd: seq<string>, k: Kernel): Proc {
    Finish(RunOpts(p, opts, k), cmd, k)
  }

  /** The descending close() loop of -c. */
  method CloseFds(p: Proc, k: Kernel) returns (q: Proc)
    ensures q == Step(p, Close, k)
  {
    var fd := k.tableSize;
    var open := p.fds;
    while fd > 2
      invariant fd >= 2 || fd == k.tableSize
      invariant open == set x | x in p.fds && (x <= fd || x > k.tableSize)
    {
      open := open - {fd};
      fd := fd - 1;
    }
    q := p.(fds := open);
  }

  /** main(): the getopt loop and the final execvp. */
  method Run(p: Proc, opts: seq<Opt>, cmd: seq<string>, k: Kernel) returns (q: Proc)
    ensures q == RunSpec(p, opts, cmd, k)
  {
    q := p;
    var i := 0;
    while i < |opts| && q.status.None?
      invariant 0 <= i <= |opts|
      invariant RunOpts(p, opts, k) == RunOpts(q, opts[i..], k)
    {
      assert opts[i..][1..] == opts[i + 1..];
      match opts[i] {
        case Close =>
          q := CloseFds(q, k);
        case Group(arg) =>
          q := Cgroup(q, arg, k);
        case _ =>
          q := Step(q, opts[i], k);
      }
      i := i + 1;
    }
    if q.status.None? {
      if cmd != [] {
        if k.execOk {
          q := q.(image := Some(cmd));
        } else {
          q := Fail(q, cmd[0]);
        }
      } else {
        q := q.(status := Some(0));
      }
    }
  }

  // -------------------------------------------------------------- properties

  /** Options take effect in order: running a prefix and then the rest is running all. */
  lemma {:induction false} RunOptsAppend(p: Proc, pre: seq<Opt>, post: seq<Opt>, k: Kernel)
    ensures RunOpts(p, pre + post, k) == RunOpts(RunOpts(p, pre, k), post, k)
    decreases |pre|
  {
    if pre == [] {
      assert pre + post == post;
    } else if p.status.Some? {
      if post != [] {
        assert (pre + post) != [];
      }
    } else {
      assert (pre + post)[1..] == pre[1..] + post;
      RunOptsAppend(Step(p, pre[0], k), pre[1..], post, k);
    }
  }

  /** Once an option ends the run, later options and the exec have no effect. */
  lemma FirstFailureStops(p: Proc, pre: seq<Opt>, post: seq<Opt>, cmd: seq<string>, k: Kernel)
    requires RunOpts(p, pre, k).status.Some?
    ensures RunSpec(p, pre + post, cmd, k) == RunOpts(p, pre, k)
  {
    RunOptsAppend(p, pre, post, k);
    if post != [] {
      assert RunOpts(RunOpts(p, pre, k), post, k) == RunOpts(p, pre, k);
    }
  }

  /** A running process applies options one at a time and in command-line order. */
  lemma RunOptsSnoc(p: Proc, opts: seq<Opt>, o: Opt, k: Kernel)
    requires RunOpts(p, opts, k).status.None?
    ensures RunOpts(p, opts + [o], k) == Step(RunOpts(p, opts, k), o, k)
  {
    RunOptsAppend(p, opts, [o], k);
    assert [o][1..] == [];
  }

  /** The kernel calls of -n, -a and -r that fail end the run with status 1. */
  lemma KernelFailuresReturnOne(p: Proc, k: Kernel, arg: string)
    ensures !k.unshareOk ==> Step(p, NetNs, k).status == Some(1)
    ensures k.openNs(AttachPath(Atoi(arg))) < 0 ==> Step(p, Attach(arg), k).status == Some(1)
    ensures !k.setnsOk ==> Step(p, Attach(arg), k).status == Some(1)
    ensures !k.schedOk(Atoi(arg)) ==> Step(p, RtPrio(arg), k).status == Some(1)
    ensures k.unshareOk ==> Step(p, NetNs, k) == p.(netns := k.newNs)
    ensures k.openNs(AttachPath(Atoi(arg))) >= 0 && k.setnsOk ==>
      Step(p, Attach(arg), k).status == p.status && Step(p, Attach(arg), k).netns == k.nsOf(Atoi(arg))
  {
  }

  /** -d forks only for a process-group leader; the surviving process leads a new session. */
  lemma DetachForksOnlyForLeader(p: Proc, k: Kernel)
    ensures var q := Step(p, Detach, k);
      if p.pgrp != p.pid then q == p.(sid := p.pid, pgrp := p.pid)
      else match k.fork(p.pid)
        case ForkFailed => q.status == Some(1)
        case InParent => q.status == Some(0) && q.sid == p.sid
        case InChild(c) => q.status == p.status && q.pid == c && q.sid == c && q.pgrp == c
  {
  }

  /** -p writes byte 0x01, the decimal pid and a newline, and the pid reads back. */
  lemma PrintPidHandshake(p: Proc, k: Kernel)
    ensures var q := Step(p, PrintPid, k);
      q.out == p.out + ['\U{1}'] + NatToDec(p.pid) + ['\n']
      && q.status == p.status
      && DecValue(q.out[|p.out| + 1..|q.out| - 1]) == p.pid
  {
    var q := Step(p, PrintPid, k);
    assert q.out[|p.out| + 1..|q.out| - 1] == NatToDec(p.pid);
    DecRoundTrip(p.pid);
  }

  /** -c leaves only descriptors 0-2 among those below the table size. */
  lemma CloseKeepsStandardFds(p: Proc, k: Kernel)
    requires forall fd :: fd in p.fds ==> 0 <= fd < k.tableSize
    ensures Step(p, Close, k).fds == set fd | fd in p.fds && fd <= 2
  {
  }

  /** -v and -h exit 0, an unknown option exits 1, and each ends the option loop. */
  lemma TerminalOptions(p: Proc, k: Kernel)
    ensures Step(p, Version, k).status == Some(0)
    ensures Step(p, Version, k).out == p.out + "(devel)\n"
    ensures Step(p, Help, k).status == Some(0)
    ensures Step(p, Unknown, k).status == Some(1)
  {
  }

  /** A remaining command is exec'd; a returning execvp exits 1; no command exits 0. */
  lemma ExecOutcome(p: Proc, opts: seq<Opt>, cmd: seq<string>, k: Kernel)
    requires RunOpts(p, opts, k).status.None?
    ensures var q := RunSpec(p, opts, cmd, k);
      && (cmd != [] && k.execOk ==> q.image == Some(cmd) && q.status.None?)
      && (cmd != [] && !k.execOk ==> q.status == Some(1))
      && (cmd == [] ==> q.status == Some(0) && q.image == RunOpts(p, opts, k).image)
  {
  }
}
