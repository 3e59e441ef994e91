// The services launcher of examples/mn-s2.py: wrpMininet keeps, per
// priority, the service entries to start once the network is up (and to
// stop before it goes down), checks each description before storing it,
// and runs the start and stop commands in ascending priority order.
module MnS2Services {
  import opened Wrappers
  import opened Text

  /** The values a service description dictionary holds. */
  datatype SVal = Str(s: string) | Bool(b: bool) | NoneVal | Int(i: int)

  /** Python truthiness of a description value. */
  predicate Truthy(v: SVal) {
    match v
    case Str(s) => s != ""
    case Bool(b) => b
    case NoneVal => false
    case Int(i) => i != 0
  }

  /** A service description, or a stored entry (the description plus 'host' and 'pid'). */
  type Service = map<string, SVal>

  /** A priority or host name as the caller passes it. */
  datatype Arg = IntArg(i: int) | StrArg(s: string)

  /**
   * What an add returns: Refused is the False returned after the message
   * on stderr; Added is the None that do_add_service (which has no return
   * statement) hands back.
   */
  datatype Outcome = Refused(msg: string) | Added

  /** One effect of starting or stopping the services. */
  datatype Step = Run(host: string, cmdl: seq<SVal>) | Sleep(secs: nat) | UpdateIP(host: string)

  /** The steps taken, and the exception that ended them early, if any. */
  datatype Trace = Trace(steps: seq<Step>, err: Option<Exc>)

  /** SERVICES: the preconfigured services, dhcpd (stopped by pid) and dhclient. */
  const SERVICES: map<string, Service> := map[
    "dhcpd" := map["cmd_start" := Str("dhcpd"),
                   "start_custom_opts" := Str("--no-pid -cf /etc/dhcp/dhcpd.mininet.conf"),
                   "cmd_stop" := NoneVal,
                   "need_stop" := Bool(true)],
    "dhclient" := map["cmd_start" := Str("dhclient -v"),
                      "need_stop" := Bool(false)]]

  const WrongArgs := "Wrong priority or hostname argument"

  /** int(priority): ValueError (None) for text that is not a decimal integer. */
  function IntOf(a: Arg): Option<int> {
    match a
    case IntArg(i) => Some(i)
    case StrArg(s) => PyInt(s)
  }

  /** str(hostname). */
  function StrOf(a: Arg): string {
    match a
    case IntArg(i) => IntToDec(i)
    case StrArg(s) => s
  }

  // ------------------------------------------------------------ the checks

  /** The checks both adds begin with: int(priority), str(hostname), a known host. */
  function CheckArgs(priority: Arg, hostname: Arg, nodes: set<string>): Result<(int, string), string> {
    match IntOf(priority)
    case None => Err(WrongArgs)
    case Some(p) =>
      var h := StrOf(hostname);
      if h !in nodes then Err("Unknown host " + h) else Ok((p, h))
  }

  /** add_service's checks of a customised description, in its order. */
  function CheckCustom(priority: Arg, hostname: Arg, d: Service, nodes: set<string>): Result<(int, string), string> {
    var a := CheckArgs(priority, hostname, nodes);
    if a.Err? then a
    else
      var h := a.value.1;
      if "cmd_start" !in d then Err("Customized service for " + h + " lacks cmd_start string")
      else if "need_stop" !in d then Err("Customized service for " + h + " lacks need_stop bool")
      else if !Truthy(d["need_stop"]) then a
      else if "cmd_stop" !in d then Err("Customized service for " + h + " lacks cmd_stop bool")
      else a
  }

  /** add_preconf_service's checks. */
  function CheckPreconf(priority: Arg, hostname: Arg, id: string, nodes: set<string>): Result<(int, string), string> {
    var a := CheckArgs(priority, hostname, nodes);
    if a.Err? then a
    else if id !in SERVICES then Err("Unknown preconfigured service " + id)
    else a
  }

  /** The stored entry: a copy of the description with 'host' set and 'pid' None. */
  function Entry(d: Service, host: string): (e: Service)
    ensures forall k :: k != "host" && k != "pid" ==> (k in e <==> k in d) && (k in d ==> e[k] == d[k])
    ensures "host" in e && e["host"] == Str(host) && "pid" in e && e["pid"] == NoneVal
  {
    d["host" := Str(host)]["pid" := NoneVal]
  }

  /** What every stored entry has, whoever stored it. */
  predicate Stored(e: Service) {
    "host" in e && e["host"].Str? && "pid" in e && e["pid"] == NoneVal
  }

  /** An entry that start_services and stop_services can process without a KeyError. */
  predicate Ready(e: Service, nodes: set<string>) {
    Stored(e) && e["host"].s in nodes && "cmd_start" in e && "need_stop" in e
    && (Truthy(e["need_stop"]) ==> "cmd_stop" in e)
  }

  /** services after appending e under p (the list is created when p is new). */
  function Appended(m: map<int, seq<Service>>, p: int, e: Service): (r: map<int, seq<Service>>)
    ensures r.Keys == m.Keys + {p}
    ensures forall q :: q in m && q != p ==> r[q] == m[q]
    ensures r[p] == (if p in m then m[p] else []) + [e]
  {
    m[p := (if p in m then m[p] else []) + [e]]
  }

  /** add_service accepts exactly the descriptions whose entries can be started and stopped. */
  lemma CustomAcceptsReady(priority: Arg, hostname: Arg, d: Service, nodes: set<string>)
    ensures CheckCustom(priority, hostname, d, nodes).Ok?
      <==> IntOf(priority).Some? && Ready(Entry(d, StrOf(hostname)), nodes)
    ensures CheckCustom(priority, hostname, d, nodes).Ok?
      ==> CheckCustom(priority, hostname, d, nodes).value == (IntOf(priority).value, StrOf(hostname))
  {
    var e := Entry(d, StrOf(hostname));
    assert "cmd_start" in e <==> "cmd_start" in d;
    assert "need_stop" in e <==> "need_stop" in d;
    assert "cmd_stop" in e <==> "cmd_stop" in d;
    if "need_stop" in d {
      assert e["need_stop"] == d["need_stop"];
    }
  }

  /** Each preconfigured service, stored for a known host, can be started and stopped. */
  lemma PreconfReady(id: string, host: string, nodes: set<string>)
    requires id in SERVICES && host in nodes
    ensures Ready(Entry(SERVICES[id], host), nodes)
  {
    var e := Entry(SERVICES[id], host);
    if id == "dhcpd" {
      assert "cmd_start" in SERVICES[id] && "need_stop" in SERVICES[id] && "cmd_stop" in SERVICES[id];
    } else {
      assert SERVICES[id]["need_stop"] == Bool(false);
    }
  }

  /** add_preconf_service refuses only bad arguments, unknown hosts and unknown service names. */
  lemma PreconfAccepts(priority: Arg, hostname: Arg, id: string, nodes: set<string>)
    ensures CheckPreconf(priority, hostname, id, nodes).Ok?
      <==> IntOf(priority).Some? && StrOf(hostname) in nodes && id in SERVICES
    ensures CheckPreconf(priority, hostname, id, nodes).Ok?
      ==> CheckPreconf(priority, hostname, id, nodes).value == (IntOf(priority).value, StrOf(hostname))
    ensures IntOf(priority).Some? && StrOf(hostname) in nodes && id !in SERVICES
      ==> CheckPreconf(priority, hostname, id, nodes) == Err("Unknown preconfigured service " + id)
  {
  }

  // ------------------------------------------------------------ sorted(self.services)

  /** A set with no element is the empty set. */
  lemma NoElements(s: set<int>)
    requires forall x :: x !in s
    ensures s == {}
  {
    forall x ensures x in s <==> x in {} {
    }
  }

  /** A non-empty set has an element. */
  lemma Inhabited(s: set<int>)
    requires s != {}
    ensures exists x :: x in s
  {
    if forall x :: x !in s {
      NoElements(s);
    }
  }

  /** The least element of a non-empty set of priorities. */
  ghost function Min(s: set<int>): (m: int)
    requires s != {}
    ensures m in s && forall x :: x in s ==> m <= x
    decreases |s|
  {
    Inhabited(s);
    var x :| x in s;
    var rest := s - {x};
    assert forall y :: y in s ==> y == x || y in rest;
    if rest == {} then x
    else
      var m' := Min(rest);
      if x < m' then x else m'
  }

  /** sorted() of a set of priorities: the least first, then the rest sorted. */
  ghost function SortedInts(s: set<int>): (r: seq<int>)
    ensures |r| == |s|
    decreases |s|
  {
    if s == {} then []
    else
      var m := Min(s);
      assert |s - {m}| == |s| - 1;
      [m] + SortedInts(s - {m})
  }

  /** The least priority comes first, whichever way it was found. */
  lemma SortedIntsFirst(s: set<int>, m: int)
    requires m in s && forall x :: x in s ==> m <= x
    ensures SortedInts(s) == [m] + SortedInts(s - {m})
  {
    assert Min(s) <= m && m <= Min(s);
  }

  /** sorted() lists every priority of the set, and only those. */
  lemma {:induction false} SortedIntsMembers(s: set<int>)
    ensures forall x :: x in SortedInts(s) <==> x in s
    decreases |s|
  {
    if s != {} {
      var m := Min(s);
      var rest := s - {m};
      SortedIntsMembers(rest);
      assert SortedInts(s) == [m] + SortedInts(rest);
    }
  }

  /** sorted() lists the priorities strictly ascending. */
  lemma {:induction false} SortedIntsAscending(s: set<int>)
    ensures forall i, j :: 0 <= i < j < |SortedInts(s)| ==> SortedInts(s)[i] < SortedInts(s)[j]
    decreases |s|
  {
    if s != {} {
      var m := Min(s);
      var rest := s - {m};
      var tail := SortedInts(rest);
      SortedIntsAscending(rest);
      SortedIntsMembers(rest);
      var r := SortedInts(s);
      assert r == [m] + tail;
      forall i, j | 0 <= i < j < |r| ensures r[i] < r[j] {
        assert r[j] == tail[j - 1];
        if i == 0 {
          assert tail[j - 1] in rest;
        } else {
          assert r[i] == tail[i - 1];
        }
      }
    }
  }

  /** sorted(self.services): take the least remaining priority until none is left. */
  method SortedKeys(s: set<int>) returns (keys: seq<int>)
    ensures keys == SortedInts(s)
  {
    keys := [];
    var rest := s;
    while rest != {}
      invariant keys + SortedInts(rest) == SortedInts(s)
      decreases |rest|
    {
      ghost var least := Min(rest);
      var m :| m in rest && forall x :: x in rest ==> m <= x;
      SortedIntsFirst(rest, m);
      assert keys + SortedInts(rest) == (keys + [m]) + SortedInts(rest - {m});
      keys := keys + [m];
      rest := rest - {m};
    }
    assert SortedInts(rest) == [];
  }

  // ------------------------------------------------------------ traces

  /** u after t, unless t already ended in an exception. */
  function Then(t: Trace, u: Trace): Trace {
    if t.err.Some? then t else Trace(t.steps + u.steps, u.err)
  }

  /** The traces in order, stopping at the first exception. */
  function Chain(ts: seq<Trace>): Trace
    decreases |ts|
  {
    if ts == [] then Trace([], None) else Then(Chain(ts[..|ts| - 1]), ts[|ts| - 1])
  }

  /** All the steps of the traces, in order. */
  function AllSteps(ts: seq<Trace>): seq<Step>
    decreases |ts|
  {
    if ts == [] then [] else AllSteps(ts[..|ts| - 1]) + ts[|ts| - 1].steps
  }

  lemma ChainNext(ts: seq<Trace>, k: nat)
    requires k < |ts|
    ensures Chain(ts[..k + 1]) == Then(Chain(ts[..k]), ts[k])
  {
    assert ts[..k + 1][..k] == ts[..k];
  }

  /** Once a prefix ends in an exception, so does the whole chain, with the same steps. */
  lemma {:induction false} ChainSticky(ts: seq<Trace>, k: nat)
    requires k <= |ts| && Chain(ts[..k]).err.Some?
    ensures Chain(ts) == Chain(ts[..k])
    decreases |ts| - k
  {
    if k == |ts| {
      assert ts[..k] == ts;
    } else {
      ChainNext(ts, k);
      ChainSticky(ts, k + 1);
    }
  }

  /** A trace ending in an exception at k ends the chain there. */
  lemma ChainStop(ts: seq<Trace>, k: nat, pre: seq<Step>)
    requires k < |ts| && Chain(ts[..k]) == Trace(pre, None) && ts[k].err.Some?
    ensures Chain(ts) == Trace(pre + ts[k].steps, ts[k].err)
  {
    ChainNext(ts, k);
    ChainSticky(ts, k + 1);
  }

  /** With no exception anywhere, the chain is every step in order. */
  lemma {:induction false} ChainOk(ts: seq<Trace>)
    requires forall i :: 0 <= i < |ts| ==> ts[i].err.None?
    ensures Chain(ts) == Trace(AllSteps(ts), None)
    decreases |ts|
  {
    if ts != [] {
      ChainOk(ts[..|ts| - 1]);
    }
  }

  // ------------------------------------------------------------ start_services

  /** The optional extra argument k of an entry. */
  function Opt(e: Service, k: string): seq<SVal> {
    if k in e then [e[k]] else []
  }

  /** h = nameToNode[hsi_d['host']]; h.cmd([cmd_start] + [start_custom_opts]). */
  function EntryStart(e: Service, nodes: set<string>): Trace {
    if !("host" in e && e["host"].Str?) then Trace([], Some(KeyError("host")))
    else if e["host"].s !in nodes then Trace([], Some(KeyError(e["host"].s)))
    else if "cmd_start" !in e then Trace([], Some(KeyError("cmd_start")))
    else Trace([Run(e["host"].s, [e["cmd_start"]] + Opt(e, "start_custom_opts"))], None)
  }

  function StartTraces(es: seq<Service>, nodes: set<string>): (ts: seq<Trace>)
    ensures |ts| == |es| && forall i :: 0 <= i < |es| ==> ts[i] == EntryStart(es[i], nodes)
  {
    seq(|es|, i requires 0 <= i < |es| => EntryStart(es[i], nodes))
  }

  /** One priority: its entries in insertion order, then time.sleep(2). */
  function RoundStart(es: seq<Service>, nodes: set<string>): Trace {
    Then(Chain(StartTraces(es, nodes)), Trace([Sleep(2)], None))
  }

  function At(m: map<int, seq<Service>>, p: int): seq<Service> {
    if p in m then m[p] else []
  }

  function StartRounds(m: map<int, seq<Service>>, keys: seq<int>, nodes: set<string>): (ts: seq<Trace>)
    ensures |ts| == |keys| && forall k :: 0 <= k < |keys| ==> ts[k] == RoundStart(At(m, keys[k]), nodes)
  {
    seq(|keys|, k requires 0 <= k < |keys| => RoundStart(At(m, keys[k]), nodes))
  }

  /** h.defaultIntf().updateIP() for every host, in order. */
  function Updates(hosts: seq<string>): (r: seq<Step>)
    ensures |r| == |hosts| && forall i :: 0 <= i < |hosts| ==> r[i] == UpdateIP(hosts[i])
  {
    seq(|hosts|, i requires 0 <= i < |hosts| => UpdateIP(hosts[i]))
  }

  /** start_services: the priorities ascending, then every host's IP refreshed. */
  ghost function StartPlan(m: map<int, seq<Service>>, nodes: set<string>, hosts: seq<string>): Trace {
    Then(Chain(StartRounds(m, SortedInts(m.Keys), nodes)), Trace(Updates(hosts), None))
  }

  // ------------------------------------------------------------ stop_services

  /** Skip an entry whose need_stop is falsy; else h.cmd([cmd_stop] + [stop_custom_opts]). */
  function EntryStop(e: Service, nodes: set<string>): Trace {
    if "need_stop" !in e then Trace([], Some(KeyError("need_stop")))
    else if !Truthy(e["need_stop"]) then Trace([], None)
    else if !("host" in e && e["host"].Str?) then Trace([], Some(KeyError("host")))
    else if e["host"].s !in nodes then Trace([], Some(KeyError(e["host"].s)))
    else if "cmd_stop" !in e then Trace([], Some(KeyError("cmd_stop")))
    else Trace([Run(e["host"].s, [e["cmd_stop"]] + Opt(e, "stop_custom_opts"))], None)
  }

  function StopTraces(es: seq<Service>, nodes: set<string>): (ts: seq<Trace>)
    ensures |ts| == |es| && forall i :: 0 <= i < |es| ==> ts[i] == EntryStop(es[i], nodes)
  {
    seq(|es|, i requires 0 <= i < |es| => EntryStop(es[i], nodes))
  }

  function StopRounds(m: map<int, seq<Service>>, keys: seq<int>, nodes: set<string>): (ts: seq<Trace>)
    ensures |ts| == |keys| && forall k :: 0 <= k < |keys| ==> ts[k] == Chain(StopTraces(At(m, keys[k]), nodes))
  {
    seq(|keys|, k requires 0 <= k < |keys| => Chain(StopTraces(At(m, keys[k]), nodes)))
  }

  /** stop_services: the priorities ascending too; no pause between them. */
  ghost function StopPlan(m: map<int, seq<Service>>, nodes: set<string>): Trace {
    Chain(StopRounds(m, SortedInts(m.Keys), nodes))
  }

  // ------------------------------------------------------------ what the plans do

  /** Every entry of every priority is ready to be started and stopped. */
  predicate AllReady(m: map<int, seq<Service>>, nodes: set<string>) {
    forall p, i :: p in m && 0 <= i < |m[p]| ==> Ready(m[p][i], nodes)
  }

  /** The start command of a ready entry. */
  function StartCmd(e: Service, nodes: set<string>): Step
    requires Ready(e, nodes)
  {
    Run(e["host"].s, [e["cmd_start"]] + Opt(e, "start_custom_opts"))
  }

  /** The start commands of a ready priority's entries, in insertion order. */
  function StartCmds(es: seq<Service>, nodes: set<string>): (r: seq<Step>)
    requires forall i :: 0 <= i < |es| ==> Ready(es[i], nodes)
    ensures |r| == |es| && forall i :: 0 <= i < |es| ==> r[i] == StartCmd(es[i], nodes)
  {
    seq(|es|, i requires 0 <= i < |es| && Ready(es[i], nodes) => StartCmd(es[i], nodes))
  }

  lemma {:induction false} AllStepsSingles(ts: seq<Trace>, r: seq<Step>)
    requires |ts| == |r| && forall i :: 0 <= i < |ts| ==> ts[i].steps == [r[i]]
    ensures AllSteps(ts) == r
    decreases |ts|
  {
    if ts != [] {
      AllStepsSingles(ts[..|ts| - 1], r[..|r| - 1]);
      assert r == r[..|r| - 1] + [r[|r| - 1]];
    }
  }

  /** A ready priority starts every entry, in order, then sleeps. */
  lemma RoundStartReady(es: seq<Service>, nodes: set<string>)
    requires forall i :: 0 <= i < |es| ==> Ready(es[i], nodes)
    ensures RoundStart(es, nodes) == Trace(StartCmds(es, nodes) + [Sleep(2)], None)
  {
    var ts := StartTraces(es, nodes);
    var r := StartCmds(es, nodes);
    forall i | 0 <= i < |ts| ensures ts[i].err.None? && ts[i].steps == [r[i]] {
      assert Ready(es[i], nodes);
    }
    ChainOk(ts);
    AllStepsSingles(ts, r);
  }

  /** The entries stored under p in a map whose entries are all ready are ready. */
  lemma AtReady(m: map<int, seq<Service>>, p: int, nodes: set<string>)
    requires AllReady(m, nodes)
    ensures forall i :: 0 <= i < |At(m, p)| ==> Ready(At(m, p)[i], nodes)
  {
    if p in m {
      forall i | 0 <= i < |m[p]| ensures Ready(m[p][i], nodes) {
      }
    }
  }

  /** What each priority of keys contributes when every entry is ready: its starts, then the pause. */
  function ReadyStarts(m: map<int, seq<Service>>, keys: seq<int>, nodes: set<string>): (ts: seq<Trace>)
    requires AllReady(m, nodes)
    ensures |ts| == |keys|
  {
    seq(|keys|, k requires 0 <= k < |keys| =>
      AtReady(m, keys[k], nodes);
      Trace(StartCmds(At(m, keys[k]), nodes) + [Sleep(2)], None))
  }

  /**
   * With every entry ready, start_services raises nothing: it starts the
   * entries priority by priority, ascending, in insertion order within a
   * priority, sleeping after each priority, then refreshes every host's IP.
   */
  lemma StartPlanReady(m: map<int, seq<Service>>, nodes: set<string>, hosts: seq<string>)
    requires AllReady(m, nodes)
    ensures StartPlan(m, nodes, hosts)
      == Trace(AllSteps(ReadyStarts(m, SortedInts(m.Keys), nodes)) + Updates(hosts), None)
  {
    var keys := SortedInts(m.Keys);
    var rs := StartRounds(m, keys, nodes);
    var want := ReadyStarts(m, keys, nodes);
    forall k | 0 <= k < |keys| ensures rs[k] == want[k] && rs[k].err.None? {
      AtReady(m, keys[k], nodes);
      RoundStartReady(At(m, keys[k]), nodes);
    }
    assert rs == want;
    ChainOk(rs);
  }

  /** The stop command of a ready entry whose need_stop is truthy. */
  function StopCmd(e: Service, nodes: set<string>): Step
    requires Ready(e, nodes) && Truthy(e["need_stop"])
  {
    Run(e["host"].s, [e["cmd_stop"]] + Opt(e, "stop_custom_opts"))
  }

  /** The entries whose need_stop is truthy, in order. */
  function NeedStop(es: seq<Service>, nodes: set<string>): (r: seq<Service>)
    requires forall i :: 0 <= i < |es| ==> Ready(es[i], nodes)
    ensures forall i :: 0 <= i < |r| ==> Ready(r[i], nodes) && Truthy(r[i]["need_stop"])
    ensures |r| <= |es|
    decreases |es|
  {
    if es == [] then []
    else
      var e := es[|es| - 1];
      assert Ready(e, nodes);
      NeedStop(es[..|es| - 1], nodes) + (if Truthy(e["need_stop"]) then [e] else [])
  }

  function StopCmds(es: seq<Service>, nodes: set<string>): (r: seq<Step>)
    requires forall i :: 0 <= i < |es| ==> Ready(es[i], nodes) && Truthy(es[i]["need_stop"])
    ensures |r| == |es| && forall i :: 0 <= i < |es| ==> r[i] == StopCmd(es[i], nodes)
  {
    seq(|es|, i requires 0 <= i < |es| && Ready(es[i], nodes) && Truthy(es[i]["need_stop"]) => StopCmd(es[i], nodes))
  }

  /** The chain of a priority's stop traces, one entry at a time. */
  lemma StopTracesSnoc(es: seq<Service>, nodes: set<string>)
    requires es != []
    ensures Chain(StopTraces(es, nodes))
      == Then(Chain(StopTraces(es[..|es| - 1], nodes)), EntryStop(es[|es| - 1], nodes))
  {
    var n := |es| - 1;
    var ts := StopTraces(es, nodes);
    assert ts[..n] == StopTraces(es[..n], nodes);
    ChainNext(ts, n);
    assert ts[..n + 1] == ts;
  }

  /** A ready entry is skipped or stopped, as its need_stop says. */
  lemma EntryStopReady(e: Service, nodes: set<string>)
    requires Ready(e, nodes)
    ensures Truthy(e["need_stop"]) ==> EntryStop(e, nodes) == Trace([StopCmd(e, nodes)], None)
    ensures !Truthy(e["need_stop"]) ==> EntryStop(e, nodes) == Trace([], None)
  {
  }

  /** The stop commands of a ready priority, one entry at a time. */
  lemma StopCmdsSnoc(es: seq<Service>, nodes: set<string>)
    requires es != [] && forall i :: 0 <= i < |es| ==> Ready(es[i], nodes)
    ensures Ready(es[|es| - 1], nodes)
    ensures StopCmds(NeedStop(es, nodes), nodes) == StopCmds(NeedStop(es[..|es| - 1], nodes), nodes)
      + (if Truthy(es[|es| - 1]["need_stop"]) then [StopCmd(es[|es| - 1], nodes)] else [])
  {
    var n := |es| - 1;
    var e := es[n];
    assert Ready(e, nodes);
    var pre := NeedStop(es[..n], nodes);
    if Truthy(e["need_stop"]) {
      assert NeedStop(es, nodes) == pre + [e];
      assert StopCmds(pre + [e], nodes) == StopCmds(pre, nodes) + [StopCmd(e, nodes)];
    } else {
      assert NeedStop(es, nodes) == pre + [];
      assert pre + [] == pre;
    }
  }

  /** A ready priority stops exactly its entries with need_stop set, in order. */
  lemma {:induction false} StopEntriesReady(es: seq<Service>, nodes: set<string>)
    requires forall i :: 0 <= i < |es| ==> Ready(es[i], nodes)
    ensures Chain(StopTraces(es, nodes)) == Trace(StopCmds(NeedStop(es, nodes), nodes), None)
    decreases |es|
  {
    if es != [] {
      var n := |es| - 1;
      StopEntriesReady(es[..n], nodes);
      StopTracesSnoc(es, nodes);
      StopCmdsSnoc(es, nodes);
      EntryStopReady(es[n], nodes);
    }
  }

  /** What each priority of keys contributes when every entry is ready: the stops it needs. */
  function ReadyStops(m: map<int, seq<Service>>, keys: seq<int>, nodes: set<string>): (ts: seq<Trace>)
    requires AllReady(m, nodes)
    ensures |ts| == |keys|
  {
    seq(|keys|, k requires 0 <= k < |keys| =>
      AtReady(m, keys[k], nodes);
      Trace(StopCmds(NeedStop(At(m, keys[k]), nodes), nodes), None))
  }

  /**
   * With every entry ready, stop_services raises nothing and issues the stop
   * commands of exactly the entries whose need_stop is set, priorities
   * ascending.
   */
  lemma StopPlanReady(m: map<int, seq<Service>>, nodes: set<string>)
    requires AllReady(m, nodes)
    ensures StopPlan(m, nodes) == Trace(AllSteps(ReadyStops(m, SortedInts(m.Keys), nodes)), None)
  {
    var keys := SortedInts(m.Keys);
    var rs := StopRounds(m, keys, nodes);
    var want := ReadyStops(m, keys, nodes);
    forall k | 0 <= k < |keys| ensures rs[k] == want[k] && rs[k].err.None? {
      AtReady(m, keys[k], nodes);
      StopEntriesReady(At(m, keys[k]), nodes);
    }
    assert rs == want;
    ChainOk(rs);
  }

  // ------------------------------------------------------------ wrpMininet

  /** The services part of a wrpMininet: its node names, its hosts and self.services. */
  class ServiceNet {
    /** The keys of nameToNode. */
    const nodes: set<string>
    /** The names of self.hosts, in order. */
    const hosts: seq<string>
    /** self.services: the entries to launch, by priority. */
    var services: map<int, seq<Service>>

    /** Every priority present has a non-empty list of stored entries. */
    ghost predicate Valid()
      reads this
    {
      forall p :: p in services ==>
        services[p] != [] && forall i :: 0 <= i < |services[p]| ==> Stored(services[p][i])
    }

    constructor (nodes: set<string>, hosts: seq<string>)
      ensures this.nodes == nodes && this.hosts == hosts && services == map[]
      ensures Valid() && AllReady(services, this.nodes)
    {
      this.nodes := nodes;
      this.hosts := hosts;
      services := map[];
    }

    /** do_add_service: append the entry (a copy with 'host' and 'pid') under its priority. */
    method DoAddService(prio: int, host: string, d: Service)
      requires Valid()
      modifies this
      ensures services == Appended(old(services), prio, Entry(d, host))
      ensures Valid()
      ensures old(AllReady(services, nodes)) && Ready(Entry(d, host), nodes) ==> AllReady(services, nodes)
    {
      if prio !in services {
        services := services[prio := []];
      }
      var entry := d["host" := Str(host)]["pid" := NoneVal];
      services := services[prio := services[prio] + [entry]];
    }

    /** add_service: check the arguments and the description, then store it. */
    method AddService(priority: Arg, hostname: Arg, d: Service) returns (r: Outcome)
      requires Valid()
      modifies this
      ensures Valid()
      ensures var c := CheckCustom(priority, hostname, d, nodes);
        (c.Err? ==> r == Refused(c.error) && services == old(services))
        && (c.Ok? ==> r == Added && services == Appended(old(services), c.value.0, Entry(d, c.value.1)))
      ensures old(AllReady(services, nodes)) ==> AllReady(services, nodes)
    {
      var p := IntOf(priority);
      if p.None? {
        return Refused(WrongArgs);
      }
      var h := StrOf(hostname);
      if h !in nodes {
        return Refused("Unknown host " + h);
      }
      if "cmd_start" !in d {
        return Refused("Customized service for " + h + " lacks cmd_start string");
      }
      if "need_stop" !in d {
        return Refused("Customized service for " + h + " lacks need_stop bool");
      }
      if Truthy(d["need_stop"]) && "cmd_stop" !in d {
        return Refused("Customized service for " + h + " lacks cmd_stop bool");
      }
      CustomAcceptsReady(priority, hostname, d, nodes);
      DoAddService(p.value, h, d);
      r := Added;
    }

    /** add_preconf_service: check the arguments and the service name, then store SERVICES[id]. */
    method AddPreconfService(priority: Arg, hostname: Arg, id: string) returns (r: Outcome)
      requires Valid()
      modifies this
      ensures Valid()
      ensures var c := CheckPreconf(priority, hostname, id, nodes);
        (c.Err? ==> r == Refused(c.error) && services == old(services))
        && (c.Ok? ==> r == Added && services == Appended(old(services), c.value.0, Entry(SERVICES[id], c.value.1)))
      ensures old(AllReady(services, nodes)) ==> AllReady(services, nodes)
    {
      var p := IntOf(priority);
      if p.None? {
        return Refused(WrongArgs);
      }
      var h := StrOf(hostname);
      if h !in nodes {
        return Refused("Unknown host " + h);
      }
      if id !in SERVICES {
        return Refused("Unknown preconfigured service " + id);
      }
      PreconfReady(id, h, nodes);
      DoAddService(p.value, h, SERVICES[id]);
      r := Added;
    }

    /** One priority of start_services: its entries in order, up to the first exception. */
    method StartRound(list: seq<Service>) returns (round: seq<Step>, err: Option<Exc>)
      requires forall i :: 0 <= i < |list| ==> Stored(list[i])
      ensures Trace(round, err) == Chain(StartTraces(list, nodes))
    {
      ghost var ts := StartTraces(list, nodes);
      round := [];
      var j := 0;
      while j < |list|
        invariant 0 <= j <= |list|
        invariant Chain(ts[..j]) == Trace(round, None)
      {
        var e := list[j];
        assert Stored(e);
        var h := e["host"].s;
        if h !in nodes {
          ChainStop(ts, j, round);
          return round, Some(KeyError(h));
        }
        if "cmd_start" !in e {
          ChainStop(ts, j, round);
          return round, Some(KeyError("cmd_start"));
        }
        var cmdl := [e["cmd_start"]];
        if "start_custom_opts" in e {
          cmdl := cmdl + [e["start_custom_opts"]];
        } else {
          assert cmdl + Opt(e, "start_custom_opts") == cmdl;
        }
        assert ts[j] == EntryStart(e, nodes) == Trace([Run(h, cmdl)], None);
        ChainNext(ts, j);
        round := round + [Run(h, cmdl)];
        j := j + 1;
      }
      assert ts[..j] == ts;
      err := None;
    }

    /** One priority of stop_services: its entries in order, up to the first exception. */
    method StopRound(list: seq<Service>) returns (round: seq<Step>, err: Option<Exc>)
      requires forall i :: 0 <= i < |list| ==> Stored(list[i])
      ensures Trace(round, err) == Chain(StopTraces(list, nodes))
    {
      ghost var ts := StopTraces(list, nodes);
      round := [];
      var j := 0;
      while j < |list|
        invariant 0 <= j <= |list|
        invariant Chain(ts[..j]) == Trace(round, None)
      {
        var e := list[j];
        assert Stored(e);
        if "need_stop" !in e {
          ChainStop(ts, j, round);
          return round, Some(KeyError("need_stop"));
        }
        if !Truthy(e["need_stop"]) {
          ChainNext(ts, j);
          assert round + [] == round;
          j := j + 1;
          continue;
        }
        var h := e["host"].s;
        if h !in nodes {
          ChainStop(ts, j, round);
          return round, Some(KeyError(h));
        }
        if "cmd_stop" !in e {
          ChainStop(ts, j, round);
          return round, Some(KeyError("cmd_stop"));
        }
        var cmdl := [e["cmd_stop"]];
        if "stop_custom_opts" in e {
          cmdl := cmdl + [e["stop_custom_opts"]];
        } else {
          assert cmdl + Opt(e, "stop_custom_opts") == cmdl;
        }
        assert ts[j] == EntryStop(e, nodes) == Trace([Run(h, cmdl)], None);
        ChainNext(ts, j);
        round := round + [Run(h, cmdl)];
        j := j + 1;
      }
      assert ts[..j] == ts;
      err := None;
    }

    /** h.defaultIntf().updateIP() for every host, in order. */
    method RefreshIPs() returns (updates: seq<Step>)
      ensures updates == Updates(hosts)
    {
      ghost var all := Updates(hosts);
      updates := [];
      for i := 0 to |hosts|
        invariant updates == all[..i]
      {
        assert all[..i + 1] == all[..i] + [all[i]];
        updates := updates + [UpdateIP(hosts[i])];
      }
      assert all[..|hosts|] == all;
    }

    /** start_services: run the start commands, then refresh every host's IP. */
    method StartServices() returns (steps: seq<Step>, err: Option<Exc>)
      requires Valid()
      ensures Trace(steps, err) == StartPlan(services, nodes, hosts)
    {
      var keys := SortedKeys(services.Keys);
      SortedIntsMembers(services.Keys);
      ghost var rounds := StartRounds(services, keys, nodes);
      steps := [];
      var k := 0;
      while k < |keys|
        invariant 0 <= k <= |keys|
        invariant Chain(rounds[..k]) == Trace(steps, None)
      {
        var round, e := StartRound(services[keys[k]]);
        if e.Some? {
          ChainStop(rounds, k, steps);
          return steps + round, e;
        }
        ChainNext(rounds, k);
        steps := steps + (round + [Sleep(2)]);
        k := k + 1;
      }
      assert rounds[..k] == rounds;
      var updates := RefreshIPs();
      steps := steps + updates;
      err := None;
    }

    /** stop_services: run the stop commands of the entries that need one. */
    method StopServices() returns (steps: seq<Step>, err: Option<Exc>)
      requires Valid()
      ensures Trace(steps, err) == StopPlan(services, nodes)
    {
      var keys := SortedKeys(services.Keys);
      SortedIntsMembers(services.Keys);
      ghost var rounds := StopRounds(services, keys, nodes);
      steps := [];
      var k := 0;
      while k < |keys|
        invariant 0 <= k <= |keys|
        invariant Chain(rounds[..k]) == Trace(steps, None)
      {
        var round, e := StopRound(services[keys[k]]);
        if e.Some? {
          ChainStop(rounds, k, steps);
          return steps + round, e;
        }
        ChainNext(rounds, k);
        steps := steps + round;
        k := k + 1;
      }
      assert rounds[..k] == rounds;
      err := None;
    }
  }
}
