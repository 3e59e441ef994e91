# A verified model of Mininet's core

Mininet emulates a whole OpenFlow network on one Linux machine. Each host is a shell in its own network namespace, started through the small C launcher `mnexec`. Switches are Open vSwitch or user-space datapaths, and virtual Ethernet pairs make the links.

This project models, in Dafny, the parts of the repository that decide things. Everything that runs a command, reads a pipe or touches the kernel becomes a parameter or an oracle.

| Dafny module (file) | Source it models |
|---|---|
| `MnExec` (mnexec.dfy) | `mnexec.c`: the option loop, the cgroup name check and writes, the detach fork, the pid handshake, the final exec |
| `Addr` (addr.dfy), `Util` (util.dfy) | `mininet/util.py`: ipStr, ipNum, ipAdd, ipParse, netParse, macColonHex, retry, natural, irange, splitArgs, customConstructor, buildTopo, isShellBuiltin |
| `Graph`, `Topo`, `Topos` | `mininet/topo.py`: MultiGraph, Topo and its port map, SingleSwitchTopo, SingleSwitchReversedTopo, LinearTopo |
| `TopoLib`, `CsvTopo` | `mininet/topolib.py`: TreeTopo and CsvTopo |
| `Placement`, `Cluster`, `ClusterCli` | `mininet/cluster/placer.py`, `mininet/cluster/net.py` and `mininet/cluster/cli.py`; their copies in `examples/cluster.py` and `examples/clustercli.py` |
| `Shell`, `Nodes`, `Links` | `mininet/node.py` and `mininet/link.py`: the shell protocol, node, interface and link objects, dpids, tc command lists |
| `Net` | `mininet/net.py`: node registration, control-network addresses, the ping and iperf parsers, ping accounting, build and start |
| `Legacy` | `mininet.py`, the first single-file emulator |
| `UtiLib` | `mininet/utilib.py` |
| `VmBuild` | `util/vm/build.py` |
| `Doxify` | `util/doxify.py` |
| `MnS2Topo`, `MnS2Services` | `examples/mn-s2.py`: WiFiTopo and the wrpMininet service launcher |
| `WebService` | `www/webservice.py` |
| `MultiPing`, `UdpBwTest` | `examples/multiping.py` and `examples/udpbwtest.py` |
| `Text`, `Bits`, `Wrappers` | Python's str operations, int(), bit operations, and None and exceptions as values |

## How the source maps to the model

- **Objects with state become classes.** Their fields are updated in place. This covers `Graph.MultiGraph`, `Topo.Topo`, `TopoLib.TreeTopo`, `CsvTopo.CsvTopo`, `Placement.Placer`, `Cluster.MininetCluster`, `Nodes.Node`/`Intf`/`Link`, `Net.Mininet`, `Legacy.Node`/`IpGen`/`NameGen`, `MnS2Services.ServiceNet`, `WebService.WebState`, `Doxify.Doxifier` and `UtiLib.PyList`.
- **Methods are proved against functions.** Each method's postcondition ties its new state to a pure function of the old one. The lemmas about those functions carry the properties the source promises.
- **Generators become classes.** `ipGen`, `nameGen` and `dpgen` in mininet.py keep their loop state in fields.
- **Python semantics is explicit.**
  - `/` on ints floors.
  - int() accepts surrounding white space and a sign.
  - str.split keeps empty fields.
  - An exception or `exit(n)` is an `Err` value of `Wrappers.Exc`.
- **Regular expressions are hand-written scanners.** A lemma states what each scanner matches.
- **Tabs follow Python 2.** `examples/mn-s2.py` mixes tabs and spaces, and a tab advances to the next multiple of eight columns. So, in start_services, the two-second sleep runs once per priority and the IP refresh once after all priorities. The model keeps that ordering.
- **Copies are modelled once.** `examples/cluster.py:562-723` copies the placer classes of `mininet/cluster/placer.py`. `examples/cluster.py:742-841` copies MininetCluster's defaults and placeNodes. `examples/clustercli.py` copies colorsFor and do_placement. The same members model each original and its copy, and the table cites whichever lines a member states.
- **The code overrides the docstrings.** For example, `Node.readline` is modelled as the code reads (see Findings), not as its docstring describes it.

## Model

| member | source | states |
|---|---|---|
| Addr.ParseInts | mininet/util.py:277-279 | the int() conversion of the '.'-fields yields one number per field or fails |
| Addr.ParseIntsSpec | mininet/util.py:277-279 | the conversion succeeds exactly when int() accepts every field, and then holds each field's value in order |
| Addr.IpParseDotted | mininet/util.py:277-280 | parsing the dotted text of four octets gives w·2^24 + x·2^16 + y·2^8 + z, as ipNum(*args) would |
| Addr.IpParseIpStr | mininet/util.py:250-280 | every 0 ≤ n < 2^32 survives ipStr then ipParse unchanged |
| Addr.IpStrShape | mininet/util.py:250-258 | ipStr prints exactly four '.'-separated decimal fields, each in 0..255 and without leading zeros |
| Addr.IpAddTopBits | mininet/util.py:265-275 | for prefix lengths up to 32, ipAdd's assert passes exactly when i ≤ 2^(32-p) − 1, and the address is the base's top p bits plus i |
| Addr.MaskIsTopBits | mininet/util.py:271-274 | the mask 0xffffffff ^ (0xffffffff >> p) keeps exactly the top p bits of a 32-bit base |
| Addr.IpAddLongPrefix | mininet/util.py:265-275 | a prefix length beyond 32 makes imax 0, so only i ≤ 0 passes the assert and the whole base is kept |
| Addr.IpAddOfNum | mininet/util.py:265-275 | ipAdd fails with the same error as its number, or returns ipStr of that number |
| Addr.IpAddParses | mininet/util.py:265-280 | the address ipAdd returns for an in-range, non-negative i parses back to the base's top bits plus i |
| Addr.NetParseUnbound | mininet/util.py:282-289 | as written, netParse of a text without '/' reads the unbound local ip (UnboundLocalError); the intended result is (address, 0) |
| Addr.NetParseRoundTrip | mininet/util.py:282-289 | netParse("a.b.c.d/p") gives the address and p, and a text without '/' gives the address and prefix length 0 |
| Addr.ColonHex | mininet/util.py:232-242 | the loop from bytecount − 1 down to 0 produces the '%02x' pieces, most significant byte first, joined by ':' |
| Addr.MacColonHex | mininet/util.py:244-248 | macColonHex is 17 characters long with a ':' at exactly every third position and no newline |
| Addr.MacRoundTrip | mininet/util.py:232-248 | reading the six hex groups back gives the MAC value modulo 2^48 |
| Addr.ColonPieceIsByte | mininet/util.py:238-240 | ((0xff << 8i) & val) >> 8i is the i-th byte of val |
| Bits.OrShiftAdd | mininet/util.py:260-263 | OR-ing a value below 2^k into a multiple of 2^k is addition, so ipNum of four octets is their weighted sum |
| Bits.AndLowOnes | mininet/util.py:254-257 | x & (2^n − 1) is x mod 2^n for every integer, including negative ones |
| Bits.XorOnes | mininet/util.py:273 | (2^n − 1) ^ (2^m − 1) clears the low m bits, which is ipAdd's mask |
| Bits.AndMask | mininet/util.py:274 | a & (2^n − 2^m) keeps exactly bits m..n−1 of a |
| Text.NatToDec | mininet/util.py:258 | "%i" of a non-negative number is a non-empty digit string without a leading zero, one character long exactly below 10 |
| Text.SplitJoin | mininet/util.py:278 | split on a separator that no part contains inverts join |
| Text.PyIntOfDec | mininet/util.py:279 | int() reads back the decimal text of every natural number |
| Util.TriesStop | mininet/util.py:166-168 | retry's loop stops at the first call that succeeds or once `retries` retries are spent, and every earlier call failed |
| Util.RetryAsWritten | mininet/util.py:160-172 | as written, retry calls fn tries + 1 times and exits(1) exactly when tries reached retries |
| Util.RetryGivesUpAfterSuccess | mininet/util.py:166-172 | with retries = 1, a failing first call and a succeeding second call still end in exit(1) as written |
| Util.Retry | mininet/util.py:160-172 | the intended retry calls fn the same number of times and gives up exactly when its last call failed |
| Util.RetryGivesUpIffAllFail | mininet/util.py:160-172 | the intended retry gives up iff all of its at most retries + 1 calls failed, and then it made exactly retries + 1 calls |
| Util.TakeNonDigits | mininet/util.py:420 | the leading run of non-digits is a prefix of the text, followed by a digit if anything follows |
| Util.TakeDigits | mininet/util.py:420 | the leading maximal digit run is a prefix of the text, followed by a non-digit if anything follows |
| Util.DigitSplit | mininet/util.py:420 | re.split(r'(\d+)', text) yields an odd number of pieces |
| Util.DigitSplitConcat | mininet/util.py:420 | gluing the pieces of re.split back together gives the text |
| Util.DigitSplitParts | mininet/util.py:420 | the even pieces hold no digit and the odd pieces are non-empty maximal digit runs |
| Util.Natural | mininet/util.py:415-420 | natural(text) has one key piece per piece of the split |
| Util.NaturalAlternates | mininet/util.py:415-420 | the key alternates text and numbers, starting and ending with text, each number being the value of its digit run |
| Util.NaturalDropsLeadingZeros | mininet/util.py:415-420 | natural("s007") is ['s', 7, ''], which prints back as "s7" rather than "s007" |
| Util.NaturalSeq | mininet/util.py:422-424 | naturalSeq(t) holds natural of each element, in order |
| Util.StrLessTotal | mininet/util.py:415 | Python 2 string comparison is a strict total order |
| Util.KeyLessTotal | mininet/util.py:415-420 | comparing natural keys (numbers before strings, then lists lexicographically) is a strict total order |
| Util.KeyLessTrans | mininet/util.py:415-420 | natural-key comparison is transitive |
| Util.InsertBy | mininet/topo.py:287-289 | one insertion step of sorted(): the result is the input with x added |
| Util.InsertBySorted | mininet/topo.py:287-289 | inserting into a key-sorted list keeps it sorted |
| Util.SortBy | mininet/topo.py:287-289 | sorted(key=...) keeps the length |
| Util.SortByCorrect | mininet/topo.py:287-289 | sorted(key=...) is ordered by the key and is a permutation of its input |
| Util.InsertByStable | mininet/topo.py:287-289 | inserting x places it after every element of equal key |
| Util.SortByStable | mininet/topo.py:287-289 | sorted() is stable: the elements with one key keep their input order |
| Util.NaturalSortCorrect | mininet/topo.py:287-289 | sorted(names, key=natural) is sorted in natural order and is a permutation of names |
| Util.PlainLess | mininet/topolib.py:116-117 | comparing strings through the one-piece key is Python 2 string order |
| Util.PlainSortStrict | mininet/topolib.py:116-117 | sorting a list without repeats in string order makes it strictly increasing, with the same elements |
| Util.SortedKeys | mininet/topolib.py:116-117 | sorted(d.keys()) holds each key once, in strictly increasing order |
| Util.StrictUnique | mininet/topolib.py:116-117 | a strictly increasing list is determined by its elements, so the sorted keys do not depend on dictionary order |
| Util.KeyList | mininet/topolib.py:116-117 | d.keys() lists each key exactly once, in some order |
| Util.SortedKeyList | mininet/topolib.py:116-117 | sorting d.keys() gives the same list whatever order the dictionary produced |
| Util.Enumerate | mininet/topolib.py:116-117 | a dictionary's iteration order holds each key once |
| Util.IRange | mininet/util.py:436-439 | irange(start, end) is start, start + 1, …, end, and is empty when end < start |
| Util.IRangeMembers | mininet/util.py:436-439 | x is in irange(start, end) exactly when start ≤ x ≤ end |
| Util.MakeNumeric | mininet/util.py:307-316 | makeNumeric gives an int exactly when int() accepts the text, else a float when float() does, else the text itself |
| Util.Positional | mininet/util.py:462 | there are never more positional arguments than fields |
| Util.SplitArgs | mininet/util.py:453-467 | splitArgs returns the first ','-field as the name, the fields without '=' as positional arguments in order, and the keyword dictionary of the rest |
| Util.KwargsStep | mininet/util.py:464-466 | one more field adds its key to kwargs iff it has an '=' |
| Util.KwargsDomain | mininet/util.py:464-466 | a key is in kwargs exactly when some field with '=' names it before its first '=' |
| Util.KwargsWitness | mininet/util.py:464-466 | every key of kwargs comes from a field that names it |
| Util.KwargsHas | mininet/util.py:464-466 | a field naming k puts k into kwargs |
| Util.KwargsLastWins | mininet/util.py:464-466 | the value under k comes from the last field naming k, split at its first '=' |
| Util.PositionalAppend | mininet/util.py:462 | positional extraction distributes over concatenation, so fields keep their order |
| Util.PositionalOne | mininet/util.py:462 | a single field is positional exactly when it has no '=' |
| Util.CustomConstructor | mininet/util.py:469-493 | an unknown constructor name raises "error: <name> is unknown - please specify one of <the names' list repr>"; otherwise the customized constructor holds that constructor and the parsed arguments |
| Util.CallCustomized | mininet/util.py:481-490 | the customized call lets the string's keyword arguments override the caller's, and its positional arguments, when there are any, replace the caller's |
| Util.BuildTopo | mininet/util.py:495-502 | an unknown topology name raises; otherwise its constructor is called with the parsed positional and keyword arguments |
| Util.IsShellBuiltinWord | mininet/util.py:122-129 | a command is a builtin exactly when the word before its first space occurs in the builtins text; a command without a space, or whose first space leads, is looked up whole |
| Graph.EntrySymmetric | mininet/topo.py:47-48 | edge[a][b] and edge[b][a] are one shared dictionary |
| Graph.Empty | mininet/topo.py:22-24 | the empty graph satisfies the sharing invariant |
| Graph.WithNode | mininet/topo.py:26-33 | add_node replaces that node's attributes, keeps every other node and the edges, and preserves the sharing invariant |
| Graph.NextKeyUnique | mininet/topo.py:49-52 | the next ordinal key of an entry is unique |
| Graph.MaxKeyExists | mininet/topo.py:51-52 | max([0] + integer keys) exists for every entry |
| Graph.NextKey | mininet/topo.py:49-52 | with no key given, the key is 1 + the largest integer key on the pair (0 when there is none) |
| Graph.FirstKeyIsOne | mininet/topo.py:49-52 | the first edge between two nodes gets key 1 |
| Graph.AddEdgeShared | mininet/topo.py:35-54 | after add_edge both directions share one entry, which is the old entry with key mapped to the attributes |
| Graph.AddEdgeNodes | mininet/topo.py:41-44 | add_edge adds missing endpoints with empty attributes and never overwrites an existing node's attributes |
| Graph.AddEdgeOthers | mininet/topo.py:35-54 | add_edge leaves the entries of every other pair unchanged |
| Graph.EdgeListedOnce | mininet/topo.py:61-78 | edges_iter lists each (pair, key) once, in the orientation src ≤ dst |
| Graph.EdgesAfterAddEdge | mininet/topo.py:35-78 | after add_edge the listed edges are the earlier ones plus exactly the new (pair, key) |
| Graph.EdgesAfterAddEdgeNew | mininet/topo.py:35-78 | no edge other than the new one appears in the listing after add_edge |
| Graph.EdgesAfterAddEdgeOld | mininet/topo.py:35-78 | every edge listed before add_edge is still listed after it, and so is the new one |
| Graph.EdgeKept | mininet/topo.py:35-78 | one edge listed before add_edge is still listed after it |
| Graph.MultiGraph.constructor | mininet/topo.py:22-24 | a new MultiGraph has no nodes and no edges |
| Graph.MultiGraph.AddNode | mininet/topo.py:26-33 | add_node updates the graph to WithNode of its old value |
| Graph.MultiGraph.AddEdge | mininet/topo.py:35-54 | add_edge returns the caller's key or the next ordinal, and updates the graph to WithEdge with that key |
| Graph.NextOrdinal | mininet/topo.py:50-52 | the scan over the entry's keys computes max([0] + integer keys) + 1 |
| Topo.OrDefault | mininet/topo.py:137-138 | `if not opts and default: opts = default` keeps non-empty options and replaces only empty ones |
| Topo.NodeAdded | mininet/topo.py:124-130 | addNode fails exactly when a keyword collides with a parameter (name, self, node: TypeError; attr_dict alone: AttributeError); otherwise the node gets exactly opts and nothing else changes |
| Topo.HostAdded | mininet/topo.py:132-139 | addHost gives the host the default host options when its own are empty, and its options otherwise |
| Topo.SwitchAdded | mininet/topo.py:141-149 | addSwitch gives the switch its options or the default switch options, with isSwitch=True added; the node is then a switch |
| Topo.NextPort | mininet/topo.py:227-233 | a node's default port is its number of ports plus 1 for a switch, and a node the graph lacks raises KeyError |
| Topo.SetDefaults | mininet/topo.py:224-226 | ports.setdefault for both ends adds the two rows when missing and keeps every existing row |
| Topo.Record | mininet/topo.py:234-235 | recording a port pair keeps the set of rows |
| Topo.PortAddedShape | mininet/topo.py:221-238 | addPort changes only the port map, always creates both rows, and fails exactly when a default port is needed for a node the graph lacks |
| Topo.PortDefaults | mininet/topo.py:227-233 | a missing port number becomes the node's port count, plus 1 on a switch |
| Topo.PortsRecorded | mininet/topo.py:221-238 | a successful addPort writes the two chosen ports into the defaulted rows |
| Topo.PortsSymmetric | mininet/topo.py:234-235 | after addPort, ports[src][sport] = (dst, dport) and ports[dst][dport] = (src, sport), and every other port entry is as before |
| Topo.RecordEffect | mininet/topo.py:234-235 | the two writes set exactly the two port entries and keep all the others |
| Topo.LinkAdded | mininet/topo.py:151-162 | addLink fails exactly when addPort does, changes the ports as addPort does, and returns the caller's key or the next ordinal |
| Topo.LinkAddedGraph | mininet/topo.py:151-162 | a successful addLink adds its edge, whose attributes name node1 and node2 in the order given |
| Topo.LinkOptsEnds | mininet/topo.py:160-161 | the link options record node1 first and node2 second |
| Topo.FreshKeyNotIn | mininet/topo.py:49-52 | a fresh ordinal key is none of the pair's existing keys |
| Topo.FreshKeyIsNew | mininet/topo.py:49-52 | a fresh ordinal key is not yet listed among the graph's edges |
| Topo.LinkAddedCounts | mininet/topo.py:151-162 | each addLink without a key adds exactly one edge to the listing |
| Topo.LinksAfterAddLink | mininet/topo.py:187-216 | after addLink, links() lists the new link once, with its ends in the order addLink was given them, whichever orientation edges_iter walks |
| Topo.LinksAfterEdge | mininet/topo.py:187-204 | an edge with a fresh key whose attributes name (a, b) adds (a, b, key) to links() |
| Topo.LinksFromEdges | mininet/topo.py:187-204 | one more edge triple naming (a, b, k), with the other edges keeping their attributes, adds (a, b, k) to links() |
| Topo.InfoKept | mininet/topo.py:53 | adding a key leaves the attributes of every existing edge as they were |
| Topo.PortOf | mininet/topo.py:240-253 | port(src, dst) raises KeyError for an unknown src; it answers the single (sport, dport) pair when exactly one port leads to dst, and otherwise the list of all such pairs |
| Topo.PortOfUnique | mininet/topo.py:240-253 | when exactly one port of src leads to dst, port() answers that pair |
| Topo.KeyBeforeOrder | mininet/topo.py:258-259 | Python 2 ordering of edge keys (numbers before strings) is a strict total order |
| Topo.MinKeyExists | mininet/topo.py:258-259 | min(entry) exists for every non-empty entry |
| Topo.MinKey | mininet/topo.py:258-259 | min(entry) is the lowest key of the entry |
| Topo.LinkInfo | mininet/topo.py:255-265 | linkInfo succeeds exactly when the pair exists and holds the given key (or any key when none is given), and returns that key's attributes or those of the lowest key |
| Topo.LinkInfoSymmetric | mininet/topo.py:255-265 | linkInfo reports the same attributes in both directions |
| Topo.LinkInfoOfFirstLink | mininet/topo.py:151-165 | after the first addLink between two nodes its key is 1, and linkInfo in either direction is the link options with both node names and ports |
| Topo.LinkInfoOfFirstEdge | mininet/topo.py:255-265 | the only edge of a pair is what linkInfo reports in both directions |
| Topo.OfKind | mininet/topo.py:175-185 | the filtered list holds exactly the listed nodes whose isSwitch truth value matches |
| Topo.OfKindSorted | mininet/topo.py:175-185 | filtering a sorted node list keeps it sorted |
| Topo.OfKindSplit | mininet/topo.py:175-185 | every node falls in exactly one of the two filters |
| Topo.NodesListed | mininet/topo.py:164-169 | nodes() lists every node exactly once, in natural order |
| Topo.HostsAndSwitches | mininet/topo.py:164-185 | hosts() and switches() partition nodes() by the isSwitch attribute, each in natural order |
| Topo.DistinctCount | mininet/topo.py:164-169 | a list holding each node once has as many entries as there are nodes |
| Topo.KindSetAdd | mininet/topo.py:124-149 | a new node joins the names of exactly its own kind |
| Topo.KindCounts | mininet/topo.py:175-185 | hosts() and switches() list each node of their kind once, so their lengths are the numbers of hosts and switches |
| Topo.LinkAddedSteps | mininet/topo.py:151-162 | addLink is addPort followed, when that succeeds, by add_edge with the link options |
| Topo.Topo.constructor | mininet/topo.py:105-118 | a new Topo has an empty graph, the given default options and no ports |
| Topo.Topo.AddNode | mininet/topo.py:124-130 | addNode returns the name and updates the state as NodeAdded says, or raises and changes nothing |
| Topo.Topo.AddHost | mininet/topo.py:132-139 | addHost updates the state as HostAdded says, or raises and changes nothing |
| Topo.Topo.AddSwitch | mininet/topo.py:141-149 | addSwitch updates the state as SwitchAdded says, or raises and changes nothing |
| Topo.Topo.AddPort | mininet/topo.py:221-238 | addPort updates the port map and answers as PortAdded says |
| Topo.Topo.AddLink | mininet/topo.py:151-162 | addLink updates the graph and the ports and answers as LinkAdded says |
| Topos.NameInjective | mininet/topo.py:301-303 | the names 'h%s' and 's%s' determine their numbers, and no host name is a switch name |
| Topos.HostNamesCount | mininet/topo.py:302-303 | h1 .. hn are n distinct names, none of them s1 |
| Topos.HostNamesStep | mininet/topo.py:302-303 | hn is the one new name among h1 .. hn |
| Topos.Attach | mininet/topo.py:303-304 | one round `host = addHost(name); addLink(host, switch, ...)` updates the Topo to Attached of its old state |
| Topos.SingleSwitchNext | mininet/topo.py:302-320 | round h attaches hh to s1, with port1=0 and port2=k−h+1 in the reversed topology |
| Topos.SingleSwitchBelowOne | mininet/topo.py:302 | for k < 1 the loop over irange(1, k) runs no round |
| Topos.HostedNew | mininet/topo.py:132-139 | addHost of a new name with no options gives it the default host options |
| Topos.LinkedNodes | mininet/topo.py:151-162 | addLink between two existing nodes succeeds, keeps the nodes, adds both port rows and exactly one edge |
| Topos.SwitchedNew | mininet/topo.py:141-149 | addSwitch of a name with no options gives it the default switch options plus isSwitch=True |
| Topos.AttachedGraph | mininet/topo.py:303-304 | adding a new host and linking it to an existing switch adds the host with the host options and exactly one edge |
| Topos.AttachedPorts | mininet/topo.py:303-320 | the new host gets port 0 towards the switch, and the switch gets the given port or its next one towards the host |
| Topos.NewHostPorts | mininet/topo.py:221-238 | addPort between a new host and a switch writes exactly the host's port-0 row and the switch's next entry |
| Topos.SwitchRowShape | mininet/topo.py:302-320 | after i hosts, s1 has i ports, numbered 1..i, or k−i+1..k in the reversed topology |
| Topos.NextHostIsNew | mininet/topo.py:302-303 | hi is none of s1, h1 .. h(i−1) |
| Topos.SingleSwitchRound | mininet/topo.py:302-320 | one round of the build keeps the graph and port shape, one host further |
| Topos.SingleSwitchFacts | mininet/topo.py:298-320 | after i rounds the Topo holds s1, h1 .. hi, i edges, and hj's port 0 faces port j (or k−j+1) of s1 |
| Topos.SwitchRowEntries | mininet/topo.py:302-320 | port SwitchPort(k, j) of s1 leads to port 0 of hj, and every port of s1 is one of those |
| Topos.SingleSwitchKinds | mininet/topo.py:298-320 | s1 is the only switch and h1 .. hi are the hosts |
| Topos.SingleSwitchCounts | mininet/topo.py:298-320 | switches() is ['s1'] and hosts() has i entries |
| Topos.SingleSwitchPortOf | mininet/topo.py:240-253 | port(hj, 's1') is (0, SwitchPort(k, j)) and port('s1', hj) is the reverse |
| Topos.SingleSwitchTopoShape | mininet/topo.py:295-320 | SingleSwitchTopo(k) and SingleSwitchReversedTopo(k) have k hosts, one switch and k links; hj's port 0 meets port j of s1, or port k−j+1 in the reversed topology |
| Topos.SingleSwitch | mininet/topo.py:298-304 | SingleSwitchTopo.build(k) performs addSwitch('s1') and k rounds of addHost/addLink |
| Topos.SingleSwitchReversed | mininet/topo.py:313-320 | SingleSwitchReversedTopo.build(k) performs the same calls with port1=0, port2=k−h+1 |
| Topos.IndexOfSep | mininet/topo.py:341 | the first separator of a + [sep] + b is the one after a, when a has none |
| Topos.TwoPartInjective | mininet/topo.py:341 | 'h%ss%d' % (j, i) determines both j and i |
| Topos.LinearNameInjective | mininet/topo.py:338-341 | LinearTopo's host names are pairwise distinct and never equal a switch name |
| Topos.LinearStart | mininet/topo.py:332-344 | before the first switch the line has no nodes and no links |
| Topos.SwitchNameIsNew | mininet/topo.py:345-347 | no earlier node of the line is named si |
| Topos.HostNameIsNew | mininet/topo.py:348-349 | no earlier node is named like host j of switch i |
| Topos.NodesAddSwitch | mininet/topo.py:347 | switch si is new and joins the nodes |
| Topos.NodesAddHost | mininet/topo.py:349 | host j of switch i is new and joins the nodes |
| Topos.LinearSwitchStep | mininet/topo.py:347 | addSwitch('s%s' % i) after i−1 complete switches adds one switch and no link |
| Topos.SwitchKindsAdd | mininet/topo.py:141-149 | a new switch node adds one switch and no host |
| Topos.HostKindsAdd | mininet/topo.py:132-139 | a new host node adds one host and no switch |
| Topos.LinearHostStep | mininet/topo.py:348-350 | host j of switch i and its link add one host and one link |
| Topos.LinearLinkStep | mininet/topo.py:352-353 | addLink(switch, lastSwitch) adds one link |
| Topos.LinearCountsStep | mininet/topo.py:345-354 | each complete switch adds n hosts, and n + 1 links after the first switch |
| Topos.LinearRoundFacts | mininet/topo.py:348-350 | switch i with its first j hosts keeps the line's shape with j more hosts and links |
| Topos.LinearFacts | mininet/topo.py:332-354 | after i switches the line has i switches, i·n hosts and i·n + i − 1 links (0 for i = 0) |
| Topos.LinearTopoShape | mininet/topo.py:329-354 | LinearTopo(k, n) has k switches, k·n hosts and k·n + k − 1 links |
| Topos.LinearSwitchNext | mininet/topo.py:345-347 | round i begins with addSwitch('s%s' % i) |
| Topos.LinearHostNext | mininet/topo.py:348-350 | the j-th inner round attaches host j of switch i |
| Topos.LinearLinkNext | mininet/topo.py:351-354 | after its hosts, switch i > 1 is linked to switch i−1 |
| Topos.LinearSwitch | mininet/topo.py:345-354 | one outer round adds switch si, its n hosts and their links, and returns 's%s' % i |
| Topos.Linear | mininet/topo.py:332-354 | LinearTopo.build(k, n) performs exactly the calls of k outer rounds |
| TopoLib.RunOne | mininet/topolib.py:18-31 | running one call of addTree is applying it |
| TopoLib.RunAppend | mininet/topolib.py:18-31 | running a + b runs a and then b from where a left off, unless a raised |
| TopoLib.RunErrPrefix | mininet/topolib.py:18-31 | an exception raised by a prefix of the calls is the exception of all of them |
| TopoLib.LinkCountAppend | mininet/topolib.py:27 | the number of addLink calls adds up over concatenation |
| TopoLib.ChildPlansPrefix | mininet/topolib.py:25-27 | the calls of an earlier round of the fanout loop begin those of every later one |
| TopoLib.TimesMul | mininet/topolib.py:25 | fanout copies of a subtree count fanout times its size |
| TopoLib.TreeHostsPower | mininet/topolib.py:18-31 | a tree of depth d ≥ 0 has fanout^d hosts |
| TopoLib.TreeSwitchesSum | mininet/topolib.py:18-31 | a tree of depth d ≥ 0 has 1 + fanout + … + fanout^(d−1) switches |
| TopoLib.GeomSumShift | mininet/topolib.py:22-27 | 1 + f + … + f^(d−1) is 1 + f · (1 + f + … + f^(d−2)), the root plus its subtrees |
| TopoLib.NamesOutside | mininet/topolib.py:23-30 | a name with a number above n is not among the first n, and host and switch names never meet |
| TopoLib.NameSetsCount | mininet/topolib.py:23-30 | h1 .. hn and s1 .. sn are n names each |
| TopoLib.NameSetsApart | mininet/topolib.py:23-30 | no host name is a switch name |
| TopoLib.CountersAppend | mininet/topolib.py:18-31 | tracking the counters over a + b tracks a and then b |
| TopoLib.TreePlanFits | mininet/topolib.py:18-31 | addTree's calls name the next free switch and host in turn, link only nodes already added, advance hostNum by the tree's hosts and switchNum by its switches, link every node but the root, and add the root |
| TopoLib.ChildPlansFit | mininet/topolib.py:25-27 | the first i rounds of the fanout loop each add one subtree and one link from the switch to its root |
| TopoLib.ChildRound | mininet/topolib.py:26-27 | one more round, a subtree and its link, keeps the loop's counting facts |
| TopoLib.ChildNumbering | mininet/topolib.py:13-30 | child i (from 0) starts at host h + i·hosts and switch s + 1 + i·switches of a subtree: hosts are numbered left to right and switches in pre-order |
| TopoLib.SwitchCallGrows | mininet/topolib.py:23-24 | addSwitch('s%s' % switchNum) succeeds and adds the next switch |
| TopoLib.HostCallGrows | mininet/topolib.py:29-30 | addHost('h%s' % hostNum) succeeds and adds the next host |
| TopoLib.LinkCallGrows | mininet/topolib.py:27 | addLink between two nodes already added succeeds and adds one edge |
| TopoLib.CallGrows | mininet/topolib.py:18-31 | one call that fits the counters raises nothing and keeps the topology's shape |
| TopoLib.RunGrows | mininet/topolib.py:18-31 | calls that fit the counters raise nothing, and add one edge per addLink |
| TopoLib.GrownShape | mininet/topolib.py:13-30 | the topology lists h1 .. h(h−1) as its hosts and s1 .. s(s−1) as its switches |
| TopoLib.TreeRunGrown | mininet/topolib.py:10-31 | TreeTopo(depth, fanout) raises nothing and leaves the hosts, switches and links its counters name |
| TopoLib.TreeTopoShape | mininet/topolib.py:7-31 | TreeTopo(depth, fanout) has fanout^depth hosts h1 .. hN, 1 + fanout + … + fanout^(depth−1) switches s1 .. sM, and links = nodes − 1 |
| TopoLib.TreeDepthZero | mininet/topolib.py:21-30 | depth 0 gives the single host h1, no switch and no link |
| TopoLib.TreeSwitchRun | mininet/topolib.py:22-24 | above depth 0 addTree starts with addSwitch, whose exception would be the tree's |
| TopoLib.RoundCalls | mininet/topolib.py:25-27 | round i + 1 of the loop extends round i by one subtree and its link |
| TopoLib.RoundRun | mininet/topolib.py:25-27 | a round either raises the tree's exception or leads into the next round |
| TopoLib.ThenLink | mininet/topolib.py:26-27 | a subtree followed by its link: an exception from either ends the run |
| TopoLib.TreeSplit | mininet/topolib.py:21-27 | above depth 0 the tree is its switch followed by all fanout rounds |
| TopoLib.TreeHostRun | mininet/topolib.py:28-30 | at depth 0 or below addTree is one addHost of the next host |
| TopoLib.TreeTopo.constructor | mininet/topolib.py:10-16 | TreeTopo starts from a Topo without default options, counters at 1, and ends in the state addTree's calls leave |
| TopoLib.TreeTopo.AddTree | mininet/topolib.py:18-31 | addTree performs TreePlan's calls in order, re-raises the first exception, and otherwise returns the root's name and advances both counters |
| TopoLib.TreeTopo.AddSwitchTree | mininet/topolib.py:22-27 | above depth 0 addTree adds switch s(switchNum) and its fanout subtrees and returns the switch's name |
| TopoLib.TreeTopo.AddRounds | mininet/topolib.py:25-27 | the fanout loop performs every round's calls or ends with the tree's exception |
| TopoLib.TreeTopo.AddRound | mininet/topolib.py:25-27 | one round of the loop performs its subtree and link, or ends with the tree's exception |
| TopoLib.TreeTopo.AddChild | mininet/topolib.py:26-27 | a subtree followed by the link from node to its root |
| TopoLib.PortKw | mininet/topo.py:151-152 | a port1 or port2 keyword argument holding a number is the port addLink receives; without the keyword it receives None |
| TopoLib.KeyKw | mininet/topo.py:151-152 | a key keyword argument is the edge key addLink receives; without it, None |
| TopoLib.Linked | mininet/topo.py:151-162 | addLink(a, b, **opts) raises TypeError when opts names self, node1 or node2, and otherwise succeeds exactly when addPort does for the ports the keywords give |
| TopoLib.LinkedPlain | mininet/topolib.py:27 | addLink(a, b) with no keywords is addLink with no ports, no key and no options |
| TopoLib.LinkedBinds | mininet/topo.py:151-162 | a successful addLink(a, b, **opts) puts b on a's port and a on b's port, the ports given by port1 and port2 when they are numbers, and adds the edge under the key keyword's key with the remaining keywords as its options |
| CsvTopo.PutBoth | mininet/topolib.py:106-113 | storing a row under both endpoints adds exactly the two ordered pairs, each holding the row |
| CsvTopo.LoadLinksSymmetric | mininet/topolib.py:96-114 | the loaded links dictionary is symmetric: each endpoint sees the other with the same row |
| CsvTopo.LoadLinksJoined | mininet/topolib.py:96-114 | y is a neighbour of x exactly when some row of links.csv joins them, in either column order |
| CsvTopo.PairCalls | mininet/topolib.py:130-135 | the inner loop adds only links from node_a to a later neighbour, with that pair's row |
| CsvTopo.NodeStep | mininet/topolib.py:118-126 | one more name extends the node loop by the switch or host call, or by the KeyError its missing entry raises |
| CsvTopo.NodeCallsOk | mininet/topolib.py:118-126 | the node loop raises nothing exactly when every name has a links entry, a nodes entry and a 'name' column, and then makes one call per name in order |
| CsvTopo.NodeCallsStop | mininet/topolib.py:118-126 | when the node loop raises, it raises KeyError at the first name that is not ready, after the calls for the names before it |
| CsvTopo.NodeStopKeeps | mininet/topolib.py:118-126 | once the node loop has raised, later names change nothing |
| CsvTopo.NodeCallsPrefix | mininet/topolib.py:118-126 | the calls of a shorter node loop begin those of a longer one |
| CsvTopo.PairCallsHave | mininet/topolib.py:130-135 | the inner loop adds a link to every neighbour after node_a |
| CsvTopo.OrderedJoin | mininet/topolib.py:129-135 | two ordered runs of links, all of the first before all of the second, make one ordered run |
| CsvTopo.PairCallsOrdered | mininet/topolib.py:130-135 | along the sorted neighbours, the inner loop's links are in increasing order |
| CsvTopo.LinkStep | mininet/topolib.py:129-135 | one more name extends the outer link loop by its inner loop over the sorted neighbours |
| CsvTopo.LinksRaise | mininet/topolib.py:129-135 | an exception in the first k rounds of the outer loop is the exception of the whole loop |
| CsvTopo.LinkCallsHave | mininet/topolib.py:129-135 | the link loop adds a link from a to b with their row exactly when a is a node name and b a neighbour of a after it in string order |
| CsvTopo.LinkCallsOrdered | mininet/topolib.py:129-135 | along the sorted names, the links are added in increasing (node_a, node_b) order |
| CsvTopo.LinksBeforePairs | mininet/topolib.py:129-135 | every link of earlier names comes before the links of a later name |
| CsvTopo.LinkCallsPrefix | mininet/topolib.py:129-135 | the calls of a shorter outer loop begin those of a longer one |
| CsvTopo.PairCallsPrefix | mininet/topolib.py:131-135 | the calls of a shorter inner loop begin those of a longer one |
| CsvTopo.CsvNodes | mininet/topolib.py:116-126 | a build that raises nothing adds every node in string order, as a switch exactly when it has more than one neighbour, with its row less 'name'; every later call is a link |
| CsvTopo.NodesBefore | mininet/topolib.py:116-126 | the node calls keep their places at the front of the build |
| CsvTopo.LinksAfter | mininet/topolib.py:128-135 | everything after the node calls is a link |
| CsvTopo.LinkCallsAreLinks | mininet/topolib.py:128-135 | every call of the link phase is an addLink |
| CsvTopo.CsvLinkAdded | mininet/topolib.py:128-135 | a build that raises nothing links a to each neighbour after it that is a node, with their row |
| CsvTopo.PairsDiffer | mininet/topolib.py:133-134 | two ordered pairs, each with its smaller name first, join different node pairs |
| CsvTopo.OrderedOnce | mininet/topolib.py:128-135 | ordered links, each from its smaller name, join different pairs, and node calls before them add none |
| CsvTopo.NodeCallsNoLink | mininet/topolib.py:118-126 | the node loop makes no link |
| CsvTopo.CsvLinksOnce | mininet/topolib.py:128-135 | a build that raises nothing adds each unordered link once, from its alphabetically smaller endpoint |
| CsvTopo.ReadLinks | mininet/topolib.py:96-114 | the loading loop fills the links dictionary as LoadLinks says |
| CsvTopo.CsvTopo.constructor | mininet/topolib.py:73-135 | CsvTopo(**opts) leaves the topology the build step produces from the two files' rows, each links.csv row passed to addLink as keyword arguments, or records the exception it raises |
| CsvTopo.CsvTopo.AddAll | mininet/topolib.py:116-135 | the build step adds the nodes in sorted order and then the links, re-raising the first exception |
| CsvTopo.CsvTopo.AddNodes | mininet/topolib.py:118-126 | the node loop performs addSwitch or addHost per name, or stops with the KeyError or the call's exception |
| CsvTopo.CsvTopo.AddNode | mininet/topolib.py:123-126 | addSwitch or addHost for one node |
| CsvTopo.CsvTopo.AddLinks | mininet/topolib.py:129-135 | the outer link loop performs every link call, or stops at the first exception |
| CsvTopo.CsvTopo.AddNeighbours | mininet/topolib.py:130-135 | one outer round performs the links from node_a to its sorted neighbours |
| CsvTopo.CsvTopo.AddPairs | mininet/topolib.py:131-135 | the inner loop performs the links from node_a to each later neighbour |
| CsvTopo.CsvTopo.AddPair | mininet/topolib.py:132-135 | one inner round calls addLink(node_a, node_b, **row) exactly when node_a < node_b: the row's port1, port2 and key columns bind addLink's own parameters, a node1, node2 or self column raises TypeError |
| CsvTopo.PortColumnBinds | mininet/topolib.py:133-135 | a links.csv row {name_a: h1, name_b: s1, port1: 3} links h1 to s1 on h1's port 3 |
| CsvTopo.PairStep | mininet/topolib.py:132-135 | one more neighbour adds its link exactly when it comes after node_a |
| CsvTopo.PairsRaise | mininet/topolib.py:131-135 | an exception in the first k rounds of the inner loop is the exception of the whole inner loop |
| CsvTopo.CsvNodesRaise | mininet/topolib.py:116-135 | the build raises what the node loop raises, and the link loop does not run |
| Placement.Repeat | mininet/cluster/placer.py:96 | binsizes[server] * [server] is that many copies of the server |
| Placement.DistinctCount | mininet/cluster/placer.py:90 | in a list without repeats every server occurs once |
| Placement.Bumped | mininet/cluster/placer.py:93-94 | the remainder loop keeps the set of servers with a bin size |
| Placement.BumpedAt | mininet/cluster/placer.py:93-94 | each server's bin size grows by the number of times it occurs in servers[0:remainder] |
| Placement.BinSizes | mininet/cluster/placer.py:89-94 | binsizes has an entry for exactly the servers |
| Placement.TicketsLength | mininet/cluster/placer.py:96-97 | the ticket list is as long as the bin sizes add up to |
| Placement.TicketAt | mininet/cluster/placer.py:96-97 | the tickets hold each server's run, in server order |
| Placement.RunOf | mininet/cluster/placer.py:96-97 | every ticket falls in the run of exactly one server |
| Placement.BinStartSucc | mininet/cluster/placer.py:89-94 | server j's run is quotient long, plus one for the first remainder servers |
| Placement.BinStartClosed | mininet/cluster/placer.py:89-94 | server j's run starts after j·quotient + min(j, remainder) tickets |
| Placement.BinStartAll | mininet/cluster/placer.py:86-94 | the runs together cover exactly the nodes |
| Placement.StartIsBinStart | mininet/cluster/placer.py:89-97 | where each run starts in the ticket list follows from the bin sizes |
| Placement.BinSizesAt | mininet/cluster/placer.py:89-94 | with distinct servers, server j's bin holds quotient nodes, plus one when j < remainder |
| Placement.ZipFirstKeys | mininet/cluster/placer.py:99 | zipping nodes with tickets maps exactly the zipped nodes |
| Placement.ZipFirstAt | mininet/cluster/placer.py:99 | with distinct nodes, node i gets ticket i |
| Placement.Remainder | mininet/cluster/placer.py:92 | nlen % slen is below the number of servers |
| Placement.Bin | mininet/cluster/placer.py:82-99 | bin raises ZeroDivisionError exactly when there are no servers |
| Placement.BinTickets | examples/cluster.py:640-648 | with distinct servers there is exactly one ticket per node, server k's run being quotient long plus one for k < remainder |
| Placement.BinKeys | mininet/cluster/placer.py:82-99 | with distinct servers bin places every node and nothing else |
| Placement.BinPlaces | examples/cluster.py:633-650 | node i goes to server j exactly when i falls in server j's run, which is quotient or quotient + 1 long, the extras on the first remainder servers, the runs filling servers contiguously and covering all nodes |
| Placement.SwitchForKeys | mininet/cluster/placer.py:107-112 | switchFor maps exactly the hosts with a link to a switch, each to a switch |
| Placement.SwitchForLast | mininet/cluster/placer.py:107-112 | a host is mapped to the switch at the other end of its last link in links order |
| Placement.PlaceHostsStep | mininet/cluster/placer.py:118-126 | one more host is skipped when placed, co-located with its switch when it has one, and otherwise raises "cannot place isolated host" |
| Placement.PlaceHostsOk | mininet/cluster/placer.py:118-126 | the host loop succeeds exactly when every host is placed already or has a switch, keeps the earlier placement and puts each new host on its switch's server |
| Placement.PlaceHostsErr | examples/cluster.py:669-677 | when the host loop raises, it raises for the first host that is neither placed nor linked to a switch |
| Placement.PlacementBins | mininet/cluster/placer.py:113-116 | with distinct servers the two bins succeed and together place exactly the switches and controllers |
| Placement.PlacementFails | mininet/cluster/placer.py:101-127 | calculatePlacement succeeds exactly when every host is a switch or controller or is linked to a switch, and otherwise raises for the first host that is none of these |
| Placement.PlacementPlaces | examples/cluster.py:652-678 | a successful placement places switches by bin, then controllers by bin over them, and each other host on the server of the switch of its last link |
| Placement.SwitchForIsLastLink | mininet/cluster/placer.py:104-112 | every host in switchFor is linked to the switch of its last link |
| Placement.ComputeSwitchFor | mininet/cluster/placer.py:107-112 | the loop over links builds switchFor |
| Placement.PlaceHostsPrefixErr | mininet/cluster/placer.py:118-126 | an exception for an early host is the exception of the whole host loop |
| Placement.PlaceHostsLoop | mininet/cluster/placer.py:118-126 | the host loop computes PlaceHosts |
| Placement.CalculatePlacement | mininet/cluster/placer.py:101-127 | calculatePlacement, step by step, computes Placement |
| Placement.ServerAt | examples/cluster.py:712-722 | servdict[idx] succeeds exactly for an index below the number of servers, and is that server |
| Placement.PlaceRun | mininet/cluster/placer.py:32-172 | place() for each name in turn, stopping at the first exception, answers one server per name |
| Placement.PlaceRunStep | mininet/cluster/placer.py:32-172 | one more name runs one more place() on the counters the earlier calls left |
| Placement.LocalPlace | examples/cluster.py:583-587 | the base Placer answers 'localhost' and changes nothing |
| Placement.RandomPlace | mininet/cluster/placer.py:41-46 | RandomPlacer answers a member of servers; an empty node name fails the assert, and no servers raise ValueError |
| Placement.RoundRobinCycles | mininet/cluster/placer.py:54-65 | the k-th RoundRobinPlacer.place call (from 0) answers servers[k mod len(servers)], and next ends at the number of calls mod len(servers) |
| Placement.ModSucc | mininet/cluster/placer.py:64 | (next + 1) % len keeps next equal to the call count mod len |
| Placement.HostSwitchBinRun | mininet/cluster/placer.py:156-172 | HostSwitchBinPlacer sends the i-th node of a kind to servers[i div bin] and unknown names to servers[0]; it fails exactly when an index reaches len(servers), and counts each kind it placed |
| Placement.PlacerSetup | mininet/cluster/placer.py:14-154 | a placer that is built keeps its kind and its servers and has every bin at least 1 |
| Placement.SetupPlacer | mininet/cluster/placer.py:72-154 | the constructors' work computes PlacerSetup, including calculatePlacement's exception and the ZeroDivisionError of an empty server list |
| Placement.Placer.constructor | mininet/cluster/placer.py:14-30 | a new placer stores its arguments and the node sets, starts its counters at 0, and records the exception its setup raises |
| Placement.Placer.Place | examples/cluster.py:583-723 | place(node) answers and moves the counters exactly as PlaceOne says, for each of the five placer kinds |
| Placement.AtLeastOne | mininet/cluster/placer.py:145-147 | max(x, 1) is at least 1 and equals x when x ≥ 1 |
| Cluster.SetDefault | mininet/cluster/net.py:203-211 | the key is present afterwards and the value returned is its entry; an existing entry is left alone, a missing key gets the default |
| Cluster.SetDefaultGrows | mininet/cluster/net.py:203-211 | setdefault keeps every existing entry and adds no key but its own |
| Cluster.ServerList | examples/cluster.py:752-753 | no servers given means `['localhost']`; otherwise one entry per given server, a None or empty name replaced by `localhost`, every entry non-empty |
| Cluster.ServerListStable | mininet/cluster/net.py:121-122 | normalising an already normalised server list changes nothing |
| Cluster.ServerIPs | examples/cluster.py:755-758 | a non-empty serverIP dict is kept as given; otherwise the dict has exactly the servers as keys, each mapped to its looked-up address |
| Cluster.MininetCluster.constructor | mininet/cluster/net.py:111-137 | the servers and serverIP are the normalised ones, placement defaults to SwitchBinPlacer, tunnelling to `ssh`, the link class to a `link=` keyword passed on to Mininet and otherwise to RemoteLink; no connections and no links yet |
| Cluster.PlaceAll | mininet/cluster/net.py:198-211 | the loop over nodes keeps the set of nodes with info dicts unchanged |
| Cluster.SpecCases | mininet/cluster/net.py:189-198 | with servers and a topology, a placer whose set-up raises ends placeNodes with that exception and untouched dicts; otherwise placeNodes is the loop over the topology's nodes from zeroed counters |
| Cluster.NodeAfterRules | mininet/cluster/net.py:199-211 | after one node: its `server` is the existing one (None becoming `localhost`) or the placer's answer; a KeyError exactly when that server is truthy and has no address; otherwise `serverIP` is added only for a truthy server and only when missing, `controlPath` is never overwritten, every other key is kept and no other key is added |
| Cluster.PlaceAllStep | mininet/cluster/net.py:198-211 | the loop over n+1 nodes is the loop over n nodes followed by one more iteration, unless an earlier node raised |
| Cluster.PlaceAllFrame | mininet/cluster/net.py:198-211 | nodes the loop does not visit keep their info dicts |
| Cluster.PlaceAllCorrect | mininet/cluster/net.py:186-211 | over distinct nodes, placeNodes raises nothing exactly when the placer places every node and no chosen server lacks an address; then each node's dict is the one-node update with the placer's answer and the placer's counters are those of its own run |
| Cluster.ExtendOk | mininet/cluster/net.py:198-211 | the correctness statement extends by one node after a prefix that raised nothing |
| Cluster.ExtendErr | mininet/cluster/net.py:198-211 | the correctness statement extends by one node after a prefix that raised |
| Cluster.LastNode | mininet/cluster/net.py:199-211 | one more iteration raises nothing exactly when the placer answers and the server has an address; then only that node's dict changes and the counters advance as the placer's do |
| Cluster.PlaceAllKeep | mininet/cluster/net.py:198-211 | once a prefix has raised, one more node changes nothing |
| Cluster.PlaceAllStop | mininet/cluster/net.py:198-211 | an exception at iteration k is the result of the whole loop |
| Cluster.PlaceAllPrefix | mininet/cluster/net.py:198 | the loop's preconditions hold of every prefix of the node list |
| Cluster.MininetCluster.PlaceNodes | mininet/cluster/net.py:186-211 | the node dicts and the exception afterwards are those of the placeNodes specification; servers, connections and links are untouched |
| Cluster.MininetCluster.RunLoop | examples/cluster.py:830-841 | the loop over the topology's nodes leaves the dicts and the exception of the loop function over them |
| Cluster.MininetCluster.Advance | mininet/cluster/net.py:198-211 | one iteration keeps the loop invariant, or ends with the loop function's exception and dicts for the prefix so far |
| Cluster.MininetCluster.PlaceOneNode | mininet/cluster/net.py:199-211 | one iteration's dicts, exception and placer counters are those of the one-node function |
| Cluster.MininetCluster.ConfigureNode | mininet/cluster/net.py:203-211 | the node's new dict and exception are those of the configuration function |
| Cluster.Resolve | mininet/cluster/net.py:241-242 | an object passes through; a name resolves to itself when the network has it and raises KeyError of that name otherwise |
| Cluster.LinkOptionsKeep | mininet/cluster/net.py:243-252 | every link parameter passes through unchanged, and only port1, port2, addr1, addr2 and tunneling can be added |
| Cluster.LinkOptionsPorts | mininet/cluster/net.py:245-248 | a port option exists exactly when it was a parameter or was given, and a given port fills a missing option |
| Cluster.LinkOptionsDefaults | mininet/cluster/net.py:249-252 | both addresses and the tunnelling mechanism are always present, the fresh MACs and the network's tunnelling filling missing ones |
| Cluster.NewLinkRules | mininet/cluster/net.py:230-256 | addLink fails exactly when an end's name is unknown (the first such end's KeyError); otherwise the link joins the two resolved ends with the given class or the network's default |
| Cluster.MininetCluster.AddLink | mininet/cluster/net.py:230-256 | the result is the link specification's, appended to the links exactly when it succeeds; the rest of the network is untouched |
| ClusterCli.Repeated | mininet/cluster/cli.py:23 | `colors * reps` has reps times the palette's length |
| ClusterCli.RepeatedAt | mininet/cluster/cli.py:23 | entry i of the repeated list is entry i mod the palette length |
| ClusterCli.ColorsForAsWrittenShape | mininet/cluster/cli.py:18-25 | colorsFor as written returns min(n, 10·max(1, n div 10)) colours, colour i being palette entry i mod 10 |
| ClusterCli.ColorsForAsWrittenSmall | examples/clustercli.py:17-24 | for at most ten items the result is exactly the first n palette entries |
| ClusterCli.ColorsForAsWrittenMultiple | mininet/cluster/cli.py:22-25 | for a positive multiple of ten items there is one colour per item |
| ClusterCli.ColorsForAsWrittenShort | examples/clustercli.py:20-24 | fifteen servers get only ten colours |
| ClusterCli.ColorsForShape | mininet/cluster/cli.py:21-25 | the intended colorsFor gives every item a colour, colour i being palette entry i mod 10 |
| ClusterCli.ColorsForAgree | mininet/cluster/cli.py:21-25 | the written colour list is a prefix of the intended one, and the two agree for up to ten items and for multiples of ten |
| ClusterCli.NamesOn | mininet/cluster/cli.py:98-99 | the names collected for a server are at most as many as the nodes |
| ClusterCli.NamesOnExactly | examples/clustercli.py:66-67 | a name is listed for a server exactly when some node of that name has that server; a node with no server attribute is never listed |
| ClusterCli.NamesOnAppend | mininet/cluster/cli.py:96-99 | collecting over hosts + switches + controllers is collecting over each part in turn |
| ClusterCli.PlacementReport | examples/clustercli.py:61-68 | one output line per server |
| ClusterCli.PlacementReportLine | mininet/cluster/cli.py:93-100 | line k is `server: names`, the names after the colon splitting back into exactly the nodes on that server in host, switch, controller order (nothing after the colon when there are none) |
| Doxify.WordRun | util/doxify.py:26 | the run taken is the longest prefix of `\w` characters |
| Doxify.SpaceRun | util/doxify.py:14 | the run taken is the longest prefix of `\s` characters |
| Doxify.ParamSubNoColon | util/doxify.py:26 | a text without `:` has nothing for `(\w+):` to rewrite |
| Doxify.ParamSubWord | util/doxify.py:26 | a word followed by `:` becomes `@param word` |
| Doxify.ParamSubOther | util/doxify.py:26 | a character outside `\w` is copied |
| Doxify.ParamWordColon | util/doxify.py:24-28 | a word, a colon and a colon-free rest become `@param word` then the rest |
| Doxify.WordRunIs | util/doxify.py:26 | a maximal run of `\w` characters is what the word scan takes |
| Doxify.SpaceRunIs | util/doxify.py:36 | a maximal run of whitespace is what `spaces.match` takes |
| Doxify.FoldSnoc | util/doxify.py:73-75 | feeding one more line appends its rewrite and carries its comment flag on |
| Doxify.FoldPrefixNext | util/doxify.py:74-75 | rewriting line i extends what was written for the lines before it |
| Doxify.Doxifier.constructor | util/doxify.py:22 | the comment flag starts clear |
| Doxify.Doxifier.FixLine | util/doxify.py:34-50 | fixLine returns the rewritten line and leaves the comment flag as the line-rewriting function says for the flag it found |
| Doxify.Doxifier.FixLines | util/doxify.py:73-75 | the lines written are the rewrites of the input lines in order, and the flag is the one after the last line |
| Doxify.UnindentedUnchanged | util/doxify.py:36-38 | a line that does not start with whitespace is written unchanged and leaves the flag alone |
| Doxify.InComment | util/doxify.py:43-49 | an indented line inside a docstring, or opening one, is rewritten by fixReturns then fixParam, and the flag stays set exactly when the result does not end in `"""` |
| Doxify.DocstringRewritten | util/doxify.py:41-50 | a whole docstring, from its opening to its closing `"""` line, comes out line by line rewritten, with the flag clear afterwards |
| Doxify.EndsAtLast | util/doxify.py:48-49 | a flag that only the last line clears is still set after every earlier one |
| Doxify.FoldInside | util/doxify.py:73-75 | lines each rewritten by the same function, the flag set until the last, come out rewritten with the flag clear |
| Doxify.TripleRoundTrip | util/doxify.py:42 | tripling every `"` is undone by collapsing every `"""` |
| Doxify.NoQuoteShort | util/doxify.py:42 | a text shorter than two characters after tripling held no quote |
| Doxify.SingleLineTest | util/doxify.py:55 | `fixLine(' "foo"')` is `' """foo"""'` and leaves the flag alone |
| Doxify.FixParamTest | util/doxify.py:56 | `fixParam('foo: bar')` is `'@param foo bar'` |
| Doxify.CommentStartTest | util/doxify.py:57 | `commentStartExp` matches `'   """foo"""'` |
| Doxify.ReturnsFirst | util/doxify.py:45-47 | inside a docstring `returns:` becomes `@returns`, because fixReturns runs before fixParam, which alone would have made it the parameter `returns` |
| Doxify.ReturnsReplaced | util/doxify.py:30-32 | fixReturns turns `returns:` into `@returns` |
| Doxify.ReturnsKept | util/doxify.py:24-28 | fixParam leaves `@returns` and a colon-free rest alone |
| Doxify.ReturnsAsParam | util/doxify.py:26 | `(\w+):` alone reads `returns:` as a parameter |
| Doxify.NoInfixAt | util/doxify.py:27 | a text whose only `@` sits too early to end `   @` has nothing to replace |
| Doxify.LastAbsent | util/doxify.py:27 | a text without the pattern's last character has nothing to replace |
| Doxify.QuoteCons | util/doxify.py:42 | tripling quotes works one character at a time |
| Legacy.CommandText | mininet.py:148-153 | the text sendCmd writes fails exactly for an empty command (indexing its last element raises) and otherwise ends with the echo of the sentinel |
| Legacy.CommandLineKept | mininet.py:148-153 | a string command is written whole, a trailing `&` becoming the separator and `;` added otherwise, before the sentinel echo |
| Legacy.CommandWordsJoined | mininet.py:148-153 | a word-list command is joined with spaces, then `;` and the sentinel echo |
| Legacy.WaitTextStep | mininet.py:174-180 | one chunk of waitOutput's loop: a chunk ending in chr(127) ends the output without it, any other chunk is added whole |
| Legacy.WaitTextFirst | mininet.py:168-182 | a finished wait stops at the first chunk ending in the sentinel, and its output plus that sentinel is everything read up to there |
| Legacy.WaitTextNone | mininet.py:174-180 | waitOutput is still reading exactly when no chunk has ended in the sentinel |
| Legacy.Node.constructor | mininet.py:117-137 | a node starts with its name, namespace flag and shell pid, no interfaces, addresses or connections, and not waiting |
| Legacy.Node.NewIntf | mininet.py:196-201 | newIntf returns `name-eth<count>`, moves the count on by one, appends the name to the interfaces and changes nothing else |
| Legacy.Node.SendCmd | mininet.py:144-154 | sendCmd while waiting fails its assertion; an empty command raises; otherwise the command text is written and the node waits; nothing else changes |
| Legacy.Node.Monitor | mininet.py:155-164 | monitor while not waiting fails its assertion; otherwise it reports done exactly when the chunk ends in the sentinel, returning the chunk without it, and stops waiting then |
| Legacy.Node.WaitOutput | mininet.py:168-182 | waitOutput while not waiting fails its assertion; otherwise it returns the text up to the sentinel and stops waiting once one arrived |
| Legacy.Node.Cmd | mininet.py:183-186 | cmd is sendCmd then waitOutput: the assertion or the empty command's error, or the command written and its output returned |
| Legacy.Node.SetIP | mininet.py:202-206 | setIP sends `ifconfig intf ip+bits up` and records the address once the command's output arrived |
| Legacy.ListedBySnoc | mininet.py:198-200 | one more interface name keeps the list equal to the names of counts 0, 1, ... |
| Legacy.IntfNameDistinct | mininet.py:193-195 | two counts give the same interface name only when they are equal |
| Legacy.IntfsDistinct | mininet.py:196-201 | a node's interface names never repeat |
| Legacy.MakeIntfPair | mininet.py:248-255 | makeIntfPair deletes both names, then adds the veth pair, and raises CalledProcessError exactly when adding the pair fails |
| Legacy.MoveIntf | mininet.py:257-266 | moveIntf raises CalledProcessError when `ip link set intf netns pid` fails, asserts on a waiting shell, stays blocked when the listing does not end, exits with status 1 when the listing lacks intf and finishes exactly otherwise; it writes `ip link show` to the shell only when the move worked, and touches nothing else of the node |
| Legacy.MoveDoneIff | mininet.py:257-266 | moveIntf finishes exactly when the move works, the shell is idle and its listing names the interface |
| Legacy.MoveEnds | mininet.py:273-274 | the moves of createLink run for each end in a namespace, the second only after the first one finished, seeing the shell the first left when both ends are one node; the status, texts written and waiting flags are those of the moves, and interfaces, addresses and connections stay |
| Legacy.CreateLink | mininet.py:268-277 | createLink takes the next interface of each node (two of the same node for a loop), makes the veth pair, moves each end in a namespace, and records both ends as connected only when everything finished; its status is LinkStatus, the shells see exactly the `ip link show` texts of the moves that ran, and addresses are untouched |
| Legacy.LinkDoneIff | mininet.py:248-277 | with idle shells createLink finishes exactly when the pair is made and every end in a namespace moves and is then listed by its shell |
| Legacy.LinkExitsUnlisted | mininet.py:260-265 | when the first end's shell lists the interfaces without the moved one, createLink exits with status 1 |
| Legacy.ParsePing | mininet.py:281-289 | parsePing exits with status 1 exactly when the summary line is missing, and otherwise returns two non-negative counts |
| Legacy.ParsePingReads | mininet.py:283-289 | the counts of a summary line `n packets transmitted, m received` are read back as (n, m) |
| Legacy.ParsePingAgrees | mininet.py:281-289 | where both read a line, the first version's parser and the later one agree |
| Legacy.IpGen.constructor | mininet.py:324 | the generator starts at A.B.c.d with nothing yielded |
| Legacy.IpGen.Next | mininet.py:324-332 | each call yields the address of the next step of the walk from c.d, or stops the iteration once it has run past 254 |
| Legacy.IpYieldClosed | mininet.py:326-332 | the k-th address of the loop is d0 + k spread over the last two octets in steps of 254 |
| Legacy.IpAtStep | mininet.py:328-332 | one step of the closed form is one step of the loop: d moves on, wrapping to 1 and moving c on after 254 |
| Legacy.IpStepArith | mininet.py:328-332 | the arithmetic behind the wrap of d past 254 |
| Legacy.IpYieldCount | mininet.py:324-332 | from c.d the generator yields exactly (255 - c)·254 - (d - 1) addresses |
| Legacy.IpYieldDistinct | mininet.py:324-332 | no address is yielded twice |
| Legacy.IpYieldFirst | mininet.py:326-332 | from .0.1 the generator yields .0.1, then .0.254 after 253 steps, then .1.1 |
| Legacy.NameGen.constructor | mininet.py:334-336 | a name generator starts at 0 |
| Legacy.NameGen.Next | mininet.py:337-339 | each call yields prefix followed by the count in decimal and moves the count on |
| Legacy.GenNameDistinct | mininet.py:334-339 | no name is produced twice |
| Legacy.DpGen | mininet.py:417-422 | the datapath generator yields `nl:0`, `nl:1`, ... |
| Legacy.TreeCounts | mininet.py:450-470 | a tree has fanout^depth hosts and 1 + fanout + ... + fanout^(depth-1) switches |
| Legacy.TreeNet | mininet.py:450-470 | treeNet returns a fresh root named by its generator, with the pid of its shell; at depth 0 a single host in a namespace, which always finishes; otherwise, once every createLink has finished, the root switch first, linked to the controller unless kernel, with one interface per subtree, the host and switch counts of a tree, named in order by the two generators, and the controller with one more interface per switch unless kernel; a createLink that does not finish stops the build with its status |
| Legacy.AddSubtrees | mininet.py:463-470 | the loop over the fanout subtrees, once every link has finished, gives the root one interface per subtree and collects the switches and hosts of all of them in generator order; it stops at the first link that does not finish |
| Legacy.AddSubtree | mininet.py:465-469 | one subtree is built a level down, its root linked to the switch, and its lists appended, when both finish |
| Legacy.ListsGrownStep | mininet.py:468-469 | appending a subtree's lists keeps the collected switches and hosts counted and named in order |
| Legacy.NamedAppend | mininet.py:468-469 | two runs of names numbered consecutively join into one |
| Links.IntfNameParse | mininet/link.py:369-372 | an interface name is the node name, `-eth`, then the decimal digits of n, which read back as n |
| Links.IpFieldsRoundTrip | mininet/link.py:58-67 | `a/b` splits into address a and prefix b; text without `/` keeps the given prefix |
| Links.IpFieldsTwoSlashes | mininet/link.py:62-63 | a second `/` makes the two-way unpacking raise ValueError |
| Links.DigitRun | mininet/link.py:77 | the run of digits taken lies inside the text |
| Links.DotField | mininet/link.py:77 | a field with its dot lies inside the text and is not empty |
| Links.Fields | mininet/link.py:77 | a run of dotted fields lies inside the text and is not empty |
| Links.QuadLen | mininet/link.py:77 | a match of `\d+\.\d+\.\d+\.\d+` lies inside the text and is not empty |
| Links.FirstQuadNone | mininet/link.py:83-84 | updateIP finds nothing exactly when no match starts anywhere in the ifconfig text |
| Links.FirstQuadAt | mininet/link.py:83-84 | the address taken is the leftmost match |
| Links.RunOf | mininet/link.py:77 | digits followed by a non-digit or the end form one run |
| Links.DotFieldOf | mininet/link.py:77 | digits then a dot form one field |
| Links.FirstQuadSkip | mininet/link.py:83 | no match starts where there is no digit |
| Links.FieldsCons | mininet/link.py:77 | one more field in front adds its length |
| Links.FieldsJoin | mininet/link.py:77 | non-empty digit fields joined by dots and followed by a non-digit match as a whole |
| Links.FieldsJoinStep | mininet/link.py:77 | the joined fields match one field at a time |
| Links.UpdatedIPReadsQuad | mininet/link.py:80-85 | after text without digits, four digit fields joined by dots are the address updateIP reads |
| Links.UpdatedIPReadsIpStr | mininet/link.py:80-85 | an address printed by ipStr is read back by updateIP |
| Links.FirstMac | mininet/link.py:77 | a match of `..:..:..:..:..:..` is 17 characters with ':' at every third and no newline |
| Links.FirstMacAt | mininet/link.py:88-91 | updateMAC finds nothing exactly when no match starts anywhere; otherwise it takes the leftmost match |
| Links.UpdatedMACReads | mininet/link.py:87-92 | a MAC-shaped text after text without ':' is the MAC updateMAC reads |
| Links.UpdatedMACReadsColonHex | mininet/link.py:87-92 | a MAC printed by macColonHex is read back by updateMAC |
| Links.FloorDiv | mininet/link.py:204 | Python 2's integer division rounds down, for either sign of the divisor |
| Links.TbfLatency | mininet/link.py:203-204 | the default tbf latency `15 * 8 / bw` raises ZeroDivisionError exactly when bw is zero |
| Links.TbfLatencyFloors | mininet/link.py:204 | for a positive int bw the default latency is 120 divided by bw rounded down, for a float bw it is exact, so bw = 7 gives 17 ms as an int and 120/7 ms as a float |
| Links.BwCmdsParent | mininet/link.py:180-229 | bwCmds raises only for a zero bandwidth on the tbf path without a latency (unless the speedup replaces it); no bandwidth, or one outside 0..1000, gives no commands and the root parent; otherwise some commands and the parent `5:1`, or `6:` once ECN or RED is on |
| Links.DelayCmdsShape | mininet/link.py:232-255 | a negative delay or jitter, a loss outside 0..100, or no netem argument at all gives no command and the parent passed in; otherwise one netem command under that parent and the parent `10:1` |
| Links.TcConfigShape | mininet/link.py:263-315 | config does nothing exactly when bw, delay, loss and the queue limit are all unset; otherwise the command list starts by deleting the root qdisc; a delay alone gives that and one netem command at the root |
| MnExec.Fail | mnexec.c:58-59 | a failure appends its message to the error stream and ends the run with status 1, touching nothing else |
| MnExec.TaskWrites | mnexec.c:75-85 | the controller loop writes at most one task file per controller, each holding the decimal pid and a newline |
| MnExec.Validate | mnexec.c:53-62 | validate passes a name of letters, digits and `/` unchanged and otherwise exits 1 with `invalid path: name` |
| MnExec.Cgroup | mnexec.c:65-91 | cgroup() has the effect of the cgroup specification: validation, the task-file writes, then exit 1 when none opened |
| MnExec.JoinTasks | mnexec.c:75-85 | the loop over cpu, cpuacct and cpuset appends its task-file writes and counts them |
| MnExec.TaskWritesSnoc | mnexec.c:75-85 | one more controller adds its write exactly when the kernel lets its task file open |
| MnExec.CgroupWritesInOrder | mnexec.c:68-85 | with a valid name the pid goes to `/sys/fs/cgroup/<ctrl>/<name>/tasks` for cpu, cpuacct and cpuset in that order, skipping those that do not open |
| MnExec.CgroupValidatesFirst | mnexec.c:74 | an invalid name ends the run with status 1 and its message before any task file is written |
| MnExec.CgroupFailsIffNoneOpened | mnexec.c:86-90 | with a valid name, cgroup() exits 1 exactly when none of the three task files opened |
| MnExec.LeadingDigits | mnexec.c:137 | the digits atoi reads are the longest digit prefix |
| MnExec.LeadingDigitsAll | mnexec.c:137 | a string of digits is read whole |
| MnExec.AtoiOfDec | mnexec.c:137 | atoi reads a printed pid back |
| MnExec.CloseFds | mnexec.c:103-107 | the descending close loop has the effect of option -c |
| MnExec.Run | mnexec.c:93-179 | main has the effect of the run specification: options in order until one ends the run, then the exec |
| MnExec.RunOptsAppend | mnexec.c:101-170 | options take effect in order: running a prefix and then the rest is running all of them |
| MnExec.FirstFailureStops | mnexec.c:101-176 | once an option ends the run, later options and the exec have no effect |
| MnExec.RunOptsSnoc | mnexec.c:101-170 | a running process applies the next option as one step |
| MnExec.KernelFailuresReturnOne | mnexec.c:123-160 | a failing unshare, namespace open, setns or sched_setscheduler ends the run with 1; a working unshare moves to the new namespace, a working attach to the target's |
| MnExec.DetachForksOnlyForLeader | mnexec.c:108-122 | -d forks only for a process-group leader: a failed fork exits 1, the parent exits 0, and the surviving process leads a new session |
| MnExec.PrintPidHandshake | mnexec.c:130-134 | -p writes byte 1, the decimal pid and a newline, and the pid reads back from it |
| MnExec.CloseKeepsStandardFds | mnexec.c:103-107 | -c leaves only descriptors 0 to 2 |
| MnExec.TerminalOptions | mnexec.c:161-169 | -v prints `(devel)` and exits 0, -h exits 0, an unknown option exits 1 |
| MnExec.ExecOutcome | mnexec.c:172-179 | a remaining command replaces the image; an execvp that returns exits 1; no command exits 0 |
| MnS2Topo.HostIds | examples/mn-s2.py:99 | `irange((sw-1)*N+1, sw*N)` lists the N host numbers after the earlier switches' hosts, in order (none for N < 1) |
| MnS2Topo.RoundNamesSnoc | examples/mn-s2.py:99 | the next host name keeps a round's list equal to h<base+1>, h<base+2>, ... |
| MnS2Topo.AdjacentAfterEdge | mininet/topo.py:35-54 | add_edge joins exactly its two ends, either way round, and keeps every pair joined before |
| MnS2Topo.DecNotZero | examples/mn-s2.py:101 | a positive switch number is not written `0` |
| MnS2Topo.FixedNames | examples/mn-s2.py:94-95 | s0 and hs0 are none of the numbered names and differ from each other |
| MnS2Topo.SwitchNotHost | examples/mn-s2.py:94-101 | no name is both a switch and a host |
| MnS2Topo.HostLift | examples/mn-s2.py:99 | one more host number adds exactly h(n+1) |
| MnS2Topo.SwitchLift | examples/mn-s2.py:101 | one more switch number adds exactly s(a+1) |
| MnS2Topo.HostIsNew | examples/mn-s2.py:99 | the next host is none of the nodes so far |
| MnS2Topo.SwitchIsNew | examples/mn-s2.py:101 | the next switch is none of the nodes so far |
| MnS2Topo.MulMono | examples/mn-s2.py:99 | multiplying by a non-negative N keeps the order of the block bounds |
| MnS2Topo.HomeUnique | examples/mn-s2.py:99-105 | a host number falls in the block of one switch only |
| MnS2Topo.StartNodes | examples/mn-s2.py:94-95 | s0 has the switch options and hs0 the host options |
| MnS2Topo.NodesAddHost | examples/mn-s2.py:99 | addHost of h(n+1) adds a new host with the host options |
| MnS2Topo.NodesAddSwitch | examples/mn-s2.py:101 | addSwitch of s(a+1) adds a new switch with the switch options |
| MnS2Topo.PairStart | examples/mn-s2.py:96 | before the loop the only link is hs0 to s0 |
| MnS2Topo.PairS0 | examples/mn-s2.py:103 | linking s(k+1) to s0 adds just that pair |
| MnS2Topo.PairHost | examples/mn-s2.py:104-105 | linking the next host to the switch whose block holds it adds just that pair |
| MnS2Topo.PairHostOld | examples/mn-s2.py:104-105 | a pair after the host link is an old pair or the new one |
| MnS2Topo.PairHostNew | examples/mn-s2.py:104-105 | the old pairs and the new one are all pairs after the host link |
| MnS2Topo.LinksAdd | examples/mn-s2.py:103-105 | one new link matched by one new pair keeps the links equal to the expected pairs |
| MnS2Topo.LinksSameEdges | examples/mn-s2.py:99-101 | adding a node changes no link |
| MnS2Topo.LinkStep | mininet/topo.py:151-162 | addLink between two existing nodes keeps the nodes and the rest of the topology, adds one edge and joins exactly that pair |
| MnS2Topo.StartNodesState | examples/mn-s2.py:94-95 | addSwitch('s0') then addHost('hs0') on a blank Topo give two nodes and no link |
| MnS2Topo.WiFiStartShape | examples/mn-s2.py:91-96 | the three calls before the loop give s0, hs0 and their link |
| MnS2Topo.HostStep | examples/mn-s2.py:99 | addHost of the next host keeps the shape with one more host and no link |
| MnS2Topo.SwitchStep | examples/mn-s2.py:101 | addSwitch of the next switch keeps the shape with one more switch and no link |
| MnS2Topo.S0LinkStep | examples/mn-s2.py:103 | addLink(switch, switchS) keeps the shape with one more access switch linked to s0 |
| MnS2Topo.HostLinkStep | examples/mn-s2.py:105 | addLink(host, switchS) keeps the shape with one more host linked to its switch |
| MnS2Topo.BaseNext | examples/mn-s2.py:98-99 | a round's N hosts take the numbering to where the next round starts |
| MnS2Topo.BlockHolds | examples/mn-s2.py:99-105 | the hosts of round sw lie in the block of switch sw |
| MnS2Topo.Built | examples/mn-s2.py:89-105 | the shape after the last round is a finished WiFiTopo |
| MnS2Topo.KindsOfNodes | examples/mn-s2.py:94-101 | a finished WiFiTopo has 1 + S switches, s0 to sS, and 1 + S·N hosts, hs0 and h1 to h(S·N) |
| MnS2Topo.HostPairs | examples/mn-s2.py:98-105 | among the expected pairs a host and an access switch are joined exactly when the host lies in that switch's block |
| MnS2Topo.WiFiHostSwitch | examples/mn-s2.py:98-105 | host h is linked to switch sb exactly when 1 <= b <= S and (b-1)·N+1 <= h <= b·N |
| MnS2Topo.WiFiRoot | examples/mn-s2.py:94-96 | the three calls before the loop leave the start state |
| MnS2Topo.RoundHosts | examples/mn-s2.py:99 | a round's host list has N names, the next N in order, added as hosts without links |
| MnS2Topo.WiFiRound | examples/mn-s2.py:98-105 | one round adds its hosts, its access switch, the link to s0 and the host links |
| MnS2Topo.LinkHost | examples/mn-s2.py:105 | one host link keeps the shape with one more host linked |
| MnS2Topo.LinkRoundHosts | examples/mn-s2.py:104-105 | the loop over a round's hosts links each to its switch |
| MnS2Topo.WiFiTopo | examples/mn-s2.py:89-105 | WiFiTopo(N, S) on a fresh Topo builds a finished WiFiTopo: 1 + S switches, 1 + S·N hosts and the links that join hs0 to s0, s0 to each access switch and each host to its switch; every host has the host options, every switch the switch options with isSwitch, and only the graph and the ports change |
| MnS2Topo.WiFiRounds | examples/mn-s2.py:98-105 | the S rounds from the start state end with S access switches and S·N hosts, all linked |
| MnS2Services.Entry | examples/mn-s2.py:178-180 | the stored entry copies the description, with `host` set to the host name and `pid` to None |
| MnS2Services.Appended | examples/mn-s2.py:175-181 | do_add_service appends the entry to the list under its priority, creating the list for a new priority, and leaves the other priorities alone |
| MnS2Services.CustomAcceptsReady | examples/mn-s2.py:146-169 | add_service accepts exactly a decimal priority, a known host and a description whose entry start_services and stop_services can process (cmd_start and need_stop present, cmd_stop present when need_stop is truthy) |
| MnS2Services.PreconfReady | examples/mn-s2.py:71-81 | each preconfigured service, stored for a known host, can be started and stopped |
| MnS2Services.PreconfAccepts | examples/mn-s2.py:131-144 | add_preconf_service refuses exactly a bad priority, an unknown host or an unknown service name, the last with `Unknown preconfigured service` |
| MnS2Services.NoElements | examples/mn-s2.py:184 | a set of priorities with no element is empty |
| MnS2Services.Inhabited | examples/mn-s2.py:184 | a non-empty set of priorities has an element |
| MnS2Services.Min | examples/mn-s2.py:184 | the least priority is in the set and below every other |
| MnS2Services.SortedInts | examples/mn-s2.py:184 | sorted() lists as many priorities as the set holds |
| MnS2Services.SortedIntsFirst | examples/mn-s2.py:184 | sorted() puts the least priority first |
| MnS2Services.SortedIntsMembers | examples/mn-s2.py:200 | sorted() lists every priority of the set and only those |
| MnS2Services.SortedIntsAscending | examples/mn-s2.py:184 | sorted() lists the priorities strictly ascending |
| MnS2Services.SortedKeys | examples/mn-s2.py:184 | the loop taking the least remaining priority yields the sorted priorities |
| MnS2Services.ChainNext | examples/mn-s2.py:185-191 | the loop over k+1 entries is the loop over k followed by one more, unless an exception came first |
| MnS2Services.ChainSticky | examples/mn-s2.py:185-191 | once an entry raises, the later ones have no effect |
| MnS2Services.ChainStop | examples/mn-s2.py:185-191 | an exception at entry k ends the loop with the steps so far and that exception |
| MnS2Services.ChainOk | examples/mn-s2.py:185-191 | with no exception anywhere, the loop does every step in order |
| MnS2Services.StartTraces | examples/mn-s2.py:185-191 | one start trace per entry, in insertion order |
| MnS2Services.StartRounds | examples/mn-s2.py:184-192 | one round per priority, in the given order |
| MnS2Services.Updates | examples/mn-s2.py:195-196 | one IP refresh per host, in host order |
| MnS2Services.StopTraces | examples/mn-s2.py:201-210 | one stop trace per entry, in insertion order |
| MnS2Services.StopRounds | examples/mn-s2.py:200-210 | one stop round per priority, in the given order |
| MnS2Services.StartCmds | examples/mn-s2.py:186-191 | one start command per ready entry, in order |
| MnS2Services.AllStepsSingles | examples/mn-s2.py:185-191 | entries of one command each contribute those commands in order |
| MnS2Services.RoundStartReady | examples/mn-s2.py:185-192 | a priority whose entries are ready starts each of them in order and then sleeps two seconds |
| MnS2Services.AtReady | examples/mn-s2.py:185 | the entries of any priority of a ready service table are ready |
| MnS2Services.ReadyStarts | examples/mn-s2.py:184-192 | one contribution per priority |
| MnS2Services.StartPlanReady | examples/mn-s2.py:183-196 | with every entry ready, start_services raises nothing: entries start priority by priority, ascending, in insertion order within a priority, with a pause after each priority, then every host's IP is refreshed |
| MnS2Services.NeedStop | examples/mn-s2.py:202-203 | the entries kept are those whose need_stop is truthy, no more than there were |
| MnS2Services.StopCmds | examples/mn-s2.py:204-210 | one stop command per kept entry, in order |
| MnS2Services.StopTracesSnoc | examples/mn-s2.py:201-210 | the stop loop over a priority's entries goes one entry at a time |
| MnS2Services.EntryStopReady | examples/mn-s2.py:202-210 | a ready entry is skipped when its need_stop is falsy and stopped with its cmd_stop and options otherwise |
| MnS2Services.StopCmdsSnoc | examples/mn-s2.py:201-210 | the stop commands of a priority grow one kept entry at a time |
| MnS2Services.StopEntriesReady | examples/mn-s2.py:201-210 | a ready priority stops exactly its entries with need_stop set, in order |
| MnS2Services.ReadyStops | examples/mn-s2.py:200-210 | one stop contribution per priority |
| MnS2Services.StopPlanReady | examples/mn-s2.py:199-210 | with every entry ready, stop_services raises nothing and stops exactly the entries whose need_stop is set, priorities ascending, with no pause |
| MnS2Services.ServiceNet.constructor | examples/mn-s2.py:117-119 | the services table starts empty |
| MnS2Services.ServiceNet.DoAddService | examples/mn-s2.py:171-181 | do_add_service stores the entry under its priority and keeps the table ready when the entry is |
| MnS2Services.ServiceNet.AddService | examples/mn-s2.py:146-169 | a refused description leaves the table alone with the checks' message; an accepted one is stored under the parsed priority for that host; the table stays ready |
| MnS2Services.ServiceNet.AddPreconfService | examples/mn-s2.py:131-144 | a refused request leaves the table alone; an accepted one stores the preconfigured description; the table stays ready |
| MnS2Services.ServiceNet.StartRound | examples/mn-s2.py:185-191 | one priority's start loop does the entries' start steps up to the first exception |
| MnS2Services.ServiceNet.StopRound | examples/mn-s2.py:201-210 | one priority's stop loop does the entries' stop steps up to the first exception |
| MnS2Services.ServiceNet.RefreshIPs | examples/mn-s2.py:195-196 | every host's IP is refreshed, in host order |
| MnS2Services.ServiceNet.StartServices | examples/mn-s2.py:183-196 | start_services does what the start plan says: the priorities ascending, a pause after each, then the IP refreshes, stopping at the first exception |
| MnS2Services.ServiceNet.StopServices | examples/mn-s2.py:199-210 | stop_services does what the stop plan says, stopping at the first exception |
| MultiPing.Range | examples/multiping.py:21 | every value of `range(start, stop, step)` lies in [start, stop) |
| MultiPing.RangeShape | examples/multiping.py:21 | `range(start, stop, step)` for a positive step has ceil((stop - start) / step) elements, element i being start + i·step, all below stop |
| MultiPing.ChunkAt | examples/multiping.py:19-21 | chunk k starts at index k·n of l and is `l[k*n : k*n + n]`, cut short at the end of l |
| MultiPing.ChunksCount | examples/multiping.py:19-21 | a positive n gives ceil(len(l) / n) chunks, none for an empty list |
| MultiPing.ChunksLengths | examples/multiping.py:19-21 | every chunk but the last has length n, and the last is non-empty and at most n long |
| MultiPing.ChunkFull | examples/multiping.py:21 | a chunk that is not the last has length n |
| MultiPing.ChunksConcat | examples/multiping.py:19-21 | concatenating the chunks gives back l |
| MultiPing.FlattenPrefix | examples/multiping.py:21 | the first k chunks concatenate to l up to index k·n |
| MultiPing.FlattenLast | examples/multiping.py:21 | concatenating k chunks is concatenating k - 1 and then the k-th |
| MultiPing.SliceJoin | examples/multiping.py:21 | adjacent slices join |
| MultiPing.CountCovers | examples/multiping.py:21 | ceil(len / n) steps of n reach the end of the list |
| Net.PortAfterValue | mininet/net.py:177-178 | after k switches in the root namespace with a truthy base port the listenPort is base + k; in namespaces, or with None or 0, it never moves |
| Net.SwitchListSnoc | mininet/net.py:170-181 | one more switch, with the next datapath number (none for the user switch) and the current listenPort, keeps the switch list as the numbering says |
| Net.CreatedSnoc | mininet/net.py:159-161 | a node created next, with the next uid, keeps the nodes in creation order |
| Net.CreatedLater | mininet/net.py:159 | nodes created before stay created as more are made |
| Net.CreatedDistinct | mininet/net.py:159-162 | nodes created one after another are distinct objects |
| Net.InvHost | mininet/net.py:153-162 | addHost keeps the network's bookkeeping invariant |
| Net.InvController | mininet/net.py:194-203 | addController keeps the network's bookkeeping invariant |
| Net.InvSwitch | mininet/net.py:164-182 | addSwitch keeps the network's bookkeeping invariant, with the next datapath number and listenPort |
| Net.NodeMac | mininet/net.py:285 | the intended rule: with autoSetMacs a node's MAC is macColonHex of its id, and without it none |
| Net.NodeMacAsWritten | mininet/net.py:285 | as written the test reads the bound method `self.setMacs`, which is always truthy, so every node gets a MAC |
| Net.SetMacsAlwaysOn | mininet/net.py:285 | with autoSetMacs off, the nodes still get MACs from their ids |
| Net.TopoHost | mininet/net.py:282-288 | the host made for an id is named `h` plus the topology's name for it and gets the next uid |
| Net.NodeStep | mininet/net.py:282-288 | one more id grows the id map by that id and the name map by the new node's name |
| Net.TopoListsSnoc | mininet/net.py:300-304 | one more host or switch keeps the lists made for the ids so far |
| Net.AssignedKeeps | mininet/net.py:288 | an id not assigned keeps its entry in idToNode, or its absence |
| Net.AssignedLast | mininet/net.py:288 | an id assigned more than once holds the node of its last occurrence |
| Net.LastIndex | mininet/net.py:288 | the last occurrence of an id in the list is at that position and at no later one |
| Net.AssignedSnoc | mininet/net.py:288 | one more assignment overwrites that id |
| Net.NamedSnoc | mininet/net.py:161 | one more node overwrites its name in nameToNode |
| Net.NamedKeepsNames | mininet/net.py:161 | every entry of nameToNode is a node of that name |
| Net.SortMembers | mininet/net.py:300 | sorting the ids keeps exactly the same ids |
| Net.SwitchIdsResolve | mininet/net.py:303-304 | after the switch loop each switch id maps to its switch, named `s` plus its topology name, with its MAC and IP; other ids keep what they had |
| Net.HostIdsResolve | mininet/net.py:300-301 | after the host loop each host id maps to its host, named `h` plus its topology name, with its MAC and IP; other ids keep what they had |
| Net.TopoIdsResolve | mininet/net.py:282-304 | after both loops a switch id maps to its switch (a switch overrides a host of the same id), a host id to its host, and any other id keeps its entry |
| Net.LinkPlanSpec | mininet/net.py:306-310 | every edge is linked in order with the topology's ports exactly when both ends of every edge have a node; otherwise idToNode raises KeyError |
| Net.Orders | mininet/net.py:300-306 | Python's order on ints and on pairs of ints is a total preorder |
| Net.Insert | mininet/net.py:300 | inserting keeps every element and adds the new one |
| Net.Sort | mininet/net.py:300 | sorted() keeps the list's elements |
| Net.InsertSorted | mininet/net.py:300 | inserting into a sorted list keeps it sorted |
| Net.SortSorted | mininet/net.py:300-306 | sorted() gives a permutation in ascending order |
| Net.Mininet.constructor | mininet/net.py:106-149 | a new network has the given topology and options, no nodes, empty maps, datapath count 0, and is not built |
| Net.Mininet.AddHost | mininet/net.py:153-162 | addHost appends a new host with the given MAC and IP and maps its name to it; nothing else changes |
| Net.Mininet.AddSwitch | mininet/net.py:164-182 | addSwitch appends a new switch with the current listenPort and (unless it is a user switch) datapath number, maps its name, counts the datapath, and moves listenPort on only in the root namespace when it is truthy |
| Net.Mininet.AddController | mininet/net.py:194-203 | addController records the controller and its name when one is made, and nothing when the controller class gives None |
| Net.Mininet.ControlNumbers | mininet/net.py:231-246 | with no controller the routed control network raises IndexError; otherwise the switch addresses are those of the control plan |
| Net.Mininet.AddTopoHost | mininet/net.py:282-288 | addNode('h', addHost, id) appends the topology host, with the MAC macColonHex of its id whatever autoSetMacs says (the test reads the bound method), and maps its name and its id to it |
| Net.Mininet.AddTopoHosts | mininet/net.py:300-301 | the host loop appends one host per id in order, each with the MAC of its id, and updates idToNode and nameToNode by each in turn |
| Net.Mininet.AddTopoSwitch | mininet/net.py:282-288 | addNode('s', addSwitch, id) appends the topology switch, with the MAC macColonHex of its id whatever autoSetMacs says, and maps its name and its id to it |
| Net.Mininet.AddTopoSwitches | mininet/net.py:303-304 | the switch loop appends one switch per id in order, each with the MAC of its id, and updates idToNode and nameToNode by each in turn |
| Net.Mininet.LinkTopo | mininet/net.py:306-310 | the link loop over the edges makes the links of the link plan or raises its KeyError |
| Net.Mininet.BuildFromTopo | mininet/net.py:277-311 | buildFromTopo adds c0, the hosts and switches in sorted id order, each with the MAC of its id as the code is written, and the links of the sorted edges |
| Net.Mininet.Build | mininet/net.py:313-328 | build builds from the topology if there is one, every node with the MAC of its id; with inNamespace and no controller the control network raises IndexError; built becomes true exactly when nothing raised |
| Net.Mininet.Start | mininet/net.py:358-361 | start builds only a network not built yet, with the nodes, links and outcome of build; on a built network it changes nothing |
| Net.Mininet.Ping | mininet/net.py:438-467 | ping over the given hosts, or all hosts when none are given, returns the loss the ping specification computes |
| Net.Create | mininet/net.py:106-151 | a network created with a topology and build set is built from it, with one host and one switch per topology host and switch, exactly when building raised nothing; otherwise it stays empty and unbuilt |
| Net.PingAll | mininet/net.py:449-464 | the two loops of ping give the ping specification's result |
| Net.PingRow | mininet/net.py:451-461 | the inner loop of ping gives the tally of one row |
| Net.NextNum | mininet/net.py:243-245 | the next switch number is above the previous one and ends in neither .0 nor .255 |
| Net.NextNumLeast | mininet/net.py:243-245 | it is the least such number |
| Net.SwitchNums | mininet/net.py:240-246 | one number per switch |
| Net.SwitchNumsSpec | mininet/net.py:240-246 | each switch number is the next one after the number before it, the first after the controller's |
| Net.ChainedSnoc | mininet/net.py:240-246 | one more switch extends the chain of numbers |
| Net.ControlPlanFirst | mininet/net.py:231-246 | the controller at 192.168.123.1 hands its switches .2, .3, ... |
| Net.SwitchNumsWrap | mininet/net.py:244-245 | after x.x.x.254 the next switch gets x.x.(x+1).1 |
| Net.SearchPingDigits | mininet/net.py:429-430 | both groups of a match are digit strings |
| Net.ParsePing | mininet/net.py:424-436 | the parsed counts are never negative |
| Net.SearchPingSkip | mininet/net.py:430 | text without digits holds no match start |
| Net.PingMatchOf | mininet/net.py:429 | the summary line matches where it starts |
| Net.PingMatchByOf | mininet/net.py:429 | the pattern's two digit groups are read where they stand |
| Net.ParsePingReads | mininet/net.py:424-436 | a summary `n packets transmitted, m received` reads back as (n, m) |
| Net.ParsePingGroups | mininet/net.py:429-436 | the two digit groups of the summary line are read as their values |
| Net.SearchPingFinds | mininet/net.py:430 | the search finds the summary line after text without digits |
| Net.ParsePingUnreachable | mininet/net.py:427-428 | output saying `connect: Network is unreachable` counts as one packet sent, none received |
| Net.RowTallySum | mininet/net.py:451-461 | a row adds the packets sent and lost to the other hosts, or exits 1 when some ping received more than it sent |
| Net.RowSentNonneg | mininet/net.py:455 | a row never sends a negative count |
| Net.PingFoldSum | mininet/net.py:449-464 | the outer loop succeeds exactly when no row exits and the first row sent something; then the loss is 100·lost/sent over all rows, rounded down |
| Net.PingLoss | mininet/net.py:438-467 | for a non-empty host list, ping returns 100·lost/sent over every ordered pair of distinct hosts exactly when no ping received too many and the first host sent something |
| Net.RowTallyConst | mininet/net.py:451-461 | when every ping of a row sends one and receives c, the row sends one per other host and loses 1 - c each |
| Net.OthersDistinct | mininet/net.py:452 | in a list without repeats a member has all the others beside it |
| Net.OthersNone | mininet/net.py:452 | a node outside the list has every member as another |
| Net.RowConst | mininet/net.py:451-461 | a host of the list pings the n - 1 others |
| Net.PercentConst | mininet/net.py:464 | a loss of 1 - c per packet is a loss of 100·(1 - c) percent |
| Net.PingFoldConst | mininet/net.py:449-464 | when every ping sends one and receives c, every row leaves the loss at 100·(1 - c) |
| Net.PingAllOrNothing | mininet/net.py:438-467 | at least two distinct hosts all reaching each other give 0% loss, and none reaching any other give 100% |
| Net.PingFoldBounds | mininet/net.py:449-464 | the loss the outer loop reports is between 0 and 100 |
| Net.PercentBounds | mininet/net.py:464 | a loss of at most the packets sent is between 0 and 100 percent |
| Net.RowTallyBounds | mininet/net.py:451-461 | a row keeps the packets lost between 0 and those sent |
| Net.PingBounds | mininet/net.py:438-467 | ping's result is a percentage between 0 and 100 |
| Net.PingTooFew | mininet/net.py:446-466 | a single host sends nothing and divides by zero; with no host at all the report formats None and raises TypeError |
| Net.NumRun | mininet/net.py:485 | the run of `[\d.]` lies inside the text |
| Net.WordRun | mininet/net.py:485 | the run of `\w` lies inside the text |
| Net.RateLen | mininet/net.py:485 | a match of `[\d.]+ \w+/sec` lies inside the text and is not empty |
| Net.FindRatesShape | mininet/net.py:485-486 | every rate findall returns matches the pattern on its own and ends in `/sec` |
| Net.NumRunPrefix | mininet/net.py:485 | cutting the text after the number keeps the number's run |
| Net.WordRunPrefix | mininet/net.py:485 | cutting the text after the unit keeps the unit's run |
| Net.RateLenPrefix | mininet/net.py:485 | the text a match covers matches the pattern on its own |
| Net.ParseIperfEmpty | mininet/net.py:481-492 | _parseIperf returns `''` exactly when nothing matches |
| Net.ParseIperfRate | mininet/net.py:481-488 | a rate such as `9.5 Mbits/sec` on its own reads back as itself |
| Net.NumRunOf | mininet/net.py:485 | a number followed by something else is one run |
| Net.WordRunOf | mininet/net.py:485 | a word followed by something else is one run |
| Net.IperfSetup | mininet/net.py:494-516 | iperf runs only for TCP or UDP; given hosts must be exactly two (assertion) and are client then server; otherwise the first and last hosts are used |
| Net.IperfResult | mininet/net.py:531-535 | the result is the server's and the client's parsed rates, preceded by udpBw for UDP |
| Nodes.MinExists | mininet/node.py:357-362 | every non-empty set of port numbers has a least element, so min( ports ) is defined whenever there are interfaces |
| Nodes.MaxExists | mininet/node.py:336-340 | every non-empty set of port numbers has a greatest element, so max( ports.values() ) is defined whenever there are ports |
| Nodes.MinOf | mininet/node.py:357-362 | min() of a non-empty set is a member of it and no larger than any member |
| Nodes.MaxOf | mininet/node.py:336-340 | max() of a non-empty set is a member of it and no smaller than any member |
| Nodes.SortedSetSpec | mininet/node.py:523-525 | sorted() of the port set lists each port exactly once, in strictly increasing order |
| Nodes.MinOfSet | mininet/node.py:357-362 | the loop computing the lowest port returns exactly min() of the set |
| Nodes.MaxOfSet | mininet/node.py:336-340 | the loop computing the highest port returns exactly max() of the set |
| Nodes.NewPortFresh | mininet/node.py:336-340 | while intfs and ports are mutual inverses, newPort() is unused, above every used port, and is portBase on a node without ports |
| Nodes.AddKeepsInverse | mininet/node.py:342-355 | adding an interface on an unused port keeps intfs and ports mutual inverses |
| Nodes.AddSamePortBreaksInverse | mininet/node.py:342-355 | adding a different interface on a port already in use leaves the two tables no longer inverse: addIntf does not guard against it |
| Nodes.NodeIpText | mininet/node.py:444-452 | the address Node.setIP passes on always holds a '/' |
| Nodes.NoSlashInDec | mininet/node.py:450-451 | the decimal text of a prefix length holds no '/' |
| Nodes.NodeIpTextFields | mininet/node.py:444-452 | an address without '/' is split back by Intf.setIP into that address and the decimal prefix length |
| Nodes.SetIPWords | mininet/link.py:58-67 | Intf.setIP fails exactly when the split into ip and prefix fails; with a '/' it runs ifconfig ipstr up, without one ifconfig ipstr/prefixLen |
| Nodes.Intf.constructor | mininet/link.py:35-48 | a new interface has its name, node and link, no prefix, and is added to its node on the given port or the node's next port; config() then sets its IP and MAC to what updateIP and updateMAC read from ifconfig's output |
| Nodes.Intf.SetIP | mininet/link.py:58-67 | the ifconfig words and the new ip and prefixLen fields are those of the split; on an error nothing changes |
| Nodes.Intf.UpdateIP | mininet/link.py:80-85 | the ip field becomes the first dotted quad in ifconfig's output, or None without one, and is returned |
| Nodes.Intf.UpdateMAC | mininet/link.py:87-92 | the mac field becomes the first MAC-shaped text in ifconfig's output, or None without one, and is returned |
| Nodes.Node.constructor | mininet/node.py:67-90 | a new node has its name and namespace flag, empty port tables, an empty read buffer, is not waiting, has no last pid or command, and portBase 1 for switches and 0 otherwise |
| Nodes.Node.Read | mininet/node.py:153-166 | what read() returns and leaves in the buffer is the buffered text followed by the new data, split at maxbytes |
| Nodes.Node.TakeLine | mininet/node.py:170-177 | without a newline in the buffer nothing is taken; otherwise the text before the first newline is returned and dropped with it |
| Nodes.Node.ReadlineAsWritten | mininet/node.py:168-177 | readline as written appends read()'s result to the buffer read() already emptied or cut, then takes a line |
| Nodes.Node.Readline | mininet/node.py:168-177 | readline takes the first line of the pending text kept in order |
| Nodes.Node.NodeSendCmd | mininet/node.py:200-231 | sendCmd refuses while waiting; otherwise it writes the decorated command, records it as lastCmd, clears lastPid and sets waiting |
| Nodes.Node.SendCmd | mininet/node.py:784-792 | a switch that has execed accepts no commands and changes nothing; otherwise Node.sendCmd runs with printPid defaulting to False on switches |
| Nodes.Node.Monitor | mininet/node.py:241-261 | one monitor() step takes the pid marker and the sentinel out of the data read and updates lastPid and waiting accordingly |
| Nodes.Node.TakeMarkers | mininet/node.py:247-252 | the pid markers are removed from the data and the first of them becomes lastPid |
| Nodes.Node.TakeSentinel | mininet/node.py:253-260 | the sentinel is removed from the data and waiting is cleared exactly when it was present |
| Nodes.Node.WaitOutput | mininet/node.py:263-275 | waitOutput concatenates the monitor() output of successive chunks until waiting is cleared |
| Nodes.Node.NewPort | mininet/node.py:336-340 | newPort() is portBase on a node without ports, else one more than the largest port |
| Nodes.Node.AddIntf | mininet/node.py:342-355 | addIntf records the interface under its port, its port under it and it under its name, on the given port or newPort(); the inverse and naming invariants are kept when the port and interface are new |
| Nodes.Node.DefaultIntf | mininet/node.py:357-364 | a host's default interface is the one on its lowest port, or none; a switch's is its control interface, an AttributeError without one |
| Nodes.Node.IntfList | mininet/node.py:523-525 | intfList lists the interfaces in increasing port order, one per port |
| Nodes.Node.IntfFor | mininet/node.py:366-380 | intf() gives the default interface for a falsy argument, looks a name up (KeyError when absent) and returns an interface object unchanged |
| Nodes.Node.SetIP | mininet/node.py:444-452 | Node.setIP adds the prefix length when the address has no '/' and calls setIP on the interface intf() chose; a missing interface is an AttributeError |
| Nodes.Link.constructor | mininet/link.py:323-368 | a link makes two fresh interfaces named by the given names or node-ethN, on the given ports or each node's next port, both pointing back at the link, each with the IP and MAC its ifconfig output shows |
| Nodes.CommandFor | mininet/node.py:200-226 | the text sendCmd writes for a command, with the error when the node is waiting |
| Nodes.Decorate | mininet/node.py:218-228 | a background command gets the pid-and-sentinel printf; otherwise the sentinel printf, with mnexec -p in front when a pid is wanted and the command is no shell builtin |
| Nodes.AddPair | mininet/link.py:340-365 | the two interfaces of a link are fresh, distinct, named and placed on the ports computed for them, also when both ends are on the same node, each with the IP and MAC its ifconfig output shows |
| Nodes.FirstDigits | mininet/node.py:768 | the first match of \d+ is a non-empty run of digits |
| Nodes.FirstDigitsNone | mininet/node.py:768-775 | there is no match exactly when the name holds no digit |
| Nodes.FirstDigitsOf | mininet/node.py:768 | the first match is the run of digits after a digit-free prefix, taken as far as it goes |
| Nodes.HexLeadingZeros | mininet/node.py:770 | zeros added in front of a hexadecimal text do not change its value |
| Nodes.ZerosHex | mininet/node.py:770 | a text of zeros has hexadecimal value 0 |
| Nodes.DefaultDpidSpec | mininet/node.py:765-775 | defaultDpid fails with the datapath-ID message exactly when the name has no digit; otherwise it is hex of the first number padded with zeros to dpidLen digits, whose value is that number |
| Nodes.DefaultDpidS123 | mininet/node.py:765-775 | s123 on a 16-digit switch gets dpid 000000000000007b |
| Nodes.DefaultDpidNoDigits | mininet/node.py:765-775 | a switch name without digits gets the datapath-ID exception |
| Nodes.NewSwitch | mininet/node.py:754-763 | a new switch takes the dpid given or the default one (failing as defaultDpid does), has portBase 1, and outside a namespace a control interface lo on port 0 with the IP and MAC ifconfig shows for it; inside one, no interfaces and an untouched shell |
| Nodes.Bracketed | mininet/node.py:1003-1005 | the text between the brackets exactly when the output starts with '[' and ends with ']' |
| Nodes.Entries | mininet/node.py:1005-1006 | one stripped entry per comma-separated field |
| Nodes.BracketedOf | mininet/node.py:1003-1005 | a bracketed text reads back as what was put between the brackets |
| Nodes.EntriesOf | mininet/node.py:1005-1006 | comma-free, stripped uuids joined by commas split back into themselves |
| Nodes.ControllerUUIDsOfList | mininet/node.py:999-1007 | a printed list [u1,...,un] of controller UUIDs reads back as those UUIDs |
| Nodes.ControllerUUIDsNotList | mininet/node.py:999-1007 | output that is not a bracketed list gives no controllers |
| Nodes.ControllerUUIDsEmptyList | mininet/node.py:999-1007 | the empty list [] reads as one empty UUID, since split of '' gives [''] |
| Shell.ReadStepSpec | mininet/node.py:153-166 | read(maxbytes) returns at most maxbytes; what it returns followed by what it leaves is the old buffer plus the data read, and the pipe is read only when the buffer holds fewer than maxbytes |
| Shell.LineOf | mininet/node.py:170-177 | no line exactly when the buffer holds no newline, and then the buffer stays; otherwise the line has no newline and line, newline and rest make up the buffer |
| Shell.ReadlineSpec | mininet/node.py:168-177 | the intended readline returns the first line of the buffered text plus the data read, or None with everything kept when there is no newline |
| Shell.ReadlineAsWrittenEmpty | mininet/node.py:168-177 | with an empty buffer readline as written agrees with the intended one |
| Shell.ReadlineAsWrittenDoubles | mininet/node.py:168-177 | with a non-empty buffer readline as written sees the buffer twice, because self.readbuf is loaded before read() empties it |
| Shell.ReadlineAsWrittenExample | mininet/node.py:168-177 | buffer "b" and data "\n": readline as written returns "bb", the intended one "b" |
| Shell.DigitRunDigits | mininet/node.py:246 | the digit run at the front of a text is all digits and is followed by a non-digit or the end |
| Shell.MarkerLen | mininet/node.py:246 | a match of \x01\d+\n at the front is at least three characters long and fits the text |
| Shell.MarkerShape | mininet/node.py:246 | a marker is \x01, then digits, then a newline |
| Shell.FirstMarkerNone | mininet/node.py:247-249 | findall finds no marker exactly when no marker starts at any position |
| Shell.FirstMarkerAt | mininet/node.py:248-250 | markers[0] is the marker at the leftmost position where one starts |
| Shell.MarkerPidValue | mininet/node.py:250 | int( marker[1:] ) is the value of the marker's digits |
| Shell.RemoveMarkers | mininet/node.py:251 | re.sub of the marker by '' never lengthens the text |
| Shell.RemoveMarkersKeeps | mininet/node.py:251 | re.sub of the marker keeps every occurrence of each character that cannot be part of a marker |
| Shell.MarkerSkip | mininet/node.py:246 | a marker holds no character other than \x01, digits and a newline |
| Shell.RemoveMarkersNone | mininet/node.py:247-251 | text without \x01 has no marker and is left as it is |
| Shell.Without | mininet/node.py:258 | replace( chr( 127 ), '' ) leaves no sentinel and keeps every other character |
| Shell.ReplaceOne | mininet/node.py:258 | str.replace of a one-character string by '' drops exactly that character |
| Shell.UnmarkedKeeps | mininet/node.py:245-252 | marker handling keeps every character that cannot be part of a marker |
| Shell.MonitorDone | mininet/node.py:253-258 | monitor() clears waiting exactly when the sentinel occurs in the data |
| Shell.MonitorSentinelCount | mininet/node.py:253-258 | a trailing sentinel is cut off alone and other sentinels stay; without one every sentinel is dropped |
| Shell.MonitorKeeps | mininet/node.py:241-261 | monitor() takes out nothing but markers and sentinels |
| Shell.FirstMarkerAfter | mininet/node.py:247-250 | a found marker means \x01 occurs, and its pid parses |
| Shell.MonitorPid | mininet/node.py:246-252 | monitor() sets lastPid exactly when a marker occurs, to the pid of the first one |
| Shell.FirstMarkerSkip | mininet/node.py:248-250 | text without \x01 in front does not change the first marker |
| Shell.HandshakeMarker | mininet/node.py:246 | \x01, digits and a newline make a marker of exactly that length |
| Shell.MonitorReadsHandshake | mininet/node.py:246-252 | after output free of \x01, the handshake \x01pid\n is read back as lastPid = pid |
| Shell.MonitorReadsLauncherPid | mnexec.c:130-133 | the text mnexec -p prints is read back by monitor() as the launcher's own pid |
| Shell.SendTextErrors | mininet/node.py:200-214 | sendCmd fails its assertion exactly when waiting, and fails on the unbound cmd exactly when called with no arguments |
| Shell.SendTextOk | mininet/node.py:200-231 | the command kept holds a word character, is the joined arguments or echo -n, and the line written is it plus the background or sentinel suffix, prefixed by mnexec -p only when a pid is wanted |
| Shell.DecoratedSpec | mininet/node.py:213-228 | the same for the joined text of the arguments |
| Shell.SendTextNoPrefix | mininet/node.py:220-228 | without printPid, or for a shell builtin, no mnexec -p is added |
| Shell.Loop | mininet/node.py:271-274 | the loop consumes no more chunks than are given |
| Shell.MonitorStepWhole | mininet/node.py:241-261 | with an empty buffer and a chunk that fits one read, one monitor() step returns that chunk's cleaned output, leaves the buffer empty and is still waiting exactly when the chunk has no sentinel |
| Shell.FirstSentinel | mininet/node.py:271-274 | the index the loop stops at is within the chunks |
| Shell.FirstSentinelSpec | mininet/node.py:271-274 | no chunk before that index holds the sentinel, and the chunk at it does |
| Shell.FitTail | mininet/node.py:153-166 | the chunks after a fitting first one still fit one read each |
| Shell.MonitorWhole | mininet/node.py:241-261 | monitor() is a step that hands back each whole chunk's output |
| Shell.LoopWhole | mininet/node.py:263-275 | the loop concatenates each step's output and stops just after the first chunk with the sentinel, or runs out still waiting; without waiting it does nothing |
| Shell.WaitRunChunks | mininet/node.py:263-275 | waitOutput returns the cleaned output of every chunk up to and including the first holding the sentinel, and is still waiting exactly when none holds it |
| Shell.ResumeByStep | mininet/node.py:271-274 | one more step of the loop while waiting |
| Shell.ResumeStep | mininet/node.py:271-274 | one more monitor() call of waitOutput's loop while waiting |
| Shell.ResumeBounds | mininet/node.py:263-275 | the loop starts from empty output and ends when waiting is cleared or the chunks run out |
| UdpBwTest.ReadLine | examples/udpbwtest.py:35-42 | no line exactly when buffer plus data holds no newline, and then everything is kept; otherwise the line has no newline and line, newline and rest make up buffer plus data |
| UdpBwTest.ReadLineFirst | examples/udpbwtest.py:35-42 | a buffer that already holds a line gives that line back whatever is read after it |
| UdpBwTest.LineUnique | examples/udpbwtest.py:39-41 | the text before the first newline and the rest after it are determined by the buffer |
| UdpBwTest.Span | examples/udpbwtest.py:64 | a greedy \d+ or [\d\.]+ takes the longest run of accepted characters |
| UdpBwTest.SpanIs | examples/udpbwtest.py:64 | a run of accepted characters ended by a rejected one or the end is what the greedy repetition takes |
| UdpBwTest.ParseBwTest | examples/udpbwtest.py:63-66 | a match yields a run of digits and two runs of digits and dots |
| UdpBwTest.ParseReport | examples/udpbwtest.py:63-66 | every report line "T s: in I Mbps, out O Mbps..." parses back to its three fields |
| UdpBwTest.ParseSound | examples/udpbwtest.py:63-66 | a line parses only when it is a report line of the fields it yields |
| UdpBwTest.Udpbwtest | examples/udpbwtest.py:96-104 | the monitoring loop's tally is the fold of the per-line step over the lines monitor() yielded |
| UdpBwTest.TallyNext | examples/udpbwtest.py:96-104 | one more line is one more step of the fold on what parsebwtest made of it |
| UdpBwTest.ErrorSticks | examples/udpbwtest.py:101 | once float() has raised, later lines change nothing |
| UdpBwTest.ParsedError | examples/udpbwtest.py:99-101 | a step fails exactly when the tally had failed or the line is a report whose bandwidth float() rejects, and the error is ValueError |
| UdpBwTest.TallyErrorWitness | examples/udpbwtest.py:96-104 | the loop ends in ValueError only after a line float() rejects |
| UdpBwTest.TallyErrorAt | examples/udpbwtest.py:96-104 | a line float() rejects ends the loop in an error |
| UdpBwTest.TallyMeaning | examples/udpbwtest.py:96-104 | without a failed float(), each second's group is that second's samples in arrival order; a second's total is printed exactly once, when its group reaches hostCount entries, and shows the first hostCount samples |
| UdpBwTest.ParsedExplains | examples/udpbwtest.py:99-104 | one parsed line keeps the tally explained by the samples grown by that line's sample |
| UdpBwTest.AppendExplains | examples/udpbwtest.py:102-104 | appending a sample to its second keeps the tally explained by the grown samples |
| UdpBwTest.AppendGroups | examples/udpbwtest.py:102-104 | after the append each second's group is its grown sample list |
| UdpBwTest.AppendTotals | examples/udpbwtest.py:103 | every printed total shows the first hostCount samples of its second, and no second is printed twice |
| UdpBwTest.AppendPrinted | examples/udpbwtest.py:103 | a second has been printed exactly when it has at least hostCount samples, hostCount being positive |
| UdpBwTest.FinalReport | examples/udpbwtest.py:111-113 | the final report has one entry per second, in strictly increasing order, starting at time 0 |
| UdpBwTest.FinalReportCovers | examples/udpbwtest.py:111-113 | the report lists every second once with its group, measured from the earliest second |
| UtiLib.PyList.constructor | mininet/utilib.py:1-5 | a list object holds the given items |
| UtiLib.Reversed | mininet/utilib.py:2 | list.reverse() puts the same elements back to front |
| UtiLib.ReversedTwice | mininet/utilib.py:2-4 | reversing twice restores the list |
| UtiLib.ReversedPop | mininet/utilib.py:2-3 | pop() of the reversed list takes the first element and leaves the rest reversed |
| UtiLib.Popleft | mininet/utilib.py:1-5 | popleft takes the first element off the list and returns its int(); an empty list raises IndexError, and an element int() refuses raises ValueError with the rest of the list left reversed |
| UtiLib.Inttobin | mininet/utilib.py:8-12 | inttobin(power) is 2^power - 1, and 0 when power is not positive |
| UtiLib.CompareSymmetric | mininet/utilib.py:14-18 | compare() does not depend on which network is named first |
| UtiLib.CompareShared | mininet/utilib.py:14-18 | two string ranges that share a point are reported as coinciding |
| UtiLib.CompareWitness | mininet/utilib.py:14-18 | two coinciding ranges, each well ordered, share the later of their starts |
| UtiLib.FillMeaning | mininet/utilib.py:33-35 | int(octet) OR inttobin(k) sets the low k bits and keeps every higher bit |
| UtiLib.Broadcast | mininet/utilib.py:27-37 | the while loop for one network gives the broadcast text of one '.'-field per octet run together, with only the fourth octet filled |
| UtiLib.PairStep | mininet/utilib.py:23-46 | the body of the for loop for one adjacent pair is the pair check of both entries |
| UtiLib.SortStrings | mininet/utilib.py:21 | sort() gives a permutation of the list in non-decreasing string order |
| UtiLib.Networkcheck | mininet/utilib.py:20-48 | networkcheck sorts the list in place and returns the check of its adjacent pairs on the sorted list |
| UtiLib.CheckByStops | mininet/utilib.py:22-48 | a check that reports coincidence or an error names the first pair that did, after pairs that passed |
| UtiLib.CheckByNone | mininet/utilib.py:22-48 | the check gives None exactly when every adjacent pair from the start index on passes |
| UtiLib.CheckStops | mininet/utilib.py:20-48 | networkcheck returns True, or raises, at the first adjacent pair that does so, after pairs that all passed |
| UtiLib.CheckNone | mininet/utilib.py:20-48 | networkcheck returns None exactly when no adjacent pair coincides or raises |
| UtiLib.GetIpBaseFields | mininet/utilib.py:55-60 | a base that parses comes back with index added to its first octet and the other octets and the prefix unchanged; it fails exactly when int() refuses the first octet or an octet or the prefix is missing |
| UtiLib.Rejoin | mininet/utilib.py:59 | four octets and a prefix free of separators split back apart |
| UtiLib.GetIpBaseCompose | mininet/utilib.py:55-60 | bumping the base by i and then by j is bumping it by i + j |
| UtiLib.PairCheckDisjointCoincide | mininet/utilib.py:20-48 | as written, 10.0.0.0/24 and 10.0.1.0/24 share no address, yet are reported as coinciding |
| UtiLib.RunTogetherOrder | mininet/utilib.py:37-46 | the dotted networks of the example sort no later than the run-together broadcasts |
| UtiLib.BroadcastNets | mininet/utilib.py:27-45 | the broadcasts built for 10.0.0.0/24 and 10.0.1.0/24 are 1000255 and 1001255 |
| UtiLib.NetRange | mininet/utilib.py:20-48 | the first address of a network is no greater than its last |
| UtiLib.NetRangeMembers | mininet/utilib.py:20-48 | the range holds exactly the addresses that agree with the network above its host bits |
| UtiLib.MeetIffShared | mininet/utilib.py:14-18 | two networks' ranges meet exactly when some address lies in both |
| UtiLib.IntendedMeetMeaning | mininet/utilib.py:20-48 | the corrected pair step reports coinciding exactly when the two networks share an address |
| UtiLib.IntendedPairErrors | mininet/utilib.py:23-26 | the corrected step fails exactly when an entry does not split in two, a prefix length is no int or outside 0..32, or an address does not parse |
| UtiLib.IntendedDisjoint | mininet/utilib.py:20-48 | under the corrected step 10.0.0.0/24 and 10.0.1.0/24 do not coincide |
| VmBuild.Basename | util/vm/build.py:105 | path.basename is a '/'-free tail of the path, the whole path or the text after its last '/' |
| VmBuild.LastIndex | util/vm/build.py:105-106 | rfind gives the position of the last occurrence, or none when the character does not occur |
| VmBuild.BasenameAfter | util/vm/build.py:105 | the basename of dir/name is name |
| VmBuild.StripExtOf | util/vm/build.py:106 | splitext drops exactly the extension of a stem that does not start with '.' |
| VmBuild.NoSlash | util/vm/build.py:105 | a name without '/' is its own basename |
| VmBuild.PlainVersion | util/vm/build.py:103-106 | an isoURLs default with neither '/' nor '.' is its own version string |
| VmBuild.ServerUrlVersion | util/vm/build.py:69-73 | the version string of a serverURL ISO is the ISO file name without .iso |
| VmBuild.LegacyUrlVersion | util/vm/build.py:75-80 | the version string of a legacyURL ISO is the ISO file name without .iso |
| VmBuild.UrlVersion | util/vm/build.py:103-106 | the version of any URL ending in an ubuntu ISO name is that name without .iso |
| VmBuild.IsoNameShape | util/vm/build.py:71-79 | the ISO name is its stem plus .iso, holds no '/' and starts with 'u' |
| VmBuild.OSVersionUnknown | util/vm/build.py:103-106 | an unknown flavour has version 'unknown' |
| VmBuild.ArchFor | util/vm/build.py:385-399 | archFor yields i386 or x86_64, or exits with status 1 |
| VmBuild.ArchForBasename | util/vm/build.py:387 | only the basename counts: the directories of the path never change the guess |
| VmBuild.ArchForAmd64 | util/vm/build.py:388-389 | amd64 wins even over a 32 in the same name |
| VmBuild.ArchSixtyFour | util/vm/build.py:385-396 | a name with 64 and none of amd64, x86_64, i386, 32 or x86 is x86_64 |
| VmBuild.OvfFor | util/vm/build.py:108-119 | the OVF id fails exactly when archFor does; it is an Ubuntu id exactly when the version names ubuntu, and a 32-bit id exactly for i386 |
| VmBuild.OVFUnknown | util/vm/build.py:108-119 | an unknown flavour whose name still names an architecture gets the generic Linux ids |
| VmBuild.UnknownNotUbuntu | util/vm/build.py:112 | the version 'unknown' does not name ubuntu |
| VmBuild.OVFBionic | util/vm/build.py:82-119 | bionic64server installs Ubuntu 18.04.5 for amd64 and is described as Ubuntu 64-bit, id 94 |
| VmBuild.UbuntuStem | util/vm/build.py:71-79 | every ISO stem names ubuntu |
| VmBuild.FirstFreeLeast | util/vm/build.py:216-225 | the device chosen is the least number in range that the busy test does not rule out, and none exactly when all are ruled out |
| VmBuild.AttachNbd | util/vm/build.py:210-226 | attachNBD makes the image path absolute against the working directory, attaches the first nbd1..nbd62 that pgrep does not find, with modprobe then qemu-nbd on the absolute path, and raises with no command issued when all are found |
| VmBuild.FindNbd | util/vm/build.py:214-226 | the device loop returns the first nbd1..nbd62 pgrep does not find, and NbdError when it finds them all |
| VmBuild.NormCompsAbsolute | util/vm/build.py:212 | normalising the components of an absolute path leaves only plain names: no empty, '.' or '..' component |
| VmBuild.NormCompsAppendPlain | util/vm/build.py:212 | plain components after any others are kept as they are by normalisation |
| VmBuild.NormPathOfNormal | util/vm/build.py:212 | normpath leaves a path of one slash and plain components unchanged |
| VmBuild.AbsPathNormal | util/vm/build.py:212 | abspath against an absolute directory, or of an absolute path, is one or two slashes followed by plain components |
| VmBuild.AbsPathOfAbsolute | util/vm/build.py:212 | abspath leaves a normal absolute path unchanged, whatever the working directory |
| VmBuild.AbsPathOfRelative | util/vm/build.py:212 | abspath of a relative path of plain names in a normal directory appends the names to the directory |
| VmBuild.AttachLowest | util/vm/build.py:210-226 | the device attachNBD picks is the lowest one no process mentions; it raises exactly when all 62 are mentioned |
| VmBuild.PgrepShadow | util/vm/build.py:216-221 | device 1 is skipped whenever one of nbd10..nbd19 is in use, though no process names nbd1, while the intended exact test picks it |
| VmBuild.DeviceNumber | util/vm/build.py:217-218 | different device numbers name different devices |
| VmBuild.AttachExactLowest | util/vm/build.py:210-226 | under the exact test the choice is the lowest device no process names, and the exception comes only when all 62 are named |
| VmBuild.TestDictKeys | util/vm/build.py:991-999 | a key is in testDict exactly when key + 'Test' is a function of the module, and maps to it |
| VmBuild.DefaultTests | util/vm/build.py:1071-1072 | with no -t, -r or -p option the tests are sanity and core; otherwise the -t list as given |
| VmBuild.DefaultTestsKnown | util/vm/build.py:1071-1072 | the default tests are tests the module defines |
| VmBuild.Two | util/vm/build.py:847 | each strftime field is two digits without '-' |
| VmBuild.BuildDirSplit | util/vm/build.py:847-851 | splitting the build directory name at '-' gives back mn, the branch, the flavour and the date fields when neither holds '-' |
| VmBuild.BuildDirJoin | util/vm/build.py:847-851 | the build directory name is its pieces joined by '-' |
| VmBuild.DateJoin | util/vm/build.py:847 | the date string is its fields joined by '-' |
| WebService.FormatResults | www/webservice.py:93-99 | format_results passes res and err through and sets the error flag exactly when err is truthy |
| WebService.FirstFailing | www/webservice.py:236-239 | no message exactly when no check fails; otherwise the message of the first check that fails |
| WebService.RunChecks | www/webservice.py:236-239 | the check loop stops at the first check that fails and returns its message |
| WebService.CheckParam | www/webservice.py:198-242 | one turn of the wrapper's loop gives the parameter's value, or the failure that ends the loop |
| WebService.ValidateParams | www/webservice.py:192-247 | the handler is called exactly when every parameter passes, with each parameter's value; otherwise the reply is the failure of a failing parameter |
| WebService.AbsentTakesDefault | www/webservice.py:201-202 | a parameter the request lacks takes its default when no type converts it |
| WebService.PresentPassedOn | www/webservice.py:202-242 | a parameter the request carries is passed on as given when no type converts it |
| WebService.PassedShape | www/webservice.py:205-233 | a required parameter that passes is not None; an integer one is an int and a string one a string |
| Text.Repr | www/webservice.py:224-227 | the ValueError text quotes the value as Python 2's repr does: double quotes exactly when it holds a single quote and no double one, single quotes otherwise |
| Text.ReprPlain | www/webservice.py:224-227 | a printable value without quotes or backslashes appears in the message as itself between single quotes |
| WebService.IntShown | www/webservice.py:224-227 | int()'s message quotes a text holding a NUL whole, and any other from its first non-white character, cut to 200 characters |
| WebService.IntErrorPlain | www/webservice.py:224-227 | a short printable value without quotes, backslashes or leading white space appears in the message as itself between single quotes |
| WebService.IntErrorCut | www/webservice.py:224-227 | past 200 characters the message is that of the first 200 |
| Text.ListRepr | mininet/util.py:477-479 | the repr of a list is bracketed, and "[]" exactly for an empty one |
| Text.ListReprPlain2 | mininet/util.py:477-479 | two plain names are listed as ['a', 'b'] |
| WebService.RepliesAreErrors | www/webservice.py:205-239 | every reply the wrapper writes itself, and every reply of a check with a non-empty message, is flagged as an error |
| WebService.Descrs | www/webservice.py:172-180 | the __descr__ of each check, in order |
| WebService.HelpParamOf | www/webservice.py:162-182 | a parameter's help record has its name and required flag, pattern, type and check descriptions exactly when given; none when a check lacks __descr__ |
| WebService.HelpParamsNames | www/webservice.py:184 | the help list has one record per parameter, the i-th for the i-th name in sorted order |
| WebService.HelpParamsSorted | www/webservice.py:184 | the help list is in strictly increasing name order |
| WebService.HelpParamsCover | www/webservice.py:161-184 | the help list names every parameter and nothing else |
| WebService.HelpParamsOwn | www/webservice.py:161-184 | each help record is that of its own parameter |
| WebService.HelpParamFor | www/webservice.py:162-182 | one turn of the help loop builds the parameter's record, or none where a check lacks __descr__ |
| WebService.BuildHelp | www/webservice.py:161-184 | the parameter loop and the sort give the sorted help records exactly when every check is described |
| WebService.KeyListCovers | www/webservice.py:161 | a list holding each key of the dictionary once names exactly its keys |
| WebService.Collect | www/webservice.py:161-182 | the loop over the keys builds each parameter's record, or stops when a check lacks __descr__ |
| WebService.ByName | www/webservice.py:184 | the records taken in sorted name order are the sorted help list |
| WebService.WebState.constructor | www/webservice.py:77-78 | the service starts at server index 0 with an empty method list |
| WebService.WebState.GetNextServer | www/webservice.py:83-88 | get_next_server returns the server at the index modulo the number of servers and moves the index on; with no servers it raises ZeroDivisionError and nothing changes |
| WebService.WebState.CreateMethodHelpObj | www/webservice.py:142-186 | without method_name or method_description the process exits with status 1; otherwise the method's entry holds the description and the sorted parameters, and no other entry changes |
| WebService.WebState.Register | www/webservice.py:157-186 | the method's entry is remade from the description and the validators, or begun and the process exits when a check lacks __descr__ |
| WebService.Slot | www/webservice.py:85 | the position a call reads is within the server list |
| WebService.Handed | www/webservice.py:83-88 | k calls hand out the servers at successive positions modulo the number of servers |
| WebService.Turn | www/webservice.py:85 | the call that reads a given position is among the next n |
| WebService.RoundRobinFair | www/webservice.py:83-88 | any n consecutive calls read each of the n servers exactly once |
| WebService.Conv | www/webservice.py:445-448 | a value int() accepts becomes that int, any other stays text |
| WebService.FieldOf | www/webservice.py:438-448 | a field is blank exactly when it strips to nothing, has no '=' exactly when its stripped text lacks one, and otherwise splits into a key without '=' and its value |
| WebService.StatsErrSticky | www/webservice.py:437-454 | an exception raised on a prefix of the fields is the outcome of the whole loop |
| WebService.ParseStatsAndMatches | www/webservice.py:434-455 | parse_stats_and_matches is the loop over its comma-separated fields |
| WebService.StatsPass | www/webservice.py:438-454 | one pass of the loop places one field, or raises |
| WebService.LastKVFound | www/webservice.py:437-454 | a key has a last value exactly when some field assigns it |
| WebService.LastKVLatest | www/webservice.py:437-454 | the value kept for a key is that of a field assigning it that no later field overrides |
| WebService.PlacedInit | www/webservice.py:435 | the starting stats, with empty matches, place the empty field list |
| WebService.StepPlaced | www/webservice.py:438-454 | one more field keeps each key at its last value |
| WebService.LastKVSnoc | www/webservice.py:437-454 | a new field overrides just the key it assigns |
| WebService.SlotLeaf | www/webservice.py:450-454 | stats['matches'] is a plain value exactly when a field set 'matches' while it is not a match field |
| WebService.StepOk | www/webservice.py:438-454 | a field raises exactly when it lacks a value or is a match field after 'matches' became a plain value, with IndexError or TypeError |
| WebService.NoNewPoison | www/webservice.py:450-451 | a field that is not a match field, or one that no 'matches' field precedes, does not make a later match field raise |
| WebService.StatsOutcome | www/webservice.py:434-455 | parse_stats_and_matches returns exactly when every field has a value and no match field follows one that made stats['matches'] plain, raising IndexError or TypeError otherwise; it holds each key's last value, match fields under matches |
| WebService.ActionOf | www/webservice.py:459-474 | a field gives an action exactly when its stripped text holds ':', keyed by the text before the first ':' |
| WebService.ActionsOf | www/webservice.py:459-474 | the loop gives at most one action per field |
| WebService.ParseActions | www/webservice.py:457-476 | parse_actions is the loop over its comma-separated fields, in order |
| WebService.ActionsFromFields | www/webservice.py:459-474 | every action comes from a field, and every field with ':' gives one |
| WebService.ActionOfText | www/webservice.py:459-474 | the text key:n of a plain key and an integer reads back as that action |
| WebService.ActionsOfAll | www/webservice.py:459-474 | texts that each give one action give those actions in order |
| WebService.ActionsRoundTrip | www/webservice.py:457-476 | parse_actions inverts the key:value,... text of actions with plain keys and integer values |

## Left out

### Replaced by parameters
- Processes, pipes and the pseudo-terminal. What os.read returns, what a command prints and what pgrep finds are parameters. os.write is recorded as the list of texts written.
- The kernel side of `mnexec`. fork, setsid, unshare, setns, sched_setscheduler, the fopen of the cgroup task files and execvp are oracle answers in `MnExec.Kernel`. The getopt scan is taken as an already parsed option list, which ends at the first non-option. The usage text is not modelled.
- The clock, sleep and poll. This covers the delay in retry, the two-second sleeps of start_services, the time limit of the udpbwtest monitor and waitReadable's timeout.
- Randomness. RandomPlacer's randrange answer is a parameter, and `Placement.RandomPlace` states that any answer picks a member of servers.
- Files that are read. The rows of nodes.csv and links.csv are parameters, already converted. CsvTopo's `convert`, which turns a value into a float and then an int when it can, is not modelled. The same goes for conf/ofp_dict.xml in www/webservice.py, whose match-field names are a parameter, and for the ISO and image files of util/vm/build.py.
- The host commands of mininet.py. Which checkRun command lines exit with a nonzero status is the set `fails`; quietRun's output is ignored, as in the source. The pid of each node's shell (`pids`) and what a shell lists for `ip link show` (`out`) are parameters. The message moveIntf prints before exit(1) is not modelled.
- The working directory. attachNBD's abspath follows Python's posixpath rules, with the working directory `cwd` as a parameter: join, then normpath, which drops empty and '.' components, lets '..' remove the component before it, and keeps exactly two leading slashes or else one.
- What `ifconfig <name>` prints. An interface's config() brings it up and then reads ifconfig's output for updateIP and for updateMAC. The model takes that output as one text, `shown`, for both reads, and ignores isUp's answer as config() does.
- Code outside these files. isShellBuiltin's builtin list, findServerIP and the regex engine of the validate_params patterns are parameters.

### For other reasons
- Printing and logging. print, info, debug, warn, error and the log file are not modelled; only the control flow they sit in is.
- Floating point. udpbwtest's printTotal sums and averages are left out, and the model keeps the samples a total is printed from. Which texts float() accepts is a predicate or a parameter, as in makeNumeric.
- Dictionary iteration order.
  - When a result depends on it, the model uses a list of pairs in the order given. Examples: the nodes of CsvTopo and the validators of validate_params.
  - `WebService.ValidateParams` names a failing parameter, not the first one in Python's dictionary order.
- Concurrency. The multiprocessing monitor and the poll loops of mininet/net.py and mininet/util.py are left out.
- Interactive and graphical code. do_plot and do_status of the cluster CLI are left out, and so are xterms and the CLI.
- The live-network routes of www/webservice.py. The route handlers call into a running Mininet (add_vlan, ping and the others). Only their shared helpers are modelled.
- Start-up and shut-down effects of Mininet.
  - The model keeps the built flag of build and start, without the effects of starting.
  - configHosts, staticArp, precheck and popen are left out.
  - So are the link set-up, the wait loops and the ping test of the routed control network.
  - Only the switch-address stepping of configureRoutedControlNetwork is modelled.
- The cluster's remote machinery. RemoteMixin, RemoteLink, the SSH checks and addController's eth0 address update are left out. So is the modifiedaddHost wrapper of examples/cluster.py.
- The wrpMininet start and stop overrides of examples/mn-s2.py. They call Mininet.start and stop around start_services and stop_services, and only the two service loops are modelled. MininetRunner and the script's command-line handling are left out too.
- Legacy.TreeNet. It stops at the network it builds: the switch, host and link objects. The legacy Mininet's start-up is not modelled.
- Legacy.TreeNet: depth is a natural number. With a negative depth the source recurses without end when fanout is at least 1, and returns a lone switch when fanout is 0 or less; neither case is modelled.
- Switch subclasses. OVSSwitch, UserSwitch and IVSSwitch differ only in commands run on the host, so only the Switch base class and OVSSwitch.controllerUUIDs are modelled.
- Link option helpers. TCIntf's bandwidth strings with `%f` are left out; the model keeps which commands are issued and under which guards. The TCLink subclass is left out too.
- Object identity. A `Net.NetNode` is compared by a uid field that stands for object identity, so two nodes with the same fields are still distinct (`Net.CreatedDistinct`).
- execed. The modelled files set `Node.execed` only to False (mininet/node.py:137), so the model keeps it as a field that no modelled operation changes.
- do_add_service's return value. It is None, so add_service returns None after a successful add; the model reports that as an accepted outcome.

### Contracts stated weaker than the source promises
- Shell.WaitRunChunks: stated for chunks that each fit one 1024-byte read, read into an empty buffer. A longer chunk is consumed over several monitor calls, and that case is only characterised one step at a time (`Shell.ResumeStep`).
- Shell.ReadlineSpec: the intended readline is stated for the text one read() makes available. A buffer already longer than 1024 bytes is covered by `Shell.ReadStepSpec` step by step, not in one statement.
- WebService.WebState.Register: on the sys.exit path, the model promises only that the method's entry was begun with its description. Python has by then appended some parameter records, but the process ends anyway.
- Nodes.Intf.constructor: config() sends `ifconfig <name> up` and two `ifconfig <name>` commands through node.cmd. The model does not write them to the node's shell, so the shell's state and log afterwards are not stated, and the AssertionError cmd raises on a waiting node is not modelled.
- Nodes.Link.constructor: the same holds for the config() of each of its two interfaces.
- Nodes.AddPair: the same holds for the config() of each of its two interfaces.
- Nodes.NewSwitch: outside a namespace, the shell's state and log after lo's config() are not stated, for the same reason.
- TopoLib.PortKw: a text in a port1 or port2 column is passed as no port, because the model's port map has integer ports only. Python would use the text itself as the port.
- Graph.EdgeListedOnce: edges_iter's order is networkx's dictionary order, which is not modelled. The lemma states only that each edge is listed exactly once.

## Findings

For mininet/net.py:285 the `Net.Mininet` class follows the code as written, through `Net.NodeMacAsWritten`, and `Net.NodeMac` states the intended rule.

| source | as written | input that shows it | evidently intended | confidence | as-written member | corrected member |
|---|---|---|---|---|---|---|
| mininet/util.py:282-289 | netParse binds `ip` only inside `if '/' in ipstr`, then reads it unconditionally | netParse("10.0.0.1") raises UnboundLocalError | a text without '/' gives its address with prefix length 0 | not executed | Addr.NetParseUnbound | Addr.NetParseRoundTrip |
| mininet/util.py:160-172 | retry tests `tries >= retries` after the loop, whether or not the last call succeeded | retries = 1, fn fails once and then succeeds: exit(1) | give up only when every call failed | not executed | Util.RetryGivesUpAfterSuccess | Util.RetryGivesUpIffAllFail |
| mininet/cluster/cli.py:21-25 | colorsFor repeats the palette `max(1, n / 10)` times, with floor division, then cuts the result to n | 15 servers get 10 colours, so zip in do_plot drops five servers | one colour per server, cycling the palette | not executed | ClusterCli.ColorsForAsWrittenShort | ClusterCli.ColorsForShape |
| mininet/node.py:168-177 | `self.readbuf += self.read( 1024 )` loads readbuf before read() empties it, so the old buffer is added twice | buffer "b", data "\n": readline returns "bb" | the first line of the buffered text, each byte once | not executed | Shell.ReadlineAsWrittenExample | Shell.ReadlineSpec |
| mininet/utilib.py:20-48 | networkcheck fills only the fourth octet, runs the octets together without dots, and compares the result as text with dotted networks | ["10.0.0.0/24", "10.0.1.0/24"] is reported as coinciding | report two networks only when they share an address | not executed | UtiLib.PairCheckDisjointCoincide | UtiLib.IntendedDisjoint |
| util/vm/build.py:216-221 | `pgrep -f nbdN` matches any command line containing nbdN, including nbd1N | only nbd12 in use: nbd1 is skipped | attach the lowest device no process uses | not executed | VmBuild.PgrepShadow | VmBuild.AttachExactLowest |
| mininet/net.py:285 | `if self.setMacs` tests the bound method, which is always true | Mininet with autoSetMacs=False still gives hosts a MAC from their id | `if self.autoSetMacs` | not executed | Net.SetMacsAlwaysOn | Net.NodeMac |
