// WebService (www/webservice.py): the round-robin choice of a server, the
// envelope every route answers with, the help table and the parameter
// validation that @validate_params sets up, and the two parsers of the
// `dpctl dump-flows` text.
module WebService {
  import opened Wrappers
  import opened Text
  import opened Util

  // ------------------------------------------------------------ format_results

  /** The dictionary format_results builds: 'results', 'error' and 'error_msg'. */
  datatype Response<R> = Response(results: R, error: bool, errorMsg: Option<string>)

  /** Python truthiness of err: None and '' are false. */
  predicate Truthy(err: Option<string>) {
    err.Some? && err.value != ""
  }

  /** format_results(res, err): err passed through, error set exactly when err is truthy. */
  function FormatResults<R>(res: R, err: Option<string>): (r: Response<R>)
    ensures r.results == res && r.errorMsg == err
    ensures r.error <==> Truthy(err)
  {
    Response(res, if Truthy(err) then true else false, err)
  }

  // ------------------------------------------------------------ parameter values

  /** A parameter value: None, a str (as the request carries it), an int
      or a bool (a default such as raw's False). */
  datatype PVal = NoneV | PStr(s: string) | PInt(i: int) | PBool(b: bool)

  /** str(value). */
  function PyStr(v: PVal): string {
    match v
      case NoneV => "None"
      case PStr(s) => s
      case PInt(i) => IntToDec(i)
      case PBool(b) => if b then "True" else "False"
  }

  /** A special check: its __descr__, if set, and its verdict on a value, (failed, message). */
  datatype Check = Check(descr: Option<string>, run: PVal -> (bool, string))

  /**
   * The validator dictionary of one parameter. An absent 'required' is
   * false, an absent 'pattern' or 'type' is '' (false either way), absent
   * 'checks' is [], an absent 'default' is None.
   */
  datatype Validator = Validator(required: bool, pattern: string, typ: string, checks: seq<Check>, default: PVal)

  /** How a parameter fails: an error reply (format_results(None, msg)) or an exception nobody catches. */
  datatype Fail = Reply(msg: string) | Crash(exc: Exc)

  /** request.params.get(param, default). */
  function Lookup(p: string, v: Validator, params: map<string, string>): PVal {
    if p in params then PStr(params[p]) else v.default
  }

  /**
   * The message of the ValueError Python 2's int() raises on text that is
   * not a number. A text holding a NUL is quoted whole; any other is quoted
   * from its first non-white character and cut to 200 characters.
   */
  function IntError(s: string): string {
    "invalid literal for int() with base 10: " + Repr(IntShown(s))
  }

  /** The part of s that int()'s ValueError quotes. */
  function IntShown(s: string): (r: string)
    ensures '\0' in s ==> r == s
    ensures '\0' !in s ==> |r| == (if |LStrip(s)| <= 200 then |LStrip(s)| else 200)
    ensures '\0' !in s ==> r == LStrip(s)[..|r|]
  {
    if '\0' in s then s
    else var t := LStrip(s); if |t| <= 200 then t else t[..200]
  }

  /** A value of at most 200 printable characters, not starting with white
      space and without quotes or backslashes, is quoted as itself. */
  lemma IntErrorPlain(s: string)
    requires |s| <= 200 && (s == [] || !IsSpace(s[0]))
    requires forall i :: 0 <= i < |s| ==> ' ' <= s[i] <= '~' && s[i] != '\'' && s[i] != '\\'
    ensures IntError(s) == "invalid literal for int() with base 10: '" + s + "'"
  {
    ReprPlain(s);
  }

  /** Past 200 characters only the first 200 are quoted. */
  lemma IntErrorCut(s: string)
    requires '\0' !in s && |s| > 200 && !IsSpace(s[0])
    ensures IntError(s) == IntError(s[..200])
  {
    assert s[..200][0] == s[0];
    assert forall i :: 0 <= i < 200 ==> s[..200][i] == s[i];
  }

  /** The 'type' conversion: str() for 'string', int() for 'integer', nothing for other types. */
  function Convert(typ: string, value: PVal): Result<PVal, Fail> {
    if typ == "string" then Ok(PStr(PyStr(value)))
    else if typ == "integer" then
      match value
        case PInt(_) => Ok(value)
        case PStr(s) =>
          (match PyInt(s)
            case Some(n) => Ok(PInt(n))
            case None => Err(Reply("Error converting " + s + " to integer: " + IntError(s))))
        case PBool(b) => Ok(PInt(if b then 1 else 0))
        case NoneV =>
          Err(Reply("Error converting None to integer: int() argument must be a string or a number, not 'NoneType'"))
    else Ok(value)
  }

  /** The message of the first check that fails on value, if one does. */
  function FirstFailing(checks: seq<Check>, value: PVal): (r: Option<string>)
    ensures r.None? <==> forall i :: 0 <= i < |checks| ==> !checks[i].run(value).0
    ensures r.Some? ==> exists i :: (0 <= i < |checks| && checks[i].run(value) == (true, r.value)
      && forall j :: 0 <= j < i ==> !checks[j].run(value).0)
    decreases |checks|
  {
    if checks == [] then None
    else if checks[0].run(value).0 then Some(checks[0].run(value).1)
    else
      var r := FirstFailing(checks[1..], value);
      if r.Some? then
        ghost var i :| 0 <= i < |checks[1..]| && checks[1..][i].run(value) == (true, r.value)
          && forall j :: 0 <= j < i ==> !checks[1..][j].run(value).0;
        assert checks[i + 1].run(value) == (true, r.value);
        assert forall j :: 0 <= j < i + 1 ==> !checks[j].run(value).0 by {
          forall j | 0 <= j < i + 1 ensures !checks[j].run(value).0 {
            if j > 0 { assert checks[j] == checks[1..][j - 1]; }
          }
        }
        r
      else
        assert forall i :: 0 <= i < |checks| ==> !checks[i].run(value).0 by {
          forall i | 0 <= i < |checks| ensures !checks[i].run(value).0 {
            if i > 0 { assert checks[i] == checks[1..][i - 1]; }
          }
        }
        r
  }

  /**
   * What the wrapper makes of one parameter: a missing required value, a
   * pattern mismatch, a failed int() or the first failing check is a reply;
   * re.match on a non-string default raises TypeError; otherwise the
   * (converted) value.
   */
  function ParamOutcome(p: string, v: Validator, params: map<string, string>, rx: (string, string) -> bool): Result<PVal, Fail> {
    var value := Lookup(p, v, params);
    if v.required && value.NoneV? then Err(Reply("Parameter, " + p + ", is required"))
    else if value.NoneV? then Ok(NoneV)
    else if v.pattern != "" && !value.PStr? then Err(Crash(TypeError))
    else if v.pattern != "" && !rx(v.pattern, value.s) then
      Err(Reply("Parameter, " + p + ", must match pattern, " + v.pattern))
    else
      match Convert(v.typ, value)
        case Err(f) => Err(f)
        case Ok(w) =>
          match FirstFailing(v.checks, w)
            case Some(m) => Err(Reply(m))
            case None => Ok(w)
  }

  /** `for check in checks`: stop at the first check that fails. */
  method RunChecks(checks: seq<Check>, value: PVal) returns (r: Option<string>)
    ensures r == FirstFailing(checks, value)
  {
    var k := 0;
    while k < |checks|
      invariant 0 <= k <= |checks|
      invariant FirstFailing(checks, value) == FirstFailing(checks[k..], value)
    {
      var (err, msg) := checks[k].run(value);
      if err {
        return Some(msg);
      }
      assert checks[k..][1..] == checks[k + 1..];
      k := k + 1;
    }
    r := None;
  }

  /** One turn of the wrapper's loop: the value of param, or the failure that ends the loop. */
  method CheckParam(p: string, v: Validator, params: map<string, string>, rx: (string, string) -> bool)
    returns (r: Result<PVal, Fail>)
    ensures r == ParamOutcome(p, v, params, rx)
  {
    var value := if p in params then PStr(params[p]) else v.default;
    if v.required && value.NoneV? {
      return Err(Reply("Parameter, " + p + ", is required"));
    }
    if !value.NoneV? {
      if v.pattern != "" {
        if !value.PStr? {
          return Err(Crash(TypeError));
        }
        if !rx(v.pattern, value.s) {
          return Err(Reply("Parameter, " + p + ", must match pattern, " + v.pattern));
        }
      }
      if v.typ == "string" {
        value := PStr(PyStr(value));
      }
      if v.typ == "integer" && value.PStr? {
        var n := PyInt(value.s);
        if n.None? {
          return Err(Reply("Error converting " + value.s + " to integer: " + IntError(value.s)));
        }
        value := PInt(n.value);
      }
      if v.typ == "integer" && value.PBool? {
        value := PInt(if value.b then 1 else 0);
      }
      var failed := RunChecks(v.checks, value);
      if failed.Some? {
        return Err(Reply(failed.value));
      }
    }
    r := Ok(value);
  }

  /**
   * The wrapper of validate_params. The handler is called (Ok) exactly when
   * every parameter passes, with each parameter's value, a default standing
   * in for one the request lacks. Otherwise the answer is the failure of
   * one failing parameter: the first in the dictionary's (unmodelled) order.
   */
  method ValidateParams(validators: map<string, Validator>, params: map<string, string>, rx: (string, string) -> bool)
    returns (r: Result<map<string, PVal>, Fail>)
    ensures r.Ok? <==> forall p :: p in validators ==> ParamOutcome(p, validators[p], params, rx).Ok?
    ensures r.Ok? ==> (r.value.Keys == validators.Keys
      && forall p :: p in validators ==> ParamOutcome(p, validators[p], params, rx) == Ok(r.value[p]))
    ensures r.Err? ==> exists p :: p in validators && ParamOutcome(p, validators[p], params, rx) == Err(r.error)
  {
    var args: map<string, PVal> := map[];
    var rest := validators.Keys;
    while rest != {}
      invariant rest <= validators.Keys
      invariant args.Keys == validators.Keys - rest
      invariant forall p :: p in args ==> ParamOutcome(p, validators[p], params, rx) == Ok(args[p])
      decreases |rest|
    {
      var p :| p in rest;
      var outcome := CheckParam(p, validators[p], params, rx);
      if outcome.Err? {
        return Err(outcome.error);
      }
      var value := outcome.value;
      args := args[p := value];
      rest := rest - {p};
    }
    r := Ok(args);
  }

  /** A parameter the request lacks takes its default, when no 'type' converts it. */
  lemma AbsentTakesDefault(p: string, v: Validator, params: map<string, string>, rx: (string, string) -> bool)
    requires p !in params && v.typ != "string" && v.typ != "integer"
    requires ParamOutcome(p, v, params, rx).Ok?
    ensures ParamOutcome(p, v, params, rx).value == v.default
  {
  }

  /** A parameter the request carries is passed on as given, when no 'type' converts it. */
  lemma PresentPassedOn(p: string, v: Validator, params: map<string, string>, rx: (string, string) -> bool)
    requires p in params && v.typ != "string" && v.typ != "integer"
    requires ParamOutcome(p, v, params, rx).Ok?
    ensures ParamOutcome(p, v, params, rx).value == PStr(params[p])
  {
  }

  /** A required parameter that passes is not None; an 'integer' one is an int. */
  lemma PassedShape(p: string, v: Validator, params: map<string, string>, rx: (string, string) -> bool)
    requires ParamOutcome(p, v, params, rx).Ok?
    ensures v.required ==> !ParamOutcome(p, v, params, rx).value.NoneV?
    ensures v.typ == "integer" ==> ParamOutcome(p, v, params, rx).value.NoneV? || ParamOutcome(p, v, params, rx).value.PInt?
    ensures v.typ == "string" ==> ParamOutcome(p, v, params, rx).value.NoneV? || ParamOutcome(p, v, params, rx).value.PStr?
  {
  }

  /**
   * Every reply the wrapper writes itself, and every reply of a check with a
   * non-empty message, is flagged as an error by format_results.
   */
  lemma RepliesAreErrors(p: string, v: Validator, params: map<string, string>, rx: (string, string) -> bool)
    requires ParamOutcome(p, v, params, rx).Err? && ParamOutcome(p, v, params, rx).error.Reply?
    requires forall i, x :: 0 <= i < |v.checks| && v.checks[i].run(x).0 ==> v.checks[i].run(x).1 != ""
    ensures FormatResults(NoneV, Some(ParamOutcome(p, v, params, rx).error.msg)).error
  {
    var value := Lookup(p, v, params);
    if !(v.required && value.NoneV?) && !value.NoneV? && !(v.pattern != "" && !rx(v.pattern, value.s)) {
      var c := Convert(v.typ, value);
      if c.Ok? {
        var f := FirstFailing(v.checks, c.value);
        var i :| 0 <= i < |v.checks| && v.checks[i].run(c.value) == (true, f.value)
          && forall j :: 0 <= j < i ==> !v.checks[j].run(c.value).0;
      }
    }
  }

  // ------------------------------------------------------------ create_method_help_obj

  /** The /help description of one parameter; pattern, type and checks only when set. */
  datatype HelpParam = HelpParam(name: string, required: bool, pattern: Option<string>, typ: Option<string>,
                                 checks: Option<seq<string>>)

  /** method_list[method_name]: its description and its parameters. */
  datatype HelpEntry = HelpEntry(description: string, parameters: seq<HelpParam>)

  /** Every check has a __descr__. */
  predicate Described(checks: seq<Check>) {
    forall i :: 0 <= i < |checks| ==> checks[i].descr.Some?
  }

  /** The __descr__ of each check, in order. */
  function Descrs(checks: seq<Check>): (r: seq<string>)
    requires Described(checks)
    ensures |r| == |checks| && forall i :: 0 <= i < |checks| ==> Some(r[i]) == checks[i].descr
  {
    seq(|checks|, i requires 0 <= i < |checks| && Described(checks) => checks[i].descr.value)
  }

  /** The help record of parameter p, or None when one of its checks lacks __descr__ (sys.exit(1)). */
  function HelpParamOf(p: string, v: Validator): (r: Option<HelpParam>)
    ensures r.Some? <==> Described(v.checks)
    ensures r.Some? ==> (r.value.name == p && r.value.required == v.required
      && (r.value.pattern.Some? <==> v.pattern != "") && (r.value.pattern.Some? ==> r.value.pattern.value == v.pattern)
      && (r.value.typ.Some? <==> v.typ != "") && (r.value.typ.Some? ==> r.value.typ.value == v.typ)
      && (r.value.checks.Some? <==> v.checks != [])
      && (r.value.checks.Some? ==> r.value.checks.value == Descrs(v.checks)))
  {
    if !Described(v.checks) then None
    else
      Some(HelpParam(p, v.required,
        if v.pattern != "" then Some(v.pattern) else None,
        if v.typ != "" then Some(v.typ) else None,
        if v.checks != [] then Some(Descrs(v.checks)) else None))
  }

  /** Every parameter's checks carry a __descr__. */
  predicate AllDescribed(vs: map<string, Validator>) {
    forall p :: p in vs ==> Described(vs[p].checks)
  }

  /** The parameter list of a help entry: one record per parameter, sorted by name. */
  ghost function HelpParams(vs: map<string, Validator>): (r: seq<HelpParam>)
    requires AllDescribed(vs)
  {
    var names := SortedKeys(vs.Keys);
    seq(|names|, i requires 0 <= i < |names| && AllDescribed(vs) =>
      assert names[i] in vs;
      HelpParamOf(names[i], vs[names[i]]).value)
  }

  /** The i-th help record is that of the i-th name in sorted order. */
  lemma HelpParamsNames(vs: map<string, Validator>)
    requires AllDescribed(vs)
    ensures |HelpParams(vs)| == |vs|
    ensures forall i :: 0 <= i < |vs| ==> HelpParams(vs)[i].name == SortedKeys(vs.Keys)[i]
  {
    var names := SortedKeys(vs.Keys);
    forall i | 0 <= i < |names| ensures HelpParams(vs)[i].name == names[i] {
      assert names[i] in vs;
    }
  }

  /** The help list is in strictly increasing name order. */
  lemma HelpParamsSorted(vs: map<string, Validator>)
    requires AllDescribed(vs)
    ensures forall i, j :: 0 <= i < j < |HelpParams(vs)| ==> StrLess(HelpParams(vs)[i].name, HelpParams(vs)[j].name)
  {
    HelpParamsNames(vs);
  }

  /** The help list names every parameter, and each record is that parameter's own. */
  lemma HelpParamsCover(vs: map<string, Validator>)
    requires AllDescribed(vs)
    ensures var ps := HelpParams(vs);
      forall p :: p in vs <==> exists i :: 0 <= i < |ps| && ps[i].name == p
  {
    var names := SortedKeys(vs.Keys);
    var ps := HelpParams(vs);
    HelpParamsNames(vs);
    forall p | p in vs ensures exists i :: 0 <= i < |ps| && ps[i].name == p {
      assert p in names;
      var i :| 0 <= i < |names| && names[i] == p;
      assert ps[i].name == p;
    }
  }

  /** Each help record is its own parameter's. */
  lemma HelpParamsOwn(vs: map<string, Validator>)
    requires AllDescribed(vs)
    ensures var ps := HelpParams(vs);
      forall i :: 0 <= i < |ps| ==> ps[i].name in vs && Some(ps[i]) == HelpParamOf(ps[i].name, vs[ps[i].name])
  {
    var names := SortedKeys(vs.Keys);
    var ps := HelpParams(vs);
    HelpParamsNames(vs);
    forall i | 0 <= i < |ps| ensures ps[i].name in vs && Some(ps[i]) == HelpParamOf(ps[i].name, vs[ps[i].name]) {
      assert names[i] in vs;
    }
  }

  /** One turn of the help loop: the parameter's record, None where a check lacks __descr__. */
  method HelpParamFor(p: string, v: Validator) returns (r: Option<HelpParam>)
    ensures r == HelpParamOf(p, v)
  {
    var checks: Option<seq<string>> := None;
    if v.checks != [] {
      var descrs: seq<string> := [];
      for j := 0 to |v.checks|
        invariant |descrs| == j && forall t :: 0 <= t < j ==> v.checks[t].descr == Some(descrs[t])
      {
        if v.checks[j].descr.None? {
          return None;
        }
        descrs := descrs + [v.checks[j].descr.value];
      }
      assert descrs == Descrs(v.checks);
      checks := Some(descrs);
    }
    r := Some(HelpParam(p, v.required,
      if v.pattern != "" then Some(v.pattern) else None,
      if v.typ != "" then Some(v.typ) else None,
      checks));
  }

  /**
   * The loop of create_method_help_obj over the validators, in the
   * dictionary's order, then the sort by name: None where a check lacks
   * __descr__ (sys.exit(1)).
   */
  method BuildHelp(vs: map<string, Validator>) returns (r: Option<seq<HelpParam>>)
    ensures r.Some? <==> AllDescribed(vs)
    ensures r.Some? ==> AllDescribed(vs) && r.value == HelpParams(vs)
  {
    var keys := KeyList(vs);
    KeyListCovers(vs, keys);
    var built := Collect(vs, keys);
    if built.None? {
      return None;
    }
    var names := SortedKeyList(vs);
    ByName(vs, names, built.value);
    r := Some(seq(|names|, i requires 0 <= i < |names| => built.value[names[i]]));
  }

  /** A list holding each key of d once names exactly the keys of d. */
  lemma KeyListCovers<V>(d: map<string, V>, keys: seq<string>)
    requires forall x :: multiset(keys)[x] == if x in d then 1 else 0
    ensures forall q :: q in keys <==> q in d
  {
    forall q ensures q in keys <==> q in d {
      assert multiset(keys)[q] == if q in d then 1 else 0;
    }
  }

  /** The help record of each key in turn, stopping at the first check without __descr__. */
  method Collect(vs: map<string, Validator>, keys: seq<string>) returns (r: Option<map<string, HelpParam>>)
    requires forall q :: q in keys <==> q in vs
    ensures r.None? ==> !AllDescribed(vs)
    ensures r.Some? ==> r.value.Keys == vs.Keys
    ensures r.Some? ==> forall q :: q in r.value ==> HelpParamOf(q, vs[q]) == Some(r.value[q])
  {
    var built: map<string, HelpParam> := map[];
    for i := 0 to |keys|
      invariant forall q :: q in built <==> q in keys[..i]
      invariant forall q :: q in built ==> q in vs && HelpParamOf(q, vs[q]) == Some(built[q])
    {
      var p := keys[i];
      var param := HelpParamFor(p, vs[p]);
      if param.None? {
        assert p in vs && !Described(vs[p].checks);
        return None;
      }
      built := built[p := param.value];
    }
    assert keys[..|keys|] == keys;
    assert built.Keys == vs.Keys by {
      forall q ensures q in built <==> q in vs {
      }
    }
    r := Some(built);
  }

  lemma ByName(vs: map<string, Validator>, names: seq<string>, built: map<string, HelpParam>)
    requires names == SortedKeys(vs.Keys) && built.Keys == vs.Keys
    requires forall q :: q in built ==> HelpParamOf(q, vs[q]) == Some(built[q])
    ensures AllDescribed(vs)
    ensures forall i :: 0 <= i < |names| ==> names[i] in built
    ensures seq(|names|, i requires 0 <= i < |names| && names[i] in built => built[names[i]]) == HelpParams(vs)
  {
    assert AllDescribed(vs) by {
      forall q | q in vs ensures Described(vs[q].checks) {
        assert q in built;
      }
    }
    forall i | 0 <= i < |names| ensures names[i] in built {
      assert names[i] in vs;
    }
  }

  // ------------------------------------------------------------ the module's globals

  /** The globals of webservice.py that its functions update. */
  class WebState {
    /** servers: the server names read from the configuration file. */
    const servers: seq<string>
    /** server_index: how many servers get_next_server has handed out. */
    var serverIndex: nat
    /** method_list: the /help entry of each method, by name. */
    var methodList: map<string, HelpEntry>

    constructor (servers: seq<string>)
      ensures this.servers == servers && serverIndex == 0 && methodList == map[]
    {
      this.servers := servers;
      serverIndex := 0;
      methodList := map[];
    }

    /**
     * get_next_server: the server at server_index modulo the number of
     * servers, then the index moves on. With no server the modulo raises
     * ZeroDivisionError before the index changes.
     */
    method GetNextServer() returns (r: Result<string, Exc>)
      modifies this
      ensures methodList == old(methodList)
      ensures |servers| == 0 ==> r == Err(ZeroDivisionError) && serverIndex == old(serverIndex)
      ensures |servers| > 0 ==> r == Ok(servers[old(serverIndex) % |servers|]) && serverIndex == old(serverIndex) + 1
    {
      if |servers| == 0 {
        return Err(ZeroDivisionError);
      }
      var current := serverIndex % |servers|;
      var server := servers[current];
      serverIndex := serverIndex + 1;
      r := Ok(server);
    }

    /**
     * create_method_help_obj: without method_name or method_description, or
     * with a check that lacks __descr__, the process exits with status 1.
     * Otherwise the method's help entry lists its parameters sorted by name
     * and the validators come back without the two special keys.
     */
    method CreateMethodHelpObj(kw: Kwargs) returns (r: Result<map<string, Validator>, Exc>)
      modifies this
      ensures serverIndex == old(serverIndex)
      ensures kw.name.None? || kw.description.None? ==> r == Err(Exit(1)) && methodList == old(methodList)
      ensures kw.name.Some? && kw.description.Some? ==>
        Registered(old(methodList), methodList, kw.name.value, kw.description.value, kw.validators, r)
    {
      if kw.name.None? {
        return Err(Exit(1));
      }
      if kw.description.None? {
        return Err(Exit(1));
      }
      r := Register(kw.name.value, kw.description.value, kw.validators);
    }

    /** method_list[name] is (re)made from the description and the validators. */
    method Register(name: string, description: string, vs: map<string, Validator>) returns (r: Result<map<string, Validator>, Exc>)
      modifies this
      ensures serverIndex == old(serverIndex)
      ensures Registered(old(methodList), methodList, name, description, vs, r)
    {
      methodList := methodList[name := HelpEntry(description, [])];
      var ps := BuildHelp(vs);
      if ps.None? {
        return Err(Exit(1));
      }
      methodList := methodList[name := HelpEntry(description, ps.value)];
      r := Ok(vs);
    }
  }

  /**
   * How create_method_help_obj leaves method_list: with every check
   * described, the entry for name holds the description and the sorted
   * parameters and the validators come back; otherwise the process exits
   * with status 1, the entry for name begun. No other entry changes.
   */
  ghost predicate Registered(before: map<string, HelpEntry>, after: map<string, HelpEntry>, name: string,
                             description: string, vs: map<string, Validator>, r: Result<map<string, Validator>, Exc>)
  {
    && (r.Ok? <==> AllDescribed(vs))
    && after - {name} == before - {name}
    && name in after && after[name].description == description
    && (r.Ok? ==> r.value == vs && after[name].parameters == HelpParams(vs))
    && (r.Err? ==> r.error == Exit(1))
  }

  /** The keyword arguments of @validate_params: method_name, method_description and the validators. */
  datatype Kwargs = Kwargs(name: Option<string>, description: Option<string>, validators: map<string, Validator>)

  /** The position get_next_server reads on the call made when server_index is start + j. */
  function Slot(start: nat, j: nat, n: nat): (t: nat)
    requires n > 0
    ensures t < n
  {
    (start + j) % n
  }

  /** The servers handed out by k calls made from server_index start onwards. */
  function Handed(servers: seq<string>, start: nat, k: nat): (r: seq<string>)
    requires |servers| > 0
    ensures |r| == k && forall j :: 0 <= j < k ==> r[j] == servers[Slot(start, j, |servers|)]
  {
    seq(k, j requires 0 <= j < k => servers[Slot(start, j, |servers|)])
  }

  /** The call, counted from server_index start, that reads position t. */
  function Turn(start: nat, t: nat, n: nat): (j: nat)
    requires n > 0
    ensures j < n
  {
    (t - start) % n
  }

  /** Any n consecutive calls read each of the n configured positions exactly once. */
  lemma RoundRobinFair(servers: seq<string>, start: nat)
    requires |servers| > 0
    ensures forall t :: 0 <= t < |servers| ==> Slot(start, Turn(start, t, |servers|), |servers|) == t
    ensures forall j1, j2 :: 0 <= j1 < j2 < |servers| ==> Slot(start, j1, |servers|) != Slot(start, j2, |servers|)
  {
    var n := |servers|;
    forall t | 0 <= t < n ensures Slot(start, Turn(start, t, n), n) == t {
      var j := Turn(start, t, n);
      var q := (t - start) / n;
      assert t - start == q * n + j;
      ModUnique(start + j, n, -q, t);
    }
    forall j1, j2 | 0 <= j1 < j2 < n ensures Slot(start, j1, n) != Slot(start, j2, n) {
      var q1, q2 := (start + j1) / n, (start + j2) / n;
      var r1, r2 := (start + j1) % n, (start + j2) % n;
      assert start + j1 == q1 * n + r1;
      assert start + j2 == q2 * n + r2;
      var d := q2 - q1;
      assert r2 - r1 == (j2 - j1) - d * n;
      if d <= 0 {
        assert d * n <= 0;
      } else {
        assert d * n >= n;
      }
    }
  }

  // ------------------------------------------------------------ dump-flows parsers

  /** A field value: the int when int() accepts the text, the text otherwise. */
  datatype FVal = FInt(i: int) | FStr(s: string)

  function Conv(s: string): (v: FVal)
    ensures PyInt(s).Some? ==> v == FInt(PyInt(s).value)
    ensures PyInt(s).None? ==> v == FStr(s)
  {
    match PyInt(s)
      case Some(n) => FInt(n)
      case None => FStr(s)
  }

  // parse_stats_and_matches

  /** One comma-separated field after strip(): empty, without '=', or key and value text. */
  datatype Field = Blank | NoEq | KV(key: string, raw: string)

  function FieldOf(f: string): (r: Field)
    ensures r == Blank <==> Strip(f) == ""
    ensures r == NoEq <==> Strip(f) != "" && '=' !in Strip(f)
    ensures r.KV? ==> '=' !in r.key && StartsWith(Strip(f), r.key + "=" + r.raw)
  {
    var t := Strip(f);
    if t == "" then Blank
    else
      var kvp := Split(t, '=');
      if |kvp| < 2 then
        assert '=' !in t by {
          if '=' in t { SplitSeveral(t, '='); }
        }
        NoEq
      else
        assert '=' in t by {
          if '=' !in t { SplitNoSep(t, '='); }
        }
        SplitTwoParts(t, '=');
        KV(kvp[0], kvp[1])
  }

  /** The dictionary stats maps each key to the nested 'matches' dictionary or to a value. */
  datatype Entry = Nested(m: map<string, FVal>) | Leaf(v: FVal)
  type Stats = map<string, Entry>

  const InitStats: Stats := map["matches" := Nested(map[])]

  /**
   * One pass of the loop: a blank field is skipped, a field without '='
   * raises IndexError on kvp[1], a match key goes into stats['matches']
   * (a TypeError once that is a plain value) and any other key into stats.
   */
  function StatsStep(st: Stats, f: string, ms: set<string>): Result<Stats, Exc> {
    match FieldOf(f)
      case Blank => Ok(st)
      case NoEq => Err(IndexError)
      case KV(k, raw) =>
        if k in ms then
          if "matches" !in st then Err(KeyError("matches"))
          else match st["matches"]
            case Nested(m) => Ok(st["matches" := Nested(m[k := Conv(raw)])])
            case Leaf(_) => Err(TypeError)
        else Ok(st[k := Leaf(Conv(raw))])
  }

  /** The loop of parse_stats_and_matches over the fields, the first exception ending it. */
  function StatsOf(fs: seq<string>, ms: set<string>): Result<Stats, Exc> {
    if fs == [] then Ok(InitStats)
    else match StatsOf(fs[..|fs| - 1], ms)
      case Err(e) => Err(e)
      case Ok(st) => StatsStep(st, fs[|fs| - 1], ms)
  }

  /** An exception raised on a prefix of the fields is the outcome of the whole loop. */
  lemma {:induction false} StatsErrSticky(fs: seq<string>, i: nat, ms: set<string>)
    requires i <= |fs| && StatsOf(fs[..i], ms).Err?
    ensures StatsOf(fs, ms) == StatsOf(fs[..i], ms)
    decreases |fs|
  {
    if i < |fs| {
      var p := fs[..|fs| - 1];
      assert p[..i] == fs[..i];
      StatsErrSticky(p, i, ms);
    } else {
      assert fs[..i] == fs;
    }
  }

  /**
   * parse_stats_and_matches(s): the fields of s.split(','), each stripped,
   * split on '=' and its value converted, placed into stats or
   * stats['matches'] by whether the key names a match field (ms, read from
   * conf/ofp_dict.xml).
   */
  method ParseStatsAndMatches(s: string, ms: set<string>) returns (r: Result<Stats, Exc>)
    ensures r == StatsOf(Split(s, ','), ms)
  {
    var fs := Split(s, ',');
    var stats := InitStats;
    for i := 0 to |fs|
      invariant StatsOf(fs[..i], ms) == Ok(stats)
    {
      assert fs[..i + 1][..i] == fs[..i];
      var next := StatsPass(stats, fs[i], ms);
      if next.Err? {
        StatsErrSticky(fs, i + 1, ms);
        return next;
      }
      stats := next.value;
    }
    assert fs[..|fs|] == fs;
    r := Ok(stats);
  }

  /** The body of the loop of parse_stats_and_matches for one field. */
  method StatsPass(stats: Stats, field: string, ms: set<string>) returns (r: Result<Stats, Exc>)
    ensures r == StatsStep(stats, field, ms)
  {
    var kvpStr := Strip(field);
    if kvpStr == "" {
      return Ok(stats);
    }
    var kvp := Split(kvpStr, '=');
    if |kvp| < 2 {
      return Err(IndexError);
    }
    var v := Conv(kvp[1]);
    if kvp[0] in ms {
      if "matches" !in stats {
        return Err(KeyError("matches"));
      }
      match stats["matches"]
      case Nested(m) =>
        r := Ok(stats["matches" := Nested(m[kvp[0] := v])]);
      case Leaf(_) =>
        r := Err(TypeError);
    } else {
      r := Ok(stats[kvp[0] := Leaf(v)]);
    }
  }

  /** Field i assigns key k. */
  predicate HasKey(f: string, k: string) {
    FieldOf(f).KV? && FieldOf(f).key == k
  }

  /** The value text of the last field that assigns k. */
  function LastKV(fs: seq<string>, k: string): Option<string> {
    if fs == [] then None
    else if HasKey(fs[|fs| - 1], k) then Some(FieldOf(fs[|fs| - 1]).raw)
    else LastKV(fs[..|fs| - 1], k)
  }

  /** LastKV finds a value exactly when some field assigns k. */
  lemma {:induction false} LastKVFound(fs: seq<string>, k: string)
    ensures LastKV(fs, k).Some? <==> exists i :: 0 <= i < |fs| && HasKey(fs[i], k)
  {
    if fs != [] {
      var p := fs[..|fs| - 1];
      LastKVFound(p, k);
      if !HasKey(fs[|fs| - 1], k) {
        assert (exists i :: 0 <= i < |fs| && HasKey(fs[i], k)) <==> exists i :: 0 <= i < |p| && HasKey(p[i], k) by {
          assert forall i :: 0 <= i < |p| ==> p[i] == fs[i];
        }
      }
    }
  }

  /** The value LastKV finds is that of a field assigning k that no later field overrides. */
  lemma {:induction false} LastKVLatest(fs: seq<string>, k: string)
    requires LastKV(fs, k).Some?
    ensures exists i :: (0 <= i < |fs| && HasKey(fs[i], k)
      && FieldOf(fs[i]).raw == LastKV(fs, k).value && forall j :: i < j < |fs| ==> !HasKey(fs[j], k))
  {
    var n := |fs| - 1;
    if !HasKey(fs[n], k) {
      var p := fs[..n];
      LastKVLatest(p, k);
      var i :| (0 <= i < |p| && HasKey(p[i], k)
        && FieldOf(p[i]).raw == LastKV(p, k).value && forall j :: i < j < |p| ==> !HasKey(p[j], k));
      assert fs[i] == p[i];
      forall j | i < j < |fs| ensures !HasKey(fs[j], k) {
        if j < n { assert fs[j] == p[j]; }
      }
    } else {
      assert HasKey(fs[n], k) && FieldOf(fs[n]).raw == LastKV(fs, k).value;
    }
  }

  /** Every field has a value after '=' (else kvp[1] raises IndexError). */
  predicate Wellformed(fs: seq<string>) {
    forall i :: 0 <= i < |fs| ==> FieldOf(fs[i]) != NoEq
  }

  /** A field sets stats['matches'] to a plain value and a later field is a match field. */
  predicate Poisoned(fs: seq<string>, ms: set<string>) {
    exists i, j :: (0 <= i < j < |fs| && "matches" !in ms && HasKey(fs[i], "matches")
      && FieldOf(fs[j]).KV? && FieldOf(fs[j]).key in ms)
  }

  /** The nested dictionary holds the last value of each match field given. */
  ghost predicate MatchesPlaced(m: map<string, FVal>, fs: seq<string>, ms: set<string>) {
    forall k :: (k in m <==> k in ms && LastKV(fs, k).Some?) && (k in m ==> m[k] == Conv(LastKV(fs, k).value))
  }

  /** stats holds each non-match key given, other than 'matches', with its last value, and no match key. */
  ghost predicate PlainPlaced(st: Stats, fs: seq<string>, ms: set<string>) {
    forall k :: k != "matches" ==>
      && (k in ms ==> k !in st)
      && (k !in ms ==> (k in st <==> LastKV(fs, k).Some?))
      && (k !in ms && k in st ==> LastKV(fs, k).Some? && st[k] == Leaf(Conv(LastKV(fs, k).value)))
  }

  /** stats['matches'] is the last plain value given to 'matches', if any, else the nested dictionary. */
  ghost predicate SlotPlaced(st: Stats, fs: seq<string>, ms: set<string>)
    requires "matches" in st
  {
    if "matches" !in ms && LastKV(fs, "matches").Some? then st["matches"] == Leaf(Conv(LastKV(fs, "matches").value))
    else st["matches"].Nested? && MatchesPlaced(st["matches"].m, fs, ms)
  }

  /** What stats holds after the fields fs. */
  ghost predicate Placed(st: Stats, fs: seq<string>, ms: set<string>) {
    "matches" in st && PlainPlaced(st, fs, ms) && SlotPlaced(st, fs, ms)
  }

  lemma PlacedInit(ms: set<string>)
    ensures Placed(InitStats, [], ms)
  {
  }

  /** One more field keeps Placed. */
  lemma StepPlaced(st: Stats, fs: seq<string>, f: string, ms: set<string>)
    requires Placed(st, fs, ms) && StatsStep(st, f, ms).Ok?
    ensures Placed(StatsStep(st, f, ms).value, fs + [f], ms)
  {
    LastKVSnoc(fs, f);
    match FieldOf(f)
    case Blank =>
      PlacedSame(st, fs, fs + [f], ms);
    case KV(k, raw) =>
      if k in ms {
        PlacedMatch(st, fs, f, k, raw, ms);
      } else {
        PlacedPlain(st, fs, f, k, raw, ms);
      }
  }

  lemma LastKVSnoc(fs: seq<string>, f: string)
    ensures forall k :: LastKV(fs + [f], k) == if HasKey(f, k) then Some(FieldOf(f).raw) else LastKV(fs, k)
  {
    assert (fs + [f])[..|fs|] == fs;
  }

  lemma PlacedSame(st: Stats, fs: seq<string>, fs': seq<string>, ms: set<string>)
    requires Placed(st, fs, ms) && forall k :: LastKV(fs', k) == LastKV(fs, k)
    ensures Placed(st, fs', ms)
  {
    assert PlainPlaced(st, fs', ms);
  }

  lemma PlacedMatch(st: Stats, fs: seq<string>, f: string, k: string, raw: string, ms: set<string>)
    requires Placed(st, fs, ms) && FieldOf(f) == KV(k, raw) && k in ms && st["matches"].Nested?
    requires forall q :: LastKV(fs + [f], q) == if q == k then Some(raw) else LastKV(fs, q)
    ensures Placed(st["matches" := Nested(st["matches"].m[k := Conv(raw)])], fs + [f], ms)
  {
    var st' := st["matches" := Nested(st["matches"].m[k := Conv(raw)])];
    assert "matches" in ms || LastKV(fs, "matches").None?;
    assert PlainPlaced(st', fs + [f], ms) by {
      forall q | q != "matches" && q !in ms ensures LastKV(fs + [f], q) == LastKV(fs, q) {
      }
    }
    assert MatchesPlaced(st'["matches"].m, fs + [f], ms);
  }

  lemma PlacedPlain(st: Stats, fs: seq<string>, f: string, k: string, raw: string, ms: set<string>)
    requires Placed(st, fs, ms) && FieldOf(f) == KV(k, raw) && k !in ms
    requires forall q :: LastKV(fs + [f], q) == if q == k then Some(raw) else LastKV(fs, q)
    ensures Placed(st[k := Leaf(Conv(raw))], fs + [f], ms)
  {
    var st' := st[k := Leaf(Conv(raw))];
    var fs' := fs + [f];
    assert PlainPlaced(st', fs', ms) by {
      forall q | q != "matches" && q != k ensures (q in st' <==> q in st) && (q in st ==> st'[q] == st[q]) {
      }
    }
    if k != "matches" {
      assert st'["matches"] == st["matches"];
      assert LastKV(fs', "matches") == LastKV(fs, "matches");
      if !("matches" !in ms && LastKV(fs, "matches").Some?) {
        var m := st["matches"].m;
        assert MatchesPlaced(m, fs', ms) by {
          forall q | q in ms ensures LastKV(fs', q) == LastKV(fs, q) {
          }
        }
      }
    }
  }

  /** stats['matches'] is a plain value exactly when a field set 'matches' while it is not a match field. */
  lemma SlotLeaf(st: Stats, fs: seq<string>, ms: set<string>)
    requires Placed(st, fs, ms)
    ensures st["matches"].Leaf? <==> "matches" !in ms && exists i :: 0 <= i < |fs| && HasKey(fs[i], "matches")
  {
    LastKVFound(fs, "matches");
  }

  /** Which fields the loop survives, given what it has survived so far. */
  lemma StepOk(st: Stats, fs: seq<string>, f: string, ms: set<string>)
    requires "matches" in st && Wellformed(fs) && !Poisoned(fs, ms)
    requires st["matches"].Leaf? <==> "matches" !in ms && exists i :: 0 <= i < |fs| && HasKey(fs[i], "matches")
    ensures StatsStep(st, f, ms).Ok? <==> Wellformed(fs + [f]) && !Poisoned(fs + [f], ms)
    ensures StatsStep(st, f, ms).Err? ==> StatsStep(st, f, ms).error in {IndexError, TypeError}
  {
    var fs' := fs + [f];
    var n := |fs|;
    assert forall i :: 0 <= i < n ==> fs'[i] == fs[i];
    assert fs'[n] == f;
    match FieldOf(f)
    case Blank =>
      NoNewPoison(fs, f, ms);
    case NoEq =>
      assert FieldOf(fs'[n]) == NoEq;
    case KV(k, raw) =>
      if k in ms && st["matches"].Leaf? {
        var i :| 0 <= i < n && HasKey(fs[i], "matches");
        assert HasKey(fs'[i], "matches") && FieldOf(fs'[n]).key in ms;
      } else {
        NoNewPoison(fs, f, ms);
      }
  }

  /** A field that is not a match field, or one that no 'matches' field precedes, adds no poisoning. */
  lemma NoNewPoison(fs: seq<string>, f: string, ms: set<string>)
    requires !Poisoned(fs, ms)
    requires !(FieldOf(f).KV? && FieldOf(f).key in ms) || "matches" in ms || forall i :: 0 <= i < |fs| ==> !HasKey(fs[i], "matches")
    ensures !Poisoned(fs + [f], ms)
  {
    var fs' := fs + [f];
    forall i, j | 0 <= i < j < |fs'| && "matches" !in ms && HasKey(fs'[i], "matches")
      ensures !(FieldOf(fs'[j]).KV? && FieldOf(fs'[j]).key in ms)
    {
      assert fs'[i] == fs[i];
      if j < |fs| {
        assert fs'[j] == fs[j];
        assert !(HasKey(fs[i], "matches") && FieldOf(fs[j]).KV? && FieldOf(fs[j]).key in ms);
      }
    }
  }

  /**
   * parse_stats_and_matches returns exactly when every field has a value
   * and no match field follows a field that made stats['matches'] a plain
   * value; it raises IndexError or TypeError otherwise. The stats it
   * returns hold each key's last value, match fields under 'matches'.
   */
  lemma {:induction false} StatsOutcome(fs: seq<string>, ms: set<string>)
    ensures StatsOf(fs, ms).Ok? <==> Wellformed(fs) && !Poisoned(fs, ms)
    ensures StatsOf(fs, ms).Err? ==> StatsOf(fs, ms).error in {IndexError, TypeError}
    ensures StatsOf(fs, ms).Ok? ==> Placed(StatsOf(fs, ms).value, fs, ms)
  {
    if fs == [] {
      PlacedInit(ms);
    } else {
      var p := fs[..|fs| - 1];
      var f := fs[|fs| - 1];
      assert fs == p + [f];
      StatsOutcome(p, ms);
      match StatsOf(p, ms)
      case Err(e) =>
        assert !Wellformed(fs) || Poisoned(fs, ms) by {
          assert forall i :: 0 <= i < |p| ==> fs[i] == p[i];
          if !Wellformed(p) {
            var i :| 0 <= i < |p| && FieldOf(p[i]) == NoEq;
            assert FieldOf(fs[i]) == NoEq;
          } else {
            var i, j :| (0 <= i < j < |p| && "matches" !in ms && HasKey(p[i], "matches")
              && FieldOf(p[j]).KV? && FieldOf(p[j]).key in ms);
            assert HasKey(fs[i], "matches") && FieldOf(fs[j]).key in ms;
          }
        }
      case Ok(st) =>
        SlotLeaf(st, p, ms);
        StepOk(st, p, f, ms);
        if StatsStep(st, f, ms).Ok? {
          StepPlaced(st, p, f, ms);
        }
    }
  }

  // parse_actions

  /** The one-entry dictionary {kvp[0]: kvp[1]} that parse_actions appends. */
  datatype Action = Action(key: string, value: FVal)

  /** One comma-separated action: skipped without ':', else the text before and between the first colons. */
  function ActionOf(f: string): (r: Option<Action>)
    ensures r.Some? <==> ':' in Strip(f)
    ensures r.Some? ==> ':' !in r.value.key && StartsWith(Strip(f), r.value.key + ":")
  {
    var t := Strip(f);
    var kvp := Split(t, ':');
    if |kvp| < 2 then
      assert ':' !in t by {
        if ':' in t { SplitSeveral(t, ':'); }
      }
      None
    else
      assert ':' in t by {
        if ':' !in t { SplitNoSep(t, ':'); }
      }
      SplitTwoParts(t, ':');
      assert StartsWith(t, kvp[0] + ":") by {
        assert (kvp[0] + [':'] + kvp[1])[..|kvp[0]| + 1] == kvp[0] + ":";
      }
      Some(Action(kvp[0], Conv(kvp[1])))
  }

  /** The loop of parse_actions over the fields. */
  function ActionsOf(fs: seq<string>): (r: seq<Action>)
    ensures |r| <= |fs|
  {
    if fs == [] then []
    else
      ActionsOf(fs[..|fs| - 1]) + match ActionOf(fs[|fs| - 1]) case None => [] case Some(a) => [a]
  }

  /** parse_actions(s): the actions of s.split(','), in order. */
  method ParseActions(s: string) returns (actions: seq<Action>)
    ensures actions == ActionsOf(Split(s, ','))
  {
    var fs := Split(s, ',');
    actions := [];
    for i := 0 to |fs|
      invariant actions == ActionsOf(fs[..i])
    {
      assert fs[..i + 1][..i] == fs[..i];
      var kvpStr := Strip(fs[i]);
      var kvp := Split(kvpStr, ':');
      if |kvp| < 2 {
        continue;
      }
      var v := Conv(kvp[1]);
      actions := actions + [Action(kvp[0], v)];
    }
    assert fs[..|fs|] == fs;
  }

  /** Every action comes from a field, and every field with a ':' gives one. */
  lemma {:induction false} ActionsFromFields(fs: seq<string>)
    ensures forall a :: a in ActionsOf(fs) ==> exists i :: 0 <= i < |fs| && ActionOf(fs[i]) == Some(a)
    ensures forall i :: 0 <= i < |fs| && ActionOf(fs[i]).Some? ==> ActionOf(fs[i]).value in ActionsOf(fs)
  {
    if fs != [] {
      var p := fs[..|fs| - 1];
      ActionsFromFields(p);
      assert forall i :: 0 <= i < |p| ==> fs[i] == p[i];
    }
  }

  /** The text "key:value" of one action with an integer value. */
  function ActionText(key: string, n: int): string {
    key + ":" + IntToDec(n)
  }

  /** A key parse_actions gives back unchanged: no ',' or ':', not starting with white space. */
  predicate PlainKey(key: string) {
    key != [] && !IsSpace(key[0]) && ',' !in key && ':' !in key
  }

  lemma ActionOfText(key: string, n: int)
    requires PlainKey(key)
    ensures ActionOf(ActionText(key, n)) == Some(Action(key, FInt(n)))
  {
    var d := IntToDec(n);
    var t := ActionText(key, n);
    assert t[0] == key[0];
    assert IsDigit(t[|t| - 1]) by {
      assert t[|t| - 1] == d[|d| - 1];
      if n < 0 {
        assert d[|d| - 1] == NatToDec(-n)[|NatToDec(-n)| - 1];
      }
    }
    StripNoSpace(t);
    IntToDecChars(n, ':');
    SplitPrefix(key, d, ':');
    SplitNoSep(d, ':');
    assert t == key + [':'] + d;
    PyIntOfInt(n);
  }

  /** The actions of a list of texts that each give one action. */
  lemma {:induction false} ActionsOfAll(fs: seq<string>, acts: seq<Action>)
    requires |fs| == |acts| && forall i :: 0 <= i < |fs| ==> ActionOf(fs[i]) == Some(acts[i])
    ensures ActionsOf(fs) == acts
  {
    if fs != [] {
      var p, a := fs[..|fs| - 1], acts[..|acts| - 1];
      assert forall i :: 0 <= i < |p| ==> p[i] == fs[i] && a[i] == acts[i];
      ActionsOfAll(p, a);
      assert ActionOf(fs[|fs| - 1]) == Some(acts[|acts| - 1]);
      DropLast(acts);
    }
  }

  /**
   * parse_actions inverts the "key:value,..." text of actions with plain
   * keys and integer values.
   */
  lemma ActionsRoundTrip(keys: seq<string>, values: seq<int>)
    requires |keys| == |values| && forall i :: 0 <= i < |keys| ==> PlainKey(keys[i])
    ensures ActionsOf(Split(Join(seq(|keys|, i requires 0 <= i < |keys| => ActionText(keys[i], values[i])), ','), ','))
      == seq(|keys|, i requires 0 <= i < |keys| => Action(keys[i], FInt(values[i])))
  {
    var parts := seq(|keys|, i requires 0 <= i < |keys| => ActionText(keys[i], values[i]));
    var acts := seq(|keys|, i requires 0 <= i < |keys| => Action(keys[i], FInt(values[i])));
    if parts == [] {
      assert Split(Join(parts, ','), ',') == [""];
      assert ActionsOf([""]) == [];
    } else {
      forall i | 0 <= i < |parts| ensures ',' !in parts[i] && ActionOf(parts[i]) == Some(acts[i]) {
        IntToDecChars(values[i], ',');
        ActionOfText(keys[i], values[i]);
      }
      SplitJoin(parts, ',');
      ActionsOfAll(parts, acts);
    }
  }

  lemma DropLast<T>(s: seq<T>)
    requires s != []
    ensures s == s[..|s| - 1] + [s[|s| - 1]]
  {
  }
}
