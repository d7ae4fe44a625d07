/**
 * The `_run` methods of the five command tools. Each opens its own
 * connection to the router inside a `with` block, talks to it, and turns
 * every exception into an "[ERROR] ..." answer, so that no exception ever
 * reaches the agent.
 *
 * Each tool is a specification function `XRun` (the answer and the exchanges
 * made) and a method that does the work step by step on a `Connection`,
 * proved to do what the function says; the lemmas are about the functions.
 */
module Tools {
  import opened Wrappers
  import opened Text
  import opened Session
  import Version

  /** What a tool call answers the agent, and the exchanges it made with the router. */
  datatype Run = Run(result: string, steps: seq<Step>)

  /** How every error answer starts. */
  const ErrorPrefix := "[ERROR] "

  /** `f"[ERROR] {e}"`. */
  function ErrorText(f: Failure): string {
    ErrorPrefix + f.message
  }

  // ---------------------------------------------------------------------------
  // One command in one session: GetVersion, GetRouteTable, GetRouteProtoState, Ping
  // ---------------------------------------------------------------------------

  /** The reply to the command (or to connecting, when that raised), and the exchanges. */
  datatype Exchange = Exchange(reply: Reply, steps: seq<Step>)

  /**
   * `with ConnectHandler(**DEVICE) as conn: out = conn.send_command(command)`:
   * connect, send the command, and disconnect on leaving the block.
   */
  function QueryExchange(device: Device, command: string): (e: Exchange)
    ensures e.steps != [] && e.steps[0] == Step(Call.Connect, device([], Call.Connect))
    ensures |e.steps| == (if e.steps[0].reply.Raised? then 1 else 3)
  {
    var c := device([], Call.Connect);
    var h := [Step(Call.Connect, c)];
    if c.Raised? then Exchange(c, h)
    else
      var o := device(h, Call.SendCommand(command));
      Exchange(o, h + [Step(Call.SendCommand(command), o), DisconnectStep])
  }

  /**
   * One command in one session: the calls are connect, the command and
   * disconnect, or only connect when that raised; the reply is the one to the
   * command, and the first failure is the reply's.
   */
  lemma QueryExchangeShape(device: Device, command: string)
    ensures var e := QueryExchange(device, command);
            && WithBlock(e.steps)
            && Calls(e.steps) == (if e.steps[0].reply.Raised? then [Call.Connect]
                                  else [Call.Connect, Call.SendCommand(command), Call.Disconnect])
            && (e.steps[0].reply.Done? ==> e.reply == e.steps[1].reply
                                           && e.reply == device(e.steps[..1], Call.SendCommand(command)))
            && FirstFailure(e.steps) == (if e.reply.Raised? then Some(e.reply.failure) else None)
  {
    var c := device([], Call.Connect);
    var s0 := Step(Call.Connect, c);
    if c.Raised? {
      assert QueryExchange(device, command) == Exchange(c, [s0]);
    } else {
      var o := device([s0], Call.SendCommand(command));
      assert QueryExchange(device, command) == Exchange(o, [s0, Step(Call.SendCommand(command), o), DisconnectStep]);
      OneCommandSession(s0, o, command);
    }
  }

  /** The exchanges of a session that connected, sent one command and disconnected. */
  lemma OneCommandSession(s0: Step, o: Reply, command: string)
    requires s0.call == Call.Connect && s0.reply.Done?
    ensures var steps := [s0, Step(Call.SendCommand(command), o), DisconnectStep];
            && WithBlock(steps)
            && Calls(steps) == [Call.Connect, Call.SendCommand(command), Call.Disconnect]
            && steps[..1] == [s0]
            && FirstFailure(steps) == (if o.Raised? then Some(o.failure) else None)
  {
    var steps := [s0, Step(Call.SendCommand(command), o), DisconnectStep];
    assert steps[1..] == [Step(Call.SendCommand(command), o), DisconnectStep];
    if o.Raised? {
      assert FirstFailure(steps[1..]) == Some(o.failure);
    } else {
      assert DisconnectStep.reply.Done?;
    }
  }

  /** The `with` block that sends one command; every tool but IfaceConfig is one. */
  method Query(conn: Connection, command: string) returns (r: Reply)
    requires conn.Valid() && conn.history == [] && !conn.open
    modifies conn
    ensures r == QueryExchange(conn.device, command).reply
    ensures conn.history == QueryExchange(conn.device, command).steps
    ensures conn.Valid() && !conn.open
  {
    r := conn.Connect();
    if r.Raised? {
      return;
    }
    r := conn.SendCommand(command);
    conn.Disconnect();
  }

  /** The command's output, or the error text of what it raised. */
  function Answer(r: Reply): string {
    if r.Done? then r.output else ErrorText(r.failure)
  }

  // GetVersionTool ------------------------------------------------------------

  const VersionCommand := "show version"

  /** `GetVersionTool._run`: the version number extracted from `show version`. */
  function GetVersionRun(device: Device): (run: Run)
    ensures run.steps != [] && run.steps[0].call == Call.Connect
    ensures run.steps[0].reply.Raised? ==> run.result == ErrorText(run.steps[0].reply.failure)
  {
    var e := QueryExchange(device, VersionCommand);
    Run(if e.reply.Done? then Version.VersionOf(e.reply.output) else ErrorText(e.reply.failure), e.steps)
  }

  method GetVersion(conn: Connection) returns (result: string)
    requires conn.Valid() && conn.history == [] && !conn.open
    modifies conn
    ensures result == GetVersionRun(conn.device).result
    ensures conn.history == GetVersionRun(conn.device).steps
    ensures conn.Valid() && !conn.open
  {
    var r := Query(conn, VersionCommand);
    if r.Raised? {
      result := ErrorText(r.failure);
    } else {
      result := Version.ExtractVersion(r.output);
    }
  }

  /**
   * GetVersion sends `show version` alone, in a session closed on every path,
   * and answers the extracted version, or the error text of the first
   * exception.
   */
  lemma GetVersionContract(device: Device)
    ensures var run := GetVersionRun(device);
            && WithBlock(run.steps) && ModeOf(run.steps) == Closed
            && (run.steps[0].reply.Done? ==> Calls(run.steps) == [Call.Connect, Call.SendCommand("show version"), Call.Disconnect])
            && (FirstFailure(run.steps).Some? ==> run.result == ErrorText(FirstFailure(run.steps).value))
            && (FirstFailure(run.steps).None? ==> run.result == Version.VersionOf(run.steps[1].reply.output))
  {
    QueryExchangeShape(device, VersionCommand);
    WithBlockCloses(GetVersionRun(device).steps);
  }

  // GetRouteTableTool ---------------------------------------------------------

  const DefaultProtocol := "ipv4"

  /** `"show ip route" if str(protocol).lower() != "ipv6" else "show ipv6 route"`. */
  function RouteTableCommand(protocol: string): (command: string)
    ensures command == "show ip route" || command == "show ipv6 route"
    ensures command == "show ipv6 route" <==>
              && |protocol| == 4
              && (protocol[0] == 'i' || protocol[0] == 'I') && (protocol[1] == 'p' || protocol[1] == 'P')
              && (protocol[2] == 'v' || protocol[2] == 'V') && protocol[3] == '6'
  {
    LowerIsIpv6(protocol);
    if Lower(protocol) != "ipv6" then "show ip route" else "show ipv6 route"
  }

  /** `GetRouteTableTool._run`: the routing table as the router prints it. */
  function GetRouteTableRun(protocol: string, device: Device): (run: Run)
    ensures run.steps != [] && run.steps[0].call == Call.Connect
    ensures run.steps[0].reply.Raised? ==> run.result == ErrorText(run.steps[0].reply.failure)
  {
    var e := QueryExchange(device, RouteTableCommand(protocol));
    Run(Answer(e.reply), e.steps)
  }

  method GetRouteTable(conn: Connection, protocol: string) returns (result: string)
    requires conn.Valid() && conn.history == [] && !conn.open
    modifies conn
    ensures result == GetRouteTableRun(protocol, conn.device).result
    ensures conn.history == GetRouteTableRun(protocol, conn.device).steps
    ensures conn.Valid() && !conn.open
  {
    var command := if Lower(protocol) != "ipv6" then "show ip route" else "show ipv6 route";
    var r := Query(conn, command);
    result := if r.Done? then r.output else ErrorText(r.failure);
  }

  /**
   * `protocol.lower() == "ipv6"` holds exactly for the sixteen spellings of
   * "ipv6" in any mix of upper and lower case.
   */
  lemma {:induction false} LowerIsIpv6(protocol: string)
    ensures Lower(protocol) == "ipv6" <==>
              && |protocol| == 4
              && (protocol[0] == 'i' || protocol[0] == 'I') && (protocol[1] == 'p' || protocol[1] == 'P')
              && (protocol[2] == 'v' || protocol[2] == 'V') && protocol[3] == '6'
  {
    var l := Lower(protocol);
    if |protocol| == 4 {
      assert l == [l[0], l[1], l[2], l[3]];
      assert "ipv6" == ['i', 'p', 'v', '6'];
    }
  }

  /**
   * GetRouteTable asks for the IPv6 table exactly when the argument is "ipv6"
   * in any case, and for the IPv4 table for every other argument, including
   * its default; it answers the command's output or the error text.
   */
  lemma GetRouteTableContract(protocol: string, device: Device)
    ensures RouteTableCommand(protocol) == "show ipv6 route" <==> Lower(protocol) == "ipv6"
    ensures RouteTableCommand(protocol) == "show ip route" <==> Lower(protocol) != "ipv6"
    ensures RouteTableCommand(DefaultProtocol) == "show ip route"
    ensures var run := GetRouteTableRun(protocol, device);
            && WithBlock(run.steps) && ModeOf(run.steps) == Closed
            && (run.steps[0].reply.Done? ==>
                  Calls(run.steps) == [Call.Connect, Call.SendCommand(RouteTableCommand(protocol)), Call.Disconnect])
            && (FirstFailure(run.steps).Some? ==> run.result == ErrorText(FirstFailure(run.steps).value))
            && (FirstFailure(run.steps).None? ==> run.result == run.steps[1].reply.output)
  {
    LowerIsIpv6(DefaultProtocol);
    QueryExchangeShape(device, RouteTableCommand(protocol));
    WithBlockCloses(GetRouteTableRun(protocol, device).steps);
  }

  // GetRouteProtoStateTool ----------------------------------------------------

  const DefaultProto := "bgp"
  const ProtoError := ErrorPrefix + "proto must be 'bgp' or 'ospf'"

  /** `_cmd_map.get(str(proto).lower())`. */
  function ProtoCommand(proto: string): (command: Option<string>)
    ensures command.None? <==> Lower(proto) != "bgp" && Lower(proto) != "ospf"
    ensures command.Some? ==> "show ip " <= command.value
  {
    var key := Lower(proto);
    if key == "bgp" then Some("show ip bgp summary")
    else if key == "ospf" then Some("show ip ospf neighbor")
    else None
  }

  /** `GetRouteProtoStateTool._run`: the protocol's state, or the usage error. */
  function GetRouteProtoStateRun(proto: string, device: Device): (run: Run)
    ensures run.steps == [] <==> ProtoCommand(proto).None?
    ensures run.steps != [] ==> run.steps[0].call == Call.Connect
    ensures run.steps != [] && run.steps[0].reply.Raised? ==> run.result == ErrorText(run.steps[0].reply.failure)
  {
    match ProtoCommand(proto)
    case None => Run(ProtoError, [])
    case Some(command) =>
      var e := QueryExchange(device, command);
      Run(Answer(e.reply), e.steps)
  }

  method GetRouteProtoState(conn: Connection, proto: string) returns (result: string)
    requires conn.Valid() && conn.history == [] && !conn.open
    modifies conn
    ensures result == GetRouteProtoStateRun(proto, conn.device).result
    ensures conn.history == GetRouteProtoStateRun(proto, conn.device).steps
    ensures conn.Valid() && !conn.open
  {
    var command := ProtoCommand(proto);
    if command.None? {
      return ProtoError;
    }
    var r := Query(conn, command.value);
    result := if r.Done? then r.output else ErrorText(r.failure);
  }

  /**
   * GetRouteProtoState opens no connection and answers the usage error
   * exactly when the argument is neither "bgp" nor "ospf" in any case;
   * otherwise it sends the protocol's command alone.
   */
  lemma GetRouteProtoStateContract(proto: string, device: Device)
    ensures var run := GetRouteProtoStateRun(proto, device);
            && (run.steps == [] <==> Lower(proto) != "bgp" && Lower(proto) != "ospf")
            && (run.steps == [] ==> run.result == ProtoError)
            && (Lower(proto) == "bgp" && run.steps[0].reply.Done? ==>
                  Calls(run.steps) == [Call.Connect, Call.SendCommand("show ip bgp summary"), Call.Disconnect])
            && (Lower(proto) == "ospf" && run.steps[0].reply.Done? ==>
                  Calls(run.steps) == [Call.Connect, Call.SendCommand("show ip ospf neighbor"), Call.Disconnect])
            && (run.steps != [] ==> WithBlock(run.steps) && ModeOf(run.steps) == Closed)
            && (FirstFailure(run.steps).Some? ==> run.result == ErrorText(FirstFailure(run.steps).value))
            && (run.steps != [] && FirstFailure(run.steps).None? ==> run.result == run.steps[1].reply.output)
    ensures ProtoCommand(DefaultProto) == Some("show ip bgp summary")
  {
    var run := GetRouteProtoStateRun(proto, device);
    assert Lower(DefaultProto) == "bgp";
    if ProtoCommand(proto).Some? {
      QueryExchangeShape(device, ProtoCommand(proto).value);
      WithBlockCloses(run.steps);
    }
  }

  // PingTool ------------------------------------------------------------------

  /** `f"ping {target}"`: the target is not checked. */
  function PingCommand(target: string): (command: string)
    ensures |command| == 5 + |target| && command[..5] == "ping " && command[5..] == target
  {
    "ping " + target
  }

  /** `PingTool._run`: the router's ping report. */
  function PingRun(target: string, device: Device): (run: Run)
    ensures run.steps != [] && run.steps[0].call == Call.Connect
    ensures run.steps[0].reply.Raised? ==> run.result == ErrorText(run.steps[0].reply.failure)
  {
    var e := QueryExchange(device, PingCommand(target));
    Run(Answer(e.reply), e.steps)
  }

  method Ping(conn: Connection, target: string) returns (result: string)
    requires conn.Valid() && conn.history == [] && !conn.open
    modifies conn
    ensures result == PingRun(target, conn.device).result
    ensures conn.history == PingRun(target, conn.device).steps
    ensures conn.Valid() && !conn.open
  {
    var r := Query(conn, "ping " + target);
    result := if r.Done? then r.output else ErrorText(r.failure);
  }

  /**
   * Ping sends "ping " followed by the target exactly as given, whatever it
   * is (an empty target included), and answers the router's report or the
   * error text.
   */
  lemma PingContract(target: string, device: Device)
    ensures var run := PingRun(target, device);
            && WithBlock(run.steps) && ModeOf(run.steps) == Closed
            && (run.steps[0].reply.Done? ==>
                  && Calls(run.steps) == [Call.Connect, Call.SendCommand(PingCommand(target)), Call.Disconnect]
                  && PingCommand(target)[..5] == "ping " && PingCommand(target)[5..] == target)
            && (FirstFailure(run.steps).Some? ==> run.result == ErrorText(FirstFailure(run.steps).value))
            && (FirstFailure(run.steps).None? ==> run.result == run.steps[1].reply.output)
  {
    QueryExchangeShape(device, PingCommand(target));
    WithBlockCloses(PingRun(target, device).steps);
  }

  // IfaceConfigTool -----------------------------------------------------------

  /** A parsed IfaceConfig argument: the interface and the state wanted for it. */
  datatype IfaceRequest = IfaceRequest(iface: string, desired: string)

  /** `"shutdown" if action.lower().startswith("shut") else "no shutdown"`. */
  function DesiredState(action: string): (desired: string)
    ensures desired == "shutdown" || desired == "no shutdown"
    ensures desired == "shutdown" <==>
              && |action| >= 4
              && (action[0] == 's' || action[0] == 'S') && (action[1] == 'h' || action[1] == 'H')
              && (action[2] == 'u' || action[2] == 'U') && (action[3] == 't' || action[3] == 'T')
  {
    LowerStartsWithShut(action);
    if "shut" <= Lower(action) then "shutdown" else "no shutdown"
  }

  /**
   * `iface, action = command.split(maxsplit=1)`, which raises `ValueError`
   * (here: `None`) when the argument has fewer than two words.
   */
  function ParseIfaceArg(command: string): (req: Option<IfaceRequest>)
    ensures req.Some? ==> IsWord(req.value.iface)
    ensures req.Some? ==> req.value.desired == "shutdown" || req.value.desired == "no shutdown"
  {
    var parts := SplitOnce(command);
    if |parts| != 2 then None else Some(IfaceRequest(parts[0], DesiredState(parts[1])))
  }

  const FormatError := ErrorPrefix + "input format: '<iface> shutdown|noshutdown'"

  const ProbePrefix := "show run interface "

  /** `show run interface <iface>`: the probe of the interface's configuration. */
  function ProbeCommand(iface: string): string {
    ProbePrefix + iface
  }

  /** `("shutdown" in current_cfg) == (desired == "shutdown")`. */
  predicate AlreadyInState(config: string, desired: string)
    ensures AlreadyInState(config, desired) <==>
              ((exists i :: 0 <= i <= |config| && "shutdown" <= config[i..]) <==> desired == "shutdown")
  {
    ContainsAt(config, "shutdown");
    Contains(config, "shutdown") == (desired == "shutdown")
  }

  /** What follows the probe when a change is needed, in the order the code makes the calls. */
  function ApplyCalls(req: IfaceRequest): seq<Call> {
    [Call.Enable, Call.ConfigMode, Call.SendCommand("interface " + req.iface),
     Call.SendCommand(req.desired), Call.ExitConfigMode]
  }

  /** `[SKIP] <iface> は既に <desired> 状態です。` */
  function SkipText(req: IfaceRequest): string {
    "[SKIP] " + req.iface + " は既に " + req.desired + " 状態です。"
  }

  /** `[OK] <iface> を <desired> しました。` */
  function OkText(req: IfaceRequest): string {
    "[OK] " + req.iface + " を " + req.desired + " しました。"
  }

  /** The two `except` clauses: any `ValueError` reads as a malformed argument. */
  function IfaceErrorText(f: Failure): (answer: string)
    ensures ErrorPrefix <= answer
    ensures f.isValueError ==> answer == FormatError
  {
    if f.isValueError then FormatError else ErrorText(f)
  }

  /** The session of IfaceConfig for a well-formed argument. */
  function IfaceSession(req: IfaceRequest, device: Device): (run: Run)
    ensures run.steps != [] && run.steps[0].call == Call.Connect && |run.steps| <= 8
    ensures run.steps[0].reply.Raised? ==> |run.steps| == 1 && run.result == IfaceErrorText(run.steps[0].reply.failure)
  {
    var c := device([], Call.Connect);
    var h1 := [Step(Call.Connect, c)];
    if c.Raised? then Run(IfaceErrorText(c.failure), h1)
    else
      var probe := device(h1, Call.SendCommand(ProbeCommand(req.iface)));
      var h2 := h1 + [Step(Call.SendCommand(ProbeCommand(req.iface)), probe)];
      if probe.Raised? then Run(IfaceErrorText(probe.failure), h2 + [DisconnectStep])
      else if AlreadyInState(probe.output, req.desired) then Run(SkipText(req), h2 + [DisconnectStep])
      else
        var applied := Perform(device, h2, ApplyCalls(req));
        var last := applied[|applied| - 1];
        var result := if last.reply.Raised? then IfaceErrorText(last.reply.failure) else OkText(req);
        Run(result, h2 + applied + [DisconnectStep])
  }

  /** `IfaceConfigTool._run`. */
  function IfaceConfigRun(command: string, device: Device): (run: Run)
    ensures run.steps == [] ==> run.result == FormatError
    ensures |run.steps| <= 8
  {
    match ParseIfaceArg(command)
    case None => Run(FormatError, [])
    case Some(req) => IfaceSession(req, device)
  }

  method IfaceConfig(conn: Connection, command: string) returns (result: string)
    requires conn.Valid() && conn.history == [] && !conn.open
    modifies conn
    ensures result == IfaceConfigRun(command, conn.device).result
    ensures conn.history == IfaceConfigRun(command, conn.device).steps
    ensures conn.Valid() && !conn.open
  {
    var parts := SplitOnce(command);
    if |parts| != 2 {
      return FormatError;
    }
    var iface := parts[0];
    var desired := if "shut" <= Lower(parts[1]) then "shutdown" else "no shutdown";
    result := ChangeInterface(conn, IfaceRequest(iface, desired));
  }

  /**
   * The `with` block of IfaceConfig: read the interface's configuration and,
   * unless it already shows the desired state, change it.
   */
  method ChangeInterface(conn: Connection, req: IfaceRequest) returns (result: string)
    requires conn.Valid() && conn.history == [] && !conn.open
    modifies conn
    ensures result == IfaceSession(req, conn.device).result
    ensures conn.history == IfaceSession(req, conn.device).steps
    ensures conn.Valid() && !conn.open
  {
    var iface, desired := req.iface, req.desired;
    var r := conn.Connect();
    if r.Raised? {
      return IfaceErrorText(r.failure);
    }
    r := conn.SendCommand("show run interface " + iface);
    if r.Raised? {
      conn.Disconnect();
      return IfaceErrorText(r.failure);
    }
    var already := Contains(r.output, "shutdown") == (desired == "shutdown");
    if already {
      conn.Disconnect();
      return "[SKIP] " + iface + " は既に " + desired + " 状態です。";
    }
    result := ChangeAndClose(conn, req);
  }

  /** The rest of ChangeInterface once the probe showed that a change is needed. */
  method ChangeAndClose(conn: Connection, req: IfaceRequest) returns (result: string)
    requires conn.Valid() && conn.open
    requires var c := conn.device([], Call.Connect);
             var probe := conn.device([Step(Call.Connect, c)], Call.SendCommand(ProbeCommand(req.iface)));
             && c.Done? && probe.Done? && !AlreadyInState(probe.output, req.desired)
             && conn.history == [Step(Call.Connect, c)] + [Step(Call.SendCommand(ProbeCommand(req.iface)), probe)]
    modifies conn
    ensures result == IfaceSession(req, conn.device).result
    ensures conn.history == IfaceSession(req, conn.device).steps
    ensures conn.Valid() && !conn.open
  {
    ghost var h2 := conn.history;
    var last := ApplyChange(conn, req);
    result := if last.Raised? then IfaceErrorText(last.failure) else "[OK] " + req.iface + " を " + req.desired + " しました。";
    conn.Disconnect();
    ChangedSession(req, conn.device, h2);
  }

  /** The session of IfaceConfig when the probe showed that a change is needed. */
  lemma ChangedSession(req: IfaceRequest, device: Device, h2: seq<Step>)
    requires var c := device([], Call.Connect);
             var probe := device([Step(Call.Connect, c)], Call.SendCommand(ProbeCommand(req.iface)));
             && c.Done? && probe.Done? && !AlreadyInState(probe.output, req.desired)
             && h2 == [Step(Call.Connect, c)] + [Step(Call.SendCommand(ProbeCommand(req.iface)), probe)]
    ensures var applied := Perform(device, h2, ApplyCalls(req));
            var last := applied[|applied| - 1].reply;
            IfaceSession(req, device)
            == Run(if last.Raised? then IfaceErrorText(last.failure) else OkText(req), h2 + applied + [DisconnectStep])
  {
  }

  /**
   * `enable`, `config_mode`, `interface <iface>`, the desired command and
   * `exit_config_mode`, in that order, up to the first that raises; answers
   * the reply to the last call made.
   */
  method ApplyChange(conn: Connection, req: IfaceRequest) returns (last: Reply)
    requires conn.Valid() && conn.open
    modifies conn
    ensures var applied := Perform(conn.device, old(conn.history), ApplyCalls(req));
            conn.history == old(conn.history) + applied && last == applied[|applied| - 1].reply
    ensures conn.Valid() && conn.open
  {
    // `h + Perform(conn.device, h, todo)` stays the whole run's history
    ghost var todo := ApplyCalls(req);
    ghost var h := conn.history;
    last := conn.Enable();
    PerformStep(conn.device, h, todo, last);
    if last.Raised? {
      return;
    }
    todo, h := todo[1..], conn.history;
    last := conn.ConfigMode();
    PerformStep(conn.device, h, todo, last);
    if last.Raised? {
      return;
    }
    todo, h := todo[1..], conn.history;
    last := conn.SendCommand("interface " + req.iface);
    PerformStep(conn.device, h, todo, last);
    if last.Raised? {
      return;
    }
    todo, h := todo[1..], conn.history;
    last := conn.SendCommand(req.desired);
    PerformStep(conn.device, h, todo, last);
    if last.Raised? {
      return;
    }
    todo, h := todo[1..], conn.history;
    last := conn.ExitConfigMode();
    PerformStep(conn.device, h, todo, last);
    assert todo[1..] == [];
  }

  // IfaceConfig: properties --------------------------------------------------

  /** The three kinds of answer are told apart by their second character. */
  lemma AnswerKinds(req: IfaceRequest, f: Failure)
    ensures SkipText(req)[1] == 'S' && OkText(req)[1] == 'O' && IfaceErrorText(f)[1] == 'E'
    ensures FormatError[1] == 'E' && ErrorText(f)[1] == 'E'
  {
  }

  /**
   * The argument is accepted exactly when it has at least two words; the
   * interface is the first word, and the action (the rest, from the second
   * word on) asks for "shutdown" when it starts with "shut" in any case and
   * for "no shutdown" otherwise.
   */
  lemma ParseIfaceArgContract(command: string)
    ensures ParseIfaceArg(command).None? <==> |Words(command)| < 2
    ensures ParseIfaceArg(command).Some? ==>
              var req := ParseIfaceArg(command).value;
              && req.iface == Words(command)[0]
              && (req.desired == "shutdown" <==> "shut" <= Lower(Words(command)[1]))
              && (req.desired == "no shutdown" <==> !("shut" <= Lower(Words(command)[1])))
  {
    SplitOnceAgreesWithWords(command);
    if |SplitOnce(command)| == 2 {
      var action := SplitOnce(command)[1];
      FirstWordDecidesPrefix(action);
    }
  }

  /**
   * Whether the action starts with "shut" is decided by its first word, since
   * "shut" holds no whitespace.
   */
  lemma FirstWordDecidesPrefix(action: string)
    requires action != [] && !IsSpace(action[0])
    ensures Words(action) != []
    ensures "shut" <= Lower(action) <==> "shut" <= Lower(Words(action)[0])
  {
    var e := WordEnd(action, 0);
    FirstWord(action);
    WordPrefixOfLower(action, e);
  }

  /** The first word of a text that starts with a non-whitespace character. */
  lemma FirstWord(s: string)
    requires s != [] && !IsSpace(s[0])
    ensures Words(s) != [] && Words(s)[0] == s[..WordEnd(s, 0)]
  {
    assert SpaceEnd(s, 0) == 0;
  }

  /** Cutting `s` at whitespace (or at its end) does not change whether it starts with "shut". */
  lemma WordPrefixOfLower(s: string, e: nat)
    requires e <= |s| && (e == |s| || IsSpace(s[e]))
    ensures "shut" <= Lower(s) <==> "shut" <= Lower(s[..e])
  {
    if e == |s| {
      assert s[..e] == s;
    } else if e < 4 {
      ShortWordIsNotShut(s, e);
    } else {
      LowerPrefix(s, e);
      PrefixCut(Lower(s), "shut", e);
    }
  }

  /** A first word shorter than "shut" never starts with it, and neither does the text. */
  lemma ShortWordIsNotShut(s: string, e: nat)
    requires e < 4 && e < |s| && IsSpace(s[e])
    ensures !("shut" <= Lower(s)) && !("shut" <= Lower(s[..e]))
  {
    assert Lower(s)[e] == LowerChar(s[e]);
    assert "shut"[e] != s[e];
  }

  lemma PrefixCut(t: string, p: string, e: nat)
    requires |p| <= e <= |t|
    ensures p <= t <==> p <= t[..e]
  {
  }

  /**
   * A malformed argument opens no connection and answers the format error;
   * a well-formed one always connects.
   */
  lemma IfaceMalformedOpensNothing(command: string, device: Device)
    ensures var run := IfaceConfigRun(command, device);
            && (run.steps == [] <==> |Words(command)| < 2)
            && (|Words(command)| < 2 ==> run.result == FormatError)
  {
    ParseIfaceArgContract(command);
  }

  /** The general shape of IfaceConfig's session once the argument parsed. */
  lemma IfaceSessionShape(req: IfaceRequest, device: Device)
    ensures var run := IfaceSession(req, device);
            && WithBlock(run.steps) && ModeOf(run.steps) == Closed
            && (FirstFailure(run.steps).Some? ==> run.result == IfaceErrorText(FirstFailure(run.steps).value))
            && (FirstFailure(run.steps).None? ==> run.result == SkipText(req) || run.result == OkText(req))
  {
    var run := IfaceSession(req, device);
    var c := device([], Call.Connect);
    var h1 := [Step(Call.Connect, c)];
    if c.Done? {
      var probe := device(h1, Call.SendCommand(ProbeCommand(req.iface)));
      var h2 := h1 + [Step(Call.SendCommand(ProbeCommand(req.iface)), probe)];
      if probe.Raised? {
        assert FirstFailure(run.steps[1..]) == Some(probe.failure);
      } else if AlreadyInState(probe.output, req.desired) {
        assert run.steps == h2 + [DisconnectStep];
      } else {
        ChangedSessionShape(req, device, h2);
      }
    }
    WithBlockCloses(run.steps);
  }

  /** IfaceSessionShape when the probe showed that a change is needed. */
  lemma ChangedSessionShape(req: IfaceRequest, device: Device, h2: seq<Step>)
    requires var c := device([], Call.Connect);
             var probe := device([Step(Call.Connect, c)], Call.SendCommand(ProbeCommand(req.iface)));
             && c.Done? && probe.Done? && !AlreadyInState(probe.output, req.desired)
             && h2 == [Step(Call.Connect, c)] + [Step(Call.SendCommand(ProbeCommand(req.iface)), probe)]
    ensures var run := IfaceSession(req, device);
            && WithBlock(run.steps)
            && (FirstFailure(run.steps).Some? ==> run.result == IfaceErrorText(FirstFailure(run.steps).value))
            && (FirstFailure(run.steps).None? ==> run.result == OkText(req))
  {
    var applied := Perform(device, h2, ApplyCalls(req));
    ChangedSession(req, device, h2);
    PerformMakesCallsInOrder(device, h2, ApplyCalls(req));
    AppliedSessionShape(req, h2, applied, IfaceSession(req, device));
  }

  /** IfaceSessionShape once the change is applied. */
  lemma AppliedSessionShape(req: IfaceRequest, h2: seq<Step>, applied: seq<Step>, run: Run)
    requires |h2| == 2 && h2[0].call == Call.Connect && h2[0].reply.Done?
    requires h2[1].call == Call.SendCommand(ProbeCommand(req.iface)) && h2[1].reply.Done?
    requires applied != [] && |applied| <= 5 && forall i :: 0 <= i < |applied| ==> applied[i].call == ApplyCalls(req)[i]
    requires StopsAtFirstFailure(ApplyCalls(req), applied)
    requires run.steps == h2 + applied + [DisconnectStep]
    requires run.result == (if applied[|applied| - 1].reply.Raised? then IfaceErrorText(applied[|applied| - 1].reply.failure) else OkText(req))
    ensures WithBlock(run.steps)
    ensures FirstFailure(run.steps).Some? ==> run.result == IfaceErrorText(FirstFailure(run.steps).value)
    ensures FirstFailure(run.steps).None? ==> run.result == OkText(req)
  {
    forall i | 0 < i < |run.steps| - 1 ensures !run.steps[i].call.Connect? && !run.steps[i].call.Disconnect? {
      if i >= 2 {
        assert run.steps[i] == applied[i - 2];
      }
    }
    AppliedFailure(run.steps, h2, applied);
  }

  /** The first failure of a session that applies a change, found among the applied calls. */
  lemma AppliedFailure(steps: seq<Step>, h2: seq<Step>, applied: seq<Step>)
    requires |h2| == 2 && h2[0].reply.Done? && h2[1].reply.Done?
    requires applied != [] && forall i :: 0 <= i < |applied| - 1 ==> applied[i].reply.Done?
    requires steps == h2 + applied + [DisconnectStep]
    ensures applied[|applied| - 1].reply.Raised? ==> FirstFailure(steps) == Some(applied[|applied| - 1].reply.failure)
    ensures applied[|applied| - 1].reply.Done? ==> FirstFailure(steps).None?
  {
    var n := |applied|;
    assert forall i :: 2 <= i < 2 + n ==> steps[i] == applied[i - 2];
    assert steps[2 + n] == DisconnectStep;
    if applied[n - 1].reply.Raised? {
      var f := FirstFailure(steps);
      assert steps[2 + n - 1].reply.Raised?;
      assert f.Some?;
      var i :| 0 <= i < |steps| && steps[i].reply == Raised(f.value)
               && forall j :: 0 <= j < i ==> steps[j].reply.Done?;
      assert steps[2 + n - 1].reply.Raised?;
      assert i == 2 + n - 1;
    }
  }

  /**
   * IfaceConfig answers "[SKIP] ..." exactly when it connected, read the
   * interface's configuration and disconnected, and nothing else, without a
   * failure; it does so only when the configuration already shows the
   * desired state, and the session is never privileged nor in configuration
   * mode. Conversely, whatever the router, a connect and a probe that both
   * return a configuration already in the desired state give "[SKIP] ..."
   * and no further call but the disconnect.
   */
  lemma IfaceSkipPath(command: string, req: IfaceRequest, device: Device)
    requires ParseIfaceArg(command) == Some(req)
    ensures var run := IfaceConfigRun(command, device);
            var c := device([], Call.Connect);
            var probe := device([Step(Call.Connect, c)], Call.SendCommand(ProbeCommand(req.iface)));
            c.Done? && probe.Done? && AlreadyInState(probe.output, req.desired) ==>
              && run.result == SkipText(req)
              && Calls(run.steps) == [Call.Connect, Call.SendCommand(ProbeCommand(req.iface)), Call.Disconnect]
    ensures var run := IfaceConfigRun(command, device);
            run.result == SkipText(req) <==>
              && FirstFailure(run.steps).None?
              && Calls(run.steps) == [Call.Connect, Call.SendCommand(ProbeCommand(req.iface)), Call.Disconnect]
    ensures var run := IfaceConfigRun(command, device);
            run.result == SkipText(req) ==>
              && AlreadyInState(run.steps[1].reply.output, req.desired)
              && forall i :: 0 <= i <= |run.steps| ==> !ModeOf(run.steps[..i]).privileged && !ModeOf(run.steps[..i]).config
  {
    assert IfaceConfigRun(command, device) == IfaceSession(req, device);
    SessionSkipPath(req, device);
  }

  /** IfaceSkipPath for the session of a well-formed argument. */
  lemma SessionSkipPath(req: IfaceRequest, device: Device)
    ensures var run := IfaceSession(req, device);
            var c := device([], Call.Connect);
            var probe := device([Step(Call.Connect, c)], Call.SendCommand(ProbeCommand(req.iface)));
            c.Done? && probe.Done? && AlreadyInState(probe.output, req.desired) ==>
              && run.result == SkipText(req)
              && Calls(run.steps) == [Call.Connect, Call.SendCommand(ProbeCommand(req.iface)), Call.Disconnect]
    ensures var run := IfaceSession(req, device);
            run.result == SkipText(req) <==>
              && FirstFailure(run.steps).None?
              && Calls(run.steps) == [Call.Connect, Call.SendCommand(ProbeCommand(req.iface)), Call.Disconnect]
    ensures var run := IfaceSession(req, device);
            run.result == SkipText(req) ==>
              && AlreadyInState(run.steps[1].reply.output, req.desired)
              && forall i :: 0 <= i <= |run.steps| ==> !ModeOf(run.steps[..i]).privileged && !ModeOf(run.steps[..i]).config
  {
    var run := IfaceSession(req, device);
    var c := device([], Call.Connect);
    var h1 := [Step(Call.Connect, c)];
    if c.Raised? {
      AnswerKinds(req, c.failure);
      assert run == Run(IfaceErrorText(c.failure), h1);
    } else {
      var probe := device(h1, Call.SendCommand(ProbeCommand(req.iface)));
      var h2 := h1 + [Step(Call.SendCommand(ProbeCommand(req.iface)), probe)];
      if probe.Raised? {
        ProbeRaisedIsError(req, h2, run);
      } else if AlreadyInState(probe.output, req.desired) {
        assert run == Run(SkipText(req), h2 + [DisconnectStep]);
        SkipSession(h2, run.steps);
      } else {
        var applied := Perform(device, h2, ApplyCalls(req));
        ChangedSession(req, device, h2);
        PerformMakesCallsInOrder(device, h2, ApplyCalls(req));
        AppliedIsNoSkip(req, h2, applied, run);
      }
    }
  }

  /** A session whose probe raised answers an error, after a failure. */
  lemma ProbeRaisedIsError(req: IfaceRequest, h2: seq<Step>, run: Run)
    requires |h2| == 2 && h2[0].reply.Done? && h2[1].reply.Raised?
    requires run == Run(IfaceErrorText(h2[1].reply.failure), h2 + [DisconnectStep])
    ensures run.result != SkipText(req) && run.result != OkText(req) && FirstFailure(run.steps).Some?
  {
    AnswerKinds(req, h2[1].reply.failure);
    assert !run.steps[1].reply.Done?;
  }

  /** A session that went on to apply the change neither answers "[SKIP] ..." nor makes only three calls. */
  lemma AppliedIsNoSkip(req: IfaceRequest, h2: seq<Step>, applied: seq<Step>, run: Run)
    requires |h2| == 2 && applied != []
    requires run.steps == h2 + applied + [DisconnectStep]
    requires run.result == (if applied[|applied| - 1].reply.Raised? then IfaceErrorText(applied[|applied| - 1].reply.failure) else OkText(req))
    ensures run.result != SkipText(req) && |Calls(run.steps)| != 3
  {
    var last := applied[|applied| - 1];
    AnswerKinds(req, if last.reply.Raised? then last.reply.failure else Failure(false, ""));
  }

  /**
   * IfaceConfig answers "[OK] ..." exactly when, without a failure, it
   * connected, read the configuration, then called enable, config_mode,
   * `interface <iface>`, the desired command and exit_config_mode in that
   * order, and disconnected; it does so only when the configuration did not
   * show the desired state, and it leaves configuration mode (still
   * privileged) before disconnecting.
   */
  lemma IfaceOkPath(command: string, req: IfaceRequest, device: Device)
    requires ParseIfaceArg(command) == Some(req)
    ensures var run := IfaceConfigRun(command, device);
            run.result == OkText(req) <==>
              && FirstFailure(run.steps).None?
              && Calls(run.steps) == [Call.Connect, Call.SendCommand(ProbeCommand(req.iface)), Call.Enable,
                                      Call.ConfigMode, Call.SendCommand("interface " + req.iface),
                                      Call.SendCommand(req.desired), Call.ExitConfigMode, Call.Disconnect]
    ensures var run := IfaceConfigRun(command, device);
            run.result == OkText(req) ==>
              && !AlreadyInState(run.steps[1].reply.output, req.desired)
              && ModeOf(run.steps[..7]) == Mode(true, true, false)
  {
    assert IfaceConfigRun(command, device) == IfaceSession(req, device);
    SessionOkPath(req, device);
  }

  /** IfaceOkPath for the session of a well-formed argument. */
  lemma SessionOkPath(req: IfaceRequest, device: Device)
    ensures var run := IfaceSession(req, device);
            run.result == OkText(req) <==>
              && FirstFailure(run.steps).None?
              && Calls(run.steps) == [Call.Connect, Call.SendCommand(ProbeCommand(req.iface)), Call.Enable,
                                      Call.ConfigMode, Call.SendCommand("interface " + req.iface),
                                      Call.SendCommand(req.desired), Call.ExitConfigMode, Call.Disconnect]
    ensures var run := IfaceSession(req, device);
            run.result == OkText(req) ==>
              && !AlreadyInState(run.steps[1].reply.output, req.desired)
              && ModeOf(run.steps[..7]) == Mode(true, true, false)
  {
    var run := IfaceSession(req, device);
    var c := device([], Call.Connect);
    var h1 := [Step(Call.Connect, c)];
    if c.Raised? {
      AnswerKinds(req, c.failure);
      assert run == Run(IfaceErrorText(c.failure), h1);
    } else {
      var probe := device(h1, Call.SendCommand(ProbeCommand(req.iface)));
      var h2 := h1 + [Step(Call.SendCommand(ProbeCommand(req.iface)), probe)];
      if probe.Raised? {
        ProbeRaisedIsError(req, h2, run);
      } else if AlreadyInState(probe.output, req.desired) {
        AnswerKinds(req, Failure(false, ""));
        assert run == Run(SkipText(req), h2 + [DisconnectStep]);
      } else {
        ChangedSessionOkPath(req, device, h2);
      }
    }
  }

  /** SessionOkPath when the probe showed that a change is needed. */
  lemma ChangedSessionOkPath(req: IfaceRequest, device: Device, h2: seq<Step>)
    requires var c := device([], Call.Connect);
             var probe := device([Step(Call.Connect, c)], Call.SendCommand(ProbeCommand(req.iface)));
             && c.Done? && probe.Done? && !AlreadyInState(probe.output, req.desired)
             && h2 == [Step(Call.Connect, c)] + [Step(Call.SendCommand(ProbeCommand(req.iface)), probe)]
    ensures var run := IfaceSession(req, device);
            run.result == OkText(req) <==>
              && FirstFailure(run.steps).None?
              && Calls(run.steps) == [Call.Connect, Call.SendCommand(ProbeCommand(req.iface)), Call.Enable,
                                      Call.ConfigMode, Call.SendCommand("interface " + req.iface),
                                      Call.SendCommand(req.desired), Call.ExitConfigMode, Call.Disconnect]
    ensures var run := IfaceSession(req, device);
            run.result == OkText(req) ==> ModeOf(run.steps[..7]) == Mode(true, true, false)
  {
    var run := IfaceSession(req, device);
    var applied := Perform(device, h2, ApplyCalls(req));
    ChangedSession(req, device, h2);
    PerformMakesCallsInOrder(device, h2, ApplyCalls(req));
    AppliedOkPath(req, h2, applied, run);
  }

  /** IfaceOkPath once the change is applied: it went through exactly when no call raised. */
  lemma AppliedOkPath(req: IfaceRequest, h2: seq<Step>, applied: seq<Step>, run: Run)
    requires |h2| == 2 && h2[0].call == Call.Connect && h2[0].reply.Done?
    requires h2[1].call == Call.SendCommand(ProbeCommand(req.iface)) && h2[1].reply.Done?
    requires applied != [] && |applied| <= 5 && forall i :: 0 <= i < |applied| ==> applied[i].call == ApplyCalls(req)[i]
    requires StopsAtFirstFailure(ApplyCalls(req), applied)
    requires run.steps == h2 + applied + [DisconnectStep]
    requires run.result == (if applied[|applied| - 1].reply.Raised? then IfaceErrorText(applied[|applied| - 1].reply.failure) else OkText(req))
    ensures run.result == OkText(req) <==>
              && FirstFailure(run.steps).None?
              && Calls(run.steps) == [Call.Connect, Call.SendCommand(ProbeCommand(req.iface)), Call.Enable,
                                      Call.ConfigMode, Call.SendCommand("interface " + req.iface),
                                      Call.SendCommand(req.desired), Call.ExitConfigMode, Call.Disconnect]
    ensures run.result == OkText(req) ==> ModeOf(run.steps[..7]) == Mode(true, true, false)
  {
    if applied[|applied| - 1].reply.Raised? {
      AppliedRaisedIsError(req, h2, applied, run);
    } else {
      assert |applied| == 5;
      OkSession(req, h2, applied, run.steps);
      assert forall i :: 0 <= i < |run.steps| ==> run.steps[i].reply.Done? by {
        assert forall i :: 2 <= i < 7 ==> run.steps[i] == applied[i - 2];
      }
    }
  }

  /** A session whose change raised answers an error, after a failure. */
  lemma AppliedRaisedIsError(req: IfaceRequest, h2: seq<Step>, applied: seq<Step>, run: Run)
    requires |h2| == 2 && applied != [] && applied[|applied| - 1].reply.Raised?
    requires run.steps == h2 + applied + [DisconnectStep]
    requires run.result == IfaceErrorText(applied[|applied| - 1].reply.failure)
    ensures run.result != OkText(req) && FirstFailure(run.steps).Some?
  {
    AnswerKinds(req, applied[|applied| - 1].reply.failure);
    assert !run.steps[|h2| + |applied| - 1].reply.Done?;
  }

  /** The exchanges of a session where the change went through. */
  lemma OkSession(req: IfaceRequest, h2: seq<Step>, applied: seq<Step>, steps: seq<Step>)
    requires |h2| == 2 && h2[0].call == Call.Connect && h2[0].reply.Done?
    requires h2[1].call == Call.SendCommand(ProbeCommand(req.iface)) && h2[1].reply.Done?
    requires |applied| == 5 && forall i :: 0 <= i < 5 ==> applied[i].call == ApplyCalls(req)[i] && applied[i].reply.Done?
    requires steps == h2 + applied + [DisconnectStep]
    ensures Calls(steps) == [Call.Connect, Call.SendCommand(ProbeCommand(req.iface)), Call.Enable,
                             Call.ConfigMode, Call.SendCommand("interface " + req.iface),
                             Call.SendCommand(req.desired), Call.ExitConfigMode, Call.Disconnect]
    ensures ModeOf(steps[..7]) == Mode(true, true, false)
  {
    assert forall i :: 2 <= i < 7 ==> steps[i] == applied[i - 2];
    OkSessionModes(steps);
  }

  /** The modes of a session that connected, probed, enabled, entered and left configuration mode. */
  lemma OkSessionModes(steps: seq<Step>)
    requires |steps| == 8 && forall i :: 0 <= i < 7 ==> steps[i].reply.Done?
    requires steps[0].call == Call.Connect && steps[1].call.SendCommand? && steps[2].call == Call.Enable
    requires steps[3].call == Call.ConfigMode && steps[4].call.SendCommand? && steps[5].call.SendCommand?
    requires steps[6].call == Call.ExitConfigMode
    ensures ModeOf(steps[..7]) == Mode(true, true, false)
  {
    var m := Mode(true, false, false);
    assert steps[..1] == [steps[0]];
    assert ModeOf(steps[..1]) == m by { assert steps[..1][..0] == []; }
    ModeOfSnoc(steps[..1], steps[1]);
    assert steps[..2] == steps[..1] + [steps[1]];
    ModeOfSnoc(steps[..2], steps[2]);
    assert steps[..3] == steps[..2] + [steps[2]];
    ModeOfSnoc(steps[..3], steps[3]);
    assert steps[..4] == steps[..3] + [steps[3]];
    ModeOfSnoc(steps[..4], steps[4]);
    assert steps[..5] == steps[..4] + [steps[4]];
    ModeOfSnoc(steps[..5], steps[5]);
    assert steps[..6] == steps[..5] + [steps[5]];
    ModeOfSnoc(steps[..6], steps[6]);
    assert steps[..7] == steps[..6] + [steps[6]];
  }

  /** The modes a session that only read the configuration goes through. */
  lemma SkipSession(h2: seq<Step>, steps: seq<Step>)
    requires |h2| == 2 && h2[0].call == Call.Connect && h2[0].reply.Done? && h2[1].call.SendCommand?
    requires steps == h2 + [DisconnectStep]
    ensures forall i :: 0 <= i <= |steps| ==> !ModeOf(steps[..i]).privileged && !ModeOf(steps[..i]).config
  {
    assert steps[..1] == [h2[0]];
    assert ModeOf(steps[..1]) == Mode(true, false, false) by { assert steps[..1][..0] == []; }
    assert steps[..2] == steps[..1] + [steps[1]];
    ModeOfSnoc(steps[..1], steps[1]);
    assert steps[..3] == steps[..2] + [steps[2]];
    ModeOfSnoc(steps[..2], steps[2]);
    assert steps[..0] == [];
  }

  /**
   * The state check is a plain substring test: a configuration text that
   * holds "no shutdown" also holds "shutdown", so it reads as shut.
   */
  lemma NoShutdownReadsAsShut(config: string)
    requires Contains(config, "no shutdown")
    ensures AlreadyInState(config, "shutdown") && !AlreadyInState(config, "no shutdown")
  {
    ShutdownInNoShutdown(config);
  }

  lemma ShutdownInNoShutdown(config: string)
    requires Contains(config, "no shutdown")
    ensures Contains(config, "shutdown")
  {
    assert "no shutdown"[3..11] == "shutdown";
    ContainsPiece(config, "no shutdown", 3, "shutdown");
  }

  /**
   * `action.lower().startswith("shut")` holds exactly when the action starts
   * with "shut" in any mix of upper and lower case.
   */
  lemma {:induction false} LowerStartsWithShut(action: string)
    ensures "shut" <= Lower(action) <==>
              && |action| >= 4
              && (action[0] == 's' || action[0] == 'S') && (action[1] == 'h' || action[1] == 'H')
              && (action[2] == 'u' || action[2] == 'U') && (action[3] == 't' || action[3] == 'T')
  {
    var l := Lower(action);
    if |action| >= 4 {
      assert "shut" == ['s', 'h', 'u', 't'];
      assert "shut" <= l <==> l[0] == 's' && l[1] == 'h' && l[2] == 'u' && l[3] == 't';
    }
  }

  /** The two spellings the tool's description gives, and a few others. */
  lemma DesiredStateExamples()
    ensures DesiredState("shutdown") == "shutdown" && DesiredState("noshutdown") == "no shutdown"
    ensures DesiredState("SHUT") == "shutdown" && DesiredState("no shutdown") == "no shutdown"
    ensures DesiredState("") == "no shutdown"
  {
    LowerStartsWithShut("shutdown");
    LowerStartsWithShut("noshutdown");
    LowerStartsWithShut("SHUT");
    LowerStartsWithShut("no shutdown");
    LowerStartsWithShut("");
  }
}
