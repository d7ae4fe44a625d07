/**
 * The `tools` list handed to the agent: the five tools, each under its
 * own name, and what the agent gets back from any of them.
 *
 * The agent passes each tool one text argument. GetVersion's `_run` takes
 * none, so the model drops the argument for that tool.
 */
module Registry {
  import opened Wrappers
  import opened Session
  import Tools

  datatype Tool = GetVersionTool | GetRouteTableTool | GetRouteProtoStateTool | PingTool | IfaceConfigTool

  /** The tools, in the order the list gives them: each of them, once. */
  function ToolList(): (ts: seq<Tool>)
    ensures |ts| == 5
    ensures forall t: Tool :: t in ts
    ensures forall i, j :: 0 <= i < j < |ts| ==> ts[i] != ts[j]
  {
    var ts := [GetVersionTool, GetRouteTableTool, GetRouteProtoStateTool, PingTool, IfaceConfigTool];
    assert forall i :: 0 <= i < 5 ==> ts[i] == ToolAt(i);
    assert forall t: Tool :: t in ts by {
      forall t: Tool ensures t in ts {
        assert t == ts[0] || t == ts[1] || t == ts[2] || t == ts[3] || t == ts[4];
      }
    }
    ts
  }

  /** The tool at each position of the list, as a function, to tell positions apart. */
  function ToolAt(i: int): Tool
    requires 0 <= i < 5
  {
    if i == 0 then GetVersionTool else if i == 1 then GetRouteTableTool
    else if i == 2 then GetRouteProtoStateTool else if i == 3 then PingTool else IfaceConfigTool
  }

  /** Each tool's `name`, the key the agent calls it by. */
  function Name(t: Tool): (name: string)
    ensures name != [] && forall k :: 0 <= k < |name| ==> 'A' <= name[k] <= 'Z' || 'a' <= name[k] <= 'z'
  {
    match t
    case GetVersionTool => "GetVersion"
    case GetRouteTableTool => "GetRouteTable"
    case GetRouteProtoStateTool => "GetRouteProtoState"
    case PingTool => "Ping"
    case IfaceConfigTool => "IfaceConfig"
  }

  /** Whether the tool may change the router's configuration. */
  predicate Configures(t: Tool) {
    t == IfaceConfigTool
  }

  /** The tool's `_run` on the agent's argument. */
  function Invoke(t: Tool, input: string, device: Device): (run: Tools.Run)
    ensures run.steps == [] ==> t == GetRouteProtoStateTool || t == IfaceConfigTool
    ensures |run.steps| <= 8
  {
    match t
    case GetVersionTool => Tools.GetVersionRun(device)
    case GetRouteTableTool => Tools.GetRouteTableRun(input, device)
    case GetRouteProtoStateTool => Tools.GetRouteProtoStateRun(input, device)
    case PingTool => Tools.PingRun(input, device)
    case IfaceConfigTool => Tools.IfaceConfigRun(input, device)
  }

  /**
   * No two tools share a name, so the name the agent picks designates one
   * tool of the list.
   */
  lemma {:induction false} RegistryIsComplete()
    ensures forall t1: Tool, t2: Tool :: Name(t1) == Name(t2) ==> t1 == t2
    ensures forall i, j :: 0 <= i < j < |ToolList()| ==> Name(ToolList()[i]) != Name(ToolList()[j])
  {
    forall t1: Tool, t2: Tool | Name(t1) == Name(t2) ensures t1 == t2 {
      if t1 != t2 {
        NamesDiffer(t1, t2);
      }
    }
  }

  /** The five names have five different lengths. */
  lemma NamesDiffer(t1: Tool, t2: Tool)
    requires t1 != t2
    ensures Name(t1) != Name(t2)
  {
    assert |Name(t1)| != |Name(t2)|;
  }

  /** Whether an answer is an error text: it starts with "[ERROR] ". */
  predicate IsErrorText(s: string) {
    Tools.ErrorPrefix <= s
  }

  /**
   * What every tool guarantees the agent: either no connection is opened and
   * the answer is an error, or the exchanges form one `with` block, closed on
   * every path; a failure of the router comes back as an error answer rather
   * than an exception; and a tool that may not configure the router never
   * calls enable, config_mode or exit_config_mode.
   */
  predicate Safe(run: Tools.Run, mayConfigure: bool) {
    && (run.steps == [] ==> IsErrorText(run.result))
    && (run.steps != [] ==> WithBlock(run.steps) && ModeOf(run.steps) == Closed)
    && (FirstFailure(run.steps).Some? ==> IsErrorText(run.result))
    && (!mayConfigure ==> ReadOnly(Calls(run.steps)))
  }

  /** Calls that only connect, send commands and disconnect: never enable, config_mode or exit_config_mode. */
  predicate ReadOnly(calls: seq<Call>) {
    forall i :: 0 <= i < |calls| ==> calls[i].Connect? || calls[i].SendCommand? || calls[i].Disconnect?
  }

  /** Whatever tool the agent picks and whatever it passes, the answer is safe. */
  lemma InvokeIsSafe(t: Tool, input: string, device: Device)
    ensures Safe(Invoke(t, input, device), Configures(t))
  {
    match t
    case GetVersionTool =>
      Tools.GetVersionContract(device);
      OneCommandIsSafe(Invoke(t, input, device), Tools.VersionCommand);
    case GetRouteTableTool =>
      Tools.GetRouteTableContract(input, device);
      OneCommandIsSafe(Invoke(t, input, device), Tools.RouteTableCommand(input));
    case GetRouteProtoStateTool =>
      Tools.GetRouteProtoStateContract(input, device);
      if Tools.ProtoCommand(input).Some? {
        OneCommandIsSafe(Invoke(t, input, device), Tools.ProtoCommand(input).value);
      }
    case PingTool =>
      Tools.PingContract(input, device);
      OneCommandIsSafe(Invoke(t, input, device), Tools.PingCommand(input));
    case IfaceConfigTool =>
      IfaceConfigIsSafe(input, device);
  }

  /** A tool that sends one command in one session is safe. */
  lemma OneCommandIsSafe(run: Tools.Run, command: string)
    requires WithBlock(run.steps) && ModeOf(run.steps) == Closed
    requires run.steps[0].reply.Done? ==> Calls(run.steps) == [Call.Connect, Call.SendCommand(command), Call.Disconnect]
    requires FirstFailure(run.steps).Some? ==> run.result == Tools.ErrorText(FirstFailure(run.steps).value)
    ensures Safe(run, false)
  {
    OneCommandCalls(run.steps, command);
  }

  /** IfaceConfig is safe. */
  lemma IfaceConfigIsSafe(input: string, device: Device)
    ensures Safe(Tools.IfaceConfigRun(input, device), true)
  {
    var run := Tools.IfaceConfigRun(input, device);
    Tools.IfaceMalformedOpensNothing(input, device);
    match Tools.ParseIfaceArg(input)
    case None =>
    case Some(req) =>
      Tools.IfaceSessionShape(req, device);
  }

  /** A session that sends one command makes no other call. */
  lemma OneCommandCalls(steps: seq<Step>, command: string)
    requires steps != [] && WithBlock(steps)
    requires steps[0].reply.Done? ==> Calls(steps) == [Call.Connect, Call.SendCommand(command), Call.Disconnect]
    ensures ReadOnly(Calls(steps))
  {
  }
}
