/**
 * A well-behaved Cisco IOS router, to state what the pre-check of
 * IfaceConfig buys: the module docstring calls the tool idempotent, and
 * against this router applying the same argument twice changes the
 * interface once and answers "[SKIP] ..." the second time.
 *
 * The router never fails. `show run interface X` prints the interface's
 * header line, followed by ` shutdown` when the interface is shut down (an
 * interface that is up prints no `no shutdown` line, as IOS does). In
 * configuration mode, `interface X` selects an interface and `shutdown` or
 * `no shutdown` sets its state.
 */
module Router {
  import opened Wrappers
  import opened Text
  import opened Session
  import opened Tools

  /** Which interfaces are administratively shut down; one that is not in the map is up. */
  type Interfaces = map<string, bool>

  predicate IsShut(cfg: Interfaces, iface: string) {
    iface in cfg && cfg[iface]
  }

  /** The router's side of a session: its interfaces, configuration mode, and the interface selected. */
  datatype RouterState = RouterState(cfg: Interfaces, config: bool, context: Option<string>)

  /** The state at the start of a session. */
  function Start(cfg: Interfaces): RouterState {
    RouterState(cfg, false, None)
  }

  const InterfacePrefix := "interface "

  /** What one call does to the router. */
  function Apply(s: RouterState, call: Call): RouterState {
    match call
    case Connect => Start(s.cfg)
    case Disconnect => Start(s.cfg)
    case Enable => s
    case ConfigMode => s.(config := true)
    case ExitConfigMode => s.(config := false, context := None)
    case SendCommand(c) =>
      if !s.config then s
      else if InterfacePrefix <= c then s.(context := Some(c[|InterfacePrefix|..]))
      else if s.context.None? then s
      else if c == "shutdown" then s.(cfg := s.cfg[s.context.value := true])
      else if c == "no shutdown" then s.(cfg := s.cfg[s.context.value := false])
      else s
  }

  /** The router's state after a sequence of calls. */
  function ReplayCalls(s: RouterState, calls: seq<Call>): RouterState
    decreases |calls|
  {
    if calls == [] then s else ReplayCalls(Apply(s, calls[0]), calls[1..])
  }

  /** What `show run interface <iface>` prints. */
  function RunningConfig(iface: string, shut: bool): string {
    InterfacePrefix + iface + "\n" + (if shut then " shutdown\n" else "")
  }

  /** The router's reply to a call, given the session so far; it never raises. */
  function Respond(cfg: Interfaces, h: seq<Step>, call: Call): Reply {
    match call
    case SendCommand(c) =>
      if ProbePrefix <= c then
        var iface := c[|ProbePrefix|..];
        Done(RunningConfig(iface, IsShut(ReplayCalls(Start(cfg), Calls(h)).cfg, iface)))
      else Done("")
    case _ => Done("")
  }

  /** The router with the given interface states, as a device. */
  function Ios(cfg: Interfaces): Device {
    (h: seq<Step>, call: Call) => Respond(cfg, h, call)
  }

  /**
   * The pre-check reads this router's state correctly, as long as the
   * interface's header line does not itself mention "shutdown".
   */
  lemma RunningConfigShowsState(iface: string, shut: bool)
    requires !Contains(InterfacePrefix + iface, "shutdown")
    ensures Contains(RunningConfig(iface, shut), "shutdown") == shut
  {
    var tail := if shut then " shutdown\n" else "";
    assert RunningConfig(iface, shut) == InterfacePrefix + iface + "\n" + tail;
    ContainsAcrossBreak(InterfacePrefix + iface, "\n", tail, "shutdown");
    if shut {
      assert "shutdown" <= tail[1..];
      ContainsAt(tail, "shutdown");
    } else {
      ContainsAt(tail, "shutdown");
    }
  }

  /** Against a device that never raises, an IfaceConfig session records no failure. */
  lemma NoFailureFromFaultlessDevice(req: IfaceRequest, device: Device)
    requires forall h, c :: device(h, c).Done?
    ensures FirstFailure(IfaceSession(req, device).steps).None?
  {
    var c := device([], Call.Connect);
    var h1 := [Step(Call.Connect, c)];
    var probe := device(h1, Call.SendCommand(ProbeCommand(req.iface)));
    var h2 := h1 + [Step(Call.SendCommand(ProbeCommand(req.iface)), probe)];
    if !AlreadyInState(probe.output, req.desired) {
      var applied := Perform(device, h2, ApplyCalls(req));
      PerformMakesCallsInOrder(device, h2, ApplyCalls(req));
      var steps := h2 + applied + [DisconnectStep];
      forall i | 0 <= i < |steps| ensures steps[i].reply.Done? {
        if 2 <= i < 2 + |applied| {
          assert steps[i] == applied[i - 2];
        }
      }
    }
  }

  /** The router's state after a session that only read the configuration. */
  lemma ReplayReadOnly(cfg: Interfaces, iface: string)
    ensures ReplayCalls(Start(cfg), [Call.Connect, Call.SendCommand(ProbeCommand(iface)), Call.Disconnect]) == Start(cfg)
  {
    var calls := [Call.Connect, Call.SendCommand(ProbeCommand(iface)), Call.Disconnect];
    var s := Start(cfg);
    assert ReplayCalls(s, calls) == ReplayCalls(s, calls[1..]);
    assert ReplayCalls(s, calls[1..]) == ReplayCalls(s, calls[2..]) by { assert calls[1..][1..] == calls[2..]; }
    assert ReplayCalls(s, calls[2..]) == ReplayCalls(s, []) by { assert calls[2..][1..] == []; }
  }

  /** The router's state after a session that changed the interface. */
  lemma ReplayChange(cfg: Interfaces, req: IfaceRequest)
    requires req.desired == "shutdown" || req.desired == "no shutdown"
    ensures ReplayCalls(Start(cfg), [Call.Connect, Call.SendCommand(ProbeCommand(req.iface)), Call.Enable,
                                     Call.ConfigMode, Call.SendCommand("interface " + req.iface),
                                     Call.SendCommand(req.desired), Call.ExitConfigMode, Call.Disconnect])
            == Start(cfg[req.iface := req.desired == "shutdown"])
  {
    var calls := [Call.Connect, Call.SendCommand(ProbeCommand(req.iface)), Call.Enable,
                  Call.ConfigMode, Call.SendCommand("interface " + req.iface),
                  Call.SendCommand(req.desired), Call.ExitConfigMode, Call.Disconnect];
    var s := Start(cfg);
    assert ReplayCalls(s, calls) == ReplayCalls(s, calls[1..]);
    assert ReplayCalls(s, calls[1..]) == ReplayCalls(s, calls[2..]) by { assert calls[1..][1..] == calls[2..]; }
    assert ReplayCalls(s, calls[2..]) == ReplayCalls(s, calls[3..]) by { assert calls[2..][1..] == calls[3..]; }
    var s3 := s.(config := true);
    assert ReplayCalls(s, calls[3..]) == ReplayCalls(s3, calls[4..]) by { assert calls[3..][1..] == calls[4..]; }
    var s4 := s3.(context := Some(req.iface));
    assert ("interface " + req.iface)[|InterfacePrefix|..] == req.iface;
    assert ReplayCalls(s3, calls[4..]) == ReplayCalls(s4, calls[5..]) by { assert calls[4..][1..] == calls[5..]; }
    var s5 := s4.(cfg := cfg[req.iface := req.desired == "shutdown"]);
    assert InterfacePrefix[0] == 'i' && req.desired[0] != 'i';
    assert ReplayCalls(s4, calls[5..]) == ReplayCalls(s5, calls[6..]) by { assert calls[5..][1..] == calls[6..]; }
    assert ReplayCalls(s5, calls[6..]) == ReplayCalls(s5.(config := false, context := None), calls[7..]) by {
      assert calls[6..][1..] == calls[7..];
    }
    assert ReplayCalls(s5.(config := false, context := None), calls[7..]) == ReplayCalls(Start(s5.cfg), []) by {
      assert calls[7..][1..] == [];
    }
  }

  /** The IOS router's answer to the probe at the start of a session. */
  lemma ProbeAnswer(cfg: Interfaces, iface: string)
    ensures Ios(cfg)([Step(Call.Connect, Done(""))], Call.SendCommand(ProbeCommand(iface)))
            == Done(RunningConfig(iface, IsShut(cfg, iface)))
  {
    var c := ProbeCommand(iface);
    assert ProbePrefix <= c && c[|ProbePrefix|..] == iface;
    var h1 := [Step(Call.Connect, Done(""))];
    assert Calls(h1) == [Call.Connect];
    assert ReplayCalls(Start(cfg), [Call.Connect]) == Start(cfg) by {
      assert [Call.Connect][1..] == [];
    }
  }

  /**
   * IfaceConfig against the IOS router: it answers "[OK] ..." exactly when
   * the interface was not yet in the desired state and "[SKIP] ..." when it
   * was; afterwards the interface is in the desired state and no other
   * interface has changed; and running the same argument again answers
   * "[SKIP] ..." and changes nothing.
   */
  lemma IfaceConfigIsIdempotent(command: string, req: IfaceRequest, cfg: Interfaces)
    requires ParseIfaceArg(command) == Some(req)
    requires !Contains(InterfacePrefix + req.iface, "shutdown")
    ensures var run1 := IfaceConfigRun(command, Ios(cfg));
            && (run1.result == OkText(req) <==> IsShut(cfg, req.iface) != (req.desired == "shutdown"))
            && (run1.result == SkipText(req) <==> IsShut(cfg, req.iface) == (req.desired == "shutdown"))
    ensures var run1 := IfaceConfigRun(command, Ios(cfg));
            var cfg1 := ReplayCalls(Start(cfg), Calls(run1.steps)).cfg;
            var run2 := IfaceConfigRun(command, Ios(cfg1));
            && IsShut(cfg1, req.iface) == (req.desired == "shutdown")
            && (forall other :: other != req.iface ==> IsShut(cfg1, other) == IsShut(cfg, other))
            && run2.result == SkipText(req)
            && ReplayCalls(Start(cfg1), Calls(run2.steps)).cfg == cfg1
  {
    var cfg1 := ReplayCalls(Start(cfg), Calls(IfaceSession(req, Ios(cfg)).steps)).cfg;
    assert IfaceConfigRun(command, Ios(cfg)) == IfaceSession(req, Ios(cfg));
    assert IfaceConfigRun(command, Ios(cfg1)) == IfaceSession(req, Ios(cfg1));
    SessionIsIdempotent(req, cfg);
  }

  /** IfaceConfigIsIdempotent for the session of a well-formed argument. */
  lemma SessionIsIdempotent(req: IfaceRequest, cfg: Interfaces)
    requires !Contains(InterfacePrefix + req.iface, "shutdown")
    requires req.desired == "shutdown" || req.desired == "no shutdown"
    ensures var run1 := IfaceSession(req, Ios(cfg));
            && (run1.result == OkText(req) <==> IsShut(cfg, req.iface) != (req.desired == "shutdown"))
            && (run1.result == SkipText(req) <==> IsShut(cfg, req.iface) == (req.desired == "shutdown"))
    ensures var run1 := IfaceSession(req, Ios(cfg));
            var cfg1 := ReplayCalls(Start(cfg), Calls(run1.steps)).cfg;
            var run2 := IfaceSession(req, Ios(cfg1));
            && IsShut(cfg1, req.iface) == (req.desired == "shutdown")
            && (forall other :: other != req.iface ==> IsShut(cfg1, other) == IsShut(cfg, other))
            && run2.result == SkipText(req)
            && ReplayCalls(Start(cfg1), Calls(run2.steps)).cfg == cfg1
  {
    var run1 := IfaceSession(req, Ios(cfg));
    var wanted := req.desired == "shutdown";
    FirstRun(req, cfg);
    var cfg1 := ReplayCalls(Start(cfg), Calls(run1.steps)).cfg;
    assert IsShut(cfg1, req.iface) == wanted;
    SecondRun(req, cfg1);
  }

  /** The first run of IfaceConfig against the IOS router. */
  lemma FirstRun(req: IfaceRequest, cfg: Interfaces)
    requires !Contains(InterfacePrefix + req.iface, "shutdown")
    requires req.desired == "shutdown" || req.desired == "no shutdown"
    ensures var run1 := IfaceSession(req, Ios(cfg));
            && (run1.result == OkText(req) <==> IsShut(cfg, req.iface) != (req.desired == "shutdown"))
            && (run1.result == SkipText(req) <==> IsShut(cfg, req.iface) == (req.desired == "shutdown"))
            && ReplayCalls(Start(cfg), Calls(run1.steps)).cfg
               == if run1.result == OkText(req) then cfg[req.iface := req.desired == "shutdown"] else cfg
  {
    AnswerKinds(req, Failure(false, ""));
    if IsShut(cfg, req.iface) == (req.desired == "shutdown") {
      SecondRun(req, cfg);
    } else {
      ChangeRun(req, cfg);
      ReplayChange(cfg, req);
    }
  }

  /** A run of IfaceConfig against the IOS router whose interface is not yet in the desired state. */
  lemma ChangeRun(req: IfaceRequest, cfg: Interfaces)
    requires !Contains(InterfacePrefix + req.iface, "shutdown")
    requires req.desired == "shutdown" || req.desired == "no shutdown"
    requires IsShut(cfg, req.iface) != (req.desired == "shutdown")
    ensures var run := IfaceSession(req, Ios(cfg));
            && run.result == OkText(req)
            && Calls(run.steps) == [Call.Connect, Call.SendCommand(ProbeCommand(req.iface)), Call.Enable,
                                    Call.ConfigMode, Call.SendCommand("interface " + req.iface),
                                    Call.SendCommand(req.desired), Call.ExitConfigMode, Call.Disconnect]
  {
    var device := Ios(cfg);
    var run := IfaceSession(req, device);
    var h1 := [Step(Call.Connect, Done(""))];
    var probe := device(h1, Call.SendCommand(ProbeCommand(req.iface)));
    ProbeShowsChangeNeeded(req, cfg);
    var h2 := h1 + [Step(Call.SendCommand(ProbeCommand(req.iface)), probe)];
    var applied := Perform(device, h2, ApplyCalls(req));
    FaultlessPerform(device, h2, ApplyCalls(req));
    assert run.steps == h2 + applied + [DisconnectStep];
    OkSession(req, h2, applied, run.steps);
  }

  /** The probe at the start of a session shows an interface not yet in the desired state as such. */
  lemma ProbeShowsChangeNeeded(req: IfaceRequest, cfg: Interfaces)
    requires !Contains(InterfacePrefix + req.iface, "shutdown")
    requires req.desired == "shutdown" || req.desired == "no shutdown"
    requires IsShut(cfg, req.iface) != (req.desired == "shutdown")
    ensures var probe := Ios(cfg)([Step(Call.Connect, Done(""))], Call.SendCommand(ProbeCommand(req.iface)));
            probe.Done? && !AlreadyInState(probe.output, req.desired)
  {
    ProbeAnswer(cfg, req.iface);
    RunningConfigShowsState(req.iface, IsShut(cfg, req.iface));
  }

  /** Against a device that never raises, `Perform` makes every call. */
  lemma FaultlessPerform(device: Device, h: seq<Step>, calls: seq<Call>)
    requires forall h, c :: device(h, c).Done?
    ensures var steps := Perform(device, h, calls);
            && |steps| == |calls|
            && forall i :: 0 <= i < |steps| ==> steps[i].call == calls[i] && steps[i].reply.Done?
  {
    PerformMakesCallsInOrder(device, h, calls);
  }

  /** A run of IfaceConfig against the IOS router whose interface is already in the desired state. */
  lemma SecondRun(req: IfaceRequest, cfg1: Interfaces)
    requires !Contains(InterfacePrefix + req.iface, "shutdown")
    requires IsShut(cfg1, req.iface) == (req.desired == "shutdown")
    ensures IfaceSession(req, Ios(cfg1)).result == SkipText(req)
    ensures ReplayCalls(Start(cfg1), Calls(IfaceSession(req, Ios(cfg1)).steps)).cfg == cfg1
  {
    ProbeAnswer(cfg1, req.iface);
    RunningConfigShowsState(req.iface, IsShut(cfg1, req.iface));
    SessionSkipPath(req, Ios(cfg1));
    ReplayReadOnly(cfg1, req.iface);
  }
}
