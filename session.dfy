/**
 * A netmiko connection to the router, as the tools use it: `ConnectHandler`
 * opens it (and may fail), `send_command`, `enable`, `config_mode` and
 * `exit_config_mode` talk to the router (each may fail), and `disconnect`
 * closes it when the `with` block is left. What the router answers is not
 * ours to model: a `Device` gives the reply to each call, knowing every
 * exchange made earlier in the same session.
 */
module Session {
  import opened Wrappers

  /** An exception raised by netmiko: whether it is a `ValueError`, and `str(e)`. */
  datatype Failure = Failure(isValueError: bool, message: string)

  /** The calls a tool makes on a connection. */
  datatype Call =
    | Connect
    | SendCommand(command: string)
    | Enable
    | ConfigMode
    | ExitConfigMode
    | Disconnect

  /** A call either returns (with the command's output) or raises. */
  datatype Reply = Done(output: string) | Raised(failure: Failure)

  /** One exchange of a session. */
  datatype Step = Step(call: Call, reply: Reply)

  /** The router, as seen by netmiko: the reply to a call, given the session so far. */
  type Device = (seq<Step>, Call) -> Reply

  /**
   * netmiko's `disconnect` swallows every exception raised while closing,
   * so leaving the `with` block always succeeds.
   */
  const DisconnectStep := Step(Disconnect, Done(""))

  /** What the client knows of the session: open, in privileged exec, in configuration mode. */
  datatype Mode = Mode(open: bool, privileged: bool, config: bool)

  const Closed := Mode(false, false, false)

  /** The mode after one exchange; a call that raised changes nothing. */
  function After(m: Mode, s: Step): Mode {
    if s.reply.Raised? then m
    else
      match s.call
      case Connect => Mode(true, false, false)
      case SendCommand(_) => m
      case Enable => m.(privileged := true)
      case ConfigMode => m.(config := true)
      case ExitConfigMode => m.(config := false)
      case Disconnect => Closed
  }

  /** The mode after a whole history, starting from a closed connection. */
  function ModeOf(h: seq<Step>): Mode
    decreases |h|
  {
    if h == [] then Closed else After(ModeOf(h[..|h| - 1]), h[|h| - 1])
  }

  lemma ModeOfSnoc(h: seq<Step>, s: Step)
    ensures ModeOf(h + [s]) == After(ModeOf(h), s)
  {
    assert (h + [s])[..|h|] == h;
  }

  /** The calls of a history, in order. */
  function Calls(h: seq<Step>): (cs: seq<Call>)
    ensures |cs| == |h| && forall i :: 0 <= i < |h| ==> cs[i] == h[i].call
  {
    if h == [] then [] else [h[0].call] + Calls(h[1..])
  }

  /**
   * Makes `calls` in order after history `h`, as straight-line code inside a
   * `try` does: the first call that raises is the last one made.
   */
  function Perform(device: Device, h: seq<Step>, calls: seq<Call>): (steps: seq<Step>)
    ensures |steps| <= |calls|
    ensures calls != [] ==> steps != []
    decreases |calls|
  {
    if calls == [] then []
    else
      var s := Step(calls[0], device(h, calls[0]));
      if s.reply.Raised? then [s] else [s] + Perform(device, h + [s], calls[1..])
  }

  /**
   * `steps` answers the first `|steps|` of `calls` one by one: each exchange
   * is the call with the device's reply to it after everything before it.
   */
  ghost predicate Follows(device: Device, h: seq<Step>, calls: seq<Call>, steps: seq<Step>) {
    && |steps| <= |calls|
    && forall i :: 0 <= i < |steps| ==> steps[i] == Step(calls[i], device(h + steps[..i], calls[i]))
  }

  /** A run of straight-line calls: every exchange but the last returned, and it stops early only on an exception. */
  predicate StopsAtFirstFailure(calls: seq<Call>, steps: seq<Step>) {
    && (forall i :: 0 <= i < |steps| - 1 ==> steps[i].reply.Done?)
    && (|steps| < |calls| ==> steps != [] && steps[|steps| - 1].reply.Raised?)
  }

  /** What `Perform` does: it follows the calls and stops at the first failure. */
  lemma PerformMakesCallsInOrder(device: Device, h: seq<Step>, calls: seq<Call>)
    ensures Follows(device, h, calls, Perform(device, h, calls))
    ensures StopsAtFirstFailure(calls, Perform(device, h, calls))
  {
    PerformFollows(device, h, calls);
    PerformStops(device, h, calls);
  }

  /** Each exchange `Perform` makes is the device's answer to the next call. */
  lemma {:induction false} PerformFollows(device: Device, h: seq<Step>, calls: seq<Call>)
    ensures Follows(device, h, calls, Perform(device, h, calls))
    decreases |calls|
  {
    if calls != [] {
      var steps := Perform(device, h, calls);
      var s := Step(calls[0], device(h, calls[0]));
      PerformUnfold(device, h, calls);
      assert h + steps[..0] == h;
      if s.reply.Done? {
        var rest := Perform(device, h + [s], calls[1..]);
        PerformFollows(device, h + [s], calls[1..]);
        assert steps == [s] + rest;
        forall i | 1 <= i < |steps|
          ensures steps[i] == Step(calls[i], device(h + steps[..i], calls[i]))
        {
          assert steps[i] == rest[i - 1] && calls[i] == calls[1..][i - 1];
          assert steps[..i] == [s] + rest[..i - 1];
          assert h + steps[..i] == h + [s] + rest[..i - 1];
        }
      }
    }
  }

  /** `Perform` stops early only at an exception, and nothing before the last exchange raised. */
  lemma {:induction false} PerformStops(device: Device, h: seq<Step>, calls: seq<Call>)
    ensures StopsAtFirstFailure(calls, Perform(device, h, calls))
    decreases |calls|
  {
    if calls != [] {
      var steps := Perform(device, h, calls);
      var s := Step(calls[0], device(h, calls[0]));
      PerformUnfold(device, h, calls);
      if s.reply.Done? {
        var rest := Perform(device, h + [s], calls[1..]);
        PerformStops(device, h + [s], calls[1..]);
        assert steps == [s] + rest;
        forall i | 0 <= i < |steps| - 1 ensures steps[i].reply.Done? {
          if i > 0 {
            assert steps[i] == rest[i - 1];
          }
        }
      }
    }
  }

  /**
   * And that determines it: a history that follows the calls and stops at
   * the first failure is the one `Perform` makes.
   */
  lemma {:induction false} FollowingRunIsPerform(device: Device, h: seq<Step>, calls: seq<Call>, steps: seq<Step>)
    requires Follows(device, h, calls, steps) && StopsAtFirstFailure(calls, steps)
    ensures Perform(device, h, calls) == steps
    decreases |calls|
  {
    if calls != [] {
      assert h + steps[..0] == h;
      var s := steps[0];
      PerformUnfold(device, h, calls);
      if s.reply.Done? {
        var rest := steps[1..];
        forall i | 0 <= i < |rest|
          ensures rest[i] == Step(calls[1..][i], device(h + [s] + rest[..i], calls[1..][i]))
        {
          assert steps[..i + 1] == [s] + rest[..i];
          assert h + steps[..i + 1] == h + [s] + rest[..i];
        }
        forall i | 0 <= i < |rest| - 1 ensures rest[i].reply.Done? {
          assert rest[i] == steps[i + 1];
        }
        FollowingRunIsPerform(device, h + [s], calls[1..], rest);
        assert steps == [s] + rest;
      }
    }
  }

  /**
   * One straight-line call: the history it leaves, followed by what the
   * remaining calls then do, is what the whole run leaves.
   */
  lemma PerformStep(device: Device, h: seq<Step>, calls: seq<Call>, r: Reply)
    requires calls != [] && r == device(h, calls[0])
    ensures var next := h + [Step(calls[0], r)];
            h + Perform(device, h, calls) == if r.Raised? then next else next + Perform(device, next, calls[1..])
  {
    var s := Step(calls[0], r);
    if r.Done? {
      assert h + ([s] + Perform(device, h + [s], calls[1..])) == (h + [s]) + Perform(device, h + [s], calls[1..]);
    }
  }

  /** One step of `Perform`. */
  lemma PerformUnfold(device: Device, h: seq<Step>, calls: seq<Call>)
    requires calls != []
    ensures var s := Step(calls[0], device(h, calls[0]));
            Perform(device, h, calls) == if s.reply.Raised? then [s] else [s] + Perform(device, h + [s], calls[1..])
  {
  }

  /** The first exception a history records, if any. */
  function FirstFailure(steps: seq<Step>): (r: Option<Failure>)
    ensures r.None? <==> forall i :: 0 <= i < |steps| ==> steps[i].reply.Done?
    ensures r.Some? ==> exists i :: 0 <= i < |steps| && steps[i].reply == Raised(r.value)
                                    && forall j :: 0 <= j < i ==> steps[j].reply.Done?
  {
    if steps == [] then None
    else if steps[0].reply.Raised? then Some(steps[0].reply.failure)
    else
      var r := FirstFailure(steps[1..]);
      assert forall i :: 1 <= i < |steps| ==> steps[i] == steps[1..][i - 1];
      if r.Some? then
        var i :| 0 <= i < |steps[1..]| && steps[1..][i].reply == Raised(r.value)
                 && forall j :: 0 <= j < i ==> steps[1..][j].reply.Done?;
        assert steps[i + 1].reply == Raised(r.value);
        r
      else r
  }

  /**
   * The shape of a session run inside one `with ConnectHandler(...)` block:
   * it starts by connecting; when connecting raised nothing else happens, and
   * otherwise it ends by disconnecting, with neither call in between.
   */
  predicate WithBlock(steps: seq<Step>) {
    && steps != []
    && steps[0].call == Connect
    && (steps[0].reply.Raised? ==> |steps| == 1)
    && (steps[0].reply.Done? ==>
          && |steps| >= 2 && steps[|steps| - 1] == DisconnectStep
          && forall i :: 0 < i < |steps| - 1 ==> !steps[i].call.Connect? && !steps[i].call.Disconnect?)
  }

  /** A `with` block leaves the connection closed, on every path. */
  lemma WithBlockCloses(steps: seq<Step>)
    requires WithBlock(steps)
    ensures ModeOf(steps) == Closed
  {
    if |steps| == 1 {
      assert steps[..0] == [];
    }
  }

  /**
   * A netmiko connection: the session so far, and what the client knows of
   * its mode, which is always what the history says.
   */
  class Connection {
    const device: Device
    var history: seq<Step>
    var open: bool
    var privileged: bool
    var configMode: bool

    ghost predicate Valid()
      reads this
    {
      && ModeOf(history) == Mode(open, privileged, configMode)
      && (open || (!privileged && !configMode))
    }

    /** A connection to `device`, not yet opened. */
    constructor(device: Device)
      ensures Valid() && this.device == device && history == [] && !open
    {
      this.device := device;
      history := [];
      open, privileged, configMode := false, false, false;
    }

    /** `ConnectHandler(**DEVICE)`: opens the session, in user exec mode. */
    method Connect() returns (r: Reply)
      requires Valid() && !open
      modifies this
      ensures r == device(old(history), Call.Connect)
      ensures history == old(history) + [Step(Call.Connect, r)]
      ensures Valid() && open == r.Done? && !privileged && !configMode
    {
      r := device(history, Call.Connect);
      var step := Step(Call.Connect, r);
      ModeOfSnoc(history, step);
      assert ModeOf(history + [step]) == if r.Done? then Mode(true, false, false) else Mode(open, privileged, configMode);
      history := history + [step];
      if r.Done? {
        open, privileged, configMode := true, false, false;
      }
    }

    /** `conn.send_command(command)`: the mode does not change. */
    method SendCommand(command: string) returns (r: Reply)
      requires Valid() && open
      modifies this
      ensures r == device(old(history), Call.SendCommand(command))
      ensures history == old(history) + [Step(Call.SendCommand(command), r)]
      ensures Valid() && open && privileged == old(privileged) && configMode == old(configMode)
    {
      r := device(history, Call.SendCommand(command));
      ModeOfSnoc(history, Step(Call.SendCommand(command), r));
      history := history + [Step(Call.SendCommand(command), r)];
    }

    /** `conn.enable()`: privileged exec mode when it succeeds. */
    method Enable() returns (r: Reply)
      requires Valid() && open
      modifies this
      ensures r == device(old(history), Call.Enable)
      ensures history == old(history) + [Step(Call.Enable, r)]
      ensures Valid() && open && configMode == old(configMode)
      ensures privileged == (old(privileged) || r.Done?)
    {
      r := device(history, Call.Enable);
      ModeOfSnoc(history, Step(Call.Enable, r));
      history := history + [Step(Call.Enable, r)];
      if r.Done? {
        privileged := true;
      }
    }

    /** `conn.config_mode()`: configuration mode when it succeeds. */
    method ConfigMode() returns (r: Reply)
      requires Valid() && open
      modifies this
      ensures r == device(old(history), Call.ConfigMode)
      ensures history == old(history) + [Step(Call.ConfigMode, r)]
      ensures Valid() && open && privileged == old(privileged)
      ensures configMode == (old(configMode) || r.Done?)
    {
      r := device(history, Call.ConfigMode);
      ModeOfSnoc(history, Step(Call.ConfigMode, r));
      history := history + [Step(Call.ConfigMode, r)];
      if r.Done? {
        configMode := true;
      }
    }

    /** `conn.exit_config_mode()`: back to exec mode when it succeeds. */
    method ExitConfigMode() returns (r: Reply)
      requires Valid() && open
      modifies this
      ensures r == device(old(history), Call.ExitConfigMode)
      ensures history == old(history) + [Step(Call.ExitConfigMode, r)]
      ensures Valid() && open && privileged == old(privileged)
      ensures configMode == (old(configMode) && r.Raised?)
    {
      r := device(history, Call.ExitConfigMode);
      ModeOfSnoc(history, Step(Call.ExitConfigMode, r));
      history := history + [Step(Call.ExitConfigMode, r)];
      if r.Done? {
        configMode := false;
      }
    }

    /** `conn.disconnect()`, as the `with` block calls it on the way out. */
    method Disconnect()
      requires Valid()
      modifies this
      ensures history == old(history) + [DisconnectStep]
      ensures Valid() && !open && !privileged && !configMode
    {
      ModeOfSnoc(history, DisconnectStep);
      history := history + [DisconnectStep];
      open, privileged, configMode := false, false, false;
    }
  }
}
