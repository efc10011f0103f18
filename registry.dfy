/** The client-side state that the Wayland event handlers build up: the bound
    river status manager and control, the outputs in discovery order, the first
    seat, and the commands sent through the control. Protocol proxies are
    opaque handles; binding, subscribing and sending are calls into the
    Wayland library and are represented only by the handles they yield and
    the tokens they carry. */
module Registry {
  import opened Wrappers

  const StatusManagerInterface: string := "zriver_status_manager_v1"
  const ControlInterface: string := "zriver_control_v1"
  const OutputInterface: string := "wl_output"
  const SeatInterface: string := "wl_seat"

  /** A proxy bound to the global advertised under `name` with this interface and version. */
  datatype Proxy = Proxy(name: nat, iface: string, version: nat)

  /** One command run by the river control against a seat: its verb and arguments, in order. */
  datatype Command = Command(seat: Proxy, tokens: seq<string>)

  /** Why the cycling flow stops without sending a command. */
  datatype Failure =
    | MissingStatusManager  // no zriver_status_manager_v1 was advertised
    | MissingControl        // no zriver_control_v1 was advertised
    | NoSeat                // no wl_seat was advertised
    | NoFocusedOutput       // the seat never named an output known to the client
    | NoFocusedTags         // the focused output never reported its focused tags
    | NegativeShiftCount    // a tag count below 1 made `1 << (n_tags - 1)` a negative shift

  /** A wl_output, with the focused-tags mask its river output status last reported. */
  class Output {
    const wlOutput: Proxy
    var focusedTags: Option<nat>

    constructor (wlOutput: Proxy)
      ensures this.wlOutput == wlOutput && focusedTags == None
    {
      this.wlOutput := wlOutput;
      focusedTags := None;
    }

    /** The focused_tags event: the newly reported mask replaces the cached one. */
    method HandleFocusedTags(tags: nat)
      modifies this`focusedTags
      ensures focusedTags == Some(tags)
    {
      focusedTags := Some(tags);
    }
  }

  /** The index of the last output in `outputs` whose proxy is `wlOutput`, if any. */
  function LastMatch(outputs: seq<Output>, wlOutput: Proxy): (k: Option<nat>)
    ensures k.None? <==> forall j :: 0 <= j < |outputs| ==> outputs[j].wlOutput != wlOutput
    ensures k.Some? ==> k.value < |outputs| && outputs[k.value].wlOutput == wlOutput
    ensures k.Some? ==> forall j :: k.value < j < |outputs| ==> outputs[j].wlOutput != wlOutput
  {
    if outputs == [] then
      None
    else if outputs[|outputs| - 1].wlOutput == wlOutput then
      Some(|outputs| - 1)
    else
      LastMatch(outputs[..|outputs| - 1], wlOutput)
  }

  /** A wl_seat, with the output its river seat status last named as focused. */
  class Seat {
    const wlSeat: Proxy
    var focusedOutput: Output?

    constructor (wlSeat: Proxy)
      ensures this.wlSeat == wlSeat && focusedOutput == null
    {
      this.wlSeat := wlSeat;
      focusedOutput := null;
    }

    /** The focused_output event: scans all known outputs and keeps the last one whose
        proxy is the reported one; when none is, the previous focus stays. */
    method HandleFocusedOutput(outputs: seq<Output>, wlOutput: Proxy)
      modifies this`focusedOutput
      ensures focusedOutput == match LastMatch(outputs, wlOutput)
                               case None => old(focusedOutput)
                               case Some(k) => outputs[k]
    {
      var i := 0;
      while i < |outputs|
        invariant 0 <= i <= |outputs|
        invariant focusedOutput == match LastMatch(outputs[..i], wlOutput)
                                   case None => old(focusedOutput)
                                   case Some(k) => outputs[k]
      {
        assert outputs[..i + 1][..i] == outputs[..i];
        if outputs[i].wlOutput == wlOutput {
          focusedOutput := outputs[i];
        }
        i := i + 1;
      }
      assert outputs[..i] == outputs;
    }
  }

  /** The process-wide state of one run of the tool. */
  class Client {
    var statusManager: Option<Proxy>
    var control: Option<Proxy>
    var outputs: seq<Output>
    var seat: Seat?
    var pending: seq<string>     // tokens queued on the control, not yet run
    var commands: seq<Command>   // commands run, oldest first

    /** The seat's focus, once set, is one of the client's own outputs. */
    ghost predicate Valid()
      reads this, seat
    {
      seat != null && seat.focusedOutput != null ==> seat.focusedOutput in outputs
    }

    constructor ()
      ensures Valid()
      ensures statusManager == None && control == None && outputs == [] && seat == null
      ensures pending == [] && commands == []
    {
      statusManager, control, outputs, seat := None, None, [], null;
      pending, commands := [], [];
    }

    /** The registry's global event: binds the river status manager and control (a
        later advertisement replaces the earlier binding), appends one output per
        wl_output, binds only the first wl_seat, and ignores every other interface. */
    method RegistryHandleGlobal(name: nat, iface: string, version: nat)
      requires Valid()
      modifies this
      ensures Valid()
      ensures statusManager == if iface == StatusManagerInterface then Some(Proxy(name, iface, version)) else old(statusManager)
      ensures control == if iface == ControlInterface then Some(Proxy(name, iface, version)) else old(control)
      ensures iface != OutputInterface ==> outputs == old(outputs)
      ensures iface == OutputInterface ==>
        && |outputs| == |old(outputs)| + 1
        && outputs[..|old(outputs)|] == old(outputs)
        && fresh(outputs[|old(outputs)|])
        && outputs[|old(outputs)|].wlOutput == Proxy(name, iface, version)
        && outputs[|old(outputs)|].focusedTags == None
      ensures iface == SeatInterface && old(seat) == null ==>
        && seat != null && fresh(seat)
        && seat.wlSeat == Proxy(name, iface, version)
        && seat.focusedOutput == null
      ensures iface != SeatInterface || old(seat) != null ==> seat == old(seat)
      ensures pending == old(pending) && commands == old(commands)
    {
      if iface == StatusManagerInterface {
        statusManager := Some(Proxy(name, iface, version));
      } else if iface == ControlInterface {
        control := Some(Proxy(name, iface, version));
      } else if iface == OutputInterface {
        var output := new Output(Proxy(name, iface, version));
        outputs := outputs + [output];
      } else if iface == SeatInterface {
        // Only the first seat is used.
        if seat == null {
          seat := new Seat(Proxy(name, iface, version));
        }
      }
    }

    /** The seat status's focused_output event, delivered to the client's seat:
        the scan runs over the client's own outputs, so the focus stays one of them. */
    method HandleSeatFocusedOutput(wlOutput: Proxy)
      requires Valid() && seat != null
      modifies seat`focusedOutput
      ensures Valid()
      ensures seat.focusedOutput == match LastMatch(outputs, wlOutput)
                                    case None => old(seat.focusedOutput)
                                    case Some(k) => outputs[k]
    {
      seat.HandleFocusedOutput(outputs, wlOutput);
    }

    /** The control's add_argument request: queues one token. */
    method AddArgument(token: string)
      modifies this`pending
      ensures pending == old(pending) + [token]
    {
      pending := pending + [token];
    }

    /** The control's run_command request: runs the queued tokens as one command
        against the seat and empties the queue. */
    method RunCommand(wlSeat: Proxy)
      modifies this`pending, this`commands
      ensures commands == old(commands) + [Command(wlSeat, old(pending))]
      ensures pending == []
    {
      commands := commands + [Command(wlSeat, pending)];
      pending := [];
    }

    /** The focused tags the flow reads once both round trips are done, or the
        first missing piece, in the order the flow meets them: the status manager,
        the control, the seat, the seat's focused output, and that output's mask. */
    function FocusedTags(): (r: Result<nat, Failure>)
      reads this, seat, if seat != null then {seat.focusedOutput} else {}
      ensures r.Ok? <==>
        && statusManager.Some? && control.Some?
        && seat != null && seat.focusedOutput != null && seat.focusedOutput.focusedTags.Some?
      ensures r.Ok? ==> seat.focusedOutput.focusedTags == Some(r.value)
      ensures r != Err(NegativeShiftCount)
      ensures r == Err(MissingStatusManager) <==> statusManager.None?
      ensures r == Err(MissingControl) <==> statusManager.Some? && control.None?
      ensures r == Err(NoSeat) <==> statusManager.Some? && control.Some? && seat == null
      ensures r == Err(NoFocusedOutput) <==>
        statusManager.Some? && control.Some? && seat != null && seat.focusedOutput == null
      ensures r == Err(NoFocusedTags) <==>
        && statusManager.Some? && control.Some? && seat != null && seat.focusedOutput != null
        && seat.focusedOutput.focusedTags.None?
    {
      if statusManager.None? then Err(MissingStatusManager)
      else if control.None? then Err(MissingControl)
      else if seat == null then Err(NoSeat)
      else if seat.focusedOutput == null then Err(NoFocusedOutput)
      else if seat.focusedOutput.focusedTags.None? then Err(NoFocusedTags)
      else Ok(seat.focusedOutput.focusedTags.value)
    }
  }
}
