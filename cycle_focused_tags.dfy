/** The stand-alone `cycle_focused_tags.py` script: positional arguments with
    defaults, its own version of the tag rotation (direction `next` forward,
    anything else backward, the tag count unchecked), and the flow that sends
    the new mask through the river control. */
module CycleFocusedTagsScript {
  import opened Wrappers
  import opened Bits
  import opened Rotation
  import opened Decimal
  import opened Registry

  /** What the command line asks for. */
  datatype Invocation =
    | Run(direction: string, nTags: int)
    | ShowUsage            // `-h` or `--help` as the direction
    | BadNTags(text: string)  // `int(sys.argv[2])` raises ValueError

  /** The argument handling at the top of main: `next` and 32 unless the first and
      second arguments replace them; argv[0] is the program name. */
  method ParseArgv(argv: seq<string>) returns (inv: Invocation)
    ensures inv.BadNTags? <==> |argv| > 2 && ParseInt(argv[2]).None?
    ensures inv.BadNTags? ==> inv.text == argv[2]
    ensures inv == ShowUsage <==>
      |argv| > 1 && (argv[1] == "-h" || argv[1] == "--help") && (|argv| > 2 ==> ParseInt(argv[2]).Some?)
    ensures inv.Run? ==>
      && inv.direction == (if |argv| > 1 then argv[1] else "next")
      && inv.nTags == (if |argv| > 2 then ParseInt(argv[2]).value else 32)
  {
    var nTags: int := 32;
    var direction := "next";
    if |argv| > 1 {
      direction := argv[1];
    }
    if |argv| > 2 {
      var parsed := ParseInt(argv[2]);
      if parsed.None? {
        return BadNTags(argv[2]);
      }
      nTags := parsed.value;
    }
    if direction == "-h" || direction == "--help" {
      return ShowUsage;
    }
    inv := Run(direction, nTags);
  }

  /** The script's rotation. `1 << (n_tags - 1)` is evaluated only where the
      direction needs it, and fails when n_tags is below 1. */
  method CycleTags(focusedTags: nat, nTags: int, direction: string) returns (r: Result<nat, Failure>)
    ensures r.Err? <==> nTags < 1 && (direction == "next" || Bit(focusedTags, 0))
    ensures r.Err? ==> r.error == NegativeShiftCount
    ensures r.Ok? && nTags >= 1 && direction == "next" ==> ForwardStep(focusedTags, nTags, r.value)
    ensures r.Ok? && nTags >= 1 && direction != "next" ==> BackwardStep(focusedTags, nTags, r.value)
    ensures r.Ok? && nTags < 1 ==> r.value * 2 == focusedTags
    ensures nTags >= 1 && focusedTags < Pow2(nTags) ==>
      r == Ok(if direction == "next" then RotateLeft(focusedTags, nTags) else RotateRight(focusedTags, nTags))
  {
    var tags := focusedTags;
    var newTags: nat;
    BitsOfZero();
    if direction == "next" {
      if nTags < 1 {
        return Err(NegativeShiftCount);
      }
      var mask := ShiftLeft(1, nTags - 1);
      PowerOfTwoBits(nTags - 1);
      AndPowerOfTwo(tags, nTags - 1);
      var wrap := And(tags, mask) != 0;
      // The last tag is cleared here and reappears as the first.
      if wrap {
        tags := Xor(tags, mask);
      }
      assert forall i: nat :: Bit(tags, i) == (i != nTags - 1 && Bit(focusedTags, i));
      newTags := ShiftLeft(tags, 1);
      if wrap {
        PowerOfTwoBits(0);
        newTags := Or(newTags, 1);
      }
    } else {
      PowerOfTwoBits(0);
      AndPowerOfTwo(tags, 0);
      var wrap := And(tags, 1) != 0;
      // The first tag is cleared here and reappears as the last.
      if wrap {
        tags := Xor(tags, 1);
      }
      assert forall i: nat :: Bit(tags, i) == (i != 0 && Bit(focusedTags, i));
      newTags := ShiftRight(tags, 1);
      if wrap {
        if nTags < 1 {
          return Err(NegativeShiftCount);
        }
        var mask := ShiftLeft(1, nTags - 1);
        PowerOfTwoBits(nTags - 1);
        newTags := Or(newTags, mask);
      }
    }
    r := Ok(newTags);
    if nTags >= 1 && focusedTags < Pow2(nTags) {
      if direction == "next" {
        ForwardStepIsRotateLeft(focusedTags, nTags, newTags);
      } else {
        BackwardStepIsRotateRight(focusedTags, nTags, newTags);
      }
    }
  }

  /** The body of main once both round trips are done. A missing focused-tags mask
      fails at `tags & ...`, except that for `next` the mask `1 << (n_tags - 1)`
      is computed, and may fail, first. */
  method CycleFocusedTags(client: Client, direction: string, nTags: int) returns (outcome: Result<nat, Failure>)
    requires client.Valid()
    modifies client`pending, client`commands
    ensures var f := old(client.FocusedTags());
      outcome.Err? <==> f.Err? || (nTags < 1 && (direction == "next" || Bit(f.value, 0)))
    ensures var f := old(client.FocusedTags());
      f.Err? && f.error != NoFocusedTags ==> outcome == f
    ensures old(client.FocusedTags()) == Err(NoFocusedTags) ==>
      outcome == Err(if direction == "next" && nTags < 1 then NegativeShiftCount else NoFocusedTags)
    ensures outcome.Err? ==> client.pending == old(client.pending) && client.commands == old(client.commands)
    ensures outcome.Ok? ==>
      var tags := old(client.FocusedTags()).value;
      && (nTags >= 1 && direction == "next" ==> ForwardStep(tags, nTags, outcome.value))
      && (nTags >= 1 && direction != "next" ==> BackwardStep(tags, nTags, outcome.value))
      && (nTags < 1 ==> outcome.value * 2 == tags)
      && (nTags >= 1 && tags < Pow2(nTags) ==>
            outcome.value == if direction == "next" then RotateLeft(tags, nTags) else RotateRight(tags, nTags))
    ensures outcome.Ok? ==>
      && client.seat != null && client.seat.focusedOutput in client.outputs
      && client.commands == old(client.commands)
           + [Command(client.seat.wlSeat, old(client.pending) + ["set-focused-tags", DecimalString(outcome.value)])]
      && client.pending == []
  {
    var focused := client.FocusedTags();
    if focused.Err? {
      if focused.error == NoFocusedTags && direction == "next" && nTags < 1 {
        return Err(NegativeShiftCount);
      }
      return Err(focused.error);
    }
    var step := CycleTags(focused.value, nTags, direction);
    if step.Err? {
      return Err(step.error);
    }
    var newTags := step.value;
    ghost var queued := client.pending;
    client.AddArgument("set-focused-tags");
    client.AddArgument(DecimalString(newTags));
    assert client.pending == queued + ["set-focused-tags", DecimalString(newTags)];
    client.RunCommand(client.seat.wlSeat);
    outcome := Ok(newTags);
  }
}
