/** The packaged `cycle-focused-tags` entry point: its two argument
    validators, the inline tag rotation, and the flow that reads the focused
    output's tags and sends the new mask through the river control. */
module RiverwmUtils {
  import opened Wrappers
  import opened Bits
  import opened Rotation
  import opened Decimal
  import opened Registry

  /** Why an argument is rejected. */
  datatype ArgError =
    | EmptyDirection            // `direction[0]` of an empty string raises IndexError
    | InvalidDirection(text: string)
    | NotAnInteger(text: string)  // `int(n_tags)` raises ValueError
    | InvalidNTags(text: string)

  /** `str.lower()` on the letters that matter here; every other character is left as it is. */
  function Lower(c: char): (r: char) {
    if 'A' <= c <= 'Z' then (c as int - 'A' as int + 'a' as int) as char else c
  }

  /** check_direction: the first character, lower-cased, must be `n` or `p`. */
  function CheckDirection(direction: string): (r: Result<char, ArgError>)
    ensures r == Ok('n') <==> |direction| > 0 && direction[0] in {'n', 'N'}
    ensures r == Ok('p') <==> |direction| > 0 && direction[0] in {'p', 'P'}
    ensures r.Ok? ==> r.value in {'n', 'p'}
    ensures r == Err(EmptyDirection) <==> direction == ""
    ensures r.Err? && direction != "" ==> r == Err(InvalidDirection(direction))
  {
    if |direction| == 0 then
      Err(EmptyDirection)
    else
      var dirChar := Lower(direction[0]);
      if dirChar != 'p' && dirChar != 'n' then Err(InvalidDirection(direction)) else Ok(dirChar)
  }

  /** check_n_tags: the argument must be an integer from 1 to 32 and is returned unchanged. */
  function CheckNTags(nTags: string): (r: Result<int, ArgError>)
    ensures r.Ok? <==> ParseInt(nTags).Some? && 1 <= ParseInt(nTags).value <= 32
    ensures r.Ok? ==> r.value == ParseInt(nTags).value
    ensures r.Err? ==> r == Err(NotAnInteger(nTags)) || r == Err(InvalidNTags(nTags))
    ensures r == Err(NotAnInteger(nTags)) <==> ParseInt(nTags).None?
  {
    match ParseInt(nTags)
    case None => Err(NotAnInteger(nTags))
    case Some(i) => if i < 1 || 32 < i then Err(InvalidNTags(nTags)) else Ok(i)
  }

  /** A tag count written in decimal is accepted exactly when it lies in 1..32. */
  lemma CheckNTagsOfDecimal(n: nat)
    ensures CheckNTags(DecimalString(n)) == if 1 <= n <= 32 then Ok(n) else Err(InvalidNTags(DecimalString(n)))
    ensures CheckNTags("-" + DecimalString(n)) == Err(InvalidNTags("-" + DecimalString(n)))
  {
    ParseDecimalString(n);
  }

  /** The inline rotation: direction `n` cycles forward, anything else backward.
      The bits at or above n_tags are not masked off. */
  method CycleTags(focusedTags: nat, nTags: nat, direction: char) returns (newTags: nat)
    requires 1 <= nTags <= 32
    ensures direction == 'n' ==> ForwardStep(focusedTags, nTags, newTags)
    ensures direction != 'n' ==> BackwardStep(focusedTags, nTags, newTags)
    ensures focusedTags < Pow2(nTags) ==>
      newTags == if direction == 'n' then RotateLeft(focusedTags, nTags) else RotateRight(focusedTags, nTags)
  {
    var tags := focusedTags;
    newTags := 0;
    var lastTag := ShiftLeft(1, nTags - 1);
    PowerOfTwoBits(nTags - 1);
    BitsOfZero();
    if direction == 'n' {
      // The last tag wraps round to the first.
      AndPowerOfTwo(tags, nTags - 1);
      if And(tags, lastTag) != 0 {
        tags := Xor(tags, lastTag);
        newTags := 1;
      }
      assert forall i: nat :: Bit(newTags, i) == (i == 0 && Bit(focusedTags, nTags - 1));
      assert forall i: nat :: Bit(tags, i) == (i != nTags - 1 && Bit(focusedTags, i));
      newTags := Or(newTags, ShiftLeft(tags, 1));
    } else {
      // The first tag wraps round to the last.
      AndPowerOfTwo(tags, 0);
      if And(tags, 1) != 0 {
        tags := Xor(tags, 1);
        newTags := lastTag;
      }
      assert forall i: nat :: Bit(newTags, i) == (i == nTags - 1 && Bit(focusedTags, 0));
      assert forall i: nat :: Bit(tags, i) == (i != 0 && Bit(focusedTags, i));
      newTags := Or(newTags, ShiftRight(tags, 1));
    }
    if focusedTags < Pow2(nTags) {
      if direction == 'n' {
        ForwardStepIsRotateLeft(focusedTags, nTags, newTags);
      } else {
        BackwardStepIsRotateRight(focusedTags, nTags, newTags);
      }
    }
  }

  /** The body of cycle_focused_tags once both round trips are done: stop on the
      first missing piece of state, otherwise rotate the focused output's tags and
      run `set-focused-tags <decimal mask>` against the seat. */
  method CycleFocusedTags(client: Client, direction: char, nTags: nat) returns (outcome: Result<nat, Failure>)
    requires 1 <= nTags <= 32
    requires client.Valid()
    modifies client`pending, client`commands
    ensures outcome.Err? <==> old(client.FocusedTags()).Err?
    ensures outcome.Err? ==>
      outcome.error == old(client.FocusedTags()).error
      && client.pending == old(client.pending) && client.commands == old(client.commands)
    ensures outcome.Ok? ==>
      var tags := old(client.FocusedTags()).value;
      && (direction == 'n' ==> ForwardStep(tags, nTags, outcome.value))
      && (direction != 'n' ==> BackwardStep(tags, nTags, outcome.value))
      && (tags < Pow2(nTags) ==>
            outcome.value == if direction == 'n' then RotateLeft(tags, nTags) else RotateRight(tags, nTags))
      && client.seat != null && client.seat.focusedOutput in client.outputs
      && client.commands == old(client.commands)
           + [Command(client.seat.wlSeat, old(client.pending) + ["set-focused-tags", DecimalString(outcome.value)])]
      && client.pending == []
  {
    var focused := client.FocusedTags();
    if focused.Err? {
      return Err(focused.error);
    }
    var newTags := CycleTags(focused.value, nTags, direction);
    ghost var queued := client.pending;
    client.AddArgument("set-focused-tags");
    client.AddArgument(DecimalString(newTags));
    assert client.pending == queued + ["set-focused-tags", DecimalString(newTags)];
    client.RunCommand(client.seat.wlSeat);
    outcome := Ok(newTags);
  }
}
