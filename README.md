# riverwm-utils: cycling the focused tags, modelled in Dafny

`cycle-focused-tags` moves the river compositor's focused output to the next
or the previous set of tags. It binds river's status manager and control
globals, learns the outputs and the first seat from the Wayland registry,
subscribes to each output's focused-tags mask and the seat's focused output,
rotates that mask by one tag inside a window of `n_tags` tags (1 to 32), and
sends `set-focused-tags <mask>` through river's control.

The repository carries the tool twice: the packaged module
`riverwm_utils/riverwm_utils.py` and the stand-alone script `src/cycle_focused_tags.py`.
Both are modelled. Their event handlers are the same code, so one set of
members models both. Their rotations and argument handling differ, so each
file has its own module.

Files:

- `bits.dfy` (module `Bits`): Python's `&`, `|`, `^`, `<<` and `>>` on
  non-negative integers. Python integers are unbounded, so masks are `nat`.
  Each operator is specified by what it does to every bit `Bit(t, i)`.
- `rotation.dfy` (module `Rotation`): the reference rotation. A mask is read as
  its low `n` bits, least significant first. The bit sequence is rotated and
  reassembled. The file proves where each tag goes, that the width and the
  number of set tags are kept, and that the two directions undo each other. It
  also describes, bit by bit and for every input, what the source's forward
  and backward steps compute (`ForwardStep`, `BackwardStep`). It proves that
  these equal the rotations on masks below `2^n`.
- `decimal.dfy` (module `Decimal`): `str(n)` and the part of `int(s)` the
  command line uses, with the round trip between them.
- `registry.dfy` (module `Registry`): the state built by the Wayland events.
  `Client` holds the module globals, `Output` an output and its cached mask,
  and `Seat` the first seat and its focused output.
- `riverwm_utils.dfy` (module `RiverwmUtils`): `check_direction`,
  `check_n_tags`, the inline rotation of `cycle_focused_tags` as a method, and
  the flow after the second round trip.
- `cycle_focused_tags.dfy` (module `CycleFocusedTagsScript`): the script's
  argument defaults, its rotation and its flow.
- `wrappers.dfy` (module `Wrappers`): `Option` and `Result`.

The model follows the code where its behaviour departs from what the tool
is usually taken to do:

- The code never masks bits at or above `n_tags`. With such bits present,
  forward moves them further up, and backward merges bit `n_tags` with the
  wrapped bit 0. `ForwardStep` and `BackwardStep` state this exactly. The
  rotation properties are proved for masks below `2^n_tags`.
- The packaged module matches the direction on its first letter, without
  regard to case. The script treats exactly `next` as forward and every other
  string as backward.
- The script does not check `n_tags`. Any value of 1 or more is a rotation
  over that many bits. A value below 1 fails where `1 << (n_tags - 1)` is
  evaluated. That happens always for `next`, and for the backward direction
  only when bit 0 is set.
- Neither file skips empty or occupied tags, moves the focused view along,
  or propagates the change to all outputs. `--skip-unoccupied` is parsed and
  never read.
- The cached output state holds only `focused_tags`. Neither file subscribes
  to view tags.

The Wayland round trips are not modelled as steps. The handlers
(`RegistryHandleGlobal`, `HandleFocusedTags`, `HandleSeatFocusedOutput`) are
methods the transport calls. `Client.Valid()` says that the seat's focus, once
set, is one of the client's outputs. The constructor establishes it, the
handlers keep it, and both flows require it. The flow methods take the state the barriers
leave behind. When the flow meets a missing piece of state, it returns a
`Failure` instead of dereferencing `None`. Those pieces are the status
manager, the control, the seat, the seat's focused output and that output's
mask.

## Model

| member | source | states |
|---|---|---|
| Bits.And | riverwm_utils/riverwm_utils.py:210 | bit i of `a & b` is set exactly when bit i is set in both |
| Bits.Or | riverwm_utils/riverwm_utils.py:214 | bit i of the bitwise or of a and b is set exactly when bit i is set in either |
| Bits.Xor | riverwm_utils/riverwm_utils.py:211 | bit i of `a ^ b` is set exactly when bit i is set in exactly one |
| Bits.ShiftLeft | riverwm_utils/riverwm_utils.py:207 | `a << k` moves bit i to i + k, leaves bits below k clear, and equals a * 2^k |
| Bits.ShiftRight | riverwm_utils/riverwm_utils.py:223 | `a >> k` moves bit i + k to i and is floor(a / 2^k) |
| Bits.AndPowerOfTwo | riverwm_utils/riverwm_utils.py:210 | `tags & (1 << k) != 0` holds exactly when bit k of tags is set |
| Bits.BitExtensionality | riverwm_utils/riverwm_utils.py:206-223 | two masks with the same bits are the same integer |
| Bits.BitsAboveWidth | riverwm_utils/riverwm_utils.py:207 | a mask below 2^n has no tag at or above bit n |
| Rotation.RotateLeftBits | riverwm_utils/riverwm_utils.py:206-214 | forward on a mask below 2^n: bit n-1 goes to bit 0, every other set bit i goes to i+1, and nothing lands at or above bit n |
| Rotation.RotateRightBits | riverwm_utils/riverwm_utils.py:216-223 | backward on a mask below 2^n: bit 0 goes to bit n-1, every other set bit i goes to i-1, and nothing lands at or above bit n |
| Rotation.RotationPreservesWidthAndCount | riverwm_utils/riverwm_utils.py:206-223 | both directions keep a mask below 2^n and keep its number of set tags |
| Rotation.RotationsAreInverse | riverwm_utils/riverwm_utils.py:206-223 | backward undoes forward and forward undoes backward on masks below 2^n |
| Rotation.ForwardStepIsRotateLeft | src/cycle_focused_tags.py:151-162 | the forward step's bit-level result equals the n-bit left rotation on masks below 2^n |
| Rotation.BackwardStepIsRotateRight | src/cycle_focused_tags.py:164-175 | the backward step's bit-level result equals the n-bit right rotation on masks below 2^n |
| Rotation.FromBitsToBits | riverwm_utils/riverwm_utils.py:206-223 | reading the low n bits of a mask below 2^n and reassembling them gives the mask back |
| Rotation.PopCountFromBits | riverwm_utils/riverwm_utils.py:206-223 | the number of set bits of a reassembled mask is the number of set entries of its bit sequence |
| Decimal.DecimalString | riverwm_utils/riverwm_utils.py:226 | `str(new_tags)` is a non-empty digit string without leading zeros whose decimal value is new_tags |
| Decimal.ParseDecimalString | riverwm_utils/riverwm_utils.py:147 | `int` reads back what `str` wrote, with an optional sign |
| RiverwmUtils.CheckDirection | riverwm_utils/riverwm_utils.py:137-143 | gives `n` exactly for a first character `n`/`N` and `p` exactly for `p`/`P`; rejects every other first character; an empty argument fails on indexing |
| RiverwmUtils.CheckNTags | riverwm_utils/riverwm_utils.py:145-151 | accepts exactly the integer texts whose value is in 1..32 and returns that value unchanged; non-integers and other values are errors |
| RiverwmUtils.CheckNTagsOfDecimal | riverwm_utils/riverwm_utils.py:145-151 | the decimal spelling of n is accepted as n exactly when 1 <= n <= 32; negative counts are rejected |
| RiverwmUtils.CycleTags | riverwm_utils/riverwm_utils.py:206-223 | direction `n` gives the forward step and any other gives the backward step, for every mask; on masks below 2^n_tags they are the left and right n_tags-bit rotations |
| RiverwmUtils.CycleFocusedTags | riverwm_utils/riverwm_utils.py:187-227 | fails on the first missing capability, seat, focused output or mask without sending anything; otherwise runs exactly `["set-focused-tags", str(new_tags)]` against the seat, new_tags being the rotated mask of a focused output that is one of the client's outputs |
| CycleFocusedTagsScript.ParseArgv | src/cycle_focused_tags.py:110-121 | defaults are `next` and 32; the first argument replaces the direction, the second the tag count; a non-integer count fails before `-h`/`--help` is looked at |
| CycleFocusedTagsScript.CycleTags | src/cycle_focused_tags.py:151-175 | exactly `next` is forward and anything else backward; fails exactly when n_tags < 1 and the shift is needed; on masks below 2^n_tags it gives the rotations |
| CycleFocusedTagsScript.CycleFocusedTags | src/cycle_focused_tags.py:132-179 | same as the packaged flow, with the script's direction test and unchecked tag count: a count below 1 fails exactly when the shift is evaluated, otherwise the mask sent is `tags >> 1`; a missing mask and a bad count fail in the script's order |
| Registry.LastMatch | riverwm_utils/riverwm_utils.py:112-114 | the index of the last output whose proxy is the reported one, or none when no output has it |
| Registry.Output.constructor | riverwm_utils/riverwm_utils.py:128-129 | a new output holds its bound wl_output and no mask yet |
| Registry.Output.HandleFocusedTags | riverwm_utils/riverwm_utils.py:85-87 | the reported mask replaces the cached one unconditionally |
| Registry.Seat.constructor | riverwm_utils/riverwm_utils.py:134-135 | a new seat holds its bound wl_seat and no focused output |
| Registry.Seat.HandleFocusedOutput | riverwm_utils/riverwm_utils.py:110-114 | the focus becomes the last output with the reported proxy; unchanged when none has it |
| Registry.Client.HandleSeatFocusedOutput | riverwm_utils/riverwm_utils.py:110-114 | the focused_output event scans the client's own outputs: the seat's focus becomes the last output with the reported proxy, or stays; the focus is always one of the client's outputs |
| Registry.Client.constructor | riverwm_utils/riverwm_utils.py:57-61 | no capability bound, no outputs, no seat, nothing queued or sent |
| Registry.Client.RegistryHandleGlobal | riverwm_utils/riverwm_utils.py:117-135 | a status manager or control advertisement (re)binds that slot; `wl_output` appends exactly one fresh output and keeps earlier ones; only the first `wl_seat` is bound; any other interface changes nothing |
| Registry.Client.AddArgument | riverwm_utils/riverwm_utils.py:225-226 | one token is appended to the control's queue |
| Registry.Client.RunCommand | riverwm_utils/riverwm_utils.py:227 | the queued tokens become one command against the seat, and the queue is emptied |
| Registry.Client.FocusedTags | riverwm_utils/riverwm_utils.py:187-205 | the focused output's mask exactly when the status manager, control, seat, focused output and mask are all present; otherwise exactly one of MissingStatusManager, MissingControl, NoSeat, NoFocusedOutput, NoFocusedTags, each characterised by the earlier pieces being present and its own missing |

The event handlers and the registry of `src/cycle_focused_tags.py` are the same
code as in the packaged module, and the same members model them:
`registry_handle_global` (src/cycle_focused_tags.py:76-94),
`Seat.handle_focused_output` (src/cycle_focused_tags.py:70-74) and
`Output.handle_focused_tags` (src/cycle_focused_tags.py:48-49). The script's
command tokens (src/cycle_focused_tags.py:177-179) are modelled in
`CycleFocusedTagsScript.CycleFocusedTags`.

## Left out

- The Wayland connection: `Display.connect`, `dispatch`, `roundtrip` and `disconnect`. These are transport I/O and blocking barriers in the Wayland library. The flows start from the state the round trips leave.
- Calls into the Wayland library (`bind`, `get_river_output_status`, `get_river_seat_status`, `configure`'s dispatcher set-up). A bound proxy is the opaque `Proxy(name, interface, version)`. `add_argument` and `run_command` are kept only as the token queue and the list of commands sent.
- The `destroy` methods and the teardown at the end of both flows. They release proxies and change no modelled state.
- Generating the protocol bindings when they are missing (riverwm_utils/riverwm_utils.py:6-52), and the script's import-failure message. This is build-time and file-writing work.
- argparse itself, help and usage printing, `print`, `sys.exit` and `quit`. A failed check or a missing capability is a `Result` error. `-h`/`--help` in the script is the `ShowUsage` outcome.
- `--skip-unoccupied`: it is parsed and never read.
- Decimal.ParseInt: models `int()` only on an optional `+`/`-` followed by ASCII digits. It does not accept the surrounding whitespace, `_` digit separators or non-ASCII digits that Python also accepts. Those are rejected in the model.
- RiverwmUtils.Lower: lower-cases ASCII letters only. No other character lower-cases to `n` or `p`, so `check_direction` decides the same.
- Registry.Output.HandleFocusedTags: the mask arrives as a protocol `uint32`. The model accepts any natural number and does not require it to be below 2^32.
- The packaged module calls `Output()` and then assigns `wl_output`. The model builds an output with its proxy in one step, and likewise for the seat.
