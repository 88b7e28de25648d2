# thermostazvenoh command path, in Dafny

This project models the command-to-output reconciliation path of the
thermostazvenoh ESP32 firmware, together with the telemetry values that path
publishes. It covers both firmware crates: the root crate (`src/`) and
`kal-embed/`.

- **Command vocabulary.** `Togglable` (module `Togglable`) is the three-way
  switch command. Its lenient decoder `From<&[u8]>` never fails: fourteen
  literal spellings mean On or Off and every other payload means Toggle.
  It also has conversions from `bool`, `Option<bool>` and the GPIO `Level`,
  the `as_str` text and the default. `RelayCmnd` (module `Relay`) has the
  strict decoder: only `ON`, `OFF` and `TOGGLE` are accepted, and any other
  payload is returned inside `InvalidPayload`.
- **Controller tasks.** These are `relay_task` in both crates and `led_task`
  in kal-embed. Each is a class (`Relay.RelayTask`, `EmbedRelay.RelayTask`,
  `EmbedLed.LedTask`) with fields for the level, the pin, every level
  written to the pin, and every value sent to the telemetry channel
  `KAL_CHAN`.
  - The constructor is the task's start: the level is Low and is published
    once.
  - `Step` is one loop iteration, on a command or on the heartbeat timeout.
  - `Run` runs a finite sequence of iterations.
  - `ServeOnce` is one iteration fed from the real inbox.
  - All three are proved against the loop specification in module
    `Control`: `Final` is the level reached, `Trace` the levels published
    and `Writes` the pin writes.
- **Inbox producers.** These are the query-reply handlers `handle_reply` and
  the subscriber loops.
  - In `src/` the inbox is a five-slot FIFO (`Channels.Fifo`). The reply
    path uses the non-blocking `try_send`. The subscriber path uses the
    blocking `send`.
  - In kal-embed the inbox is a single-slot, overwriting `Signal`
    (`Channels.SignalSlot`).
- **Telemetry values.** These are `KalVal::as_string` and the key-expression
  selectors of both crates (modules `Kalval`, `EmbedKalval`).

Assumptions:

- Payloads are byte strings (`seq<uint8>`). Text literals are turned into
  bytes by `Base.Ascii`, which is what a `b"..."` literal or `str::as_bytes`
  gives for ASCII text.
- `Level` is esp-hal's GPIO level: `Low | High`, with `!` as `Not()`, and
  High reading as `true`.
- kal-embed imports `crate::togglable::Togglable`, but that file is not part
  of this model. `src/togglable.rs` is used as `Togglable` for both crates.
- The key-expression constants come from a build-generated file that is not
  part of this model. They are datatype constructors: distinct, with no text.
- embassy's `Channel` is a FIFO with a capacity, and `Signal` is a slot that
  each `signal` overwrites. A blocking `send` (to `KAL_CHAN`, or in
  `relay_cmnd_sub_task`) drops nothing and keeps order. It is therefore
  modelled as appending to the stream of sent values.
- `select` polls the inbox before the timer. So an iteration whose inbox
  already holds a command takes it, and only an empty inbox lets the
  heartbeat timeout win.

The lenient decoder is not case-insensitive. It accepts a word in lower case,
in upper case or capitalised (`on`, `ON`, `On`), but mixed case such as `oN`
is Toggle (`Togglable.OtherPayloadsToggle`). The model follows the code.

The controller publishes its starting level Low without writing the pin. If
the `Output` handed to the task starts High, pin and published level disagree
until the first command. The model states this in `Valid()`: before the first
write, the pin keeps the level it was handed. The root crate's `main` creates
the relay `Output` at Low.

## Model

| member | source | states |
|---|---|---|
| `Togglable.FromBytes` | src/togglable.rs:36-44 | the lenient decoder never fails, and only a payload of one to five bytes gives On or Off |
| `Togglable.FromBytesMeaning` | src/togglable.rs:36-44 | the lenient decoder gives On exactly for `on`/`true` in lower, upper or capitalised case or `1`, Off exactly for `off`/`false` in those casings or `0`, and Toggle for every other payload; it is total |
| `Togglable.SpellingsDisjoint` | src/togglable.rs:39-40 | no payload is both an On and an Off spelling, so the order of the two match arms does not matter |
| `Togglable.OnSpellings` | src/togglable.rs:39 | `ON`, `On`, `on`, `TRUE`, `True`, `true`, `1` each decode to On |
| `Togglable.OffSpellings` | src/togglable.rs:40 | `OFF`, `Off`, `off`, `FALSE`, `False`, `false`, `0` each decode to Off |
| `Togglable.OtherPayloadsToggle` | src/togglable.rs:41 | `oN` (equal to `on` up to case), `TOGGLE` and the empty payload decode to Toggle |
| `Togglable.FromBool` | src/togglable.rs:17-24 | true gives On, false gives Off, and the result is never Toggle |
| `Togglable.FromOption` | src/togglable.rs:26-34 | `Some(b)` converts as `b` does; the result is Toggle exactly for `None` |
| `Togglable.FromLevel` | src/togglable.rs:8-15 | a level converts as its bool reading does (High is On, Low is Off), never Toggle |
| `Togglable.AsStr` | src/togglable.rs:46-54 | the text is ASCII, at most 6 characters long, and the lenient decoder reads it back as the same variant |
| `Togglable.AsStrTexts` | src/togglable.rs:49-51 | the texts are `true` for On, `false` for Off and `toggle` for Toggle |
| `Togglable.Default` | src/togglable.rs:56-60 | the default is the conversion of `false`, i.e. Off |
| `Relay.TryFrom` | src/relay.rs:27-38 | an accepted payload is exactly the token of the command returned; a refused payload is none of the three tokens and comes back unchanged in `InvalidPayload` |
| `Relay.TokenText` | src/relay.rs:32-34 | the accepted tokens are the texts `ON`, `OFF` and `TOGGLE`, one per command, no two alike |
| `Relay.TokenRoundTrip` | src/relay.rs:32-34 | `ON`, `OFF` and `TOGGLE` decode to On, Off and Toggle |
| `Relay.StrictRefusals` | src/relay.rs:35 | `on`, `Toggle` and the relay's own telemetry text `true`/`false` are refused, though the lenient decoder reads that text as On/Off |
| `Relay.StrictRefusesAsStr` | src/relay.rs:31-36 | no `as_str` text (`true`, `false`, `toggle`) is accepted by the strict decoder, so kal-embed's relay telemetry is never a root-crate command |
| `Relay.ApplyCmnd` | src/relay.rs:90-94 | On drives the level high, Off drives it low, Toggle changes it |
| `Relay.StrictAndLenientAgree` | src/relay.rs:89-94 | for every payload the strict decoder accepts, the root crate's controller moves the level exactly as a kal-embed controller does on the lenient decoding of that payload |
| `Relay.Publication` | src/relay.rs:75 | the root crate publishes a present relay value, which converts to the same Togglable as the level |
| `Relay.PublishedTextReadsBack` | src/relay.rs:75 | the published text reads back as the level through the lenient decoder and is refused by the strict one |
| `Relay.RelayTask.constructor` | src/relay.rs:73-78 | the task starts at Low, publishes `Relay(Some(false))` once before any event, and has not written the pin |
| `Relay.RelayTask.Step` | src/relay.rs:82-99 | a command sets the new level and writes it to the pin once, even when the level is unchanged; a timeout changes neither; one `Relay(Some(level))` is published per iteration; the object invariant is kept |
| `Relay.RelayTask.Run` | src/relay.rs:81-100 | after the iterations `evs` the level, pin writes and publications are `Final`, `Writes` and `Trace` of `evs` |
| `Relay.RelayTask.ServeOnce` | src/relay.rs:80-88 | a queued command is dequeued oldest-first and applied; with an empty inbox the iteration is a heartbeat |
| `Relay.HandleReply` | src/relay.rs:46-70 | an error reply returns Ok and queues nothing; an undecodable Ok reply returns the decode error and queues nothing; a decoded command is queued if fewer than 5 are waiting, and otherwise refused with an error without waiting |
| `Relay.ForwardedOnlyAccepted` | src/relay.rs:111-116 | no more commands are forwarded than payloads arrive, and every forwarded command's token was received |
| `Relay.ForwardedNoneAccepted` | src/relay.rs:112-114 | when no payload decodes, nothing is forwarded |
| `Relay.ForwardedAllAccepted` | src/relay.rs:112-113 | when every payload decodes, one command is forwarded per payload and the i-th is the decoding of the i-th payload |
| `Relay.ForwardedKeepsOrder` | src/relay.rs:110-118 | forwarding keeps arrival order: the commands for one batch of payloads followed by another are those of the first batch followed by those of the second |
| `Relay.RelayCmndSubTask` | src/relay.rs:103-119 | the commands sent are the strict decodings of the received payloads that decode, in arrival order; receive errors and undecodable samples are dropped |
| `Control.ApplyTogglable` | kal-embed/src/relay.rs:63-67 | after On or Off the new level, read as a Togglable, is the command itself; Toggle changes the level |
| `Control.Extend` | kal-embed/src/relay.rs:54-73 | one more iteration applies the event to the level reached, appends that level to the publications, and appends it to the pin writes on a command only |
| `Control.TracePublishesEachLevel` | kal-embed/src/relay.rs:72 | a run publishes once per iteration, and the i-th publication is the level after the first i + 1 iterations |
| `Control.OneWritePerCommand` | kal-embed/src/relay.rs:61-70 | the pin is written exactly once per command and never on a timeout |
| `Control.LastWriteIsFinal` | kal-embed/src/led.rs:58-64 | once any command has been handled, the pin's last write is the current level |
| `Control.TimeoutsKeepLevel` | src/relay.rs:88 | a run of heartbeats keeps the level, writes nothing and republishes the same level each time |
| `Control.FinalConcat` | kal-embed/src/relay.rs:54-73 | running two event sequences one after the other ends where running the second from the end of the first does |
| `Control.ToggleTwiceRestores` | kal-embed/src/relay.rs:66-69 | two Toggle commands in a row restore the level, after writing the flipped level and then the original one |
| `Control.AbsoluteCommandForgetsStart` | kal-embed/src/relay.rs:63-65 | once an On or Off command has been handled, the level no longer depends on the starting level |
| `EmbedRelay.Publication` | kal-embed/src/relay.rs:49 | kal-embed publishes `Relay` of the level as a Togglable, never Toggle |
| `EmbedRelay.PublishedTextReadsBack` | kal-embed/src/relay.rs:49 | the published text reads back as the level through the lenient decoder |
| `EmbedRelay.RelayTask.constructor` | kal-embed/src/relay.rs:47-52 | the task starts at Low, publishes `Relay(Off)` once before any event, and has not written the pin |
| `EmbedRelay.RelayTask.Step` | kal-embed/src/relay.rs:55-72 | a command sets the new level and writes the pin once; a timeout touches neither; each iteration publishes one `Relay` value, never Toggle, for the current level |
| `EmbedRelay.RelayTask.Run` | kal-embed/src/relay.rs:54-73 | after the iterations `evs` the level, pin writes and publications are `Final`, `Writes` and `Trace` of `evs` |
| `EmbedRelay.RelayTask.ServeOnce` | kal-embed/src/relay.rs:55-61 | a pending signalled value is taken, emptying the slot, and applied; with nothing pending the iteration is a heartbeat |
| `EmbedRelay.HandleReply` | kal-embed/src/relay.rs:20-44 | always returns Ok; an Ok reply's lenient decoding is signalled, overwriting the slot, and is the one value added to the signal's history; an error reply changes neither |
| `EmbedRelay.RelaySubTask` | kal-embed/src/relay.rs:77-84 | the values signalled, which the signal's history gains in order, are the lenient decodings of every received payload, none rejected; the slot ends holding the last one |
| `EmbedLed.Publication` | kal-embed/src/led.rs:49 | kal-embed publishes `Led` of the level as a Togglable, never Toggle |
| `EmbedLed.PublishedTextReadsBack` | kal-embed/src/led.rs:49 | the published text reads back as the level through the lenient decoder |
| `EmbedLed.LedTask.constructor` | kal-embed/src/led.rs:47-52 | the task starts at Low, publishes `Led(Off)` once before any event, and has not written the pin |
| `EmbedLed.LedTask.Step` | kal-embed/src/led.rs:55-67 | a command sets the new level and writes the pin once; a timeout touches neither; each iteration publishes one `Led` value, never Toggle, for the current level |
| `EmbedLed.LedTask.Run` | kal-embed/src/led.rs:54-68 | after the iterations `evs` the level, pin writes and publications are `Final`, `Writes` and `Trace` of `evs` |
| `EmbedLed.LedTask.ServeOnce` | kal-embed/src/led.rs:55-57 | a pending signalled value is taken, emptying the slot, and applied; with nothing pending the iteration is a heartbeat |
| `EmbedLed.HandleReply` | kal-embed/src/led.rs:20-44 | always returns Ok; an Ok reply's lenient decoding is signalled, overwriting the slot, and is the one value added to the signal's history; an error reply changes neither |
| `EmbedLed.LedSubTask` | kal-embed/src/led.rs:72-79 | the values signalled, which the signal's history gains in order, are the lenient decodings of every received payload, none rejected; the slot ends holding the last one |
| `Kalval.BoolText` | src/kalval.rs:26 | the text of a bool is `as_str` of its Togglable, i.e. `true` or `false` (the same text kal-embed publishes for that level); it is ASCII, at most 5 characters, and the lenient decoder reads it back as the same bool |
| `Kalval.AsString` | src/kalval.rs:24-32 | a present relay or LED bool becomes its `{}` text (`true`/`false`), which fits the 30-character string and which the lenient decoder reads as the same bool |
| `Kalval.AsKeyexpr` | src/kalval.rs:33-46 | the key is total over the ten (type, variant) pairs and names exactly the requested type and the value's variant, whatever the payload |
| `Kalval.KeyexprIdentifiesVariant` | src/kalval.rs:34-45 | two values share a key exactly when type and variant agree: the payload, `None` included, plays no part, and no pairs collide |
| `EmbedKalval.AsString` | kal-embed/src/kalval.rs:20-26 | Hello is `1`; a relay or LED value becomes `as_str` of its Togglable, which never exceeds the 10-character capacity and which the lenient decoder reads back as the same Togglable |
| `EmbedKalval.CmndKeyexpr` | kal-embed/src/kalval.rs:27-35 | every variant, Hello included, has a command key naming that variant, whatever the payload |
| `EmbedKalval.TeleKeyexpr` | kal-embed/src/kalval.rs:36-44 | every variant, Hello included, has a telemetry key naming that variant, whatever the payload |
| `EmbedKalval.KeyexprsIdentifyVariant` | kal-embed/src/kalval.rs:27-44 | keys depend on the variant only and tell variants apart, and no command key is a telemetry key |
| `Zenoh.PayloadsWithoutErrors` | kal-embed/src/relay.rs:79-81 | when no receive fails, every sample's payload is passed on, in order |
| `Channels.Fifo.TrySend` | src/relay.rs:66 | `try_send` appends when fewer than `capacity` values wait, and otherwise leaves the channel as it was and hands the value back |
| `Channels.Fifo.TryReceive` | src/relay.rs:83 | the oldest waiting value is removed and returned; an empty channel yields nothing |
| `Channels.SignalSlot.Signal` | kal-embed/src/relay.rs:40 | `signal` replaces any value still pending, and the value joins the history of values signalled |
| `Channels.SignalSlot.TryTake` | kal-embed/src/relay.rs:56 | taking returns the pending value, if any, and leaves the slot empty and the history unchanged |
| `Base.Bounded` | kal-embed/src/kalval.rs:22-23 | a heapless string of the given capacity is built exactly when the UTF-8 encoding of the text is no longer than the capacity in bytes, and then holds that text |
| `Base.AsciiUtf8Length` | kal-embed/src/kalval.rs:22-23 | an ASCII text takes one byte per character, so its length is what counts against the capacity |

## Left out

- Kalval.AsString: only the relay and LED arms are modelled. The float arms (`Temperature`, `Humidity`, `DewPoint`) format an `f32`, which is not modelled, so the precondition excludes them along with the `unreachable!()` `None` case.
- EmbedKalval.AsString: the float arms `Temperature` and `Humidity` (two-decimal formatting of an `f32`) are not modelled and are excluded by the precondition.
- Sensor readings are raw `f32` bits (`Base.Reading`) and are never interpreted.
- Timing and concurrency are not modelled. This covers the five-minute heartbeat timer, `select` racing a command that arrives while the task waits, task interleaving, and how long a blocking `send` waits. A controller is driven by an explicit sequence of events, and the infinite loop by a finite prefix of it (`Run`).
- `KAL_CHAN`'s capacity of 3 is not modelled, and its consumer is not part of this model. Sends to it are modelled as the stream of published values.
- The blocking `send` of `relay_cmnd_sub_task` is modelled as the stream of commands it sends, not as queue contents; no consumer runs between its sends.
- `relay_cmnd_callback`, `relay_query_cb` and `led_query_cb` only log the error from `handle_reply`. Logging is not modelled, including the UTF-8 fallback text and the key expression logged in `handle_reply`.
- Relay.HandleReply: `handle_reply` in `src/relay.rs` converts decode and `try_send` errors into the crate's error type with `?`, but src/error.rs as shown has no such conversions. Its error is therefore modelled as `Decode(InvalidPayload(payload))` or `Full(command)`.
- The text of the key expressions is not part of this model. Only their identity and what their names say they are for are modelled.
- Hardware, the radio and the network are outside the command path: sensor polling, wifi connection, network bring-up, the zenoh session, `zenoh_put`'s JSON output, and the `From` conversions of src/error.rs.
