# tasmotch switch engine in Dafny

This project models the switch-to-device binding and dispatch engine of
tasmotch (`utils.h`). The engine maps physical switches on a microcontroller
to MQTT commands for smart-lighting devices that it discovers at run time.

- **Debounced input** (`Debounce`). `Input::init` and `Input::changed` are pure
  step functions over an `Input(activeHigh, lastChange, value)` record. The
  clock reading (`millis`) and the pin level (`digitalRead`) are parameters.
  Times are 32-bit `unsigned long` values, and the elapsed time wraps modulo 2^32.
- **C-string helpers** (`CStrings`). `prefix_length`, `starts_with`,
  `equal_strings` and `append_to_string` work on `CString`, a string with no NUL
  in it. Each character of a `CString` stands for one byte of the C string:
  UTF-8 is not decoded, so prefixes and equality are byte-wise as in the
  source, and lengths (such as the 116-character limit of the topic buffer)
  count bytes. `At` reads the terminator at index `|s|`. `ScanPrefix` and
  `AppendToString` keep the C loops. `PrefixLength` and `Omit` are the reference
  meanings those loops are proved against.
- **Device list** (`Devices`). `DeviceList::find`/`add` on an insertion-ordered
  `seq<Device>`. Adding a name that is already present changes nothing.
- **Switch** (`Switches`). Interest registration (`find_device`), prefix-based
  discovery (`found_device`), payloads (`cmd_to_str`), gating
  (`cmd_matches_control_mode`) and `check`. `check` returns the new switch and
  the sequence of `(topic, payload)` messages it publishes.
- **Switch list** (`SwitchList`). The fan-out of `init`, `found_device` and
  `check` over the switches in registration order.
- **Scenarios** (`Scenarios`). Worked configurations stated for all names and
  times that satisfy their conditions.

## Behaviour worth noting

- `Toggle` reaches only `OnOff` devices, because `OnOnly` accepts only `On`
  and `OffOnly` accepts only `Off` (utils.h:232-235). `Switches.Permits` and
  `Switches.CheckRespectsModes` state this.
- A device that matches two interest prefixes is bound once, with the mode of
  the first matching prefix. `found_device` adds through `DeviceList::add`,
  which ignores a name it already has (utils.h:202-208, utils.h:144-156). So an
  edge publishes once to that device, not once per matching prefix.
  `Switches.Discover`, `Scenarios.OverlappingPrefixesBindOnce` and
  `Scenarios.OverlappingPrefixesPublishOnce` state this.
- A single differing sample after more than 100 ms of quiet is committed at
  once (utils.h:25-29). After that, a difference that is sampled again at
  least every 100 ms is never committed, because each sample pushes
  `last_change` forward (utils.h:30). `Scenarios.GlitchIsCommittedAndSticks`
  and `Debounce.BouncingNeverCommits` state both facts.

## Model

| member | source | states |
|---|---|---|
| Lists.Append | utils.h:85-93 | the new element becomes the tail; every earlier element keeps its position |
| CStrings.PrefixLength | utils.h:96-101 | the result is the length of the longest common prefix: both strings agree below it, and it stops at the end of either string or at the first mismatch |
| CStrings.ScanPrefix | utils.h:96-101 | the C scan, which stops on a mismatch or on the terminator of the first string, returns exactly the longest-common-prefix length |
| CStrings.StartsWith | utils.h:103-105 | true iff the prefix argument is a prefix of the string |
| CStrings.EqualStrings | utils.h:107-110 | true iff the two strings are equal |
| CStrings.Omit | utils.h:112-120 | dropping a character leaves none of it, adds nothing, and is the identity when the character is absent |
| CStrings.OmitAppend | utils.h:112-120 | dropping characters distributes over concatenation, so the kept characters stay in source order |
| CStrings.AppendToString | utils.h:112-120 | the buffer afterwards holds its old text followed by `s` with every `omit` character removed; the returned end is the position of the new terminator |
| CStrings.TopicRoundTrip | utils.h:251-256 | the device name can be read back verbatim from `cmnd/<name>/Power` |
| CStrings.TopicInjective | utils.h:251-256 | distinct device names give distinct topics |
| CStrings.ComposeTopic | utils.h:251-256 | the three chained appends into the emptied buffer produce exactly `"cmnd/" + name + "/Power"`, and it fits the 128-byte buffer when the name has at most 116 bytes |
| Debounce.Elapsed | utils.h:26 | `now - last_change` in unsigned 32-bit arithmetic: the plain difference, or the difference plus 2^32 when the clock has wrapped |
| Debounce.Fresh | utils.h:7-9 | a new input is active high, stamped 0 and low |
| Debounce.RawValue | utils.h:11-13 | an active-high input reads true iff the pin is high; an active-low one iff the pin is low |
| Debounce.Init | utils.h:15-19 | init stores the sampled level, under the polarity, as the stable value, stamped with the current time |
| Debounce.Changed | utils.h:21-33 | an edge is committed iff the raw level differs from the stable value and more than 100 ms elapsed since `last_change`; a commit flips the value; any difference restamps `last_change`; a sample equal to the stable value changes nothing |
| Debounce.InitIsQuiet | utils.h:15-33 | a sample at the level just stored by init reports no edge and leaves the input as it is |
| Debounce.RunParity | utils.h:21-33 | over any sequence of polls, the stable value is the start value flipped once per committed edge |
| Debounce.BouncingNeverCommits | utils.h:25-31 | a difference re-sampled at most 100 ms after the previous one is never committed, and the value stays put |
| Devices.Find | utils.h:135-142 | returns the position of the first entry with exactly that name, or nothing iff no entry has that name |
| Devices.Add | utils.h:144-156 | a name already present leaves the list unchanged and returns its earliest entry; a new name is appended at the tail with the given mode |
| Devices.AddKeepsUnique | utils.h:144-156 | adding keeps names unique, and the name is present afterwards |
| Devices.AddIdempotent | utils.h:144-156 | a second add of the same name, with any mode, changes nothing and returns the entry of the first add, so the first mode wins |
| Switches.NewSwitch | utils.h:186-192 | a new switch has the given type and name, a fresh input and empty interest and bound lists |
| Switches.InitSwitch | utils.h:194-196 | initialising a switch initialises its input from the sample and changes nothing else |
| Switches.FindDevice | utils.h:198-200 | declaring interest appends the prefix with its mode unless that prefix is already declared; nothing else changes |
| Switches.FirstMatch | utils.h:202-208 | gives the mode of the first interest entry that is a prefix of the announced name, or nothing iff no entry is |
| Switches.Discover | utils.h:202-208 | the discovery loop leaves a list that already has the topic unchanged; otherwise it appends the topic once, with the mode of the first matching interest entry, or changes nothing when no entry matches |
| Switches.FoundDevice | utils.h:202-208 | an announcement only grows the bound list at its tail, and changes nothing when no interest entry matches or the topic is already bound |
| Switches.FoundDeviceIdempotent | utils.h:202-208 | repeating an announcement leaves the switch as the first one left it |
| Switches.FoundDeviceKeepsUnique | utils.h:202-208 | announcements never bind one topic twice |
| Switches.Payload | utils.h:216-226 | the payload of a command is one of `On`, `Off` and `TOGGLE` |
| Switches.PayloadInjective | utils.h:216-226 | `On`, `Off` and `TOGGLE` are pairwise distinct, so a payload identifies its command |
| Switches.Permits | utils.h:228-238 | OnOff accepts every command; On is accepted iff the mode is not OffOnly; Off iff it is not OnOnly; Toggle iff the mode is OnOff |
| Switches.Publish | utils.h:246-261 | at most one message per bound device; every message carries the command's payload and the topic of a bound device whose mode accepts the command |
| Switches.PublishAppend | utils.h:246-261 | messages follow list order: those for a list are the ones for its front followed by the ones for its back |
| Switches.OnePublishPerDevice | utils.h:246-261 | with unique names, a device gets exactly one message if its mode accepts the command and none otherwise |
| Switches.Command | utils.h:241-242 | a latching switch sends On or Off after the new value; a momentary one sends Toggle on a press and nothing on a release |
| Switches.Check | utils.h:240-263 | only the input changes; nothing is published without a committed edge; a latching edge publishes On or Off after the new value to the bound list; a momentary switch publishes Toggle only on a committed press |
| Switches.CheckRespectsModes | utils.h:240-263 | an OffOnly device never receives On, an OnOnly device never receives Off, and neither receives Toggle |
| SwitchList.InitAll | utils.h:266-270 | every switch, in order, is initialised from its own sample |
| SwitchList.FoundDeviceAll | utils.h:272-276 | every switch, in order, receives the announcement |
| SwitchList.FoundDeviceAllIdempotent | utils.h:272-276 | re-announcing a device changes no switch |
| SwitchList.FoundDeviceAllKeepsWellFormed | utils.h:272-276 | announcements keep every bound list free of duplicate topics |
| SwitchList.CheckAll | utils.h:278-282 | every switch is polled with its own sample; a message is sent iff one of the switches sends it |
| SwitchList.CheckAllAppend | utils.h:278-282 | messages follow registration order: those of the front switches come before those of the back ones |
| SwitchList.CheckAllKeepsWellFormed | utils.h:278-282 | polling leaves every bound list as it was, so the lists stay free of duplicate topics |
| SwitchList.RegistrationOrderIsDispatchOrder | utils.h:191 | a switch registered after the others publishes after all of them in a poll |
| Scenarios.OnOnlyDeviceIgnoresOffEdge | utils.h:240-263 | an OnOnly device bound through a matching prefix gets `cmnd/<topic>/Power` = `On` on the on edge of a latching switch, and nothing on the off edge |
| Scenarios.OverlappingPrefixesBindOnce | utils.h:202-208 | when two different declared prefixes both match an announcement, the topic is bound once, with the first prefix's mode |
| Scenarios.OverlappingPrefixesPublishOnce | utils.h:240-263 | in that configuration an Off edge publishes once to the device |
| Scenarios.MomentaryPressSendsToggle | utils.h:240-263 | a momentary switch bound to a device through an OnOff prefix sends exactly one `cmnd/<topic>/Power` = `TOGGLE` on a committed press |
| Scenarios.GlitchIsCommittedAndSticks | utils.h:21-33 | one high sample after a quiet spell is committed at once; the low level that follows, sampled every 90 ms, is never committed |
| Scenarios.ElapsedAcrossWrap | utils.h:26 | elapsed time across the 2^32 wrap of the clock is the short forward distance, and debouncing uses it |

## Left out

- `Output` (utils.h:36-64): GPIO writes and blocking `delay`, with no decision logic.
- The pin number, `pinMode`, `digitalRead` and `millis`: hardware calls. The pin level and the clock reading are parameters of each step.
- Serial logging ("Adding", "Already have", the publish lines): output with no effect on state.
- `PubSubClient::publish`: a foreign network client. A publish is an element of the returned message sequence.
- `List::clear`, `~List` and the `new`/`delete` in `List` and `DeviceList`: memory management. The lists are sequences, and only their order is observable.
- Switches.Check: uses the topic string directly and does not model overflow of the 128-byte `topic_buffer` for names longer than 116 bytes. Only `CStrings.ComposeTopic` states the capacity, as its precondition.
- Static self-registration in the `Switch` constructor: the switch list is built explicitly by appending each switch with `Lists.Append`.
- The `nullptr` and `false` fall-through returns after the `switch` statements in `cmd_to_str` and `cmd_matches_control_mode`: unreachable for the three enumerators, and the Dafny `match` is exhaustive.
- Devices.Find: returns a position in the list rather than a pointer to the entry.
- `config.template.h`: credentials, constants and startup wiring. Its `seek_device_list` member does not exist in `utils.h`, where the interest list is the private `find_device_list`.
