# WeMos RN2483 shield: LED engine and radio link controller

A Dafny model of the two logic files of the WeMos LoRa RN2483 shield firmware.

- **The RGB LED animation engine** (`RGBLed.cpp`). The firmware keeps a fixed array `animationState` of two records, one per pixel. Each record holds a starting, ending and rest colour, an effect, a leg duration and a repeat counter.
  - `LedRGBSetAnimation`, `LedRGBON` and `LedRGBOFF` rewrite the records of the selected pixels: index 0 selects all, index k selects pixel k-1.
  - `LedRGBAnimate` either lets the NeoPixelAnimator run or recomputes every record. A recompute counts the record down, flips the effect phase and hands the next leg to the scheduler.
  - The two callbacks paint one pixel per scheduler tick.
  - In the model, the array is an `array<AnimState>` of the class `Led.Engine`. The pixel bus is a `seq<Colour>` field. The calls to the scheduler and the bus are a ghost event log.
- **The radio link controller** (`rn2483.cpp`). It is a state machine over `rn2483_state_e`, driven by the lines the modem answers with.
  - The send guard accepts a send only when the controller is idle.
  - `mac get status` queries the MAC status register, which is validated as 8 hex digits and decoded into its sub-state and flag names.
  - A poll step maps button gestures to `mac tx uncnf|cnf 1 <seconds>` uplinks and consumes a RECEIVED_DATA state on a state edge.
  - The globals `_rn2483_state`, `_rn2483_mac_status`, the receive buffer `inputString` and the `static old_rn2483_state` are fields of the class `Radio.Link`. The link drives a `Led.Engine`.

Modules: `Basics` (fixed-width integers, `Option`), `Led`, `LedCycles` (the repeat-count law over successive recompute passes), `Numerals` (hex and decimal numerals), `MacStatus` and `Radio`.

Two behaviours of the code as written are modelled as they are:

- Every LED call in `rn2483.cpp` is `LedRGBON(COLOR_X, true)`. With the defaults of `RGBLed.h`, `true` binds to the index (1) and `doitnow` stays false. Each such call therefore only changes pixel 0's rest colour and lights nothing.
  - `Led.IndexOneRestOnly` proves this for the engine.
  - `Radio.Link.Indicate` carries it through every controller method.
- `rn2483Response` reads two strings. While waiting for the "ok" of a send it tests its parameter `s`. In every other branch it tests the global buffer `inputString`. `Radio.Respond` takes both, and `Radio.TwoStringsRead` shows how they can disagree.

## Model

| member | source | states |
|---|---|---|
| Led.Hi | firmware/WeMos-rn2483/RGBLed.cpp:182-191 | the loop visits exactly the selected positions: all of them for index 0, position k-1 for index k |
| Led.StoredCount | firmware/WeMos-rn2483/RGBLed.cpp:193-198 | a requested count k in 1..253 is stored as k+2; the stored counter is 0 or 1 (endless) exactly when k is 0, 254 or 255, by uint8_t wrap-around |
| Led.WithAnimation | firmware/WeMos-rn2483/RGBLed.cpp:180-206 | selected records get the effect, the duration and the stored count; unselected records are unchanged; no colour of any record changes |
| Led.Engine.SetAnimation | firmware/WeMos-rn2483/RGBLed.cpp:180-206 | the loop over start..end leaves the array equal to WithAnimation of the old array |
| Led.WithRest | firmware/WeMos-rn2483/RGBLed.cpp:217-248 | selected records get the target as rest colour, and black as ending colour when lit now; starting colour, effect, duration and count never change; unselected records are unchanged |
| Led.Painted | firmware/WeMos-rn2483/RGBLed.cpp:237-247 | exactly the selected pixels take the written colour |
| Led.Engine.On | firmware/WeMos-rn2483/RGBLed.cpp:217-248 | the array becomes WithRest; the pixels are painted with the target only when doitnow; the log gains stop/set/show for each selected pixel when doitnow and nothing otherwise |
| Led.Engine.Store | firmware/WeMos-rn2483/RGBLed.cpp:238-246 | one position gets its rest colour; with doitnow also a black ending colour, the pixel and the stop/set/show calls |
| Led.StoredColourIsSilent | firmware/WeMos-rn2483/RGBLed.cpp:237-247 | without doitnow, LedRGBON makes no call to the scheduler or the bus, whatever the index |
| Led.IndexOneRestOnly | firmware/WeMos-rn2483/RGBLed.h:90 | `LedRGBON(hue, true)` changes only pixel 0's rest colour and makes no call at all |
| Led.Cleared | firmware/WeMos-rn2483/RGBLed.cpp:257-281 | selected records get black starting, ending and rest colours and no effect; duration and count are kept; unselected records are unchanged |
| Led.Engine.Off | firmware/WeMos-rn2483/RGBLed.cpp:257-281 | the array becomes Cleared, the selected pixels black, and the log gains stop/set/show per selected pixel |
| Led.Engine.Darken | firmware/WeMos-rn2483/RGBLed.cpp:271-279 | one position is stopped, blackened in its record and on the bus, and flushed |
| Led.OffShowCount | firmware/WeMos-rn2483/RGBLed.cpp:270-280 | LedRGBOFF flushes the bus N times for index 0 and once for a single pixel |
| Led.NextEffect | firmware/WeMos-rn2483/RGBLed.cpp:139-163 | the phase after a leg is AnimNone exactly when the effect is AnimNone |
| Led.Recompute | firmware/WeMos-rn2483/RGBLed.cpp:107-165 | starting colour := current pixel; counter decremented only above 1; a counter of 2 stops the effect and zeroes the duration; fade-in ends on the rest colour, fade-out on black; a leg is started iff the counter is not 2, there is an effect and the duration is nonzero |
| Led.AdvanceRecord | firmware/WeMos-rn2483/RGBLed.cpp:108-164 | the imperative loop body computes Recompute's record and calls |
| Led.Engine.Animate | firmware/WeMos-rn2483/RGBLed.cpp:93-167 | while animating and not forced the array is unchanged and the log gains update+show; otherwise every record is recomputed from its pixel and the log gains the pass's calls in index order |
| Led.Eased | firmware/WeMos-rn2483/RGBLed.cpp:61-67 | the quadratic easing keeps progress in [0,1] and fixes 0 and 1 |
| Led.Mix | firmware/WeMos-rn2483/RGBLed.cpp:78-81 | LinearBlend gives the left colour at 0, the right colour at 1, and a colour blended with itself is that colour |
| Led.FadeColour | firmware/WeMos-rn2483/RGBLed.cpp:56-84 | a fade leg shows the starting colour at progress 0 and the ending colour at progress 1 |
| Led.Engine.FadeAnimUpdate | firmware/WeMos-rn2483/RGBLed.cpp:56-84 | the indexed pixel and nothing else takes FadeColour of its record |
| Led.Engine.BlinkAnimUpdate | firmware/WeMos-rn2483/RGBLed.cpp:33-47 | the pixel is blanked, then shows the rest colour below 25% progress; a completed leg restarts the same position |
| Led.Engine.constructor | firmware/WeMos-rn2483/RGBLed.cpp:18-24 | zeroed records and pixels, luminosity 20 |
| LedCycles.StoppedStaysStopped | firmware/WeMos-rn2483/RGBLed.cpp:132-163 | a record without an effect starts no leg on any number of passes and keeps no effect |
| LedCycles.FiniteRun | firmware/WeMos-rn2483/RGBLed.cpp:115-127 | a stored counter c >= 2 starts exactly min(passes, c-2) legs, and the effect is gone (duration 0) exactly after more than c-2 passes |
| LedCycles.EndlessRun | firmware/WeMos-rn2483/RGBLed.cpp:115-163 | stored counters 0 and 1 start a leg on every pass and never stop |
| LedCycles.RequestedLegs | firmware/WeMos-rn2483/RGBLed.cpp:194-198 | after SetAnimation with a nonzero duration and an effect, successive recompute passes start exactly min(passes, k) legs for k in 1..253 and the effect is gone exactly after more than k passes; for 0, 254 and 255 every pass starts a leg |
| Numerals.ParseHexBound | firmware/WeMos-rn2483/rn2483.cpp:195 | n hex digits read by strtoul are below 16^n |
| Numerals.HexRoundTrip | firmware/WeMos-rn2483/rn2483.cpp:195 | reading back a zero-padded hex rendering of v gives v |
| Numerals.DecimalRoundTrip | firmware/WeMos-rn2483/rn2483.cpp:266 | the `%lu` rendering reads back as the number |
| Numerals.DecimalLength | firmware/WeMos-rn2483/rn2483.cpp:262-270 | a number below 10^k renders in at most k digits |
| MacStatus.Classify | firmware/WeMos-rn2483/rn2483.cpp:184-210 | accepted iff length 8, all hex digits and a nonzero value, with that value; bad-hex iff length 8 with a non-hex character |
| MacStatus.ValidateStatusLine | firmware/WeMos-rn2483/rn2483.cpp:179-211 | the length test, the hex loop with its early break and the parse give Classify's verdict |
| MacStatus.StatusRoundTrip | firmware/WeMos-rn2483/rn2483.cpp:194-200 | the 8-digit hex rendering of every nonzero 32-bit value is accepted as that value |
| MacStatus.ZeroRejected | firmware/WeMos-rn2483/rn2483.cpp:196-203 | "00000000" is refused as empty |
| MacStatus.NonHexRejected | firmware/WeMos-rn2483/rn2483.cpp:186-192 | a line of 8 non-hex characters is refused as bad hex |
| MacStatus.AllOnesIsSentinel | firmware/WeMos-rn2483/rn2483.h:39 | "FFFFFFFF" is accepted with the value of RN2483_STATUS_ERROR |
| MacStatus.SubState | firmware/WeMos-rn2483/rn2483.cpp:66-67 | `(status & 0xE) >> 1` is below 8 and is zero exactly when the field bits are clear |
| MacStatus.SubStateText | firmware/WeMos-rn2483/rn2483.cpp:66-86 | the sub-state part holds at most one text and is empty exactly when the sub-state is zero |
| MacStatus.FlagReportedIff | firmware/WeMos-rn2483/rn2483.cpp:88-101 | each flag's name is in `Decode`'s report (rn2483printMACStatus) iff its mask bit is set |
| MacStatus.MaskIsBit | firmware/WeMos-rn2483/rn2483.h:24-38 | each flag's mask is the single bit 1 << Bit(f) of the bit table, so bit order is the order of the masks |
| MacStatus.FlagsInBitOrder | firmware/WeMos-rn2483/rn2483.cpp:88-101 | the set flags are reported in increasing bit order, each once |
| MacStatus.SubStateReport | firmware/WeMos-rn2483/rn2483.cpp:64-104 | in `Decode`'s report (rn2483printMACStatus), the sub-state text comes first exactly when the sub-state is nonzero; "Idle" is never reported; 7 reports "??????"; the report has one entry per set flag plus the sub-state |
| MacStatus.LineB | firmware/WeMos-rn2483/rn2483.cpp:184-210 | the response line "0000000B" is the 8-digit rendering of 0xB and is accepted with that value |
| MacStatus.DecodeB | firmware/WeMos-rn2483/rn2483.cpp:66-101 | 0x0000000B decodes to sub-state 5, "Receive W2 open", and the single flag "Joined" |
| Radio.Respond | firmware/WeMos-rn2483/rn2483.cpp:214-254 | from WAIT_OK_SEND the parameter "ok" gives SENDING and anything else IDLE with red; from SENDING "mac_tx_ok" gives IDLE with green, a "mac_rx " line RECEIVED_DATA with green, anything else IDLE with red; from any other state a "mac_rx " line gives RECEIVED_DATA with yellow-green and anything else IDLE; the result is true iff the new state is RECEIVED_DATA |
| Radio.DataOnlyOnDownlink | firmware/WeMos-rn2483/rn2483.cpp:224-253 | data is reported only for a buffered "mac_rx " line, and never from WAIT_OK_SEND |
| Radio.SendingOnlyAfterOk | firmware/WeMos-rn2483/rn2483.cpp:216-222 | SENDING is reached iff the state was WAIT_OK_SEND and the parameter was "ok" |
| Radio.TwoStringsRead | firmware/WeMos-rn2483/rn2483.cpp:214-241 | with parameter and buffer different, the WAIT_OK_SEND branch follows the parameter and the other branches the buffer |
| Radio.UnconfirmedUplink | firmware/WeMos-rn2483/rn2483.cpp:216-229 | "ok" then "mac_tx_ok" takes WAIT_OK_SEND through SENDING back to IDLE with green |
| Radio.Indicated | firmware/WeMos-rn2483/rn2483.cpp:52 | an indicator call leaves pixel 1 and every field of pixel 0 except its rest colour unchanged |
| Radio.ButtonCommandPayload | firmware/WeMos-rn2483/rn2483.cpp:261-283 | only the quick press and the 1-2 s press send; the line is the unconfirmed or confirmed port-1 uplink whose payload reads back as the seconds counter, and it fits the 32-byte buffer |
| Radio.QueryResult | firmware/WeMos-rn2483/rn2483.cpp:117-138 | an accepted reply gives its value; a time-out or a refused line gives 0xFFFFFFFF |
| Radio.QueryRoundTrip | firmware/WeMos-rn2483/rn2483.cpp:117-138 | any register value other than 0 and all-ones comes back from the query and differs from the sentinel |
| Radio.SentinelAmbiguous | firmware/WeMos-rn2483/rn2483.cpp:119-137 | a genuine "FFFFFFFF" status, a time-out and a refused line give the same result |
| Radio.Edge | firmware/WeMos-rn2483/rn2483.cpp:285-296 | the observation catches up with the state; without an edge nothing changes; the only state change is RECEIVED_DATA to IDLE; RECEIVED_DATA survives only when it was already observed |
| Radio.TwoPollsSettle | firmware/WeMos-rn2483/rn2483.cpp:257-297 | after two quiet polls state and observation agree and further polls change nothing |
| Radio.QuietPolls | firmware/WeMos-rn2483/rn2483.cpp:285-296 | with state equal to the observation, any number of polls leave both unchanged |
| Radio.ReceivedTwiceStaysUncleared | firmware/WeMos-rn2483/rn2483.cpp:241-297 | a second downlink that arrives before the next poll, while the observation still holds RECEIVED_DATA, sets RECEIVED_DATA, and no later poll clears it |
| Radio.Link.constructor | firmware/WeMos-rn2483/rn2483.cpp:18-21 | idle, status 0, empty buffer, no observation yet |
| Radio.Link.Indicate | firmware/WeMos-rn2483/rn2483.cpp:52 | `LedRGBON(hue, true)` sets pixel 0's rest colour and leaves the pixels and the log alone |
| Radio.Link.Exec | firmware/WeMos-rn2483/rn2483.cpp:49-55 | blue rest colour, then the line goes out; no controller state changes |
| Radio.Link.Send | firmware/WeMos-rn2483/rn2483.cpp:141-152 | accepted iff idle; then pink rest colour, the line goes out and the state becomes WAIT_OK_SEND; refused sends change nothing |
| Radio.Link.Response | firmware/WeMos-rn2483/rn2483.cpp:214-254 | state, result and indicator are Respond of the old state, the parameter and the buffer; nothing else changes |
| Radio.Link.MacStatusResponse | firmware/WeMos-rn2483/rn2483.cpp:179-211 | true iff Classify accepts the line; then the register holds its value, and otherwise it is unchanged |
| Radio.Link.GetMacStatus | firmware/WeMos-rn2483/rn2483.cpp:117-138 | sends "mac get status" (blue), returns QueryResult of the reply, stores an accepted value and clears the buffer |
| Radio.Link.ManageState | firmware/WeMos-rn2483/rn2483.cpp:257-297 | the first poll initialises the observation; a gesture sends its uplink through the send guard; then state and observation follow Edge |

## Left out

- Colours are opaque values. The HSL to RGB conversion with `0.005 * rgb_luminosity`, `LinearBlend` and the RGBW pixel format are not modelled: a target colour is `Hsl(hue, luminosity)` and an intermediate blend of two different colours is an uninterpreted `Blend`. Float arithmetic is modelled as exact reals in `Eased`.
- Led.Mix: LinearBlend is taken to return its left colour at 0 and its right colour at 1, and a colour blended with itself to be that colour; nothing else about it is modelled.
- LedCycles.RequestedLegs: for the blink effects the count bounds the recompute passes that start a leg, not the blinks shown. A completed blink leg restarts itself (`RestartAnimation` in the log of `Led.Engine.BlinkAnimUpdate`), so it may replay several times between passes. Whether the NeoPixelAnimator keeps such a slot active, and so whether `LedRGBAnimate(false)` recomputes again, depends on that library, which is not part of this model.
- The NeoPixelAnimator is represented by its calls only (start, stop, restart, update, in the log). Its timing, `IsAnimating()` (a parameter of `Animate`), and the callback invocations it makes during `UpdateAnimations` are not modelled. The callbacks are separate methods.
- Led.Engine.SetAnimation: requires an index whose uint8_t position lies inside the two-record array. A larger index makes the C code write outside `animationState`, and an index of 256 makes the `uint8_t` loop counter wrap forever. Neither behaviour is modelled.
- Led.Engine.On: requires an in-range index, for the same reason as SetAnimation.
- Led.Engine.Off: requires an in-range index, for the same reason as SetAnimation.
- Led.Engine.Animate: the `static ctx` counter only feeds commented-out debug output and is not modelled.
- MacStatus.Classify: a response line is a sequence of characters, so its length counts characters where `String::length()` counts bytes. A line with a non-ASCII character of 8 characters is classified BadHex where the firmware reports a bad length; it is refused either way.
- Serial I/O: `rn2483Init`'s autobaud sequence, `handleSerial` and all `SERIAL_DEBUG` printing are left out. `rn2483printMACStatus` is modelled as `MacStatus.Decode`, which returns the printed names instead of printing them. `rn2483printRadioState` only prints and is not modelled.
- `ws.textAll` and `execCommand` are foreign calls. Each command line handed to them is appended once to `Radio.Link.outbox`, and their effects are not modelled. `rn2483Reset` runs the startup script through `execCommand` and is left out.
- Radio.Link.GetMacStatus: `handleSerial(false)` becomes the parameter `reply`. Some(line) means the line arrived and was stored in the receive buffer. None means a time-out. Nothing else `handleSerial` may do is modelled.
- `rn2483Exec_P` only copies a program-memory string and calls `rn2483Exec`, so `Radio.Link.Exec` stands for both.
- `rn2483State` and `rn2483MacStatus` are getters. They are the fields `state` and `macStatus`.
- Dead code: the commented-out bodies of `rn2483Listen` and of the 2-3 s press branch have no behaviour. The other gestures send nothing, as `Radio.ButtonCommand` states.
- The push-button driver is not part of this model; the gestures are the datatype `Radio.Button`.
- The configuration header `WeMos-rn2483.h` (client structures, help text, serial macros) holds no logic and is not modelled.
