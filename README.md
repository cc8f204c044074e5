# LED state persistence firmware, modelled in Dafny

The firmware (src/main.c) drives three LEDs from three push-buttons and keeps
the LED on/off state in an external EEPROM so that it survives power loss.
This project models its core:

- **State codec** (`Codec`): the three LED levels packed into one state byte
  (left in bit 2, middle in bit 1, right in bit 0), the 8-bit complement as a
  check byte, `led_state_is_valid`, and the decoding of bits 2, 1 and 0.
- **Store adapter** (`Eeprom`, and the methods `SingleWrite`, `SingleRead`,
  `MultiWrite`, `MultiRead` of `Firmware.Board`): every transaction starts with
  a 16-bit big-endian address, high byte first; the multi-byte write builds a
  buffer of `length + 2` bytes with the payload copied in at offset 2. The
  EEPROM itself is an abstract device of `0x10000` bytes that stores a write's
  payload at consecutive addresses from the framed one.
- **Persistence controller** (`Persistence`, `Board.Store`, `Board.Restore`):
  the store writes the state byte at 0x00 and the check byte at 0x01; restore
  reads both and either applies the decoded vector, driving only the pins whose
  level changes, or falls back to the default vector (left off, middle on,
  right off) and drives all three pins, when a read fails or the pair is not
  valid.
- **Button edge machine** (`Debounce`, `Board.Toggle`, `Board.HandleButton`):
  buttons are pulled up (`true` = released); a toggle fires only on a
  released-to-pressed transition, the sample is always remembered, and a
  toggle flips one LED, drives its pin and stores the whole vector — and
  `handle_button` stores it once more afterwards.

`Firmware.Board` is the program's global state (three LED levels, three
remembered button levels) together with the hardware it acts on: the output
pin levels (an array), the log of every `gpio_put`, the log of every
transaction written to the bus, and the EEPROM content. The outcome of each
bus transfer, the level sampled on a button (`gpio_get`) and the allocator's
answer are parameters supplied by the environment. `Scenarios` runs the board
from power-on: first boot on an erased EEPROM, a toggle surviving a power
cycle, restoring twice, and a press-and-release sample run.

Bytes are the integers 0..255 (`Bytes.byte`); the C bit operations are
written out as arithmetic on them: `(uint8_t)~b` is `255 - b`, `(b >> k) & 1`
is `(b / 2^k) % 2`, and the OR of the three disjoint bits is their sum.
The read failure sentinel `-1` is `Option.None`.

Two behaviours of the code are kept as written:
`single_read_eeprom` decides success on the data phase only (the result of the
address-select transfer is ignored), and the toggle path stores the vector
twice, once inside `toggle_led` and once in `handle_button`.

## Model

| member | source | states |
|---|---|---|
| `Codec.Pack` | src/main.c:155 | The state byte is at most 7, with the left LED in bit 2, the middle in bit 1 and the right in bit 0. |
| `Codec.Encode` | src/main.c:155-157 | The stored record is the packed state byte with its 8-bit complement; it is valid and its check byte has the five high bits set (at least 0xF8). |
| `Codec.Decode` | src/main.c:209-211 | Decoding reads bits 2, 1 and 0: packing the decoded vector gives back the byte's low three bits. |
| `Codec.DecodePack` | src/main.c:209-211 | Decoding the state byte of a store gives back the stored vector. |
| `Codec.IsValid` | src/main.c:173-175 | `led_state_is_valid` holds if and only if the check byte is the 8-bit complement of the state byte (the source compares the state with the complement of the check; the two agree). |
| `Codec.ComplementPairs` | src/main.c:173-175 | Every byte with its complement is valid; every other check byte is rejected. |
| `Codec.ValidRecordIsEncoded` | src/main.c:207-211 | A valid pair is exactly what a store writes if and only if its state byte is at most 7. |
| `Codec.AllOnesAccepted` | src/main.c:207-211 | (0xFF, 0x00) passes validation and decodes to all three LEDs on. |
| `Codec.SingleByteCorruptionDetected` | src/main.c:173-175 | Changing exactly one byte of a valid pair always makes it invalid. |
| `Eeprom.AddressFrame` | src/main.c:90-92 | The address prefix is two bytes, high byte `(addr >> 8) & 0xFF` then low byte `addr & 0xFF`, and it names the address modulo 0x10000. |
| `Eeprom.WriteFrame` | src/main.c:75-78 | The single write sends three bytes: the address prefix, then the data truncated to a `uint8_t`. |
| `Eeprom.BlockWriteFrame` | src/main.c:117-119 | The block write frame has length `length + 2`, the address prefix first and the payload unchanged from offset 2. |
| `Eeprom.BuildBlockFrame` | src/main.c:111-119 | Allocating `length + 2` bytes, writing the prefix and copying the payload yields exactly the block write frame. |
| `Eeprom.DeliverWriteFrame` | src/main.c:74-80 | A delivered single write changes the addressed byte to the data and nothing else. |
| `Eeprom.DeliverAddressFrame` | src/main.c:90-96 | The address-select transfer of a read changes no byte of the store. |
| `Eeprom.BlockRoundTrip` | src/main.c:110-149 | Reading back `length` bytes from where a block was written yields that block. |
| `Debounce.Fires` | src/main.c:261 | A poll fires a toggle if and only if the sample differs from the remembered level and is pressed (`false`). |
| `Debounce.PollOnce` | src/main.c:259-266 | A single poll flips the LED exactly when it fires and leaves its sample remembered. |
| `Debounce.PollAppend` | src/main.c:259-266 | One more poll after a run leaves the sample remembered, and flips the LED exactly when that poll fires against the level remembered after the run. |
| `Debounce.TogglesAreFallingEdges` | src/main.c:259-266 | Over any run of samples, the toggles fired are exactly the released-to-pressed transitions of the remembered level followed by the samples. |
| `Debounce.TrackerIsLastSample` | src/main.c:265 | After any run of polls the remembered level is the last sample. |
| `Debounce.LevelFollowsToggleParity` | src/main.c:250-266 | After any run of polls the LED is flipped exactly when an odd number of toggles fired. |
| `Debounce.OnlyPressEdgesFire` | src/main.c:261 | A released sample never fires, a remembered press never fires, and two consecutive polls never both fire. |
| `Debounce.TogglesBound` | src/main.c:261-265 | A run of n samples fires at most (n + 1) / 2 toggles, (n / 2 when the remembered level is pressed). |
| `Debounce.HeldPressIsSilent` | src/main.c:261-265 | Once the remembered level is pressed, samples that stay pressed fire nothing. |
| `Debounce.HeldPressFiresOnce` | src/main.c:261-265 | Holding a button over any number of polls after a release fires exactly one toggle. |
| `Debounce.SampleRuns` | src/main.c:259-266 | Samples true, false, false, true fire one toggle; true, false, true, false, false fire two. |
| `Persistence.Stored` | src/main.c:153-163 | A store leaves the state byte at 0x00 and the check byte at 0x01 when each write gets through, and every other address unchanged. |
| `Persistence.ReadResult` | src/main.c:89-107 | A read returns the byte at the address modulo 0x10000 when the transfer succeeds, and the failure sentinel otherwise. |
| `Persistence.Restored` | src/main.c:191-247 | Restore's decision table: the default vector when a read fails or the pair is invalid, else a vector whose packed byte is the state byte's low three bits. |
| `Persistence.RestorePuts` | src/main.c:213-246 | Restore performs at most three pin writes, each driving an LED's pin to that LED's restored level. |
| `Persistence.ReadFailureFallsBack` | src/main.c:238-246 | If either read fails, restore applies left off, middle on, right off and drives pins 20, 21 and 22 to those levels. |
| `Persistence.CorruptionFallsBack` | src/main.c:228-236 | If both reads succeed but the check fails, restore applies the same default and drives all three pins. |
| `Persistence.ValidPairDecodes` | src/main.c:207-227 | A valid pair applies the decoded vector; a pin is driven if and only if its LED's level changes, and then to the new level. |
| `Persistence.RestoreIdempotent` | src/main.c:213-246 | Restoring again from the same reads drives no pin when the pair was valid, and all three pins again on fallback. |
| `Persistence.StoreTwice` | src/main.c:262-263 | Storing the same vector twice writes each byte if either of its two writes got through. |
| `Persistence.StoreOverwrite` | src/main.c:153-163 | A later store of another vector with the same write outcomes leaves the store as if only the later one had happened. |
| `Persistence.StoreRestoreRoundTrip` | src/main.c:153-211 | Restoring from the two bytes a complete store wrote reproduces the stored vector exactly. |
| `Firmware.Board.constructor` | src/main.c:22-30 | Power-on: all LEDs off and mirrored by their pins, every button remembered as released. |
| `Firmware.Board.SingleWrite` | src/main.c:74-86 | Sends the three-byte frame; when it gets through the addressed byte becomes the data, otherwise the store is unchanged. |
| `Firmware.Board.SingleRead` | src/main.c:89-107 | Sends the address frame, which changes no byte of the store; returns `ReadResult`: the addressed byte when the transfer succeeds and the failure sentinel otherwise. |
| `Firmware.Board.MultiWrite` | src/main.c:110-131 | Returns -1 and sends nothing when allocation fails, else sends the block frame and returns 1 if it got through and 0 if not. |
| `Firmware.Board.MultiRead` | src/main.c:134-150 | Sends the address frame; on success fills the first `length` buffer bytes from the store and returns 1 (0 when `length` is 0), else returns 0 and leaves the buffer alone; the store is unchanged. |
| `Firmware.Board.Store` | src/main.c:153-163 | Sends the two write frames, state byte then check byte, and leaves the store as `Stored` says. |
| `Firmware.Board.Restore` | src/main.c:191-248 | Applies the decision table to the two reads: the new vector and the pins driven are `Restored` and `RestorePuts`, the pins keep mirroring the LEDs, no other pin changes, and the store is unchanged. |
| `Firmware.Board.UpdateLed` | src/main.c:214-217 | Sets one LED to a level and drives its pin only if the level changes; no other pin changes. |
| `Firmware.Board.ApplyDecoded` | src/main.c:213-227 | Moves the three LEDs to the decoded vector, left, middle, right, driving only the changed pins; no non-LED pin changes. |
| `Firmware.Board.ApplyDefault` | src/main.c:229-236 | Applies the default vector and drives all three pins to it; no non-LED pin changes. |
| `Firmware.Board.Toggle` | src/main.c:250-257 | Flips only the targeted LED, drives only its pin to the new level (no other pin changes), and stores the new vector. |
| `Firmware.Board.HandleButton` | src/main.c:259-266 | Toggles iff the sample is pressed and the remembered level released, then stores again; always remembers the sample and changes no other button's level and no other pin. |
| `Firmware.Board.PollCycle` | src/main.c:274-276 | One pass of the polling loop handles left, middle, right, each button's stores meeting that button's own bus outcomes: each LED flips exactly when its own button fires, every button remembers its sample, no non-LED pin changes, and the store ends as `CycleStored` composes the three buttons' stores in order; a cycle in which none fires writes no pin, sends nothing and leaves the store unchanged. |
| `Firmware.Board.Poll` | src/main.c:270-277 | Over any run of polling cycles, each with its own bus outcomes, each LED and each remembered button level end as `LevelAfter` and `TrackerAfter` of that button's own samples, and no non-LED pin changes. |
| `Firmware.CycleLevels` | src/main.c:259-266 | The LED levels after one cycle are, LED by LED, what `LevelAfter` gives for that button's single sample. |
| `Firmware.CycleStore` | src/main.c:259-264 | Three consecutive buttons, each storing the whole vector with the same write outcomes when it fires, leave the store holding the final vector if any fired and untouched otherwise. |
| `Firmware.CycleStored` | src/main.c:274-276 | The store after one cycle, each firing button storing the vector as its own toggle left it with its own outcomes: only addresses 0x00 and 0x01 can change, and a cycle in which no button fires leaves the store unchanged. |
| `Firmware.UniformCycleStored` | src/main.c:274-276 | When all stores of a cycle meet the same outcomes and some button fires, the store ends holding the vector the cycle ends on. |
| `Firmware.FailedStoreKeepsEarlierVector` | src/main.c:274-276 | With differing outcomes the store can end on an intermediate vector: left and middle fire, the middle button's stores fail, and the state byte holds the vector from after the left toggle, not the final one. |
| `Firmware.CycleStoredSteps` | src/main.c:274-276 | Three button polls in order, each changing the vector and the store as a single `handle_button` does, leave the store as `CycleStored` says. |
| `Firmware.CycleStep` | src/main.c:270-277 | A run of polls followed by one more cycle is the run extended by that cycle, LED by LED. |
| `Firmware.ColumnStep` | src/main.c:259-266 | One more cycle extends one button's polled run by that cycle's sample: the LED flips exactly when it fires against the level remembered after the run. |
| `Scenarios.FirstBoot` | src/main.c:228-236 | On an erased EEPROM (0xFF, 0xFF) restore applies the default vector and drives all three pins. |
| `Scenarios.ToggleSurvivesPowerCycle` | src/main.c:191-257 | From all off, toggling the left LED and restoring on a fresh power-on over the same EEPROM gives left on, others off. |
| `Scenarios.RestoreTwice` | src/main.c:213-227 | Restoring twice from a valid store ends on the stored vector and drives no pin the second time. |
| `Scenarios.PressAndRelease` | src/main.c:259-266 | Polling true, false, false, true on the left button toggles the left LED exactly once. |

## Left out

- `init_all` (pin directions, pull-ups, bus and console setup) is hardware configuration; the constructor keeps only its effect on the LED pins (driven to the initial levels).
- `print_led_state_change`, every `printf`, the elapsed-time report and the 8-bit `program_start_time` it uses are console output, not logic.
- `sleep_ms` delays are timing; the endless polling loop of `main` is `Board.Poll` over a finite run of cycles.
- Firmware.Board.Poll: the contract speaks of the LEDs, the buttons and the pins after the run, not of the store's content, which `PollCycle` states cycle by cycle.
- The bus protocol is not modelled: each transfer either gets through or not, as the caller's parameter says. A failed write leaves the store unchanged.
- Firmware.Board.SingleRead: the source ignores the result of the address-select transfer; a read whose address phase fails but whose data phase succeeds would return the byte at the device's current address, which this model does not capture (it returns the byte at the requested address).
- Firmware.Board.MultiRead: on a failed transfer the buffer is modelled as untouched; the real transfer may have written part of it.
- The EEPROM is 64 KiB and wraps at the end of memory; page boundaries and write-cycle timing of a real device are not modelled.
- `malloc`/`free`: allocation is the `allocOk` parameter of `MultiWrite`.
- `toggle_led` and `handle_button` take a pin number and the address of a state variable separately; the model names the LED once, so a mismatched pin and state variable (never passed by `main`) cannot be expressed.
