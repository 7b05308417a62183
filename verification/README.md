# Apple-1 PIA and terminal, modelled in Dafny

This project models the core of the `aire` Apple-1 emulator. That core is the
MC6821 PIA (Peripheral Interface Adapter) as the Woz Monitor firmware drives
it, together with the terminal logic behind the PIA's two ports. The
emulated CPU reaches the PIA through four addresses, 0xD010..0xD013:

- port A is the keyboard: a key latch, a one-byte mailbox filled by a
  capture task, and an optional playback file that stands in for typing;
- port B is the display: a 7-bit, upper-casing output filter with a
  40-column counter and a busy bit that limits output to 60 characters per
  second.

Everything is pure. Each operation takes the state it reads and returns the
state it leaves, along with the byte read or the characters shown.

- `bytes.dfy` (`Bytes`): bytes as `bv8`, addresses as `bv16`, and `toupper`
  in the "C" locale.
- `keyboard.dfy` (`Keyboard`): normalisation of a delivered byte, the
  ready-check with live and playback sources, the read of the latched key,
  and the per-byte step of the capture task.
- `display.dfy` (`Display`): the output filter, the column counter, and
  the busy predicate.
- `mc6821.dfy` (`Mc6821`): the six registers, reset, the bus read, and the
  bus write (the register half and the hand-off to the terminal).
- `scenarios.dfy` (`Scenarios`): end-to-end bus sequences at the monitor's
  addresses.

Host time is an integer clock in microseconds, passed in as `now`. The
playback file is the sequence of its unread bytes, so the remaining count is
its length. The two control bytes of the capture task (quit and reset) are
parameters, because the header that defines them is not part of this model.

Three behaviours of the code are easy to expect otherwise. The model keeps
them as the code has them:

- A peripheral-view read of port A returns the latched key and has no
  side effect. Only the control-A read consumes input.
- The control registers keep all eight written bits. Slot 3 returns CRB
  verbatim, bit 7 included. Only the control-A read replaces bit 7.
- An empty playback file does not end playback. Each ready-check then
  reports a key of 0x80, forever, and the busy bit stays off. The byte read
  keeps its initial value 0 because the remaining count is already 0.

## Model

| member | source | states |
|---|---|---|
| Bytes.ToUpper | src/terminal.c:157 | exactly a..z move to A..Z, every other byte value is unchanged, and no result is lower case |
| Keyboard.Normalize | src/terminal.c:153-159 | a delivered byte always has bit 7 set; LF becomes 0x8D; a..z become A..Z with bit 7; any other byte is only given bit 7 |
| Keyboard.CheckReady | src/terminal.c:131-162 | ready iff playback is on or the mailbox is full. If not ready, nothing changes. Playback consumes the first unread byte, latches its normalisation and turns itself off after the last byte, without touching the mailbox. With playback on and no bytes left it latches 0x80. Live mode empties the mailbox (its stored byte is left as it was) and latches its normalised byte. A valid latch stays valid |
| Keyboard.PlaybackDrains | src/terminal.c:133-142 | a playback file of N bytes gives exactly N ready checks that latch the normalised bytes in file order. Playback is then off, the mailbox is unchanged, and the next check is ready iff a live byte waits |
| Keyboard.EmptyPlaybackNeverEnds | src/terminal.c:132-134 | with playback on and nothing left, every one of any number of checks is ready with key 0x80, and playback never switches off |
| Keyboard.LiveKeyConsumedOnce | src/terminal.c:144-151 | in live mode a waiting byte is delivered once: a second check without new input is not ready, changes nothing, and the latched key stays the normalised byte |
| Keyboard.CaptureStep | src/terminal.c:75-86 | the quit byte, and only it, terminates. The reset byte raises the reset request and leaves the keyboard untouched. Any other byte fills the mailbox with itself, leaves the reset request as it was, and changes nothing else |
| Keyboard.CaptureThenCheck | src/terminal.c:82-85 | a captured ordinary byte is delivered by the next live ready-check as its normalisation |
| Keyboard.MailboxKeepsLatest | src/terminal.c:83-84 | two captures before a check deliver only the second byte, and only once |
| Keyboard.Init | src/terminal.c:96-105 | playback is on iff a file is given, the unread bytes are the whole file (none without one), and the latch, mailbox flag and mailbox byte start at 0 |
| Keyboard.ReadKey | src/terminal.c:166-168 | returns the latched key and changes no state; on a valid state it is the initial 0 or a delivered key with bit 7 set |
| Keyboard.PlaybackSession | src/terminal.c:96-142 | a non-empty file configured at start-up plays out in exactly as many ready checks as it has bytes, in order. Afterwards playback is off and the next check is not ready |
| Display.Init | src/terminal.c:191 | the column counter starts at 0, inside the screen, and the last-write time is the configuration time (src/terminal.c:120), so port B first reads busy for one character interval |
| Display.Busy | src/terminal.c:173-184 | never busy under fast video or playback; otherwise busy iff `now` is less than 16666 µs after the last write |
| Display.Write | src/terminal.c:190-212 | the timestamp is set on every call, dropped bytes included. Only CR or a glyph of 32 or more is shown, as a 7-bit upper-case character. A dropped byte leaves the column unchanged. CR emits a line break and resets the column. A printable byte advances the column, and filling column 40 adds a line break and resets it. The column stays within 0..39 |
| Display.BusyAfterWrite | src/terminal.c:173-184 | after a write at time t, port B is busy at `now` iff neither fast video nor playback is on and `now` < t + 16666 µs. It is busy at t itself |
| Display.WriteAll | src/terminal.c:190-212 | a sequence of writes keeps the column within 0..39 and shows only line breaks and 7-bit non-lower-case characters from space upwards |
| Display.PrintableLine | src/terminal.c:200-209 | printable bytes that fit on the line are shown as their glyphs. The byte that fills column 40 is followed by one line break, and the column becomes (start + count) mod 40 |
| Display.ColumnIsRunModWidth | src/terminal.c:196-209 | after any byte sequence, the column is the number of printable bytes since the last CR modulo 40. If the sequence has no CR, the run is counted from the starting column |
| Display.FortyColumns | src/terminal.c:204-209 | 40 printable bytes from column 0 print their glyphs, then one line break, and leave column 0. A 41st byte starts the next line at column 1 |
| Mc6821.Reset | src/mc6821.c:57-69 | every one of the six registers is 0 |
| Mc6821.ResetReadsZero | src/mc6821.c:57-69 | after a reset, slots 0, 2 and 3 read 0. Slot 1 reads 0x80 if a key is ready and 0 otherwise |
| Mc6821.ReadByte | src/mc6821.c:74-121 | with bit 4 clear the read is 0xFF and changes nothing. Only a slot-1 read has an effect, and it is the ready-check. Slot 0 returns the latched key in peripheral view and DDRA otherwise. Slot 1 returns CRA's low 7 bits, with bit 7 set iff the check found a key. Slot 2 returns PRB's low 7 bits with the busy status as bit 7 in peripheral view, and DDRB otherwise. Slot 3 returns CRB |
| Mc6821.WriteRegs | src/mc6821.c:126-163 | exactly the register the address decodes to (none when bit 4 is clear) takes all 8 bits, and every other register is unchanged. The byte is forwarded to the terminal iff that register is PRB |
| Mc6821.WriteByte | src/mc6821.c:146-153 | with bit 4 clear nothing changes and nothing is shown. Only a peripheral-view port-B write reaches the display, with exactly the written byte. Every other write leaves the screen alone and shows nothing |
| Mc6821.OnlyDecodedBitsMatter | src/mc6821.c:76-78 | two addresses that agree on bits 4, 1 and 0 give identical reads and identical writes |
| Mc6821.KeyReadIsStable | src/terminal.c:166-168 | a peripheral-view read of port A returns the latched key and leaves the keyboard unchanged, so repeating it returns the same byte |
| Mc6821.ControlABit7IsLive | src/mc6821.c:90-96 | a slot-1 read does not depend on the stored bit 7 of CRA |
| Mc6821.PortAModeToggle | src/mc6821.c:132-138 | moving port A to peripheral view and back loses neither DDRA nor PRA, and slot 0 then reads the DDRA value again |
| Mc6821.PortBModeToggle | src/mc6821.c:146-153 | the same holds for port B. Only the peripheral-view write is forwarded, and slot 2 then reads the DDRB value again |
| Scenarios.ResetThenControlA | src/mc6821.c:90-96 | after a reset with no key waiting, reading 0xD011 gives 0x00 and changes nothing |
| Scenarios.TypedKeyReachesMonitor | src/mc6821.c:80-96 | with port A in peripheral view and 'a' captured, 0xD011 reads 0x84 (ready), 0xD010 reads 0xC1, and 0xD011 then reads 0x04 (not ready) |
| Scenarios.WrittenLetterShownUppercase | src/mc6821.c:146-153 | with port B in peripheral view, writing 'a' to 0xD012 shows "A". 0xD012 then reads busy, and one character interval later it reads not busy |
| Scenarios.ControlByteDropped | src/terminal.c:196 | byte 5 shows nothing and leaves the column unchanged |
| Scenarios.OneBytePlayback | src/terminal.c:133-142 | a one-byte file holding 0x41 gives one ready key, 0xC1. Playback is then off and the keyboard is live and idle |

## Left out

- The capture task's loop, its 20 ms sleep and the thread that runs it. The model has only the per-byte step, `Keyboard.CaptureStep`. Interleavings with the bus are sequences of steps, and the unsynchronised sharing of the mailbox is not modelled.
- Host end-of-file from `getchar`. The capture loop ignores it, so the model has no step for it.
- Process exit on the quit byte, `exit_hook`, and raw terminal mode set-up and restoration. These are host process control; the model stops at the `Terminate` outcome.
- The reset request is a boolean `resetRequested`, passed into the capture step and returned from it; clearing it is the CPU core's business. The integer `ACTION` and its value `ACTION_RESET` come from a header that is not part of this model.
- Opening, sizing and closing the playback file, and the fatal error when it cannot be opened. The file is the sequence of its bytes, and its length is the remaining count. A file shorter than its measured size is not modelled.
- `clock_gettime` and the `timeutils.h` helpers. Time is a whole number of microseconds, and rounding nanoseconds to microseconds is abstracted away.
- `putchar` and `fflush`. Output is the sequence of characters shown.
- Overflow of the C `int` column counter. It is unreachable because the column stays below 40.
- Display.WriteAll: writes every byte of the sequence at one time `now`. The column and the characters shown do not depend on time, and `Display.Write` takes its own time for each call.
- Command-line option parsing, help and banner text (src/options.c). The fast-video and playback flags are inputs or state fields.
