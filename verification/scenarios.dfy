/**
 The monitor's own use of the PIA, end to end: concrete bus sequences at the
 Apple-1 addresses 0xD010..0xD013, composed from the register decoder, the
 keyboard and the display.
 */
module Scenarios {
  import opened Bytes
  import Keyboard
  import Display
  import opened Mc6821

  const KBD: address := 0xD010
  const KBDCR: address := 0xD011
  const DSP: address := 0xD012
  const DSPCR: address := 0xD013

  /** After a reset with no key waiting, the control-A read is 0x00. */
  lemma ResetThenControlA(kbd: Keyboard.KeyState, screen: Display.Screen, fastVideo: bool, now: int)
    requires !kbd.playback && !kbd.pending
    ensures ReadByte(Reset(), kbd, screen, fastVideo, now, KBDCR) == ReadResult(0x00, kbd)
  {
  }

  /** Port A in peripheral view, a typed 'a': the control-A read shows ready,
      the data read gives 0xC1, and the next control-A read is not ready. */
  lemma TypedKeyReachesMonitor(kbd: Keyboard.KeyState, screen: Display.Screen, now: int, ctrlC: byte, ctrlR: byte)
    requires ctrlC != ctrlR && ctrlC != 0x61 && ctrlR != 0x61
    requires !kbd.playback
    ensures var regs := WriteRegs(Reset(), KBDCR, 0x04).regs;
      var cap := Keyboard.CaptureStep(kbd, false, 0x61, ctrlC, ctrlR);
      cap.Continue? &&
      var r1 := ReadByte(regs, cap.kbd, screen, false, now, KBDCR);
      var r2 := ReadByte(regs, r1.kbd, screen, false, now, KBD);
      var r3 := ReadByte(regs, r2.kbd, screen, false, now, KBDCR);
      && r1.data == 0x84
      && r2.data == 0xC1
      && r3.data == 0x04
  {
  }

  /** Port B in peripheral view: writing 'a' shows 'A' and starts the
      character interval. */
  lemma WrittenLetterShownUppercase(screen: Display.Screen, now: int)
    requires Display.Valid(screen) && screen.column + 1 < Display.Width
    ensures var w1 := WriteByte(Reset(), screen, now, DSPCR, 0x04);
      var w2 := WriteByte(w1.regs, w1.screen, now, DSP, 0x61);
      && w1.out == []
      && w2.out == "A"
      && ReadByte(w2.regs, Keyboard.Init(None), w2.screen, false, now, DSP).data == 0xE1
      && ReadByte(w2.regs, Keyboard.Init(None), w2.screen, false, now + Display.CharInterval, DSP).data == 0x61
  {
  }

  /** A non-printable byte (5) shows nothing and leaves the column alone. */
  lemma ControlByteDropped(screen: Display.Screen, now: int)
    ensures var w := Display.Write(screen, now, 0x05);
      w.out == [] && w.screen.column == screen.column
  {
  }

  /** A one-byte playback file holding 0x41 gives one ready key, 0xC1, and
      then the keyboard is live again. */
  lemma OneBytePlayback()
    ensures var c := Keyboard.CheckReady(Keyboard.Init(Some([0x41])));
      && c.ready && c.kbd.lastKey == 0xC1
      && !c.kbd.playback
      && !Keyboard.CheckReady(c.kbd).ready
  {
  }
}
