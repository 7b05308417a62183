/**
 The MC6821 PIA as the Apple-1 monitor uses it. Address bit 4 is the chip
 select, bits 1..0 pick one of four slots, and bit 2 of each control register
 chooses between the data-direction view and the peripheral view of its port.
 Port A is the keyboard, port B the terminal; bit 7 of the control-A read and
 of the port-B read are computed live, not stored.
 */
module Mc6821 {
  import opened Bytes
  import Keyboard
  import Display

  /** The six registers of the PIA. */
  datatype Regs = Regs(pra: byte, prb: byte, ddra: byte, ddrb: byte, cra: byte, crb: byte)

  /** Names of the six registers. */
  datatype Reg = PRA | PRB | DDRA | DDRB | CRA | CRB

  function Get(regs: Regs, reg: Reg): byte {
    match reg
    case PRA => regs.pra
    case PRB => regs.prb
    case DDRA => regs.ddra
    case DDRB => regs.ddrb
    case CRA => regs.cra
    case CRB => regs.crb
  }

  /** Chip select: address bit 4. */
  predicate Selected(a: address) {
    a & 0x0010 != 0
  }

  /** Register select: address bits 1..0. */
  function Slot(a: address): bv16 {
    a & 0x0003
  }

  /** Bit 2 of a control register: its port shows the peripheral register
      rather than the data-direction register. */
  predicate PeripheralView(control: byte) {
    control & 0x04 != 0
  }

  /** The register the address decodes to, in the current port modes; none
      when the chip is not selected. This is the table of the datasheet,
      independent of what a read or write then does with it. */
  function Target(regs: Regs, a: address): Option<Reg> {
    if !Selected(a) then None
    else if Slot(a) == 0 then Some(if PeripheralView(regs.cra) then PRA else DDRA)
    else if Slot(a) == 1 then Some(CRA)
    else if Slot(a) == 2 then Some(if PeripheralView(regs.crb) then PRB else DDRB)
    else Some(CRB)
  }

  /** A reset zeroes every register. */
  function Reset(): (r: Regs)
    ensures forall reg :: Get(r, reg) == 0
  {
    Regs(0, 0, 0, 0, 0, 0)
  }

  /** The byte a read returns, with the keyboard state after it. */
  datatype ReadResult = ReadResult(data: byte, kbd: Keyboard.KeyState)

  /** A bus read. Only the control-A read has a side effect: it performs the
      keyboard ready-check. A peripheral-view read of port A returns the
      latched key, never PRA. */
  function ReadByte(regs: Regs, kbd: Keyboard.KeyState, screen: Display.Screen,
                    fastVideo: bool, now: int, a: address): (r: ReadResult)
    ensures !Selected(a) ==> r == ReadResult(0xFF, kbd)
    ensures Target(regs, a) != Some(CRA) ==> r.kbd == kbd
    ensures Target(regs, a) == Some(PRA) ==> r.data == Keyboard.ReadKey(kbd)
    ensures Target(regs, a) == Some(DDRA) ==> r.data == regs.ddra
    ensures Target(regs, a) == Some(CRA) ==>
      var c := Keyboard.CheckReady(kbd);
      && Low7(r.data) == Low7(regs.cra)
      && (Bit7(r.data) <==> c.ready)
      && r.kbd == c.kbd
    ensures Target(regs, a) == Some(PRB) ==>
      && Low7(r.data) == Low7(regs.prb)
      && (Bit7(r.data) <==> Display.Busy(fastVideo, kbd.playback, screen, now))
    ensures Target(regs, a) == Some(DDRB) ==> r.data == regs.ddrb
    ensures Target(regs, a) == Some(CRB) ==> r.data == regs.crb
  {
    if !Selected(a) then ReadResult(0xFF, kbd)
    else if Slot(a) == 0 then
      if PeripheralView(regs.cra) then ReadResult(Keyboard.ReadKey(kbd), kbd)
      else ReadResult(regs.ddra, kbd)
    else if Slot(a) == 1 then
      var c := Keyboard.CheckReady(kbd);
      ReadResult(if c.ready then (regs.cra & 0x7F) | 0x80 else regs.cra & 0x7F, c.kbd)
    else if Slot(a) == 2 then
      if PeripheralView(regs.crb) then
        if Display.Busy(fastVideo, kbd.playback, screen, now) then ReadResult(regs.prb | 0x80, kbd)
        else ReadResult(regs.prb & 0x7F, kbd)
      else ReadResult(regs.ddrb, kbd)
    else
      ReadResult(regs.crb, kbd)
  }

  /** The registers after a write, and the byte handed to the terminal. */
  datatype WriteResult = WriteResult(regs: Regs, forwarded: Option<byte>)

  /** The register side of a bus write: exactly the decoded register takes
      all eight bits, and a port-B write in peripheral view is forwarded. */
  function WriteRegs(regs: Regs, a: address, v: byte): (r: WriteResult)
    ensures forall reg :: Get(r.regs, reg) == (if Target(regs, a) == Some(reg) then v else Get(regs, reg))
    ensures r.forwarded == (if Target(regs, a) == Some(PRB) then Some(v) else None)
  {
    if !Selected(a) then WriteResult(regs, None)
    else if Slot(a) == 0 then
      if PeripheralView(regs.cra) then WriteResult(regs.(pra := v), None)
      else WriteResult(regs.(ddra := v), None)
    else if Slot(a) == 1 then WriteResult(regs.(cra := v), None)
    else if Slot(a) == 2 then
      if PeripheralView(regs.crb) then WriteResult(regs.(prb := v), Some(v))
      else WriteResult(regs.(ddrb := v), None)
    else WriteResult(regs.(crb := v), None)
  }

  /** A full bus write: the registers, the screen and the characters shown. */
  datatype BusWrite = BusWrite(regs: Regs, screen: Display.Screen, out: seq<char>)

  function WriteByte(regs: Regs, screen: Display.Screen, now: int, a: address, v: byte): (r: BusWrite)
    ensures !Selected(a) ==> r == BusWrite(regs, screen, [])
    ensures r.regs == WriteRegs(regs, a, v).regs
    ensures Target(regs, a) != Some(PRB) ==> r.screen == screen && r.out == []
    ensures Target(regs, a) == Some(PRB) ==>
      var d := Display.Write(screen, now, v);
      r.screen == d.screen && r.out == d.out
  {
    var w := WriteRegs(regs, a, v);
    match w.forwarded
    case None => BusWrite(w.regs, screen, [])
    case Some(b) =>
      var d := Display.Write(screen, now, b);
      BusWrite(w.regs, d.screen, d.out)
  }

  /** Two addresses that agree on bits 4, 1 and 0 behave identically. */
  lemma OnlyDecodedBitsMatter(regs: Regs, kbd: Keyboard.KeyState, screen: Display.Screen,
                              fastVideo: bool, now: int, a: address, b: address, v: byte)
    requires a & 0x0013 == b & 0x0013
    ensures ReadByte(regs, kbd, screen, fastVideo, now, a) == ReadByte(regs, kbd, screen, fastVideo, now, b)
    ensures WriteByte(regs, screen, now, a, v) == WriteByte(regs, screen, now, b, v)
  {
    assert Selected(a) == Selected(b) && Slot(a) == Slot(b);
  }

  /** After a reset every slot reads zero (both ports are in the direction
      view), except that the control-A read shows whether a key is ready. */
  lemma ResetReadsZero(kbd: Keyboard.KeyState, screen: Display.Screen, fastVideo: bool, now: int, a: address)
    requires Selected(a)
    ensures var r := ReadByte(Reset(), kbd, screen, fastVideo, now, a);
      && (Slot(a) != 1 ==> r.data == 0)
      && (Slot(a) == 1 ==> r.data == (if Keyboard.CheckReady(kbd).ready then 0x80 else 0))
  {
  }

  /** Reading the key in port A's peripheral view consumes nothing: the
      latched key can be read any number of times. */
  lemma KeyReadIsStable(regs: Regs, kbd: Keyboard.KeyState, screen: Display.Screen,
                        fastVideo: bool, now: int, a: address)
    requires Target(regs, a) == Some(PRA)
    ensures var r1 := ReadByte(regs, kbd, screen, fastVideo, now, a);
      var r2 := ReadByte(regs, r1.kbd, screen, fastVideo, now, a);
      && r1.data == kbd.lastKey && r1.kbd == kbd
      && r2 == r1
  {
  }

  /** Bit 7 written to the control-A register never shows through: the read
      depends only on the keyboard. */
  lemma ControlABit7IsLive(regs: Regs, kbd: Keyboard.KeyState, screen: Display.Screen,
                           fastVideo: bool, now: int, a: address)
    requires Selected(a) && Slot(a) == 1
    ensures ReadByte(regs, kbd, screen, fastVideo, now, a)
         == ReadByte(regs.(cra := regs.cra ^ 0x80), kbd, screen, fastVideo, now, a)
  {
  }

  /** Switching port A to the peripheral view and back loses neither register:
      a byte written to DDRA survives a write of PRA made in between. */
  lemma PortAModeToggle(regs: Regs, x: byte, y: byte, ctrlOn: byte, ctrlOff: byte)
    requires !PeripheralView(regs.cra)
    requires PeripheralView(ctrlOn) && !PeripheralView(ctrlOff)
    ensures var r1 := WriteRegs(regs, 0xD010, x).regs;
      var r2 := WriteRegs(r1, 0xD011, ctrlOn).regs;
      var r3 := WriteRegs(r2, 0xD010, y).regs;
      var r4 := WriteRegs(r3, 0xD011, ctrlOff).regs;
      && r4 == regs.(ddra := x, pra := y, cra := ctrlOff)
      && ReadByte(r4, Keyboard.Init(None), Display.Init(0), false, 0, 0xD010).data == x
  {
  }

  /** The same for port B: DDRB survives a forwarded PRB write. */
  lemma PortBModeToggle(regs: Regs, x: byte, y: byte, ctrlOn: byte, ctrlOff: byte)
    requires !PeripheralView(regs.crb)
    requires PeripheralView(ctrlOn) && !PeripheralView(ctrlOff)
    ensures var w1 := WriteRegs(regs, 0xD012, x);
      var w2 := WriteRegs(w1.regs, 0xD013, ctrlOn);
      var w3 := WriteRegs(w2.regs, 0xD012, y);
      var w4 := WriteRegs(w3.regs, 0xD013, ctrlOff);
      && w1.forwarded == None && w3.forwarded == Some(y)
      && w4.regs == regs.(ddrb := x, prb := y, crb := ctrlOff)
      && ReadByte(w4.regs, Keyboard.Init(None), Display.Init(0), false, 0, 0xD012).data == x
  {
  }
}
