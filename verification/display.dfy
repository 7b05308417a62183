/**
 The output half of the terminal subsystem: the filter that turns a byte
 written to port B into screen characters, the 40-column counter with its
 automatic line break, and the busy status that limits output to 60
 characters per second. Time is a monotonic clock in whole microseconds.
 */
module Display {
  import opened Bytes

  /** The Apple-1 screen is 40 characters wide. */
  const Width: nat := 40
  /** Microseconds per character at 60 characters per second. */
  const CharInterval: int := 16666

  /** The column counter and the time of the last write. */
  datatype Screen = Screen(column: nat, lastCharTime: int)

  /** Between calls the column counter is a column of the screen. */
  predicate Valid(s: Screen) {
    s.column < Width
  }

  /** The screen state set up at configuration time. */
  function Init(now: int): (s: Screen)
    ensures Valid(s) && s.column == 0
    ensures s.lastCharTime == now
  {
    Screen(0, now)
  }

  /** What a written byte becomes: its low 7 bits, upper-cased. */
  function Glyph(b: byte): byte {
    ToUpper(Low7(b))
  }

  /** A glyph that is shown and advances the column. */
  predicate Printable(b: byte) {
    Glyph(b) >= 32
  }

  /** A byte that the filter keeps: carriage return or printable. */
  predicate Shown(b: byte) {
    Glyph(b) == CR || Printable(b)
  }

  function Char(g: byte): char {
    (g as int) as char
  }

  /** The characters the screen can ever receive: a line break, or a 7-bit
      glyph from space upwards that is not a lower-case letter. */
  predicate ScreenChar(c: char) {
    c == '\n' || (32 <= c as int < 128 && !('a' <= c <= 'z'))
  }

  datatype Written = Written(screen: Screen, out: seq<char>)

  /** One byte sent to the terminal. The timestamp is taken on every call,
      whether the byte is shown or dropped. */
  function Write(s: Screen, now: int, b: byte): (r: Written)
    ensures r.screen.lastCharTime == now
    ensures Valid(s) ==> Valid(r.screen)
    ensures forall i :: 0 <= i < |r.out| ==> ScreenChar(r.out[i])
    ensures !Shown(b) ==> r.out == [] && r.screen.column == s.column
    ensures Glyph(b) == CR ==> r.out == "\n" && r.screen.column == 0
    ensures Printable(b) && s.column + 1 < Width ==>
      r.out == [Char(Glyph(b))] && r.screen.column == s.column + 1
    ensures Printable(b) && s.column + 1 == Width ==>
      r.out == [Char(Glyph(b)), '\n'] && r.screen.column == 0
  {
    var g := Glyph(b);
    if g == CR || g >= 32 then
      var column := if g == CR then 0 else s.column + 1;
      var out := if g == CR then "\n" else [Char(g)];
      if column == Width then Written(Screen(0, now), out + "\n")
      else Written(Screen(column, now), out)
    else
      Written(s.(lastCharTime := now), [])
  }

  /** The busy status of port B: never busy under fast video or playback,
      otherwise busy until a full character interval has passed since the
      last write. */
  function Busy(fastVideo: bool, playback: bool, s: Screen, now: int): (busy: bool)
    ensures fastVideo || playback ==> !busy
    ensures !fastVideo && !playback ==> (busy <==> now < s.lastCharTime + CharInterval)
  {
    !(fastVideo || playback) && now - s.lastCharTime < CharInterval
  }

  /** Right after a write the port is busy, and it stays busy for exactly one
      character interval, unless fast video or playback is on. */
  lemma BusyAfterWrite(fastVideo: bool, playback: bool, s: Screen, t: int, b: byte, now: int)
    ensures var s' := Write(s, t, b).screen;
      && (Busy(fastVideo, playback, s', now) <==> !fastVideo && !playback && now < t + CharInterval)
      && (!fastVideo && !playback ==> Busy(fastVideo, playback, s', t))
  {
  }

  /** A sequence of bytes written one after the other at time `now`. */
  function WriteAll(s: Screen, now: int, bs: seq<byte>): (r: Written)
    ensures Valid(s) ==> Valid(r.screen)
    ensures bs != [] ==> r.screen.lastCharTime == now
    ensures forall i :: 0 <= i < |r.out| ==> ScreenChar(r.out[i])
    decreases |bs|
  {
    if bs == [] then Written(s, [])
    else
      var w := Write(s, now, bs[0]);
      var rest := WriteAll(w.screen, now, bs[1..]);
      Written(rest.screen, w.out + rest.out)
  }

  /** Writing one more byte continues from where the sequence left off. */
  lemma {:induction false} WriteAllAppend(s: Screen, now: int, bs: seq<byte>, b: byte)
    ensures var r := WriteAll(s, now, bs);
      var w := Write(r.screen, now, b);
      WriteAll(s, now, bs + [b]) == Written(w.screen, r.out + w.out)
    decreases |bs|
  {
    if bs == [] {
      assert [b][1..] == [];
    } else {
      var w0 := Write(s, now, bs[0]);
      assert (bs + [b])[0] == bs[0];
      assert (bs + [b])[1..] == bs[1..] + [b];
      WriteAllAppend(w0.screen, now, bs[1..], b);
    }
  }

  /** The glyphs of a sequence of bytes, as characters. */
  function Glyphs(bs: seq<byte>): seq<char>
    decreases |bs|
  {
    if bs == [] then [] else [Char(Glyph(bs[0]))] + Glyphs(bs[1..])
  }

  /** Printable bytes that fit on the current line appear verbatim (as
      glyphs); the one that fills the 40th column is followed by a line break
      and the counter returns to 0. */
  lemma {:induction false} PrintableLine(s: Screen, now: int, bs: seq<byte>)
    requires Valid(s)
    requires forall i :: 0 <= i < |bs| ==> Printable(bs[i])
    requires s.column + |bs| <= Width
    ensures var r := WriteAll(s, now, bs);
      && r.out == Glyphs(bs) + (if s.column + |bs| == Width then "\n" else "")
      && r.screen.column == (s.column + |bs|) % Width
    decreases |bs|
  {
    if bs != [] {
      var w := Write(s, now, bs[0]);
      assert Printable(bs[0]);
      if s.column + 1 == Width {
        assert bs[1..] == [];
      } else {
        PrintableLine(w.screen, now, bs[1..]);
      }
    }
  }

  /** Number of printable bytes since the last carriage return in `bs` (all
      of them when `bs` holds none). Dropped bytes do not count. */
  function RunSinceCr(bs: seq<byte>): nat
    decreases |bs|
  {
    if bs == [] then 0
    else
      var last := bs[|bs| - 1];
      if Glyph(last) == CR then 0
      else RunSinceCr(bs[..|bs| - 1]) + (if Printable(last) then 1 else 0)
  }

  /** `bs` holds a byte the filter turns into a carriage return. */
  predicate HasCr(bs: seq<byte>) {
    exists i :: 0 <= i < |bs| && Glyph(bs[i]) == CR
  }

  lemma ModStep(x: nat)
    ensures (x + 1) % Width == if x % Width + 1 == Width then 0 else x % Width + 1
  {
  }

  /** The column counter is the length of the current printed run, taken
      modulo the screen width: a carriage return restarts the run, the
      automatic break at 40 wraps it, and dropped bytes are invisible. */
  lemma {:induction false} ColumnIsRunModWidth(s: Screen, now: int, bs: seq<byte>)
    requires Valid(s)
    ensures WriteAll(s, now, bs).screen.column ==
      (if HasCr(bs) then RunSinceCr(bs) else s.column + RunSinceCr(bs)) % Width
    decreases |bs|
  {
    if bs == [] {
      assert !HasCr(bs);
    } else {
      var init := bs[..|bs| - 1];
      var b := bs[|bs| - 1];
      assert bs == init + [b];
      ColumnIsRunModWidth(s, now, init);
      WriteAllAppend(s, now, init, b);
      var r := WriteAll(s, now, init);
      var x := if HasCr(init) then RunSinceCr(init) else s.column + RunSinceCr(init);
      assert r.screen.column == x % Width;
      if Glyph(b) == CR {
        assert HasCr(bs) by { assert Glyph(bs[|bs| - 1]) == CR; }
      } else {
        assert HasCr(bs) <==> HasCr(init) by {
          if HasCr(bs) {
            var i :| 0 <= i < |bs| && Glyph(bs[i]) == CR;
            assert i < |init| && init[i] == bs[i];
          }
          if HasCr(init) {
            var i :| 0 <= i < |init| && Glyph(init[i]) == CR;
            assert bs[i] == init[i];
          }
        }
        if Printable(b) {
          ModStep(x);
        }
      }
    }
  }

  /** Forty printable bytes from the start of a line fill it and break it;
      the forty-first starts the next line in column 1. */
  lemma FortyColumns(now: int, bs: seq<byte>, b: byte)
    requires |bs| == Width
    requires forall i :: 0 <= i < |bs| ==> Printable(bs[i])
    requires Printable(b)
    ensures var r := WriteAll(Init(now), now, bs);
      r.out == Glyphs(bs) + "\n" && r.screen.column == 0
    ensures var r := WriteAll(Init(now), now, bs + [b]);
      r.out == Glyphs(bs) + "\n" + [Char(Glyph(b))] && r.screen.column == 1
  {
    PrintableLine(Init(now), now, bs);
    WriteAllAppend(Init(now), now, bs, b);
  }
}
