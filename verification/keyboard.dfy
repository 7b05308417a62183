/**
 The keyboard half of the terminal subsystem: the one-slot mailbox filled by
 the capture task, the key latch read by the PIA, and playback of a recorded
 keystroke file that supersedes live input until it is exhausted.
 */
module Keyboard {
  import opened Bytes

  /** Everything the ready-check reads or writes. */
  datatype KeyState = KeyState(
    lastKey: byte,       // the latched, normalised key (last_key)
    pending: bool,       // a captured byte waits in the mailbox (stdin_has_data)
    pendingValue: byte,  // the captured byte (stdin_value)
    playback: bool,      // playback mode is on (options.flag_wozfile)
    rest: seq<byte>)     // unread bytes of the playback file; |rest| is the remaining count

  /** The latch holds either its initial zero or a delivered key, which
      always has bit 7 set. */
  predicate Valid(k: KeyState) {
    k.lastKey == 0 || Bit7(k.lastKey)
  }

  /** The state right after configuration: every static starts at zero and
      playback is on exactly when a file was given. */
  function Init(file: Option<seq<byte>>): (k: KeyState)
    ensures k.playback <==> file.Some?
    ensures k.rest == (if file.Some? then file.value else [])
    ensures k.lastKey == 0 && !k.pending && k.pendingValue == 0
    ensures Valid(k)
  {
    match file
    case None => KeyState(0, false, 0, false, [])
    case Some(bytes) => KeyState(0, false, 0, true, bytes)
  }

  /** The translation applied to every delivered byte: LF becomes CR,
      a..z become A..Z, and bit 7 is forced on. */
  function Normalize(ch: byte): (r: byte)
    ensures Bit7(r)
    ensures ch == LF ==> r == 0x8D
    ensures IsLower(ch) ==> r == (ch - 0x20) | 0x80
    ensures ch != LF && !IsLower(ch) ==> r == ch | 0x80
    ensures Low7(r) == Low7(ToUpper(if ch == LF then CR else ch))
  {
    ToUpper(if ch == LF then CR else ch) | 0x80
  }

  /** What a ready-check reports, with the state it leaves behind. */
  datatype Check = Check(ready: bool, kbd: KeyState)

  /** One ready-check. In playback mode it consumes the next file byte (and
      switches playback off after the last one); with playback on and nothing
      left the byte read stays 0, so the check still reports a key, 0x80, and
      never leaves playback. In live mode it consumes the mailbox, if full. */
  function CheckReady(k: KeyState): (r: Check)
    ensures r.ready <==> k.playback || k.pending
    ensures r.ready ==> Bit7(r.kbd.lastKey)
    ensures !r.ready ==> r.kbd == k
    ensures Valid(k) ==> Valid(r.kbd)
    ensures k.playback ==> r.kbd.pending == k.pending && r.kbd.pendingValue == k.pendingValue
    ensures k.playback && k.rest != [] ==>
      && r.kbd.lastKey == Normalize(k.rest[0])
      && r.kbd.rest == k.rest[1..]
      && (r.kbd.playback <==> |k.rest| > 1)
    ensures k.playback && k.rest == [] ==> r.kbd == k.(lastKey := 0x80)
    ensures !k.playback ==>
      && !r.kbd.playback && r.kbd.rest == k.rest && !r.kbd.pending
      && r.kbd.pendingValue == k.pendingValue
    ensures !k.playback && k.pending ==> r.kbd.lastKey == Normalize(k.pendingValue)
  {
    if k.playback then
      if k.rest != [] then
        var rest := k.rest[1..];
        Check(true, k.(lastKey := Normalize(k.rest[0]), rest := rest, playback := rest != []))
      else
        // The file is empty: the byte read stays 0, which is not end-of-file.
        Check(true, k.(lastKey := Normalize(0)))
    else if k.pending then
      Check(true, k.(lastKey := Normalize(k.pendingValue), pending := false))
    else
      Check(false, k)
  }

  /** The latched key; reading it changes nothing. On a valid state it is
      the initial zero or a key with bit 7 set. */
  function ReadKey(k: KeyState): (r: byte)
    ensures r == k.lastKey
    ensures Valid(k) ==> r == 0 || Bit7(r)
  {
    k.lastKey
  }

  /** The result of `n` consecutive ready-checks: the flag each one reported,
      the key latched after each, and the final state. */
  datatype Run = Run(readies: seq<bool>, keys: seq<byte>, kbd: KeyState)

  function Checks(k: KeyState, n: nat): (r: Run)
    ensures |r.readies| == n && |r.keys| == n
    ensures n > 0 ==> r.readies[0] == CheckReady(k).ready
    decreases n
  {
    if n == 0 then Run([], [], k)
    else
      var c := CheckReady(k);
      var tail := Checks(c.kbd, n - 1);
      Run([c.ready] + tail.readies, [c.kbd.lastKey] + tail.keys, tail.kbd)
  }

  /** A playback file of N bytes gives exactly N ready checks, delivering the
      normalised bytes in file order; playback is then off, the mailbox was
      never touched, and the next check answers from live input. */
  lemma {:induction false} PlaybackDrains(k: KeyState)
    requires k.playback && k.rest != []
    ensures var r := Checks(k, |k.rest|);
      && (forall i :: 0 <= i < |k.rest| ==> r.readies[i])
      && (forall i :: 0 <= i < |k.rest| ==> r.keys[i] == Normalize(k.rest[i]))
      && !r.kbd.playback && r.kbd.rest == []
      && r.kbd.pending == k.pending && r.kbd.pendingValue == k.pendingValue
      && (CheckReady(r.kbd).ready <==> k.pending)
    decreases |k.rest|
  {
    var c := CheckReady(k);
    var r := Checks(k, |k.rest|);
    var tail := Checks(c.kbd, |k.rest| - 1);
    if |k.rest| == 1 {
      assert r.kbd == c.kbd;
    } else {
      PlaybackDrains(c.kbd);
      assert |c.kbd.rest| == |k.rest| - 1;
      forall i | 0 < i < |k.rest|
        ensures r.readies[i] && r.keys[i] == Normalize(k.rest[i])
      {
        assert r.readies[i] == tail.readies[i - 1];
        assert r.keys[i] == tail.keys[i - 1];
        assert c.kbd.rest[i - 1] == k.rest[i];
      }
    }
  }

  /** An empty playback file never ends: every check reports a ready key 0x80
      and playback stays on. */
  lemma {:induction false} EmptyPlaybackNeverEnds(k: KeyState, n: nat)
    requires k.playback && k.rest == []
    ensures var r := Checks(k, n);
      && (forall i :: 0 <= i < n ==> r.readies[i] && r.keys[i] == 0x80)
      && r.kbd.playback
      && (n > 0 ==> r.kbd == k.(lastKey := 0x80))
    decreases n
  {
    if n > 0 {
      var c := CheckReady(k);
      EmptyPlaybackNeverEnds(c.kbd, n - 1);
      var r := Checks(k, n);
      var tail := Checks(c.kbd, n - 1);
      forall i | 0 < i < n
        ensures r.readies[i] && r.keys[i] == 0x80
      {
        assert r.readies[i] == tail.readies[i - 1];
        assert r.keys[i] == tail.keys[i - 1];
      }
    }
  }

  /** In live mode a captured byte is delivered exactly once: the second check
      without new input is not ready and keeps the latched key. */
  lemma LiveKeyConsumedOnce(k: KeyState)
    requires !k.playback && k.pending
    ensures var first := CheckReady(k);
      var second := CheckReady(first.kbd);
      && first.ready && !second.ready
      && second.kbd == first.kbd
      && ReadKey(second.kbd) == Normalize(k.pendingValue)
  {
  }

  /** What the capture task does with one byte taken from the host. */
  datatype Capture =
    | Terminate                                   // the quit control byte: the process exits
    | Continue(kbd: KeyState, resetRequested: bool)  // the keyboard and the process-wide reset request after the byte

  /** The per-byte step of the capture task. `resetRequested` is the
      process-wide reset request as the step finds it; only the CPU core
      clears it. The two control bytes are parameters: their values come
      from a header this model does not see. */
  function CaptureStep(k: KeyState, resetRequested: bool, ch: byte, ctrlC: byte, ctrlR: byte): (r: Capture)
    requires ctrlC != ctrlR
    ensures r.Terminate? <==> ch == ctrlC
    ensures ch == ctrlR ==> r == Continue(k, true)
    ensures ch != ctrlC && ch != ctrlR ==>
      r == Continue(k.(pending := true, pendingValue := ch), resetRequested)
  {
    if ch == ctrlC then Terminate
    else if ch == ctrlR then Continue(k, true)
    else Continue(k.(pending := true, pendingValue := ch), resetRequested)
  }

  /** A captured byte reaches the latch through the next live ready-check,
      normalised. */
  lemma CaptureThenCheck(k: KeyState, resetRequested: bool, ch: byte, ctrlC: byte, ctrlR: byte)
    requires ctrlC != ctrlR && ch != ctrlC && ch != ctrlR
    requires !k.playback
    ensures var cap := CaptureStep(k, resetRequested, ch, ctrlC, ctrlR);
      && cap.Continue? && cap.resetRequested == resetRequested
      && CheckReady(cap.kbd).ready
      && ReadKey(CheckReady(cap.kbd).kbd) == Normalize(ch)
  {
  }

  /** The mailbox holds one byte: two captures before a check deliver only the
      second, once. */
  lemma MailboxKeepsLatest(k: KeyState, ch1: byte, ch2: byte, ctrlC: byte, ctrlR: byte)
    requires ctrlC != ctrlR
    requires ch1 != ctrlC && ch1 != ctrlR && ch2 != ctrlC && ch2 != ctrlR
    requires !k.playback
    ensures var k1 := CaptureStep(k, false, ch1, ctrlC, ctrlR).kbd;
      var k2 := CaptureStep(k1, false, ch2, ctrlC, ctrlR).kbd;
      var r := Checks(k2, 2);
      && r.readies == [true, false]
      && r.keys == [Normalize(ch2), Normalize(ch2)]
  {
  }

  /** A recorded file of N bytes, configured at start-up, plays out in exactly
      N ready checks and then hands over to live input. */
  lemma PlaybackSession(file: seq<byte>)
    requires file != []
    ensures var r := Checks(Init(Some(file)), |file|);
      && (forall i :: 0 <= i < |file| ==> r.readies[i] && r.keys[i] == Normalize(file[i]))
      && r.kbd == KeyState(r.kbd.lastKey, false, 0, false, [])
      && !CheckReady(r.kbd).ready
  {
    PlaybackDrains(Init(Some(file)));
  }
}
