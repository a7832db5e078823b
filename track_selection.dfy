/**
  The key-command switch of cdda-player.cpp (lines 147-180) and the
  `uint8_t track_index` it rewrites. The outer `for` loop adds one to
  `track_index` after every body, so a command that means "play track X next"
  stores X - 1; `NextTrackAfter` folds that increment in and states which
  track the loop's test sees next.
*/
module TrackSelection {

  /** `uint8_t`, the type of `track_index` and of `track_t`. */
  newtype UInt8 = x: int | 0 <= x < 0x100

  /** Conversion of an `int` to `uint8_t`: reduction modulo 256. */
  function Wrap8(x: int): (r: UInt8)
    ensures 0 <= x < 0x100 ==> r as int == x
    ensures x == -1 ==> r == 255
    ensures x == 0x100 ==> r == 0
  {
    (x % 0x100) as UInt8
  }

  /** The value stored in `track_index` by the stop command (cdda-player.cpp:151). */
  const STOP_SENTINEL: UInt8 := 254

  /** The commands the switch recognises; every other byte is `Ignored`. */
  datatype Command = Stop | Previous | Next | Ignored

  /** `tolower` in the C locale, which the player never changes: only `A`..`Z` are mapped. */
  function ToLower(c: UInt8): UInt8
  {
    if 'A' as int <= c as int <= 'Z' as int then c + 32 else c
  }

  /** The command a key byte selects (cdda-player.cpp:147): case-insensitive `s`, `p`, `n`. */
  function Classify(key: UInt8): (cmd: Command)
    ensures cmd == Stop <==> key as int == 's' as int || key as int == 'S' as int
    ensures cmd == Previous <==> key as int == 'p' as int || key as int == 'P' as int
    ensures cmd == Next <==> key as int == 'n' as int || key as int == 'N' as int
  {
    var k := ToLower(key) as int;
    if k == 's' as int then Stop
    else if k == 'p' as int then Previous
    else if k == 'n' as int then Next
    else Ignored
  }

  /** The body of the switch: the new `track_index` while playing track `idx` of
      `total`, and whether the sector loop breaks (`interrupt_current_track`). */
  function Retarget(cmd: Command, idx: UInt8, total: UInt8): (r: (UInt8, bool))
    ensures r.1 <==> cmd != Ignored
    ensures !r.1 ==> r.0 == idx
  {
    match cmd
    case Stop => (STOP_SENTINEL, true)
    case Previous => (if idx == 1 then Wrap8(total as int - 1) else Wrap8(idx as int - 2), true)
    case Next => (if idx as int + 1 > total as int then 0 else idx, true)
    case Ignored => (idx, false)
  }

  /** The switch as the source writes it (cdda-player.cpp:145-180): updates `track_index`
      in place and reports whether the sector loop is to break. */
  method HandleKey(key: UInt8, trackIndex: UInt8, total: UInt8) returns (newIndex: UInt8, interrupt: bool)
    ensures (newIndex, interrupt) == Retarget(Classify(key), trackIndex, total)
  {
    newIndex, interrupt := trackIndex, true;
    var k := ToLower(key);
    if k == 's' as UInt8 {
      newIndex := STOP_SENTINEL;
    } else if k == 'p' as UInt8 {
      if newIndex == 1 {
        newIndex := Wrap8(total as int - 1);
      } else {
        newIndex := Wrap8(newIndex as int - 2);
      }
    } else if k == 'n' as UInt8 {
      if newIndex as int + 1 > total as int {
        newIndex := 0;
      }
    } else {
      interrupt := false;
    }
  }

  /** The value of `track_index` that the outer loop tests after a command was
      handled on track `idx`: the switch, then the loop's `track_index++` (cdda-player.cpp:102). */
  function NextTrackAfter(cmd: Command, idx: UInt8, total: UInt8): (next: UInt8)
    ensures cmd == Next ==> next == if idx < total then idx + 1 else 1
    ensures cmd == Previous && idx > 1 ==> next == idx - 1
    ensures cmd == Previous && idx == 1 ==> next == total
    ensures cmd == Stop ==> next == 255
    ensures cmd == Ignored && idx < 255 ==> next == idx + 1
  {
    Wrap8(Retarget(cmd, idx, total).0 as int + 1)
  }

  /** On a disc of at most 254 tracks, stop always ends the loop, and every other
      command from a track of the disc leads to a track of the disc or past the last one. */
  lemma NextTrackInRange(cmd: Command, idx: UInt8, total: UInt8)
    requires 1 <= idx <= total <= 254
    ensures cmd == Stop ==> NextTrackAfter(cmd, idx, total) > total
    ensures cmd == Next || cmd == Previous ==> 1 <= NextTrackAfter(cmd, idx, total) <= total
    ensures cmd == Ignored ==> NextTrackAfter(cmd, idx, total) == idx + 1
  {
  }
}
