/**
  The playback loop of cdda-player.cpp (`main`, lines 102-192): an outer loop
  over `track_index`, an inner loop over the sector addresses of the track,
  and after every sector one polled key byte that may redirect the outer loop.

  The drive and the keyboard are a script: `disc` gives each track's first and
  last sector, and `input` gives one `Event` per visited sector, saying whether
  the read failed or, if it succeeded, which key byte (if any) the poll got.
  Once the script is exhausted every read succeeds and no key arrives. What the
  player writes to the audio device, to standard output and to standard error is
  one trace of `Output`s.

  `SectorWalk` and `Session` are the reference definitions; `Play` is the loop
  as the source writes it and is proved to produce `Session(disc, 1, input)`.
*/
module Playback {

  import opened Wrappers
  import opened Time
  import opened TrackSelection

  /** The largest track count of an audio CD (IEC 60908). */
  const MAX_TRACKS := 99

  /** A track's sector addresses, as `cdio_get_track_lsn` and `cdio_get_track_last_lsn` give them. */
  datatype Bounds = Bounds(first: int, last: int)

  /** What happens at one visited sector: the read fails, or it succeeds and the
      poll of standard input gets at most one byte (the rest is flushed). */
  datatype Event = ReadFail | Played(key: Option<UInt8>)

  /** One observable effect of the loop, in the order the loop performs them. */
  datatype Output =
    | TrackStarted(track: UInt8, totalSeconds: int)  // "Playing track" and "Total time" lines
    | SectorPlayed(track: UInt8, lsn: int)           // the sector's block sent to the audio device
    | ElapsedShown(seconds: int)                     // the "Elapsed time" line rewritten
    | ReadFailed(lsn: int)                           // the read-failure warning

  /** How the sector loop of a track ended. */
  datatype Exit = Finished | ReadError(lsn: int) | Interrupted(lsn: int, cmd: Command)

  /** The result of walking a track's sectors: what was output, the unconsumed
      script, and how the walk ended. */
  datatype Walk = Walk(out: seq<Output>, rest: seq<Event>, exit: Exit)

  /** The event at the next visited sector. */
  function Poll(input: seq<Event>): Event
  {
    if input == [] then Played(None) else input[0]
  }

  /** The script after the next visited sector. */
  function Consume(input: seq<Event>): (rest: seq<Event>)
    ensures input != [] ==> |rest| == |input| - 1
    ensures input == [] ==> rest == []
  {
    if input == [] then [] else input[1..]
  }

  /** The key of an event, if it is one the switch acts on. */
  predicate IsCommand(e: Event)
  {
    e.Played? && e.key.Some? && Classify(e.key.value) != Ignored
  }

  /** The output of a sector that was read: the block goes to the audio device, and at
      a whole second from the track's first sector the elapsed time is redisplayed
      (cdda-player.cpp:133-140). */
  function SectorOutput(b: Bounds, track: UInt8, lsn: int): seq<Output>
  {
    [SectorPlayed(track, lsn)]
    + if IsSecondBoundary(b.first, lsn) then [ElapsedShown(ElapsedSeconds(b.first, lsn))] else []
  }

  // ---------------------------------------------------------------------------
  // Views of a trace.

  /** The integers `lo`, `lo + 1`, ..., `hi - 1`. */
  function Range(lo: int, hi: int): (r: seq<int>)
    ensures |r| == if lo <= hi then hi - lo else 0
    ensures forall k :: 0 <= k < |r| ==> r[k] == lo + k
    decreases hi - lo
  {
    if lo >= hi then [] else [lo] + Range(lo + 1, hi)
  }

  /** The sector addresses sent to the audio device, in order. */
  function PlayedSectors(out: seq<Output>): seq<int>
  {
    if out == [] then []
    else (if out[0].SectorPlayed? then [out[0].lsn] else []) + PlayedSectors(out[1..])
  }

  /** The elapsed-time values displayed, in order. */
  function ElapsedValues(out: seq<Output>): seq<int>
  {
    if out == [] then []
    else (if out[0].ElapsedShown? then [out[0].seconds] else []) + ElapsedValues(out[1..])
  }

  /** The tracks started, in order. */
  function StartedTracks(out: seq<Output>): seq<UInt8>
  {
    if out == [] then []
    else (if out[0].TrackStarted? then [out[0].track] else []) + StartedTracks(out[1..])
  }

  lemma {:induction false} PlayedOfConcat(a: seq<Output>, b: seq<Output>)
    ensures PlayedSectors(a + b) == PlayedSectors(a) + PlayedSectors(b)
  {
    if a != [] {
      assert (a + b)[1..] == a[1..] + b;
      PlayedOfConcat(a[1..], b);
    } else {
      assert a + b == b;
    }
  }

  lemma {:induction false} ElapsedOfConcat(a: seq<Output>, b: seq<Output>)
    ensures ElapsedValues(a + b) == ElapsedValues(a) + ElapsedValues(b)
  {
    if a != [] {
      assert (a + b)[1..] == a[1..] + b;
      ElapsedOfConcat(a[1..], b);
    } else {
      assert a + b == b;
    }
  }

  lemma {:induction false} StartedOfConcat(a: seq<Output>, b: seq<Output>)
    ensures StartedTracks(a + b) == StartedTracks(a) + StartedTracks(b)
  {
    if a != [] {
      assert (a + b)[1..] == a[1..] + b;
      StartedOfConcat(a[1..], b);
    } else {
      assert a + b == b;
    }
  }

  /** Each view of a joined trace is the join of the views. */
  lemma ViewsOfConcat(a: seq<Output>, b: seq<Output>)
    ensures PlayedSectors(a + b) == PlayedSectors(a) + PlayedSectors(b)
    ensures ElapsedValues(a + b) == ElapsedValues(a) + ElapsedValues(b)
    ensures StartedTracks(a + b) == StartedTracks(a) + StartedTracks(b)
  {
    PlayedOfConcat(a, b);
    ElapsedOfConcat(a, b);
    StartedOfConcat(a, b);
  }

  // ---------------------------------------------------------------------------
  // The reference definitions.

  /** Where the sectors played by a walk from `lsn` stop (exclusive). */
  function StopPoint(exit: Exit, lsn: int, last: int): int
  {
    if lsn > last then lsn
    else match exit
      case Finished => last + 1
      case ReadError(at) => at
      case Interrupted(at, _) => at + 1
  }

  /** The sector loop of track `track` of `total`, from sector `lsn` on
      (cdda-player.cpp:124-190): read, play, maybe redisplay the elapsed time,
      poll one key; a failed read or a recognised command ends the loop. */
  function SectorWalk(b: Bounds, track: UInt8, total: UInt8, lsn: int, input: seq<Event>): (w: Walk)
    ensures |w.rest| <= |input|
    ensures |w.rest| == |input| ==> w.exit == Finished
    ensures w.exit.ReadError? ==> lsn <= w.exit.lsn <= b.last
    ensures w.exit.Interrupted? ==> lsn <= w.exit.lsn <= b.last && w.exit.cmd != Ignored
    decreases b.last - lsn
  {
    if lsn > b.last then Walk([], input, Finished)
    else
      var e := Poll(input);
      if e.ReadFail? then Walk([ReadFailed(lsn)], Consume(input), ReadError(lsn))
      else if IsCommand(e) then Walk(SectorOutput(b, track, lsn), Consume(input), Interrupted(lsn, Classify(e.key.value)))
      else
        var w := SectorWalk(b, track, total, lsn + 1, Consume(input));
        Walk(SectorOutput(b, track, lsn) + w.out, w.rest, w.exit)
  }

  /** The track the outer loop tests after a track's sector loop ended with `exit`. */
  function FollowingTrack(exit: Exit, idx: UInt8, total: UInt8): UInt8
  {
    match exit
    case Interrupted(_, cmd) => NextTrackAfter(cmd, idx, total)
    case _ => Wrap8(idx as int + 1)
  }

  /** The outer loop from `track_index == idx` on (cdda-player.cpp:102-192). */
  function Session(disc: seq<Bounds>, idx: UInt8, input: seq<Event>): seq<Output>
    requires |disc| <= MAX_TRACKS && 1 <= idx
    decreases |input|, 0x100 - idx as int
  {
    if idx as int > |disc| then []
    else
      var total := |disc| as UInt8;
      var b := disc[idx - 1];
      var w := SectorWalk(b, idx, total, b.first, input);
      var next := FollowingTrack(w.exit, idx, total);
      [TrackStarted(idx, TotalSeconds(b.first, b.last))] + w.out + Session(disc, next, w.rest)
  }

  // ---------------------------------------------------------------------------
  // The loop as the source writes it.

  lemma AppendAssoc<T>(a: seq<T>, b: seq<T>, c: seq<T>)
    ensures a + (b + c) == (a + b) + c
  {
  }

  lemma AppendAssoc4<T>(a: seq<T>, b: seq<T>, c: seq<T>, d: seq<T>)
    ensures a + (b + c + d) == a + b + c + d
  {
  }

  /** The track after a track of the disc is a track of the disc or past the last one;
      a sector loop that ran to the end moves on to the next track. */
  lemma FollowingTrackBounds(exit: Exit, idx: UInt8, total: UInt8)
    requires 1 <= idx <= total <= 254
    requires exit.Interrupted? ==> exit.cmd != Ignored
    ensures 1 <= FollowingTrack(exit, idx, total)
    ensures !exit.Interrupted? ==> FollowingTrack(exit, idx, total) == idx + 1
  {
  }

  /** One step of the sector loop, as the sector's event decides it. */
  lemma WalkStep(b: Bounds, track: UInt8, total: UInt8, lsn: int, input: seq<Event>)
    requires lsn <= b.last
    ensures Poll(input).ReadFail? ==>
              SectorWalk(b, track, total, lsn, input) == Walk([ReadFailed(lsn)], Consume(input), ReadError(lsn))
    ensures IsCommand(Poll(input)) ==>
              SectorWalk(b, track, total, lsn, input)
              == Walk(SectorOutput(b, track, lsn), Consume(input), Interrupted(lsn, Classify(Poll(input).key.value)))
    ensures Poll(input).Played? && !IsCommand(Poll(input)) ==>
              var next := SectorWalk(b, track, total, lsn + 1, Consume(input));
              SectorWalk(b, track, total, lsn, input) == Walk(SectorOutput(b, track, lsn) + next.out, next.rest, next.exit)
  {
  }

  lemma SectorOutputCases(b: Bounds, track: UInt8, lsn: int)
    ensures CMod(lsn - b.first, SECTORS_PER_SECOND) == 0 ==>
              SectorOutput(b, track, lsn) == [SectorPlayed(track, lsn), ElapsedShown(CDiv(lsn - b.first, SECTORS_PER_SECOND))]
    ensures CMod(lsn - b.first, SECTORS_PER_SECOND) != 0 ==> SectorOutput(b, track, lsn) == [SectorPlayed(track, lsn)]
  {
  }

  /** The views of one played sector's output. */
  lemma SectorOutputViews(b: Bounds, track: UInt8, lsn: int)
    ensures var shown := SectorOutput(b, track, lsn);
            && 1 <= |shown| <= 2 && shown[0] == SectorPlayed(track, lsn)
            && (|shown| == 2 <==> IsSecondBoundary(b.first, lsn))
            && (|shown| == 2 ==> shown[1] == ElapsedShown(ElapsedSeconds(b.first, lsn)))
            && PlayedSectors(shown) == [lsn]
            && StartedTracks(shown) == []
            && ElapsedValues(shown) == if IsSecondBoundary(b.first, lsn) then [ElapsedSeconds(b.first, lsn)] else []
  {
    SectorOutputCases(b, track, lsn);
    var played := SectorPlayed(track, lsn);
    if IsSecondBoundary(b.first, lsn) {
      var elapsed := ElapsedShown(ElapsedSeconds(b.first, lsn));
      assert [played, elapsed][1..] == [elapsed];
      assert [elapsed][1..] == [];
      assert PlayedSectors([elapsed]) == [] && StartedTracks([elapsed]) == [];
      assert ElapsedValues([elapsed]) == [elapsed.seconds];
    } else {
      assert [played][1..] == [];
    }
  }

  /** One iteration of the outer loop. */
  lemma SessionStep(disc: seq<Bounds>, idx: UInt8, input: seq<Event>)
    requires |disc| <= MAX_TRACKS && 1 <= idx && idx as int <= |disc|
    ensures var b := disc[idx - 1];
            var w := SectorWalk(b, idx, |disc| as UInt8, b.first, input);
            Session(disc, idx, input)
            == [TrackStarted(idx, TotalSeconds(b.first, b.last))] + w.out
               + Session(disc, FollowingTrack(w.exit, idx, |disc| as UInt8), w.rest)
  {
  }

  /** What the loop does with a sector that was read (cdda-player.cpp:133-140): the
      block goes to the audio device, and at a whole second from the track's first
      sector the elapsed time is recomputed and shown. */
  method ShowSector(b: Bounds, trackIndex: UInt8, lsn: int) returns (shown: seq<Output>)
    ensures shown == SectorOutput(b, trackIndex, lsn)
  {
    SectorOutputCases(b, trackIndex, lsn);
    if CMod(lsn - b.first, SECTORS_PER_SECOND) == 0 {
      var elapsedSeconds := CDiv(lsn - b.first, SECTORS_PER_SECOND);
      shown := [SectorPlayed(trackIndex, lsn), ElapsedShown(elapsedSeconds)];
    } else {
      shown := [SectorPlayed(trackIndex, lsn)];
    }
  }

  /** The sector loop of one track (cdda-player.cpp:124-190) on track `trackIndex` of
      `total`: returns what it output, the unconsumed script, and `track_index` as the
      key switch left it. */
  method PlayTrack(b: Bounds, trackIndex: UInt8, total: UInt8, input: seq<Event>)
    returns (out: seq<Output>, pending: seq<Event>, newIndex: UInt8)
    ensures var w := SectorWalk(b, trackIndex, total, b.first, input);
            out == w.out && pending == w.rest
            && newIndex == if w.exit.Interrupted? then Retarget(w.exit.cmd, trackIndex, total).0 else trackIndex
  {
    ghost var walk := SectorWalk(b, trackIndex, total, b.first, input);
    ghost var remaining := walk;
    out, pending, newIndex := [], input, trackIndex;
    var lsn := b.first;
    while lsn <= b.last
      invariant newIndex == trackIndex
      invariant remaining == SectorWalk(b, trackIndex, total, lsn, pending)
      invariant walk == Walk(out + remaining.out, remaining.rest, remaining.exit)
      decreases b.last - lsn
    {
      WalkStep(b, trackIndex, total, lsn, pending);
      var e := Poll(pending);
      pending := Consume(pending);
      if e.ReadFail? {
        out := out + [ReadFailed(lsn)];
        break;
      }
      var shown := ShowSector(b, trackIndex, lsn);
      if e.key.Some? {
        var interrupt;
        newIndex, interrupt := HandleKey(e.key.value, newIndex, total);
        if interrupt {
          out := out + shown;
          break;
        }
      }
      AppendAssoc(out, shown, SectorWalk(b, trackIndex, total, lsn + 1, pending).out);
      out := out + shown;
      remaining := SectorWalk(b, trackIndex, total, lsn + 1, pending);
      lsn := lsn + 1;
    }
  }

  /** `main`'s playback loop: plays the disc from track 1 and returns the trace. */
  method Play(disc: seq<Bounds>, input: seq<Event>) returns (trace: seq<Output>)
    requires |disc| <= MAX_TRACKS
    ensures trace == Session(disc, 1, input)
  {
    var total := |disc| as UInt8;
    var pending := input;
    trace := [];
    var trackIndex: UInt8 := 1;
    while trackIndex <= total
      invariant 1 <= trackIndex
      invariant trace + Session(disc, trackIndex, pending) == Session(disc, 1, input)
      decreases |pending|, 0x100 - trackIndex as int
    {
      var b := disc[trackIndex - 1];
      ghost var idx0, pending0, trace0 := trackIndex, pending, trace;
      ghost var walk := SectorWalk(b, idx0, total, b.first, pending0);
      var started := [TrackStarted(trackIndex, TotalSeconds(b.first, b.last))];
      FollowingTrackBounds(walk.exit, idx0, total);
      SessionStep(disc, idx0, pending0);
      trace := trace + started;
      var played;
      played, pending, trackIndex := PlayTrack(b, trackIndex, total, pending);
      trace := trace + played;
      trackIndex := Wrap8(trackIndex as int + 1);
      assert trackIndex == FollowingTrack(walk.exit, idx0, total);
      AppendAssoc4(trace0, started, walk.out, Session(disc, trackIndex, pending));
    }
  }
}
