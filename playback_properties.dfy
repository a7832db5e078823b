/**
  What the playback loop of cdda-player.cpp guarantees, proved of the reference
  definitions `SectorWalk` and `Session` (which `Play` is proved to compute):
  the order of the sectors within a track, when the elapsed time is redisplayed
  and with which values, which track follows each key command and each read
  failure, and that stop ends playback.
*/
module PlaybackProperties {

  import opened Wrappers
  import opened Time
  import opened TrackSelection
  import opened Playback

  // ---------------------------------------------------------------------------
  // The sector loop of one track.

  /** A walk from `lsn` plays the sectors `lsn`, `lsn + 1`, ... in ascending order,
      each once, and stops at the end of the track, before the sector whose read
      failed, or after the sector at which a command arrived. */
  lemma {:induction false} WalkSectors(b: Bounds, track: UInt8, total: UInt8, lsn: int, input: seq<Event>)
    ensures var w := SectorWalk(b, track, total, lsn, input);
            PlayedSectors(w.out) == Range(lsn, StopPoint(w.exit, lsn, b.last))
    decreases b.last - lsn
  {
    var w := SectorWalk(b, track, total, lsn, input);
    if lsn <= b.last {
      var e := Poll(input);
      WalkStep(b, track, total, lsn, input);
      if e.ReadFail? {
        assert w.out == [ReadFailed(lsn)] && StopPoint(w.exit, lsn, b.last) == lsn;
        ReadFailedViews(lsn);
      } else if IsCommand(e) {
        assert w.out == SectorOutput(b, track, lsn) && StopPoint(w.exit, lsn, b.last) == lsn + 1;
        SectorOutputViews(b, track, lsn);
        RangeCons(lsn, lsn + 1);
      } else {
        var next := SectorWalk(b, track, total, lsn + 1, Consume(input));
        var stop := StopPoint(next.exit, lsn + 1, b.last);
        assert w.out == SectorOutput(b, track, lsn) + next.out && StopPoint(w.exit, lsn, b.last) == stop;
        WalkSectors(b, track, total, lsn + 1, Consume(input));
        PlayedStep(b, track, lsn, next.out, stop);
      }
    }
  }

  /** Prepending one sector's output to the sectors played after it. */
  lemma PlayedStep(b: Bounds, track: UInt8, lsn: int, tail: seq<Output>, stop: int)
    requires lsn < stop && PlayedSectors(tail) == Range(lsn + 1, stop)
    ensures PlayedSectors(SectorOutput(b, track, lsn) + tail) == Range(lsn, stop)
  {
    ViewsOfConcat(SectorOutput(b, track, lsn), tail);
    SectorOutputViews(b, track, lsn);
    RangeCons(lsn, stop);
  }

  /** A walk starts no track. */
  lemma {:induction false} WalkStartsNoTrack(b: Bounds, track: UInt8, total: UInt8, lsn: int, input: seq<Event>)
    ensures StartedTracks(SectorWalk(b, track, total, lsn, input).out) == []
    decreases b.last - lsn
  {
    if lsn <= b.last {
      var e := Poll(input);
      WalkStep(b, track, total, lsn, input);
      if e.ReadFail? {
        ReadFailedViews(lsn);
      } else if IsCommand(e) {
        SectorOutputViews(b, track, lsn);
      } else {
        var next := SectorWalk(b, track, total, lsn + 1, Consume(input));
        WalkStartsNoTrack(b, track, total, lsn + 1, Consume(input));
        ViewsOfConcat(SectorOutput(b, track, lsn), next.out);
        SectorOutputViews(b, track, lsn);
      }
    }
  }

  /** The failure report is not a played sector, a display or a started track. */
  lemma ReadFailedViews(lsn: int)
    ensures PlayedSectors([ReadFailed(lsn)]) == []
    ensures ElapsedValues([ReadFailed(lsn)]) == []
    ensures StartedTracks([ReadFailed(lsn)]) == []
  {
    assert [ReadFailed(lsn)][1..] == [];
  }

  lemma RangeCons(lo: int, hi: int)
    requires lo < hi
    ensures Range(lo, hi) == [lo] + Range(lo + 1, hi)
  {
  }

  /** Every sector a walk from `lsn` plays is one of the track's sectors from `lsn`
      on, and is played for the track being walked; no track is started. */
  lemma {:induction false} WalkOnTrack(b: Bounds, track: UInt8, total: UInt8, lsn: int, input: seq<Event>)
    ensures forall o <- SectorWalk(b, track, total, lsn, input).out ::
              && !o.TrackStarted?
              && (o.SectorPlayed? ==> o.track == track && lsn <= o.lsn <= b.last)
    decreases b.last - lsn
  {
    if lsn <= b.last {
      WalkStep(b, track, total, lsn, input);
      SectorOutputViews(b, track, lsn);
      var e := Poll(input);
      if e.Played? && !IsCommand(e) {
        WalkOnTrack(b, track, total, lsn + 1, Consume(input));
      }
    }
  }

  /** Every elapsed-time display follows a played sector and shows that sector's
      offset from the track's first sector in whole seconds. */
  ghost predicate DisplaysFollowSectors(b: Bounds, out: seq<Output>)
  {
    forall j :: 0 <= j < |out| && out[j].ElapsedShown? ==>
      0 < j && out[j - 1].SectorPlayed? && out[j].seconds * SECTORS_PER_SECOND == out[j - 1].lsn - b.first
  }

  /** A played sector is followed by an elapsed-time display exactly when its offset
      from the track's first sector is a multiple of 75. */
  ghost predicate BoundariesDisplayed(b: Bounds, out: seq<Output>)
  {
    forall j :: 0 <= j < |out| && out[j].SectorPlayed? ==>
      (IsSecondBoundary(b.first, out[j].lsn) <==> j + 1 < |out| && out[j + 1].ElapsedShown?)
  }

  ghost predicate ElapsedMarked(b: Bounds, out: seq<Output>)
  {
    DisplaysFollowSectors(b, out) && BoundariesDisplayed(b, out)
  }

  lemma FollowConcat(b: Bounds, a: seq<Output>, c: seq<Output>)
    requires DisplaysFollowSectors(b, a) && DisplaysFollowSectors(b, c)
    requires c != [] ==> !c[0].ElapsedShown?
    ensures DisplaysFollowSectors(b, a + c)
  {
    var t := a + c;
    forall j | 0 <= j < |t| && t[j].ElapsedShown?
      ensures 0 < j && t[j - 1].SectorPlayed? && t[j].seconds * SECTORS_PER_SECOND == t[j - 1].lsn - b.first
    {
      if j >= |a| {
        var k := j - |a|;
        assert t[j] == c[k] && c[k].ElapsedShown?;
        assert 0 < k && c[k - 1].SectorPlayed? && c[k].seconds * SECTORS_PER_SECOND == c[k - 1].lsn - b.first;
        assert t[j - 1] == c[k - 1];
      } else {
        assert t[j] == a[j] && a[j].ElapsedShown?;
        assert 0 < j && a[j - 1].SectorPlayed? && a[j].seconds * SECTORS_PER_SECOND == a[j - 1].lsn - b.first;
        assert t[j - 1] == a[j - 1];
      }
    }
  }

  lemma BoundariesConcat(b: Bounds, a: seq<Output>, c: seq<Output>)
    requires BoundariesDisplayed(b, a) && BoundariesDisplayed(b, c)
    requires c != [] ==> !c[0].ElapsedShown?
    ensures BoundariesDisplayed(b, a + c)
  {
    var t := a + c;
    forall j | 0 <= j < |t| && t[j].SectorPlayed?
      ensures IsSecondBoundary(b.first, t[j].lsn) <==> j + 1 < |t| && t[j + 1].ElapsedShown?
    {
      if j >= |a| {
        var k := j - |a|;
        assert t[j] == c[k] && c[k].SectorPlayed?;
        assert IsSecondBoundary(b.first, c[k].lsn) <==> k + 1 < |c| && c[k + 1].ElapsedShown?;
        if j + 1 < |t| {
          assert t[j + 1] == c[k + 1];
        }
      } else {
        assert t[j] == a[j] && a[j].SectorPlayed?;
        assert IsSecondBoundary(b.first, a[j].lsn) <==> j + 1 < |a| && a[j + 1].ElapsedShown?;
        if j + 1 < |a| {
          assert t[j + 1] == a[j + 1];
        } else if j + 1 < |t| {
          assert t[j + 1] == c[0];
        }
      }
    }
  }

  /** Two marked traces stay marked when joined, unless the second starts with a display. */
  lemma MarkedConcat(b: Bounds, a: seq<Output>, c: seq<Output>)
    requires ElapsedMarked(b, a) && ElapsedMarked(b, c)
    requires c != [] ==> !c[0].ElapsedShown?
    ensures ElapsedMarked(b, a + c)
  {
    FollowConcat(b, a, c);
    BoundariesConcat(b, a, c);
  }

  /** What one sector adds to the trace is marked, and starts with the sector. */
  lemma SectorOutputMarked(b: Bounds, track: UInt8, lsn: int)
    ensures var shown := SectorOutput(b, track, lsn);
            ElapsedMarked(b, shown) && !shown[0].ElapsedShown?
  {
    SectorOutputViews(b, track, lsn);
  }

  /** The elapsed time is recomputed exactly at the sectors whose offset from the
      track's first sector is a multiple of 75, as that offset divided by 75
      (cdda-player.cpp:136-140). */
  lemma {:induction false} ElapsedOnlyAtWholeSeconds(b: Bounds, track: UInt8, total: UInt8, lsn: int, input: seq<Event>)
    ensures var w := SectorWalk(b, track, total, lsn, input);
            && ElapsedMarked(b, w.out)
            && (w.out != [] ==> !w.out[0].ElapsedShown?)
    decreases b.last - lsn
  {
    if lsn <= b.last {
      var e := Poll(input);
      WalkStep(b, track, total, lsn, input);
      if e.Played? {
        SectorOutputMarked(b, track, lsn);
        if !IsCommand(e) {
          var shown := SectorOutput(b, track, lsn);
          var next := SectorWalk(b, track, total, lsn + 1, Consume(input));
          ElapsedOnlyAtWholeSeconds(b, track, total, lsn + 1, Consume(input));
          MarkedConcat(b, shown, next.out);
        }
      }
    }
  }

  /** From the track's first sector on, every elapsed time shown lies between 0 and
      the track's total seconds (cdda-player.cpp:110, 136-140). */
  lemma {:induction false} ElapsedWithinTrack(b: Bounds, track: UInt8, total: UInt8, lsn: int, input: seq<Event>)
    requires b.first <= lsn
    ensures forall o <- SectorWalk(b, track, total, lsn, input).out ::
              o.ElapsedShown? ==> 0 <= o.seconds <= TotalSeconds(b.first, b.last)
    decreases b.last - lsn
  {
    if lsn <= b.last {
      var e := Poll(input);
      WalkStep(b, track, total, lsn, input);
      SectorOutputViews(b, track, lsn);
      ElapsedWithinTotal(b.first, lsn, b.last);
      if e.Played? && !IsCommand(e) {
        ElapsedWithinTrack(b, track, total, lsn + 1, Consume(input));
      }
    }
  }

  /** The events of the next `n` visited sectors are reads that succeed with no key,
      or with a key the switch ignores. */
  ghost predicate Quiet(input: seq<Event>, n: int)
  {
    forall k :: 0 <= k < n && k < |input| ==> input[k].Played? && !IsCommand(input[k])
  }

  /** The number of whole-second boundaries among the offsets `0 .. offset - 1`. */
  function BoundariesBefore(offset: nat): nat
  {
    (offset + SECTORS_PER_SECOND - 1) / SECTORS_PER_SECOND
  }

  lemma BoundaryStep(first: int, lsn: int)
    requires first <= lsn
    ensures IsSecondBoundary(first, lsn) ==>
              BoundariesBefore(lsn + 1 - first) == BoundariesBefore(lsn - first) + 1
              && ElapsedSeconds(first, lsn) == BoundariesBefore(lsn - first)
    ensures !IsSecondBoundary(first, lsn) ==> BoundariesBefore(lsn + 1 - first) == BoundariesBefore(lsn - first)
  {
  }

  /** The next event of a quiet script is quiet, and so is the rest. */
  lemma QuietStep(input: seq<Event>, n: int)
    requires n >= 1 && Quiet(input, n)
    ensures Poll(input).Played? && !IsCommand(Poll(input))
    ensures Quiet(Consume(input), n - 1)
  {
    if input != [] {
      var rest := Consume(input);
      forall k | 0 <= k < n - 1 && k < |rest| ensures rest[k].Played? && !IsCommand(rest[k]) {
        assert rest[k] == input[k + 1];
      }
    }
  }

  /** A walk through sectors that all read and poll no command runs to the track's end. */
  lemma {:induction false} QuietWalkFinishes(b: Bounds, track: UInt8, total: UInt8, lsn: int, input: seq<Event>)
    requires lsn <= b.last + 1
    requires Quiet(input, b.last + 1 - lsn)
    ensures SectorWalk(b, track, total, lsn, input).exit == Finished
    decreases b.last - lsn
  {
    if lsn <= b.last {
      QuietStep(input, b.last + 1 - lsn);
      WalkStep(b, track, total, lsn, input);
      QuietWalkFinishes(b, track, total, lsn + 1, Consume(input));
    }
  }

  /** The elapsed times such a walk shows are the whole seconds from the first
      boundary at or after `lsn` to the end of the track. */
  lemma {:induction false} QuietWalkElapsed(b: Bounds, track: UInt8, total: UInt8, lsn: int, input: seq<Event>)
    requires b.first <= lsn <= b.last + 1
    requires Quiet(input, b.last + 1 - lsn)
    ensures ElapsedValues(SectorWalk(b, track, total, lsn, input).out)
            == Range(BoundariesBefore(lsn - b.first), BoundariesBefore(b.last + 1 - b.first))
    decreases b.last - lsn
  {
    if lsn <= b.last {
      QuietStep(input, b.last + 1 - lsn);
      WalkStep(b, track, total, lsn, input);
      var next := SectorWalk(b, track, total, lsn + 1, Consume(input));
      QuietWalkElapsed(b, track, total, lsn + 1, Consume(input));
      ElapsedStep(b, track, lsn, next.out);
    }
  }

  /** Played without a failed read or a command, a track runs to its last sector and
      the elapsed-time display shows each whole second once, in order. */
  lemma UninterruptedWalk(b: Bounds, track: UInt8, total: UInt8, lsn: int, input: seq<Event>)
    requires b.first <= lsn <= b.last + 1
    requires Quiet(input, b.last + 1 - lsn)
    ensures var w := SectorWalk(b, track, total, lsn, input);
            && w.exit == Finished
            && PlayedSectors(w.out) == Range(lsn, b.last + 1)
            && ElapsedValues(w.out) == Range(BoundariesBefore(lsn - b.first), BoundariesBefore(b.last + 1 - b.first))
  {
    QuietWalkFinishes(b, track, total, lsn, input);
    WalkSectors(b, track, total, lsn, input);
    QuietWalkElapsed(b, track, total, lsn, input);
  }

  /** Prepending one sector's output to the displays of the following sectors. */
  lemma ElapsedStep(b: Bounds, track: UInt8, lsn: int, tail: seq<Output>)
    requires b.first <= lsn <= b.last
    requires ElapsedValues(tail) == Range(BoundariesBefore(lsn + 1 - b.first), BoundariesBefore(b.last + 1 - b.first))
    ensures ElapsedValues(SectorOutput(b, track, lsn) + tail)
            == Range(BoundariesBefore(lsn - b.first), BoundariesBefore(b.last + 1 - b.first))
  {
    var shown := SectorOutput(b, track, lsn);
    var lo, mid, hi := BoundariesBefore(lsn - b.first), BoundariesBefore(lsn + 1 - b.first), BoundariesBefore(b.last + 1 - b.first);
    SectorOutputViews(b, track, lsn);
    BoundaryStep(b.first, lsn);
    BoundariesMonotone(lsn + 1 - b.first, b.last + 1 - b.first);
    if IsSecondBoundary(b.first, lsn) {
      PrependValues(shown, tail, [lo], lo, hi);
    } else {
      PrependValues(shown, tail, [], lo, hi);
    }
  }

  lemma PrependValues(shown: seq<Output>, tail: seq<Output>, head: seq<int>, lo: int, hi: int)
    requires |head| <= 1 && ElapsedValues(shown) == head && ElapsedValues(tail) == Range(lo + |head|, hi)
    requires |head| == 1 ==> head[0] == lo && lo < hi
    ensures ElapsedValues(shown + tail) == Range(lo, hi)
  {
    ViewsOfConcat(shown, tail);
    if |head| == 1 {
      RangeCons(lo, hi);
    }
  }

  lemma BoundariesMonotone(x: nat, y: nat)
    requires x <= y
    ensures BoundariesBefore(x) <= BoundariesBefore(y)
  {
  }

  /** A track of 75·N sectors played without interruption gets exactly N elapsed-time
      displays, showing 0, 1, ..., N - 1 (cdda-player.cpp:110, 136-140). */
  lemma WholeSecondsTrack(b: Bounds, track: UInt8, total: UInt8, input: seq<Event>, n: nat)
    requires b.last + 1 - b.first == n * SECTORS_PER_SECOND
    requires Quiet(input, n * SECTORS_PER_SECOND)
    ensures var w := SectorWalk(b, track, total, b.first, input);
            && w.exit == Finished
            && PlayedSectors(w.out) == Range(b.first, b.last + 1)
            && ElapsedValues(w.out) == Range(0, n)
            && TotalSeconds(b.first, b.last) == n
  {
    WholeSecondsCount(n);
    UninterruptedWalk(b, track, total, b.first, input);
  }

  lemma WholeSecondsCount(n: nat)
    ensures BoundariesBefore(0) == 0
    ensures BoundariesBefore(n * SECTORS_PER_SECOND) == n
    ensures CDiv(n * SECTORS_PER_SECOND, SECTORS_PER_SECOND) == n
  {
    var x := n * SECTORS_PER_SECOND;
    assert x + SECTORS_PER_SECOND - 1 == n * SECTORS_PER_SECOND + 74;
  }

  /** A key the switch does not recognise has the same effect as no key at all: the
      sector loop goes on with the next sector and `track_index` is unchanged
      (cdda-player.cpp:175-187). */
  lemma IgnoredKeyContinues(b: Bounds, track: UInt8, total: UInt8, lsn: int, key: UInt8, input: seq<Event>)
    requires lsn <= b.last && Classify(key) == Ignored
    ensures SectorWalk(b, track, total, lsn, [Played(Some(key))] + input)
            == SectorWalk(b, track, total, lsn, [Played(None)] + input)
  {
    assert Consume([Played(Some(key))] + input) == input;
    assert Consume([Played(None)] + input) == input;
  }

  // ---------------------------------------------------------------------------
  // The outer loop.

  /** Every track started in `out` is a track of the disc, and every sector played
      lies within the bounds of the track it is played for. */
  ghost predicate OnDisc(disc: seq<Bounds>, out: seq<Output>)
  {
    forall o <- out ::
      && (o.TrackStarted? ==> 1 <= o.track as int <= |disc|)
      && (o.SectorPlayed? ==> 1 <= o.track as int <= |disc|
                              && disc[o.track - 1].first <= o.lsn <= disc[o.track - 1].last)
  }

  lemma OnDiscConcat(disc: seq<Bounds>, a: seq<Output>, b: seq<Output>, c: seq<Output>)
    requires OnDisc(disc, a) && OnDisc(disc, b) && OnDisc(disc, c)
    ensures OnDisc(disc, a + b + c)
  {
  }

  /** The sector loop of a track of the disc plays only that track's sectors. */
  lemma WalkOnDisc(disc: seq<Bounds>, idx: UInt8, input: seq<Event>)
    requires |disc| <= MAX_TRACKS && 1 <= idx as int <= |disc|
    ensures OnDisc(disc, SectorWalk(disc[idx - 1], idx, |disc| as UInt8, disc[idx - 1].first, input).out)
  {
    var b := disc[idx - 1];
    var out := SectorWalk(b, idx, |disc| as UInt8, b.first, input).out;
    WalkOnTrack(b, idx, |disc| as UInt8, b.first, input);
    forall o <- out
      ensures !o.TrackStarted?
      ensures o.SectorPlayed? ==> 1 <= o.track as int <= |disc|
                                  && disc[o.track - 1].first <= o.lsn <= disc[o.track - 1].last
    {
      if o.SectorPlayed? {
        assert o.track == idx;
      }
    }
  }

  /** The outer loop only starts tracks of the disc and only reads sectors of the
      track it is on (cdda-player.cpp:102-124). */
  lemma {:induction false} CursorInRange(disc: seq<Bounds>, idx: UInt8, input: seq<Event>)
    requires |disc| <= MAX_TRACKS && 1 <= idx
    ensures OnDisc(disc, Session(disc, idx, input))
    decreases |input|, 0x100 - idx as int
  {
    if idx as int <= |disc| {
      var total := |disc| as UInt8;
      var b := disc[idx - 1];
      var w := SectorWalk(b, idx, total, b.first, input);
      var next := FollowingTrack(w.exit, idx, total);
      SessionStep(disc, idx, input);
      WalkOnDisc(disc, idx, input);
      FollowingTrackBounds(w.exit, idx, total);
      CursorInRange(disc, next, w.rest);
      var head := [TrackStarted(idx, TotalSeconds(b.first, b.last))];
      assert OnDisc(disc, head);
      OnDiscConcat(disc, head, w.out, Session(disc, next, w.rest));
    }
  }

  /** The tracks the outer loop starts from `track_index == idx`: `idx`, then those
      started from the track its sector loop leads to. */
  lemma SessionStarts(disc: seq<Bounds>, idx: UInt8, input: seq<Event>)
    requires |disc| <= MAX_TRACKS && 1 <= idx as int <= |disc|
    ensures var total := |disc| as UInt8;
            var w := SectorWalk(disc[idx - 1], idx, total, disc[idx - 1].first, input);
            var next := FollowingTrack(w.exit, idx, total);
            StartedTracks(Session(disc, idx, input)) == [idx] + StartedTracks(Session(disc, next, w.rest))
  {
    var total := |disc| as UInt8;
    var b := disc[idx - 1];
    var w := SectorWalk(b, idx, total, b.first, input);
    var next := FollowingTrack(w.exit, idx, total);
    var head := [TrackStarted(idx, TotalSeconds(b.first, b.last))];
    FollowingTrackBounds(w.exit, idx, total);
    SessionStep(disc, idx, input);
    WalkStartsNoTrack(b, idx, total, b.first, input);
    ViewsOfConcat(head, w.out);
    ViewsOfConcat(head + w.out, Session(disc, next, w.rest));
    assert StartedTracks(head) == [idx] by {
      assert head[1..] == [];
    }
  }

  /** The tracks started from `track_index == idx` on: `idx` itself, then the track
      the outer loop reaches after `idx`'s sector loop, unless that is past the last,
      in which case playback ends with `idx`'s sector loop (cdda-player.cpp:102). */
  lemma TrackAfter(disc: seq<Bounds>, idx: UInt8, input: seq<Event>)
    requires |disc| <= MAX_TRACKS && 1 <= idx as int <= |disc|
    ensures var total := |disc| as UInt8;
            var w := SectorWalk(disc[idx - 1], idx, total, disc[idx - 1].first, input);
            var next := FollowingTrack(w.exit, idx, total);
            var started := StartedTracks(Session(disc, idx, input));
            && |started| >= 1 && started[0] == idx
            && (next as int <= |disc| ==> |started| >= 2 && started[1] == next)
            && (next as int > |disc| ==> started == [idx] && Session(disc, idx, input) == [TrackStarted(idx, TotalSeconds(disc[idx - 1].first, disc[idx - 1].last))] + w.out)
  {
    var total := |disc| as UInt8;
    var b := disc[idx - 1];
    var w := SectorWalk(b, idx, total, b.first, input);
    var next := FollowingTrack(w.exit, idx, total);
    FollowingTrackBounds(w.exit, idx, total);
    SessionStarts(disc, idx, input);
    if next as int <= |disc| {
      SessionStarts(disc, next, w.rest);
    } else {
      SessionStep(disc, idx, input);
      var head := [TrackStarted(idx, TotalSeconds(b.first, b.last))];
      assert Session(disc, next, w.rest) == [];
      assert head + w.out + [] == head + w.out;
    }
  }

  /** A sector loop broken by a command at `at` has played the track's sectors up to
      and including `at` (cdda-player.cpp:124-187). */
  lemma InterruptedSectors(b: Bounds, track: UInt8, total: UInt8, input: seq<Event>, at: int, cmd: Command)
    requires SectorWalk(b, track, total, b.first, input).exit == Interrupted(at, cmd)
    ensures PlayedSectors(SectorWalk(b, track, total, b.first, input).out) == Range(b.first, at + 1)
  {
    WalkSectors(b, track, total, b.first, input);
  }

  /** `n`/`N`: the next track played is the following one, or track 1 after the last
      (cdda-player.cpp:102, 167-173). */
  lemma NextCommand(disc: seq<Bounds>, idx: UInt8, input: seq<Event>, at: int)
    requires |disc| <= MAX_TRACKS && 1 <= idx as int <= |disc|
    requires SectorWalk(disc[idx - 1], idx, |disc| as UInt8, disc[idx - 1].first, input).exit == Interrupted(at, Next)
    ensures var started := StartedTracks(Session(disc, idx, input));
            |started| >= 2 && started[1] == if idx as int < |disc| then idx + 1 else 1
  {
    TrackAfter(disc, idx, input);
  }

  /** `p`/`P`: the next track played is the one before, or the last track when on
      track 1 (cdda-player.cpp:102, 154-166). */
  lemma PreviousCommand(disc: seq<Bounds>, idx: UInt8, input: seq<Event>, at: int)
    requires |disc| <= MAX_TRACKS && 1 <= idx as int <= |disc|
    requires SectorWalk(disc[idx - 1], idx, |disc| as UInt8, disc[idx - 1].first, input).exit == Interrupted(at, Previous)
    ensures var started := StartedTracks(Session(disc, idx, input));
            |started| >= 2 && started[1] == if idx > 1 then idx - 1 else |disc| as UInt8
  {
    TrackAfter(disc, idx, input);
  }

  /** `s`/`S`: after the sector at which the key arrived no sector is read and no track
      is started (cdda-player.cpp:102, 149-152, 184-187). */
  lemma StopCommand(disc: seq<Bounds>, idx: UInt8, input: seq<Event>, at: int)
    requires |disc| <= MAX_TRACKS && 1 <= idx as int <= |disc|
    requires SectorWalk(disc[idx - 1], idx, |disc| as UInt8, disc[idx - 1].first, input).exit == Interrupted(at, Stop)
    ensures var b := disc[idx - 1];
            Session(disc, idx, input)
            == [TrackStarted(idx, TotalSeconds(b.first, b.last))] + SectorWalk(b, idx, |disc| as UInt8, b.first, input).out
    ensures StartedTracks(Session(disc, idx, input)) == [idx]
  {
    TrackAfter(disc, idx, input);
  }

  /** A failed read at `at` skips the rest of the track and reports `at`
      (cdda-player.cpp:124-131). */
  lemma ReadFailure(b: Bounds, track: UInt8, total: UInt8, input: seq<Event>, at: int)
    requires SectorWalk(b, track, total, b.first, input).exit == ReadError(at)
    ensures var w := SectorWalk(b, track, total, b.first, input);
            && PlayedSectors(w.out) == Range(b.first, at)
            && w.out != [] && w.out[|w.out| - 1] == ReadFailed(at)
  {
    WalkSectors(b, track, total, b.first, input);
    ReadFailureLast(b, track, total, b.first, input);
  }

  /** After a failed read playback goes on with the next track; after the last track
      it ends normally (cdda-player.cpp:102, 124-131). */
  lemma ReadFailureNextTrack(disc: seq<Bounds>, idx: UInt8, input: seq<Event>, at: int)
    requires |disc| <= MAX_TRACKS && 1 <= idx as int <= |disc|
    requires SectorWalk(disc[idx - 1], idx, |disc| as UInt8, disc[idx - 1].first, input).exit == ReadError(at)
    ensures var started := StartedTracks(Session(disc, idx, input));
            if idx as int < |disc| then |started| >= 2 && started[1] == idx + 1 else started == [idx]
  {
    TrackAfter(disc, idx, input);
  }

  /** A walk that ends with a failed read ends with the read-failure report. */
  lemma {:induction false} ReadFailureLast(b: Bounds, track: UInt8, total: UInt8, lsn: int, input: seq<Event>)
    requires SectorWalk(b, track, total, lsn, input).exit.ReadError?
    ensures var w := SectorWalk(b, track, total, lsn, input);
            w.out != [] && w.out[|w.out| - 1] == ReadFailed(w.exit.lsn)
    decreases b.last - lsn
  {
    var e := Poll(input);
    if e.Played? {
      var next := SectorWalk(b, track, total, lsn + 1, Consume(input));
      ReadFailureLast(b, track, total, lsn + 1, Consume(input));
      assert SectorWalk(b, track, total, lsn, input).out == SectorOutput(b, track, lsn) + next.out;
    }
  }
}
