# cdda-player playback control, in Dafny

A model of the playback control of `cdda-player`, a terminal audio-CD player.
It covers `print_time`, which writes a number of seconds as `MM:SS`, and the
playback section of `main` (cdda-player.cpp:102-192). That section has three parts:

- an outer `for` loop over the 8-bit `track_index`;
- an inner loop over the track's sector addresses (`lsn`);
- after every sector that was read, a non-blocking poll of one key byte. A
  case-insensitive `s`, `p` or `n` may rewrite `track_index` and breaks the
  sector loop. On any track but the last, `n` leaves `track_index` unchanged
  and only breaks; the loop's `++` then moves to the next track.

The model has four modules:

- `Time` (time.dfy):
  - C's truncating `/` and `%` on `int`;
  - the 75-sectors-per-second rate of audio CDs;
  - a track's total seconds and the elapsed seconds at a sector;
  - `PrintTime`, the text `print_time` writes, with a reader `ReadTime` that
    parses it back.
- `TrackSelection` (track_selection.dfy):
  - `track_index` as a `uint8_t` newtype with explicit wrap-around;
  - `tolower` in the C locale;
  - the key switch, both as the method `HandleKey` and as the function `Retarget`
    that specifies it;
  - `NextTrackAfter`, the track the loop tests after the switch and the
    loop's own `track_index++`.
- `Playback` (playback.dfy):
  - the drive and keyboard as a script. `disc` gives each track's first and last
    sector. `input` gives one event per visited sector: a failed read, or a
    successful read with at most one polled key byte. Once the script runs out,
    every read succeeds and no key arrives;
  - the reference definitions `SectorWalk` (one track's sector loop) and
    `Session` (the outer loop);
  - the loops as the source writes them: `PlayTrack` and `Play`, each proved to
    compute its reference definition;
  - the trace of effects: track started, sector sent to the audio device, elapsed
    time shown, read failure reported.
- `PlaybackProperties` (playback_properties.dfy): what the loops guarantee.
  This covers the sector order, when elapsed time is shown, the effect of each
  command and of a read failure, and that every track and sector used belongs to
  the disc.

On `p` from track 1, the switch stores `total - 1` in `track_index`, and the
`for` loop's `++` then makes the next track tested `total`, the last track
(cdda-player.cpp:102, 156-158). `TrackSelection.NextTrackAfter` and
`PlaybackProperties.PreviousCommand` state that the last track is played next.

## Model

| member | source | states |
|---|---|---|
| Time.TotalSeconds | cdda-player.cpp:110 | For a track whose `last - first + 1` is non-negative, the total is the number of whole 75-sector seconds in it: `r*75 <= last-first+1 < (r+1)*75`, `r >= 0`. Otherwise the truncating division gives a non-positive value `r` with `(r-1)*75 < last-first+1 <= r*75`. |
| Time.ElapsedSeconds | cdda-player.cpp:136-137 | At or after the track's first sector, the elapsed seconds are non-negative and `r*75` does not exceed the offset. At a whole-second sector, `r*75` equals the offset exactly. |
| Time.ElapsedWithinTotal | cdda-player.cpp:110-137 | For a sector within the track, the elapsed seconds lie between 0 and the track's total seconds. |
| Time.Digits | cdda-player.cpp:21-22 | The decimal numeral `ostream << int` writes for a non-negative value: non-empty, all digits, and denoting the value. It has one digit exactly below 10, two digits exactly from 10 to 99, and no leading zero from 10 on. |
| Time.Pad2 | cdda-player.cpp:21-22 | `setw(2)` with `setfill('0')`: the field is at least two characters long, ends with the text, and has only `0`s in front of it. |
| Time.PrintTimeRoundTrip | cdda-player.cpp:18-22 | For `seconds >= 0`, the text reads back as minutes `seconds/60` and seconds `seconds%60`. The seconds are below 60 and `minutes*60 + seconds` is the input. The text ends with `:`, two digits and `\r`, and is at least 6 characters long. |
| TrackSelection.Wrap8 | cdda-player.cpp:156-162 | Storing an `int` in `uint8_t` (here and in the loop's `++` at line 102): values in 0..255 are kept, -1 becomes 255 and 256 becomes 0. |
| TrackSelection.Classify | cdda-player.cpp:147-179 | `tolower` then the switch: Stop if and only if the byte is `s`/`S`, Previous if and only if `p`/`P`, Next if and only if `n`/`N`. |
| TrackSelection.Retarget | cdda-player.cpp:145-180 | The sector loop breaks if and only if the command is recognised. An unrecognised byte leaves `track_index` unchanged. |
| TrackSelection.HandleKey | cdda-player.cpp:145-180 | The switch run in place on `track_index` produces exactly the new index and break flag that `Retarget` specifies. |
| TrackSelection.NextTrackAfter | cdda-player.cpp:145-180 | After the switch and the loop's `++` (line 102): `n` gives `idx+1`, or 1 on the last track; `p` gives `idx-1`, or `total` on track 1; `s` gives 255; an ignored byte gives `idx+1`. |
| TrackSelection.NextTrackInRange | cdda-player.cpp:145-180 | On a disc of at most 254 tracks, `s` always ends the outer loop. `n` and `p` always lead to a track of the disc, and an ignored byte to `idx+1`. |
| Playback.SectorWalk | cdda-player.cpp:124-190 | One track's sector loop. It consumes at most the events given, and consumes none only when it runs to the end of the track. A read failure or a command is reported at a sector between the start and the track's last sector. An interrupting command is never an ignored byte. |
| Playback.ShowSector | cdda-player.cpp:133-140 | The output for a sector that was read: the block goes to the audio device, and at a whole second the elapsed time is shown. The result equals `SectorOutput`. |
| Playback.SectorOutputViews | cdda-player.cpp:133-140 | A sector's output is the played sector itself, followed by the elapsed seconds exactly when its offset is a multiple of 75. It starts no track. |
| Playback.PlayTrack | cdda-player.cpp:124-190 | The imperative sector loop returns `SectorWalk`'s output and unconsumed input. It returns `track_index` as the switch left it: rewritten by `Retarget` after a command, unchanged otherwise. |
| Playback.Play | cdda-player.cpp:102-192 | The nested loops, run from track 1, produce exactly `Session(disc, 1, input)`. |
| PlaybackProperties.WalkSectors | cdda-player.cpp:124-187 | The sectors a track plays are exactly `lsn, lsn+1, ...`, in ascending order and each once. They stop at the track's end, before a failed read, or after the sector where a command arrived. |
| PlaybackProperties.WalkStartsNoTrack | cdda-player.cpp:124-190 | A sector loop starts no track. |
| PlaybackProperties.WalkOnTrack | cdda-player.cpp:124 | Every sector a sector loop plays belongs to the track being played, lies between the start sector and the track's last sector, and is not a track start. |
| PlaybackProperties.ElapsedOnlyAtWholeSeconds | cdda-player.cpp:136-140 | Every elapsed-time display follows a played sector and shows that sector's offset divided by 75. A played sector is followed by a display if and only if its offset is a multiple of 75. No display comes first. |
| PlaybackProperties.ElapsedWithinTrack | cdda-player.cpp:110-140 | From the first sector on, every elapsed time shown lies between 0 and the track's total seconds. |
| PlaybackProperties.QuietWalkFinishes | cdda-player.cpp:124-143 | If every read succeeds and no command arrives, the sector loop runs to the track's last sector. |
| PlaybackProperties.QuietWalkElapsed | cdda-player.cpp:136-140 | In such a loop, the elapsed values shown are the consecutive whole seconds from the first boundary at or after the start to the track's end. |
| PlaybackProperties.UninterruptedWalk | cdda-player.cpp:124-140 | Without failures or commands the loop finishes. It plays every remaining sector in order and shows each whole second once, in order. |
| PlaybackProperties.WholeSecondsTrack | cdda-player.cpp:110-140 | An uninterrupted track of `75*N` sectors shows exactly `N` elapsed times, `0..N-1`, and its total time is `N` seconds. |
| PlaybackProperties.IgnoredKeyContinues | cdda-player.cpp:175-187 | A byte the switch does not recognise has the same effect on the sector loop as no byte at all. |
| PlaybackProperties.CursorInRange | cdda-player.cpp:102-124 | Every track the outer loop starts is a track of the disc. Every sector it plays lies within the bounds of the track it is played for. |
| PlaybackProperties.SessionStarts | cdda-player.cpp:102 | The tracks started from `track_index == idx` are `idx` followed by those started from the track its sector loop leads to. |
| PlaybackProperties.TrackAfter | cdda-player.cpp:102 | The first track started is `idx`. The second is the track the loop reaches next, if that is on the disc. Otherwise playback ends after `idx`'s sector loop. |
| PlaybackProperties.InterruptedSectors | cdda-player.cpp:124-187 | A sector loop broken by a command at sector `at` has played the sectors from the first one through `at`, including `at`. |
| PlaybackProperties.NextCommand | cdda-player.cpp:167-173 | After `n` on track `i` and the loop's `++` (line 102), the next track played is `i+1`, or track 1 when `i` is the last track. |
| PlaybackProperties.PreviousCommand | cdda-player.cpp:154-166 | After `p` on track `i` and the loop's `++` (line 102), the next track played is `i-1`, or the last track when `i` is 1. |
| PlaybackProperties.StopCommand | cdda-player.cpp:149-152 | After `s`, the break at lines 184-187 and the loop's `++` (line 102), the trace ends with the current track's sector loop, and no other track is started. |
| PlaybackProperties.ReadFailure | cdda-player.cpp:124-131 | A failed read at `at` ends the track's sectors before `at`, and the trace of the track ends with the failure report for `at`. |
| PlaybackProperties.ReadFailureNextTrack | cdda-player.cpp:124-131 | After a failed read, playback goes on with the next track. After the last track it ends normally. |

## Left out

- The libcdio calls (`cdio_open`, `cdio_get_num_tracks`, `cdio_get_first_track_num`, `cdio_get_track_lsn`, `cdio_get_track_last_lsn`, `cdio_read_audio_sector`) are not modelled. Only the per-track sector bounds and the success or failure of each read are kept, as the script.
- The track's MSF string (cdda-player.cpp:117-121) is display only and is not modelled.
- libao setup, playback and shutdown (cdda-player.cpp:79-94, 133, 195-196) are audio I/O. The model keeps only which sector was sent, not the sample buffer's contents.
- Terminal handling is not modelled: echo, `fcntl` with `O_NONBLOCK`, `tcflush` and the cursor escapes (cdda-player.cpp:26-45, 50-54, 99, 182). The flush is reflected only in the model taking at most one key byte per poll.
- The fatal setup paths and their exit codes (cdda-player.cpp:58-94) are resource acquisition around foreign handles, and are left out.
- `first_track` is only checked for validity (cdda-player.cpp:69-76). The loop always starts at track 1.
- The "Number of tracks" line is printed once, before the outer loop (cdda-player.cpp:67). It lies outside the modelled section and is left out.
- The "Playing track" and "Total time" lines are one `TrackStarted` entry carrying the track and its total seconds. The trace merges standard output, standard error and the audio device into one sequence of effects.
- Real-time pacing and the blocking of the audio write are not modelled.
- Sector addresses are unbounded integers. The 32-bit `lsn_t` overflow cannot happen for the sector ranges of a real disc.
- Playback.Play: requires a disc of at most 99 tracks, the audio-CD limit, so that the outer loop terminates. The stop sentinel needs no more than 254 tracks. With 255 tracks the source's `track_index <= 255` is always true and the loop never ends.
- TrackSelection.ToLower: models `tolower` on the byte value in the C locale. A `char` above 127 is negative on platforms where `char` is signed, and what `tolower` does with it is not modelled. Such bytes are treated as the ignored bytes they are in practice.
- Time.PrintTimeRoundTrip: stated for non-negative counts only. That covers every count the player prints when `lsn_start <= lsn_end + 1`. For negative counts, `PrintTime` still models the text, with the sign inside the padded field.
