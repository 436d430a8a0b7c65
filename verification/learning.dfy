/** Progress through the DevOps learning path: minutes watched per video,
    clamped at the video's length, with a completion flag. Two writers keep
    these records with different flag rules:
    - the local store's `logVideoMinutes` leaves the flag alone below the
      video's length;
    - the dashboard's log-minutes form recomputes it on every save.
    The module also covers the next unfinished video and the path totals.
    Every operation takes the path as `path`; the source always reads
    `DEVOPS_LEARNING_PATH`, which is `Models.LearningPath`. */
module Learning {
  import opened Wrappers
  import opened Dates
  import opened Seqs
  import opened Percent
  import opened Models

  /** `DEVOPS_LEARNING_PATH.find(v => v.id === videoId)` */
  function FindVideo(path: seq<Video>, videoId: string): (r: Option<Video>)
    ensures r.None? <==> forall i :: 0 <= i < |path| ==> path[i].id != videoId
    ensures r.Some? ==> r.value.id == videoId && r.value in path
  {
    var k := FirstIndex(path, (v: Video) => v.id == videoId);
    if k == -1 then None else Some(path[k])
  }

  /** The position of the first record of `videoId`, or -1. */
  function RecordIndex(records: seq<VideoProgress>, videoId: string): int
  {
    FirstIndex(records, (p: VideoProgress) => p.videoId == videoId)
  }

  /** `progress.find(p => p.videoId === videoId)`: the first record of the
      video, if any. */
  function FindProgress(records: seq<VideoProgress>, videoId: string): (r: Option<VideoProgress>)
    ensures r.None? <==> forall i :: 0 <= i < |records| ==> records[i].videoId != videoId
    ensures r.Some? ==> exists k ::
      && 0 <= k < |records| && records[k] == r.value && r.value.videoId == videoId
      && forall i :: 0 <= i < k ==> records[i].videoId != videoId
  {
    var k := RecordIndex(records, videoId);
    if k == -1 then None else Some(records[k])
  }

  /** No record of a path video holds more minutes than the video lasts. */
  predicate Clamped(path: seq<Video>, records: seq<VideoProgress>)
  {
    forall i :: 0 <= i < |records| ==>
      (FindVideo(path, records[i].videoId).Some? ==> records[i].minutesWatched <= FindVideo(path, records[i].videoId).value.duration)
  }

  /** A record as both writers leave it after non-negative logging: between 0
      and the video's length, and completed exactly at the full length. */
  predicate Consistent(p: VideoProgress, v: Video)
  {
    0 <= p.minutesWatched <= v.duration && (p.completed <==> p.minutesWatched == v.duration)
  }

  /** The store after logging and the record it returns. */
  datatype Logged = Logged(records: seq<VideoProgress>, progress: VideoProgress)

  /** `logVideoMinutes(videoId, minutes)` at the instant `now`. An id outside
      the path fails. The first record of the video gets the minutes added;
      reaching the video's length clamps it there and marks it completed;
      below that, the flag is left as it was. Without a record, a new one is
      appended with the minutes capped at the length, completed when they
      reach it. `minutes` is not checked: a negative count subtracts. */
  function LogVideoMinutes(path: seq<Video>, records: seq<VideoProgress>, videoId: string, minutes: int, now: Instant): (r: Result<Logged, string>)
    ensures r.Failure? <==> FindVideo(path, videoId).None?
    ensures r.Success? ==>
      && r.value.progress.videoId == videoId && r.value.progress.lastWatched == now
      && r.value.progress.minutesWatched <= FindVideo(path, videoId).value.duration
    ensures r.Success? && RecordIndex(records, videoId) == -1 ==>
      r.value.records == records + [r.value.progress]
    ensures r.Success? && RecordIndex(records, videoId) >= 0 ==>
      r.value.records == records[RecordIndex(records, videoId) := r.value.progress]
  {
    match FindVideo(path, videoId)
    case None => Failure("Video not found in learning path")
    case Some(video) =>
      var k := RecordIndex(records, videoId);
      if k >= 0 then
        var prior := records[k];
        var sum := prior.minutesWatched + minutes;
        var p := if sum >= video.duration then prior.(minutesWatched := video.duration, completed := true, lastWatched := now)
                 else prior.(minutesWatched := sum, lastWatched := now);
        Success(Logged(records[k := p], p))
      else
        var p := VideoProgress(videoId, if minutes < video.duration then minutes else video.duration,
                               minutes >= video.duration, now);
        Success(Logged(records + [p], p))
  }

  /** A first log of a video records `min(minutes, duration)`, completed
      exactly when the minutes reach the duration. */
  lemma LogVideoMinutesFirst(path: seq<Video>, records: seq<VideoProgress>, videoId: string, minutes: int, now: Instant)
    requires FindVideo(path, videoId).Some? && FindProgress(records, videoId).None?
    ensures var d := FindVideo(path, videoId).value.duration;
      var p := LogVideoMinutes(path, records, videoId, minutes, now).value.progress;
      && p.minutesWatched == (if minutes < d then minutes else d)
      && p.completed == (minutes >= d)
  {
  }

  /** A later log adds the minutes to the first record; reaching the duration
      clamps and completes; below it the completion flag is kept. */
  lemma LogVideoMinutesAgain(path: seq<Video>, records: seq<VideoProgress>, videoId: string, minutes: int, now: Instant)
    requires FindVideo(path, videoId).Some? && FindProgress(records, videoId).Some?
    ensures var d := FindVideo(path, videoId).value.duration;
      var before := FindProgress(records, videoId).value;
      var p := LogVideoMinutes(path, records, videoId, minutes, now).value.progress;
      && (before.minutesWatched + minutes >= d ==> p.minutesWatched == d && p.completed)
      && (before.minutesWatched + minutes < d ==>
            p.minutesWatched == before.minutesWatched + minutes && p.completed == before.completed)
  {
  }

  /** Logging keeps every path video's minutes within its length. */
  lemma LogVideoMinutesKeepsClamp(path: seq<Video>, records: seq<VideoProgress>, videoId: string, minutes: int, now: Instant)
    requires Clamped(path, records) && FindVideo(path, videoId).Some?
    ensures Clamped(path, LogVideoMinutes(path, records, videoId, minutes, now).value.records)
  {
    var r := LogVideoMinutes(path, records, videoId, minutes, now).value;
    forall i | 0 <= i < |r.records| && FindVideo(path, r.records[i].videoId).Some?
      ensures r.records[i].minutesWatched <= FindVideo(path, r.records[i].videoId).value.duration
    {
      if i < |records| && r.records[i] != r.progress {
        assert r.records[i] == records[i];
      }
    }
  }

  /** Logging a non-negative number of minutes keeps a consistent record
      consistent: the flag is set exactly at the full length. */
  lemma LogVideoMinutesKeepsConsistent(path: seq<Video>, records: seq<VideoProgress>, videoId: string, minutes: int, now: Instant)
    requires minutes >= 0 && FindVideo(path, videoId).Some? && FindVideo(path, videoId).value.duration >= 0
    requires FindProgress(records, videoId).Some? ==> Consistent(FindProgress(records, videoId).value, FindVideo(path, videoId).value)
    ensures Consistent(LogVideoMinutes(path, records, videoId, minutes, now).value.progress, FindVideo(path, videoId).value)
  {
    var v := FindVideo(path, videoId).value;
    var p := LogVideoMinutes(path, records, videoId, minutes, now).value.progress;
    if FindProgress(records, videoId).Some? {
      var before := FindProgress(records, videoId).value;
      LogVideoMinutesAgain(path, records, videoId, minutes, now);
      if before.minutesWatched + minutes < v.duration {
        assert before.minutesWatched < v.duration;
        assert !p.completed;
      }
    } else {
      LogVideoMinutesFirst(path, records, videoId, minutes, now);
    }
  }

  /** `db.saveVideoProgress(p)`: an upsert on `videoId`. */
  function Upsert(records: seq<VideoProgress>, p: VideoProgress): (r: seq<VideoProgress>)
    ensures FindProgress(r, p.videoId) == Some(p)
    ensures forall i :: 0 <= i < |records| && records[i].videoId != p.videoId ==> records[i] in r
  {
    var k := RecordIndex(records, p.videoId);
    if k == -1 then
      assert (records + [p])[|records|] == p;
      records + [p]
    else
      var r := records[k := p];
      assert forall i :: 0 <= i < k ==> r[i] == records[i] && r[i].videoId != p.videoId;
      assert r[k] == p;
      assert RecordIndex(r, p.videoId) == k;
      assert forall i :: 0 <= i < |records| && i != k ==> r[i] == records[i];
      r
  }

  /** The dashboard's log-minutes form. The typed text has been read by
      `parseInt` into `parsed` (None for `NaN`). A missing or non-positive
      count, or a video outside the path, saves nothing. Otherwise the current
      minutes (0 without a record) plus the new ones are saved, capped at the
      video's length, with the flag recomputed: completed exactly when the sum
      reaches the length. */
  function SubmitLogMinutes(path: seq<Video>, records: seq<VideoProgress>, videoId: string, parsed: Option<int>, now: Instant): (r: Option<seq<VideoProgress>>)
    ensures r.None? <==> parsed.None? || parsed.value <= 0 || FindVideo(path, videoId).None?
  {
    if parsed.None? || parsed.value <= 0 then None
    else
      match FindVideo(path, videoId)
      case None => None
      case Some(video) =>
        var current := match FindProgress(records, videoId) case Some(p) => p.minutesWatched case None => 0;
        var sum := current + parsed.value;
        Some(Upsert(records, VideoProgress(videoId, if sum < video.duration then sum else video.duration,
                                           sum >= video.duration, now)))
  }

  /** What the form saves: the capped sum, and a flag that says whether the sum
      reached the length, whatever the flag was before. */
  lemma SubmitLogMinutesSaves(path: seq<Video>, records: seq<VideoProgress>, videoId: string, m: int, now: Instant)
    requires m > 0 && FindVideo(path, videoId).Some?
    ensures var d := FindVideo(path, videoId).value.duration;
      var current := if FindProgress(records, videoId).Some? then FindProgress(records, videoId).value.minutesWatched else 0;
      var saved := FindProgress(SubmitLogMinutes(path, records, videoId, Some(m), now).value, videoId).value;
      && saved.minutesWatched == (if current + m < d then current + m else d)
      && saved.completed == (current + m >= d)
  {
  }

  /** What the form stores, written out: the upsert of the capped sum. */
  lemma SubmitLogMinutesValue(path: seq<Video>, records: seq<VideoProgress>, videoId: string, m: int, now: Instant)
    requires m > 0 && FindVideo(path, videoId).Some?
    ensures var d := FindVideo(path, videoId).value.duration;
      var current := if FindProgress(records, videoId).Some? then FindProgress(records, videoId).value.minutesWatched else 0;
      var sum := current + m;
      SubmitLogMinutes(path, records, videoId, Some(m), now)
        == Some(Upsert(records, VideoProgress(videoId, if sum < d then sum else d, sum >= d, now)))
  {
  }

  /** An upsert replaces the first record of the video, or appends. */
  lemma UpsertAt(records: seq<VideoProgress>, p: VideoProgress)
    ensures RecordIndex(records, p.videoId) == -1 ==> Upsert(records, p) == records + [p]
    ensures RecordIndex(records, p.videoId) >= 0 ==> Upsert(records, p) == records[RecordIndex(records, p.videoId) := p]
  {
  }

  /** On a consistent record (or none), logging a positive count through
      either writer stores the same thing. */
  lemma WritersAgreeWhenConsistent(path: seq<Video>, records: seq<VideoProgress>, videoId: string, m: int, now: Instant)
    requires m > 0 && FindVideo(path, videoId).Some?
    requires FindProgress(records, videoId).Some? ==> Consistent(FindProgress(records, videoId).value, FindVideo(path, videoId).value)
    ensures LogVideoMinutes(path, records, videoId, m, now).value.records == SubmitLogMinutes(path, records, videoId, Some(m), now).value
  {
    var q := StoreLogsCappedSum(path, records, videoId, m, now);
    SubmitLogMinutesValue(path, records, videoId, m, now);
    UpsertAt(records, q);
  }

  /** On a consistent record (or none), the store's logged record is the one
      the form builds: the capped sum, completed exactly at the length. */
  lemma StoreLogsCappedSum(path: seq<Video>, records: seq<VideoProgress>, videoId: string, m: int, now: Instant)
    returns (q: VideoProgress)
    requires m > 0 && FindVideo(path, videoId).Some?
    requires FindProgress(records, videoId).Some? ==> Consistent(FindProgress(records, videoId).value, FindVideo(path, videoId).value)
    ensures var d := FindVideo(path, videoId).value.duration;
      var current := if FindProgress(records, videoId).Some? then FindProgress(records, videoId).value.minutesWatched else 0;
      var sum := current + m;
      q == VideoProgress(videoId, if sum < d then sum else d, sum >= d, now)
    ensures LogVideoMinutes(path, records, videoId, m, now).value.progress == q
  {
    var d := FindVideo(path, videoId).value.duration;
    var found := FindProgress(records, videoId);
    var current := if found.Some? then found.value.minutesWatched else 0;
    var sum := current + m;
    q := VideoProgress(videoId, if sum < d then sum else d, sum >= d, now);
    if found.Some? {
      LogVideoMinutesAgain(path, records, videoId, m, now);
      assert sum < d ==> !found.value.completed;
    } else {
      LogVideoMinutesFirst(path, records, videoId, m, now);
    }
  }

  /** The writers part ways on a record marked completed below the video's
      length: the store keeps the flag, the form clears it. */
  lemma WritersDisagreeOnStaleFlag(path: seq<Video>, records: seq<VideoProgress>, videoId: string, m: int, now: Instant)
    requires m > 0 && FindVideo(path, videoId).Some? && FindProgress(records, videoId).Some?
    requires FindProgress(records, videoId).value.completed
    requires FindProgress(records, videoId).value.minutesWatched + m < FindVideo(path, videoId).value.duration
    ensures LogVideoMinutes(path, records, videoId, m, now).value.progress.completed
    ensures !FindProgress(SubmitLogMinutes(path, records, videoId, Some(m), now).value, videoId).value.completed
  {
    LogVideoMinutesAgain(path, records, videoId, m, now);
    SubmitLogMinutesSaves(path, records, videoId, m, now);
  }

  /** The video has a record and that (first) record is completed. */
  predicate Watched(records: seq<VideoProgress>, videoId: string)
  {
    FindProgress(records, videoId).Some? && FindProgress(records, videoId).value.completed
  }

  /** `nextVideo`: the first path video, in path order, with no record or an
      unfinished one; None once every path video is completed. */
  function NextVideo(path: seq<Video>, records: seq<VideoProgress>): (r: Option<Video>)
    ensures r.None? <==> forall i :: 0 <= i < |path| ==> Watched(records, path[i].id)
    ensures r.Some? ==> exists i ::
      && 0 <= i < |path| && path[i] == r.value && !Watched(records, path[i].id)
      && forall j :: 0 <= j < i ==> Watched(records, path[j].id)
  {
    var k := FirstIndex(path, (v: Video) => !Watched(records, v.id));
    if k == -1 then None else Some(path[k])
  }

  /** Minutes of the first record of each path video, summed. */
  function WatchedMinutes(path: seq<Video>, records: seq<VideoProgress>): int
  {
    if |path| == 0 then 0
    else
      var last := path[|path| - 1];
      WatchedMinutes(path[..|path| - 1], records)
        + (match FindProgress(records, last.id) case Some(p) => p.minutesWatched case None => 0)
  }

  /** Number of path videos whose first record is completed. */
  function CompletedVideos(path: seq<Video>, records: seq<VideoProgress>): (n: nat)
    ensures n <= |path|
  {
    if |path| == 0 then 0
    else CompletedVideos(path[..|path| - 1], records) + (if Watched(records, path[|path| - 1].id) then 1 else 0)
  }

  /** The path totals the progress views show. */
  datatype Stats = Stats(totalMinutes: int, minutesWatched: int, totalVideos: nat, videosCompleted: nat, percentage: int)

  /** `videoStats`: the path's length in minutes and videos, the minutes and
      completions of each path video's first record (other records ignored),
      and the rounded share of minutes watched, 0 when the path has no
      minutes. */
  function VideoStats(path: seq<Video>, records: seq<VideoProgress>): (s: Stats)
    ensures s.totalVideos == |path| && s.totalMinutes == TotalDuration(path)
    ensures s.videosCompleted <= s.totalVideos
    ensures s.minutesWatched == WatchedMinutes(path, records) && s.videosCompleted == CompletedVideos(path, records)
    ensures s.totalMinutes <= 0 ==> s.percentage == 0
    ensures s.totalMinutes > 0 ==>
      2 * s.totalMinutes * s.percentage <= 200 * s.minutesWatched + s.totalMinutes < 2 * s.totalMinutes * s.percentage + 2 * s.totalMinutes
  {
    var total := TotalDuration(path);
    var watched := WatchedMinutes(path, records);
    Stats(total, watched, |path|, CompletedVideos(path, records),
          if total > 0 then RoundPercentSigned(watched, total) else 0)
  }

  /** On the DevOps path the totals are 10 videos and 1870 minutes, so the
      empty-path branch of the percentage never applies. */
  lemma VideoStatsOfLearningPath(records: seq<VideoProgress>)
    ensures VideoStats(LearningPath, records).totalVideos == 10
    ensures VideoStats(LearningPath, records).totalMinutes == 1870
  {
    LearningPathShape();
    LearningPathTotal();
  }

  /** Every path video is completed exactly when the completed count is the
      number of path videos. */
  lemma {:induction false} CompletedVideosAll(path: seq<Video>, records: seq<VideoProgress>)
    ensures CompletedVideos(path, records) == |path| <==> forall i :: 0 <= i < |path| ==> Watched(records, path[i].id)
  {
    if |path| > 0 {
      var init := path[..|path| - 1];
      CompletedVideosAll(init, records);
      assert forall i :: 0 <= i < |init| ==> init[i] == path[i];
    }
  }

  /** There is no next video exactly when the stats count every path video as
      completed. */
  lemma NextVideoNoneIffAllCompleted(path: seq<Video>, records: seq<VideoProgress>)
    ensures NextVideo(path, records).None? <==> VideoStats(path, records).videosCompleted == VideoStats(path, records).totalVideos
  {
    CompletedVideosAll(path, records);
  }

  /** Path video ids are pairwise distinct (as they are on the DevOps path). */
  predicate DistinctIds(path: seq<Video>)
  {
    forall i, j :: 0 <= i < j < |path| ==> path[i].id != path[j].id
  }

  /** With clamped, non-negative records the watched minutes stay between 0
      and the path's length. */
  lemma {:induction false} WatchedMinutesBounds(path: seq<Video>, records: seq<VideoProgress>)
    requires forall j :: 0 <= j < |path| ==> path[j].duration >= 0
    requires forall i :: 0 <= i < |records| ==> records[i].minutesWatched >= 0
    requires forall i, j :: 0 <= i < |records| && 0 <= j < |path| && records[i].videoId == path[j].id ==>
      records[i].minutesWatched <= path[j].duration
    ensures 0 <= WatchedMinutes(path, records) <= TotalDuration(path)
  {
    if |path| > 0 {
      var init := path[..|path| - 1];
      var last := path[|path| - 1];
      assert forall j :: 0 <= j < |init| ==> init[j] == path[j];
      WatchedMinutesBounds(init, records);
      match FindProgress(records, last.id)
      case None =>
      case Some(p) =>
        var k :| 0 <= k < |records| && records[k] == p && p.videoId == last.id;
        assert records[k].minutesWatched <= path[|path| - 1].duration;
    }
  }

  /** Clamped, non-negative records on a path with distinct ids and
      non-negative lengths show a percentage between 0 and 100. */
  lemma VideoStatsPercentageBounds(path: seq<Video>, records: seq<VideoProgress>)
    requires DistinctIds(path) && forall j :: 0 <= j < |path| ==> path[j].duration >= 0
    requires forall i :: 0 <= i < |records| ==> records[i].minutesWatched >= 0
    requires Clamped(path, records)
    ensures 0 <= VideoStats(path, records).percentage <= 100
  {
    forall i, j | 0 <= i < |records| && 0 <= j < |path| && records[i].videoId == path[j].id
      ensures records[i].minutesWatched <= path[j].duration
    {
      var v := FindVideo(path, records[i].videoId).value;
      var m :| 0 <= m < |path| && path[m] == v;
      assert m == j;
    }
    WatchedMinutesBounds(path, records);
    var w := WatchedMinutes(path, records);
    if TotalDuration(path) > 0 {
      RoundPercentAtMost100(w, TotalDuration(path));
    }
  }

  /** On the DevOps path itself, clamped non-negative records show 0..100%. */
  lemma LearningPathPercentageBounds(records: seq<VideoProgress>)
    requires forall i :: 0 <= i < |records| ==> records[i].minutesWatched >= 0
    requires Clamped(LearningPath, records)
    ensures 0 <= VideoStats(LearningPath, records).percentage <= 100
  {
    LearningPathShape();
    VideoStatsPercentageBounds(LearningPath, records);
  }
}
