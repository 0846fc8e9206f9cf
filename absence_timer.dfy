/** The "looking away" timer of the face-detection view as pure functions: one
    step per processed frame, a run of frames on one view, and the `seconds`
    field of Python's timedelta that the timer is compared through. */
module AbsenceTimer {
  import opened Wrappers

  /** Timestamps are datetime values counted in whole microseconds, the
      resolution of Python's datetime. */
  const MicrosPerSecond: int := 1_000_000
  const SecondsPerDay: int := 86_400
  const MicrosPerDay: int := 86_400_000_000

  /** A timedelta in Python's normal form. */
  datatype Timedelta = Timedelta(days: int, seconds: int, microseconds: int)

  /** The timedelta `delta` microseconds long: Python normalises it so that
      seconds lie in [0, 86400) and microseconds in [0, 1000000), with the
      sign carried by `days` alone. */
  function TimedeltaOf(delta: int): (t: Timedelta)
    ensures t.days * MicrosPerDay + t.seconds * MicrosPerSecond + t.microseconds == delta
    ensures 0 <= t.seconds < SecondsPerDay
    ensures 0 <= t.microseconds < MicrosPerSecond
  {
    var inDay := delta % MicrosPerDay;
    Timedelta(delta / MicrosPerDay, inDay / MicrosPerSecond, inDay % MicrosPerSecond)
  }

  /** `(now - start).seconds`: the seconds field of the difference, with the
      day component dropped (not the total number of seconds). */
  function SecondsField(delta: int): (s: int)
    ensures 0 <= s < SecondsPerDay
  {
    TimedeltaOf(delta).seconds
  }

  /** Within the first day the seconds field is the whole number of seconds
      elapsed. */
  lemma SecondsFieldWithinDay(delta: int)
    requires 0 <= delta < MicrosPerDay
    ensures SecondsField(delta) == delta / MicrosPerSecond
  {
  }

  /** Whole days added to the elapsed time do not change the seconds field. */
  lemma {:induction false} SecondsFieldDropsDays(k: nat, delta: int)
    ensures SecondsField(k * MicrosPerDay + delta) == SecondsField(delta)
  {
    if k > 0 {
      SecondsFieldDropsDays(k - 1, delta);
      var x := (k - 1) * MicrosPerDay + delta;
      assert k * MicrosPerDay + delta == x + MicrosPerDay;
      assert (x + MicrosPerDay) % MicrosPerDay == x % MicrosPerDay;
    }
  }

  /** A clock that steps back by even one microsecond gives a seconds field of
      86399, the largest there is. */
  lemma SecondsFieldOfNegativeDelta(delta: int)
    requires -MicrosPerSecond <= delta < 0
    ensures SecondsField(delta) == SecondsPerDay - 1
  {
  }

  /** The timer after one frame in which `faces` faces were detected at time
      `now`: started on the first face-less frame, kept while no face is seen,
      cleared by a frame with a face. */
  function NextTimer(start: Option<int>, faces: nat, now: int): Option<int>
  {
    if faces == 0 then
      if start.None? then Some(now) else start
    else
      None
  }

  /** The `looking_away` flag of a frame, given the timer as it was before the
      frame: only a face-less frame with a timer already running can raise it. */
  predicate LookingAway(start: Option<int>, faces: nat, now: int, threshold: int)
  {
    faces == 0 && start.Some? && SecondsField(now - start.value) >= threshold
  }

  /** What the timer sees of one frame whose decoding and detection succeeded
      (the face-recognition step after it may still raise). */
  datatype Sample = Sample(faces: nat, now: int)

  /** The timer after the frames `frames`, processed in order on one view whose
      timer was `start`. */
  function TimerAfterAll(start: Option<int>, frames: seq<Sample>): Option<int>
    decreases |frames|
  {
    if frames == [] then start
    else TimerAfterAll(NextTimer(start, frames[0].faces, frames[0].now), frames[1..])
  }

  /** The `looking_away` flag of frame `i` of the run. */
  predicate LookingAwayAt(start: Option<int>, frames: seq<Sample>, i: int, threshold: int)
    requires 0 <= i < |frames|
  {
    LookingAway(TimerAfterAll(start, frames[..i]), frames[i].faces, frames[i].now, threshold)
  }

  /** `k` is where the trailing run of face-less frames begins: every frame from
      `k` on has no face, and the frame before `k`, if any, has one. */
  predicate IsAbsenceRunStart(frames: seq<Sample>, k: int)
  {
    0 <= k <= |frames| &&
    (forall j :: k <= j < |frames| ==> frames[j].faces == 0) &&
    (k > 0 ==> frames[k - 1].faces > 0)
  }

  /** The start of the trailing run of face-less frames. */
  function AbsenceRunStart(frames: seq<Sample>): (k: nat)
    ensures IsAbsenceRunStart(frames, k)
    decreases |frames|
  {
    if frames == [] then 0
    else if frames[|frames| - 1].faces > 0 then |frames|
    else AbsenceRunStart(frames[..|frames| - 1])
  }

  /** Processing one more frame is one more timer step. */
  lemma {:induction false} TimerAfterAppend(start: Option<int>, frames: seq<Sample>, f: Sample)
    ensures TimerAfterAll(start, frames + [f]) == NextTimer(TimerAfterAll(start, frames), f.faces, f.now)
    decreases |frames|
  {
    if frames == [] {
      assert [] + [f] == [f];
    } else {
      assert (frames + [f])[1..] == frames[1..] + [f];
      TimerAfterAppend(NextTimer(start, frames[0].faces, frames[0].now), frames[1..], f);
    }
  }

  /** Dropping the last frame of a run that ends face-less keeps the start of
      the trailing face-less run, as long as it does not begin at that frame. */
  lemma AbsenceRunStartOfInit(frames: seq<Sample>, k: int)
    requires IsAbsenceRunStart(frames, k) && k < |frames|
    ensures IsAbsenceRunStart(frames[..|frames| - 1], if k == |frames| - 1 then |frames| - 1 else k)
  {
    var init := frames[..|frames| - 1];
    forall j | k <= j < |init| ensures init[j].faces == 0 {
      assert init[j] == frames[j];
    }
    if k > 0 {
      assert init[k - 1] == frames[k - 1];
    }
  }

  /** The timer after a run of frames holds the time of the first frame of the
      trailing face-less run, or, when that run covers every frame, the time
      the timer already held if it was running and the first frame's time if
      not; it is cleared when the last frame has a face. */
  lemma {:induction false} TimerTracksAbsenceRun(start: Option<int>, frames: seq<Sample>, k: int)
    requires IsAbsenceRunStart(frames, k)
    ensures k == |frames| && k > 0 ==> TimerAfterAll(start, frames) == None
    ensures 0 < k < |frames| ==> TimerAfterAll(start, frames) == Some(frames[k].now)
    ensures k == 0 && frames != [] ==>
      TimerAfterAll(start, frames) == if start.Some? then start else Some(frames[0].now)
    ensures frames == [] ==> TimerAfterAll(start, frames) == start
    decreases |frames|
  {
    if frames != [] {
      var n := |frames|;
      var init, last := frames[..n - 1], frames[n - 1];
      assert frames == init + [last];
      TimerAfterAppend(start, init, last);
      var before := TimerAfterAll(start, init);
      if last.faces > 0 {
        assert k == n;
      } else {
        AbsenceRunStartOfInit(frames, k);
        if k == n - 1 {
          TimerTracksAbsenceRun(start, init, n - 1);
        } else {
          TimerTracksAbsenceRun(start, init, k);
          assert before.Some?;
          assert init[k] == frames[k];
        }
      }
    }
  }

  /** Starting from a cleared timer, frame `i` is flagged exactly when it lies
      in a face-less run that began at an earlier frame `k` and the seconds
      field of the time since frame `k` reaches the threshold. */
  lemma LookingAwayIffSustainedAbsence(frames: seq<Sample>, i: int, k: int, threshold: int)
    requires 0 <= i < |frames|
    requires IsAbsenceRunStart(frames[..i + 1], k)
    ensures LookingAwayAt(None, frames, i, threshold) <==>
      k < i && SecondsField(frames[i].now - frames[k].now) >= threshold
  {
    var prefix := frames[..i];
    if k <= i {
      assert IsAbsenceRunStart(prefix, k) by {
        forall j | k <= j < |prefix| ensures prefix[j].faces == 0 {
          assert prefix[j] == frames[..i + 1][j];
        }
        assert k > 0 ==> prefix[k - 1] == frames[..i + 1][k - 1];
      }
      assert frames[i] == frames[..i + 1][i];
      TimerTracksAbsenceRun(None, prefix, k);
    } else {
      assert frames[i] == frames[..i + 1][i];
    }
  }

  /** A flagged frame always follows another face-less frame: the frame that
      starts the timer is never flagged. */
  lemma LookingAwayNeedsTwoAbsentFrames(frames: seq<Sample>, i: int, threshold: int)
    requires 0 <= i < |frames|
    requires LookingAwayAt(None, frames, i, threshold)
    ensures i > 0 && frames[i - 1].faces == 0 && frames[i].faces == 0
  {
    var k := AbsenceRunStart(frames[..i + 1]);
    LookingAwayIffSustainedAbsence(frames, i, k, threshold);
    assert frames[i - 1] == frames[..i + 1][i - 1];
  }

  /** Face-less frames sustained for at least `threshold` seconds, and less than
      a day, flag the frame. */
  lemma SustainedAbsenceIsFlagged(frames: seq<Sample>, i: int, k: int, threshold: int)
    requires 0 <= i < |frames|
    requires IsAbsenceRunStart(frames[..i + 1], k) && k < i
    requires 0 <= threshold
    requires threshold * MicrosPerSecond <= frames[i].now - frames[k].now < MicrosPerDay
    ensures LookingAwayAt(None, frames, i, threshold)
  {
    LookingAwayIffSustainedAbsence(frames, i, k, threshold);
    SecondsFieldWithinDay(frames[i].now - frames[k].now);
  }

  /** Because only the seconds field is compared, a timer that has run for
      whole days plus less than the threshold does not flag the frame. */
  lemma AbsenceOverWholeDaysNotFlagged(start: int, k: nat, delta: int, threshold: int)
    requires 0 <= delta < MicrosPerDay && delta < threshold * MicrosPerSecond
    ensures !LookingAway(Some(start), 0, start + k * MicrosPerDay + delta, threshold)
  {
    assert start + k * MicrosPerDay + delta - start == k * MicrosPerDay + delta;
    SecondsFieldDropsDays(k, delta);
    SecondsFieldWithinDay(delta);
  }
}
