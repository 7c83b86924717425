/**
 * The presence-driven recording decision of the capture loop, as a pure
 * transition on the state the program keeps in its module-level variables
 * (`recording`, `video_writer`, `record_start_time`, `last_face_detected_time`),
 * together with the properties it keeps.
 *
 * Timestamps are seconds as real numbers, supplied by the caller. The video
 * writer is either absent or an open session that has received some frames;
 * releasing it moves the session to `saved`, the list of finished recordings.
 */
module Recording {
  import opened Geometry

  /** Hard cap on one recording: ten minutes, in seconds. */
  const MaxRecordingDuration: real := 600.0

  /** How long a live recording survives without a face in the box, in seconds. */
  const GracePeriod: real := 20.0

  datatype Option<T> = None | Some(value: T)

  /** A captured picture; the model never looks inside it. */
  type Frame = seq<int>

  /** One frame handed to the writer, with the time it was written. */
  datatype Entry = Entry(writtenAt: real, frame: Frame)

  /** An open (or released) video writer: the time it was opened and what it received. */
  datatype Session = Session(openedAt: real, entries: seq<Entry>)

  /**
   * The monitor's mutable state. `writer == None` is `video_writer is None`;
   * `saved` lists the sessions released so far, oldest first.
   */
  datatype State = State(
    recording: bool,
    writer: Option<Session>,
    recordStartTime: Option<real>,
    lastFaceTime: real,
    saved: seq<Session>)

  /** What one frame does: the new state and whether the frame went to the writer. */
  datatype StepResult = StepResult(state: State, written: bool)

  /** The input of one iteration of the capture loop. */
  datatype Tick = Tick(faces: seq<Rect>, frame: Frame, now: real)

  /**
   * The central invariant: the flag is set exactly when a writer is open (so at
   * most one writer exists), and a live recording's start time is its writer's.
   */
  ghost predicate Consistent(s: State)
  {
    && (s.recording <==> s.writer.Some?)
    && (s.writer.Some? ==> s.recordStartTime == Some(s.writer.value.openedAt))
  }

  /**
   * What every recording looks like: its first frame is written when it is
   * opened, and no frame is written more than the duration cap after that.
   */
  ghost predicate WellFormedSession(w: Session)
  {
    && |w.entries| > 0
    && w.entries[0].writtenAt == w.openedAt
    && forall i :: 0 <= i < |w.entries| ==> w.entries[i].writtenAt - w.openedAt <= MaxRecordingDuration
  }

  /** The invariant kept by every step and by a forced stop. */
  ghost predicate Inv(s: State)
  {
    && Consistent(s)
    && (s.writer.Some? ==> WellFormedSession(s.writer.value))
    && forall k :: 0 <= k < |s.saved| ==> WellFormedSession(s.saved[k])
  }

  /** The state at program start: idle, no writer, the last face "seen" at start-up time `t0`. */
  function Initial(t0: real): (s: State)
    ensures Inv(s) && !s.recording && s.writer == None && s.saved == []
  {
    State(false, None, None, t0, [])
  }

  /** start_recording: opens a new writer, named after the time `now`. */
  function OpenWriter(s: State, now: real): (r: State)
  {
    s.(writer := Some(Session(now, [])))
  }

  /** stop_recording: releases the writer if there is one; otherwise nothing happens. */
  function CloseWriter(s: State): (r: State)
  {
    match s.writer
    case None => s
    case Some(w) => s.(writer := None, saved := s.saved + [w])
  }

  /** video_writer.write(frame) at time `now`. */
  function WriteFrame(s: State, now: real, frame: Frame): (r: State)
    requires s.writer.Some?
  {
    var w := s.writer.value;
    s.(writer := Some(w.(entries := w.entries + [Entry(now, frame)])))
  }

  /** One iteration of the capture loop, from the detections to the recording decision. */
  function Next(s: State, faces: seq<Rect>, frame: Frame, now: real): (r: StepResult)
    requires Consistent(s)
    ensures Consistent(r.state)
  {
    var faceInBox := AnyInBox(faces, Box);
    var seen := if faceInBox then s.(lastFaceTime := now) else s;
    if faceInBox then
      var live := if !seen.recording
                  then OpenWriter(seen.(recordStartTime := Some(now)), now).(recording := true)
                  else seen;
      if live.recording && live.writer.Some? then
        if now - live.recordStartTime.value > MaxRecordingDuration then
          StepResult(CloseWriter(live).(recording := false), false)
        else
          StepResult(WriteFrame(live, now, frame), true)
      else
        StepResult(live, false)
    else if seen.recording && now - seen.lastFaceTime > GracePeriod then
      StepResult(CloseWriter(seen).(recording := false), false)
    else
      StepResult(seen, false)
  }

  /** The stop button: releases a live recording; does nothing when idle. */
  function ForceStopped(s: State): (r: State)
  {
    if s.recording then CloseWriter(s).(recording := false) else s
  }

  /** The capture loop run over a sequence of frames. */
  function Run(s: State, ticks: seq<Tick>): (r: State)
    requires Consistent(s)
    ensures Consistent(r)
    decreases |ticks|
  {
    if ticks == [] then s
    else Run(Next(s, ticks[0].faces, ticks[0].frame, ticks[0].now).state, ticks[1..])
  }

  // ---------------------------------------------------------------------------
  // One frame

  /** `last_face_detected_time` moves to `now` exactly on frames with a face in the box. */
  lemma StepRefreshesLastFaceTime(s: State, faces: seq<Rect>, frame: Frame, now: real)
    requires Consistent(s)
    ensures var r := Next(s, faces, frame, now).state;
      (AnyInBox(faces, Box) ==> r.lastFaceTime == now) &&
      (!AnyInBox(faces, Box) ==> r.lastFaceTime == s.lastFaceTime)
  {
  }

  /** A face in the box while idle opens a writer at `now` and writes that very frame to it. */
  lemma StepStartsWhenIdle(s: State, faces: seq<Rect>, frame: Frame, now: real)
    requires Consistent(s) && !s.recording && AnyInBox(faces, Box)
    ensures var r := Next(s, faces, frame, now);
      && r.written
      && r.state.recording
      && r.state.recordStartTime == Some(now)
      && r.state.writer == Some(Session(now, [Entry(now, frame)]))
      && r.state.saved == s.saved
  {
    assert [] + [Entry(now, frame)] == [Entry(now, frame)];
  }

  /**
   * A face in the box while recording: the recording stops (its writer released)
   * exactly when more than the cap has passed since it started; otherwise the
   * frame is appended to it and nothing else but the face time changes.
   */
  lemma StepWithFaceWhileRecording(s: State, faces: seq<Rect>, frame: Frame, now: real)
    requires Consistent(s) && s.recording && AnyInBox(faces, Box)
    ensures var r := Next(s, faces, frame, now);
      var elapsed := now - s.recordStartTime.value;
      && (r.state.recording <==> elapsed <= MaxRecordingDuration)
      && (r.written <==> elapsed <= MaxRecordingDuration)
      && r.state.recordStartTime == s.recordStartTime
      && (elapsed > MaxRecordingDuration ==>
            r.state.writer == None && r.state.saved == s.saved + [s.writer.value])
      && (elapsed <= MaxRecordingDuration ==>
            r.state == WriteFrame(s, now, frame).(lastFaceTime := now))
  {
  }

  /**
   * No face in the box: nothing is written. A live recording stops exactly when
   * more than the grace period has passed since the last face; the duration cap
   * is not consulted. An idle monitor stays exactly as it was.
   */
  lemma StepWithoutFace(s: State, faces: seq<Rect>, frame: Frame, now: real)
    requires Consistent(s) && !AnyInBox(faces, Box)
    ensures var r := Next(s, faces, frame, now);
      && !r.written
      && (!s.recording ==> r.state == s)
      && (s.recording ==>
            (r.state.recording <==> now - s.lastFaceTime <= GracePeriod))
      && (s.recording && now - s.lastFaceTime > GracePeriod ==>
            r.state == s.(recording := false, writer := None, saved := s.saved + [s.writer.value]))
      && (s.recording && now - s.lastFaceTime <= GracePeriod ==> r.state == s)
  {
  }

  /**
   * A frame reaches the writer exactly when a face is in the box and the
   * recording it joins (possibly opened by this frame) is within the cap.
   */
  lemma WrittenIff(s: State, faces: seq<Rect>, frame: Frame, now: real)
    requires Consistent(s)
    ensures var r := Next(s, faces, frame, now);
      r.written <==>
        AnyInBox(faces, Box) &&
        (!s.recording || now - s.recordStartTime.value <= MaxRecordingDuration)
    ensures Next(s, faces, frame, now).written ==> Next(s, faces, frame, now).state.recording
  {
  }

  /** After a stop at the cap, a face still in the box opens a new recording on the next frame. */
  lemma RestartAfterCap(s: State, faces1: seq<Rect>, frame1: Frame, now1: real,
                        faces2: seq<Rect>, frame2: Frame, now2: real)
    requires Consistent(s) && s.recording && AnyInBox(faces1, Box) && AnyInBox(faces2, Box)
    requires now1 - s.recordStartTime.value > MaxRecordingDuration
    ensures var r1 := Next(s, faces1, frame1, now1).state;
      var r2 := Next(r1, faces2, frame2, now2);
      && !r1.recording
      && r2.written
      && r2.state.recording
      && r2.state.writer == Some(Session(now2, [Entry(now2, frame2)]))
      && r2.state.saved == s.saved + [s.writer.value]
  {
    assert [] + [Entry(now2, frame2)] == [Entry(now2, frame2)];
  }

  /** Every step keeps the invariant: one writer at most, and every recording within the cap. */
  lemma StepKeepsInv(s: State, faces: seq<Rect>, frame: Frame, now: real)
    requires Inv(s)
    ensures Inv(Next(s, faces, frame, now).state)
  {
  }

  // ---------------------------------------------------------------------------
  // Releasing the writer

  /** Releasing leaves no writer, and releasing twice is releasing once. */
  lemma CloseWriterIdempotent(s: State)
    ensures CloseWriter(s).writer == None
    ensures CloseWriter(CloseWriter(s)) == CloseWriter(s)
    ensures s.writer == None ==> CloseWriter(s) == s
  {
  }

  /**
   * The stop button ends a live recording whatever the detections or the
   * elapsed time, keeps the invariant, and does nothing when idle.
   */
  lemma ForceStopReleases(s: State)
    requires Inv(s)
    ensures var r := ForceStopped(s);
      && Inv(r)
      && !r.recording && r.writer == None
      && r.lastFaceTime == s.lastFaceTime && r.recordStartTime == s.recordStartTime
      && (s.recording ==> r.saved == s.saved + [s.writer.value])
      && (!s.recording ==> r == s)
  {
  }

  // ---------------------------------------------------------------------------
  // Many frames

  /** However many frames are processed, the invariant holds afterwards. */
  lemma {:induction false} RunKeepsInv(s: State, ticks: seq<Tick>)
    requires Inv(s)
    ensures Inv(Run(s, ticks))
    decreases |ticks|
  {
    if ticks != [] {
      var t := ticks[0];
      StepKeepsInv(s, t.faces, t.frame, t.now);
      RunKeepsInv(Next(s, t.faces, t.frame, t.now).state, ticks[1..]);
    }
  }

  /** Released recordings are never altered or dropped by later frames. */
  lemma {:induction false} RunKeepsSaved(s: State, ticks: seq<Tick>)
    requires Consistent(s)
    ensures s.saved <= Run(s, ticks).saved
    decreases |ticks|
  {
    if ticks != [] {
      var t := ticks[0];
      var s' := Next(s, t.faces, t.frame, t.now).state;
      assert s.saved <= s'.saved;
      RunKeepsSaved(s', ticks[1..]);
    }
  }

  /**
   * A face seen at time 0 and then gone: the recording stays open but receives
   * no frame at times 10 and 20, and is released at 20.5 holding the one frame.
   */
  lemma GracePeriodScenario(inside: Rect, f0: Frame, f1: Frame, f2: Frame, f3: Frame)
    requires IsFaceInBox(inside, Box)
    ensures var r0 := Next(Initial(0.0), [inside], f0, 0.0);
      var r1 := Next(r0.state, [], f1, 10.0);
      var r2 := Next(r1.state, [], f2, 20.0);
      var r3 := Next(r2.state, [], f3, 20.5);
      && r0.written && !r1.written && !r2.written && !r3.written
      && r2.state.recording && !r3.state.recording
      && r3.state.saved == [Session(0.0, [Entry(0.0, f0)])]
  {
    assert AnyInBox([inside], Box);
    assert [] + [Entry(0.0, f0)] == [Entry(0.0, f0)];
  }
}
