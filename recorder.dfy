/**
 * The monitor's recording state as the program keeps it: variables updated in
 * place by the capture loop, by the start and stop helpers, and by the stop
 * button. Each method is specified by the pure transition of module Recording.
 */
module Monitor {
  import opened Geometry
  import opened Recording

  class Recorder {
    var recording: bool
    var writer: Option<Session>
    var recordStartTime: Option<real>
    var lastFaceTime: real
    var saved: seq<Session>

    /** The current values of the variables, as a value. */
    function Snapshot(): State
      reads this
    {
      State(recording, writer, recordStartTime, lastFaceTime, saved)
    }

    ghost predicate Valid()
      reads this
    {
      Inv(Snapshot())
    }

    /** Program start: idle, no writer, no start time, the last face time set to the start-up clock. */
    constructor (startTime: real)
      ensures Valid()
      ensures Snapshot() == Initial(startTime)
    {
      recording := false;
      writer := None;
      recordStartTime := None;
      lastFaceTime := startTime;
      saved := [];
    }

    /** start_recording: opens a fresh writer; nothing else changes. */
    method StartRecording(now: real)
      modifies this
      ensures Snapshot() == OpenWriter(old(Snapshot()), now)
      ensures writer == Some(Session(now, []))
    {
      writer := Some(Session(now, []));
    }

    /** stop_recording: releases an open writer into `saved`; a no-op when there is none. */
    method StopRecording()
      modifies this
      ensures Snapshot() == CloseWriter(old(Snapshot()))
      ensures writer == None
      ensures old(writer).Some? ==> saved == old(saved) + [old(writer).value]
      ensures old(writer).None? ==> saved == old(saved)
    {
      if writer.Some? {
        saved := saved + [writer.value];
        writer := None;
      }
    }

    /** The stop button: ends a live recording whatever the detections; does nothing when idle. */
    method ForceStop()
      requires Valid()
      modifies this
      ensures Valid()
      ensures Snapshot() == ForceStopped(old(Snapshot()))
      ensures !recording && writer == None
    {
      ForceStopReleases(Snapshot());
      if recording {
        StopRecording();
        recording := false;
      }
    }

    /**
     * One iteration of the capture loop for a frame with the given detections,
     * processed at time `now`; `written` tells whether the frame went to the writer.
     */
    method Step(faces: seq<Rect>, frame: Frame, now: real) returns (written: bool)
      requires Valid()
      modifies this
      ensures Valid()
      ensures Snapshot() == Next(old(Snapshot()), faces, frame, now).state
      ensures written == Next(old(Snapshot()), faces, frame, now).written
    {
      StepKeepsInv(Snapshot(), faces, frame, now);
      var faceInBox := ScanFaces(faces, Box);
      if faceInBox {
        lastFaceTime := now;
      }
      written := false;
      if faceInBox {
        if !recording {
          recordStartTime := Some(now);
          StartRecording(now);
          recording := true;
        }
        if recording && writer.Some? {
          var elapsed := now - recordStartTime.value;
          if elapsed > MaxRecordingDuration {
            StopRecording();
            recording := false;
          } else {
            var w := writer.value;
            writer := Some(w.(entries := w.entries + [Entry(now, frame)]));
            written := true;
          }
        }
      } else {
        if recording && now - lastFaceTime > GracePeriod {
          StopRecording();
          recording := false;
        }
      }
    }
  }
}
