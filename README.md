# SecureCam presence-driven recording, modelled in Dafny

SecureCam watches a camera feed. It runs a face detector on every frame and
records video while a face is fully inside a fixed square on screen. The
square has its corner at (200, 150) and side 200. This project models the
decision logic that turns each frame's detections into start, write and
stop actions on the video writer, and proves properties of it:

- `geometry.dfy` (module `Geometry`) holds the containment test
  `is_face_in_box`. It also holds the per-frame loop that sets `face_in_box`,
  as a method with a loop, specified by a recursive function.
- `recording.dfy` (module `Recording`) holds the program state as a value and
  the pure transition `Next`. The state is the four module-level variables
  plus the list of released recordings. `Next` is one iteration of the capture
  loop. The module also holds the lemmas about single frames, the forced stop
  and whole runs.
- `recorder.dfy` (module `Monitor`) holds the class `Recorder`. Its fields are
  the four global variables plus `saved`, updated in place. `Step` is the body of
  the capture loop, `StartRecording` and `StopRecording` are the two helpers,
  and `ForceStop` is the stop button. Each method is proved equal to its pure
  counterpart (`Next`, `OpenWriter`, `CloseWriter`, `ForceStopped`). Only `Step`
  and `ForceStop` require and keep the invariant. The two helpers change the
  writer alone and, as in the code, leave `recording` to their caller, so on
  their own they may break it.

Timestamps are seconds, as real numbers, and the caller supplies them. The
video writer is either absent (`video_writer is None`) or an open `Session`.
A session holds the time it was opened and the frames written to it, each with
its write time. Releasing the writer appends the session to `saved`, which
stands for the finished video files.

The central invariant is `Recording.Inv`. It says three things:
- `recording` is true exactly when a writer is open, so at most one writer exists.
- The start time of a live recording is the opening time of its writer.
- Every recording, open or saved, begins with a frame written when it was
  opened, and holds no frame written more than 600 s after that.

Some behaviours of the code are easy to miss, and the model keeps them as written:

- While no face is in the box, the code writes no frame. This holds even while
  a recording is still open during the 20-second grace period: frames of that
  period are not forwarded to the writer.
- The code checks the 600-second cap only on frames with a face in the box.
  A recording whose face left the box is stopped by the grace period alone,
  not by the cap.
- `last_face_detected_time` starts at the program's start-up time. This has no
  visible effect, because a recording can only start on a frame that also
  refreshes that time.
- The containment test does not reject detections of negative size. When
  neither width nor height is positive, a corner in the box is enough
  (`Geometry.NegativeSizeAccepted`). For example (250,160,-10,50) passes
  although it holds no point (`Geometry.ReferenceDetections`).
- Both thresholds are fixed constants, 600 s and 20 s, as in the code.

## Model

| member | source | states |
|---|---|---|
| Geometry.InsideIffEveryPointInside | human_detection.py:207-208 | for a detection of non-negative size, the four edge comparisons hold exactly when every point of the closed rectangle from (x, y) to (x + w, y + h) lies in the closed square |
| Geometry.ReferenceDetections | human_detection.py:207-208 | (210,160,50,50) is inside the box and (190,160,50,50) is not; a detection equal to the box is inside and one a pixel wider is not; (250,160,-10,50) passes although its closed rectangle holds no point |
| Geometry.NegativeSizeAccepted | human_detection.py:207-208 | a detection whose width and height are both non-positive passes the test whenever its corner lies in the square; if either is negative its closed rectangle holds no point |
| Geometry.AnyInBox | human_detection.py:47-53 | the presence flag is true exactly when some detection of the frame passes the containment test |
| Geometry.ScanFaces | human_detection.py:47-52 | the loop over the detections leaves `face_in_box` equal to the presence flag |
| Geometry.PresenceIgnoresOrder | human_detection.py:49-52 | two frames with the same detections in any order have the same presence flag |
| Recording.Initial | human_detection.py:17-20 | the start-up state is idle with no writer and no recordings, and satisfies the invariant |
| Recording.Next | human_detection.py:47-76 | one frame keeps `recording` true exactly when a writer is open, with that writer's opening time as the start time |
| Recording.Run | human_detection.py:36-76 | any number of frames keep `recording` true exactly when a writer is open |
| Recording.StepRefreshesLastFaceTime | human_detection.py:49-53 | the last face time becomes `now` exactly on frames with a face in the box, and is unchanged on other frames |
| Recording.StepStartsWhenIdle | human_detection.py:55-71 | a face in the box while idle sets the start time to `now` and opens a writer; that same frame is written to it; earlier recordings are untouched |
| Recording.StepWithFaceWhileRecording | human_detection.py:62-71 | a face in the box while recording stops and releases the recording exactly when more than 600 s have passed since its start; otherwise the frame is appended and only the face time changes |
| Recording.StepWithoutFace | human_detection.py:73-76 | with no face in the box nothing is written; a live recording is released exactly when more than 20 s have passed since the last face, and otherwise the state is unchanged; when idle the state is unchanged |
| Recording.WrittenIff | human_detection.py:55-76 | a frame is written exactly when a face is in the box and the monitor is idle or within 600 s of the start; a written frame leaves the monitor recording |
| Recording.RestartAfterCap | human_detection.py:55-67 | after a stop at the cap, a face still in the box on the next frame opens a new recording holding that frame; the stopped one is saved |
| Recording.StepKeepsInv | human_detection.py:55-76 | every frame keeps the invariant: at most one writer, open exactly while recording, and every recording within the cap |
| Recording.CloseWriterIdempotent | human_detection.py:220-227 | releasing leaves no writer; releasing twice equals releasing once; releasing with no writer changes nothing |
| Recording.ForceStopReleases | human_detection.py:182-188 | the stop button releases a live recording into the saved list whatever the detections or elapsed time, keeps the invariant, and changes nothing when idle |
| Recording.RunKeepsInv | human_detection.py:36-76 | the invariant holds after any sequence of frames |
| Recording.RunKeepsSaved | human_detection.py:36-76 | released recordings are never altered or dropped by later frames |
| Recording.GracePeriodScenario | human_detection.py:73-76 | a face seen at 0 s and then gone: the recording stays open without receiving frames at 10 s and 20 s, and is released at 20.5 s holding its one frame |
| Monitor.Recorder.constructor | human_detection.py:17-20 | the variables start idle, with no writer, and satisfy the invariant |
| Monitor.Recorder.StartRecording | human_detection.py:210-215 | opens a fresh, empty writer named after `now`; nothing else changes |
| Monitor.Recorder.StopRecording | human_detection.py:220-227 | leaves no writer; an open writer is appended to the saved recordings; with none, nothing changes |
| Monitor.Recorder.ForceStop | human_detection.py:182-188 | the new state is the forced-stop transition of the old one: not recording, no writer, invariant kept |
| Monitor.Recorder.Step | human_detection.py:47-76 | the new variables and the written flag are exactly those of the pure transition `Next`, and the invariant is kept |

## Left out

- Camera capture and face detection (`cv2.VideoCapture`, `cvtColor`, `detectMultiScale`) are library calls. The detections of a frame are an input sequence of rectangles, and the frame is an uninspected pixel buffer.
- Video encoding (`cv2.VideoWriter`, the XVID fourcc, the file name built from the date) is not modelled. The writer is a session that records which frames it received and when; the file name is represented by the opening time.
- Spoken announcements (`pyttsx3`) and console output are I/O side effects and are not modelled.
- The FPS figure (`1 / (end_time - start_time)`) is a floating-point division and is not modelled; the model assumes it succeeds. In the code, a zero interval in the write branch (human_detection.py line 69) raises before `video_writer.write(frame)`, so that frame is not written and the capture thread ends with the writer still open. The same goes for `display_overlay`, which draws text into the frame, and for the rectangle drawing.
- The Qt window, its buttons, logs, `update_info` and the image conversion are user interface. Only the state change made by the stop button is kept.
- Threading is not modelled. The stop button runs on the GUI thread while the capture loop runs on its own thread, and both change the same globals. The model treats each step and each forced stop as atomic.
- Monitor.Recorder.Step: the code reads the clock separately for the face time, the start time, the cap check and the grace check within one frame. The model uses a single reading `now` per frame, so a start frame always has elapsed time 0 and is always written.
- The loop ending when the camera yields no frame (`cap.read()` failing, then `cap.release()`) is not modelled. The code does not release an open writer at that point.
