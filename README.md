# Hand gesture photo capture — verified model of the per-frame core

This project models the decision logic of `HandPhotoApp.process_video` in
`hand_photo_capture.py.py`. The application watches a mirrored camera feed. It
looks for a hand holding up two fingers with the thumb folded. When it sees
that pose, it counts down 5 seconds and saves one snapshot as
`captured_photos/photo_YYYYMMDD_HHMMSS.jpg`. It takes no further photo until
the pose has been dropped.

The model has two parts, as the loop body has:

- **Gesture classifier** (`gesture.dfy`, module `Gesture`). A hand is 21
  normalised landmarks.
  - The thumb test's direction depends on which half of the frame the wrist
    is in.
  - A fingertip (8, 12, 16, 20) is up when it lies above the landmark two
    indices below it.
  - The frame shows the gesture when some hand has exactly two fingertips up
    and the thumb not extended.
  - `ClassifyHand`, `CountExtendedFingers` and `DetectTwoFingers` are the
    source's statements and loops. They are proved against the predicates
    `ThumbExtended`, `RaisedTips`, `TwoFingerPose` and `GestureInFrame`.
- **Capture state machine** (`capture.dfy`, module `Capture`). Its state is
  `countdown_start` and `photo_taken`.
  - `Arm`, `Check` and `Rearm` are the three blocks of lines 104-125 as
    functions. `Next`, their composition, is one pass of the block.
  - The status a frame sets is a `Status` value. `StatusText` renders it as
    the label text.
  - A photo is recorded by the wall-clock time that names it. `PhotoPath`
    turns that time into the file written.
  - `Run` applies `Next` over a sequence of frames and collects the capture
    times in order.
  - The class `HandPhotoApp` holds the fields the loop overwrites:
    `running`, `two_fingers_detected`, `countdown_start`, `photo_taken` and
    the status label's text.
  - Its methods `ArmCountdown`, `CheckCountdown` and `RearmCapture` are the
    three blocks on those fields. `UpdateCountdown`, `ProcessFrame` and
    `ProcessVideo` are proved to move the object exactly as `Next` and
    `Run` say, writing the photo files in order.
  - A ghost counter `heldCaptures` counts the captures fired while the
    gesture is held. The object invariant keeps it at most 1.
- **Photo naming** (`timestamp.dfy`, `text.dfy`). This covers
  `strftime("%Y%m%d_%H%M%S")` with zero-padded fields and POSIX
  `os.path.join`. The stamp parses back to the time it was made from, so
  different seconds give different files.

Timestamps are `real`. Only subtraction and comparison are used on them.
Each frame carries the clock readings it takes:

- `time.time()` when a countdown starts (line 106);
- `time.time()` when the countdown is checked (line 110);
- `datetime.now()` when the photo is named (line 116).

The model follows the code in these places:

- A running countdown is not cancelled when the gesture goes away. It still
  fires, and `photo_taken` is cleared again in the same frame.
- The result of `cv2.imwrite` is ignored. Every expired countdown counts as
  a photo written.
- Start/stop leaves `countdown_start` and `photo_taken` as they were.
- `countdown_start` is tested for Python truth. A start time of `0.0`
  therefore reads as "no countdown": it is restarted on the next gesture
  frame and never expires.
- The status label keeps the last text written in a frame. On the frame
  that starts a countdown, "Two fingers detected! ..." is immediately
  replaced by the countdown text.
- The countdown shows `int(remaining) + 1`, the least whole number above
  `remaining`. It is at most 5 once any time has passed since the start. It
  is 6 on a frame whose two clock readings coincide.
- Every detected hand is classified, not only the first. The detector is
  configured for at most one hand, so the two agree.

## Model

| member | source | states |
|---|---|---|
| `Gesture.ClassifyHand` | hand_photo_capture.py.py:79-98 | the thumb flag is true iff the wrist is left of 0.5 and tip 4 is right of joint 2, or the wrist is at or right of 0.5 and tip 4 is left of joint 2; the finger count is the number of raised fingertips (at most 4); the pose holds iff the count is 2 and the thumb is not extended |
| `Gesture.CountExtendedFingers` | hand_photo_capture.py.py:93-96 | the loop's count equals the size of the set of tips among 8, 12, 16, 20 whose y is below (above on screen) that of landmark tip-2, and is at most 4 |
| `Gesture.RaisedAmongAppend` | hand_photo_capture.py.py:94-96 | looking at one more fingertip, not looked at before, adds one to the count exactly when that tip is above its lower joint |
| `Gesture.DetectTwoFingers` | hand_photo_capture.py.py:74-99 | the flag, cleared first and set by each qualifying hand in turn, ends equal to the in-order scan `GestureInFrame` |
| `Gesture.GestureInFrameSomeHand` | hand_photo_capture.py.py:76-98 | the scan finds the gesture iff some detected hand, at any position, shows the two-finger pose |
| `Gesture.RaisedTipsAtMostFour` | hand_photo_capture.py.py:79-96 | for any landmarks, at most four fingertips count as raised |
| `Gesture.ThumbLevelNotExtended` | hand_photo_capture.py.py:86-91 | a thumb tip level with its joint is never extended, whichever side the wrist is on |
| `Gesture.NoHandNoGesture` | hand_photo_capture.py.py:74-76 | a frame with no detected hand never shows the gesture |
| `Capture.CountdownSeconds` | hand_photo_capture.py.py:111-113 | for positive `remaining`, `int(remaining)+1` is at least 1 and is the whole number d with d-1 <= remaining < d |
| `Capture.Next` | hand_photo_capture.py.py:104-125 | one frame keeps "no countdown while the photo is taken"; afterwards the photo mark is set only on a gesture frame and only if it was set already or this frame captured; a capture is named by the frame's wall-clock time, clears the countdown and leaves the saved status for that time as the frame's last status |
| `Capture.Run` | hand_photo_capture.py.py:62-125 | over any frames, at most one photo per frame is taken, and a session without a countdown while the photo is taken stays so |
| `Capture.IdleStaysIdle` | hand_photo_capture.py.py:105-125 | a frame without the gesture and with no countdown and no photo changes nothing, captures nothing and sets no status |
| `Capture.CountdownStartRule` | hand_photo_capture.py.py:105-107 | the start time changes without a capture only on a gesture frame with no countdown running and no photo taken, and then it becomes the frame's start reading; and such a frame always starts the countdown unless it captures at once |
| `Capture.ZeroStartReadsAsNoCountdown` | hand_photo_capture.py.py:105-113 | a start time of 0.0 tests false, so it acts as no countdown: a frame without the gesture keeps it, captures nothing and sets no status, and a gesture frame that captures nothing restarts the countdown at its own start reading |
| `Capture.CountdownShowsSeconds` | hand_photo_capture.py.py:109-113 | while a running countdown has time left, nothing is captured, the start time is kept, and the status is the countdown with d >= 1 seconds, d being `int(remaining)+1` |
| `Capture.CountdownDisplayBounds` | hand_photo_capture.py.py:110-113 | the shown count is at most 5 when the check reading is after the start, and 6 when the two coincide |
| `Capture.ExpiryCaptures` | hand_photo_capture.py.py:109-121 | an expired countdown takes exactly one photo, named by the frame's wall-clock time, reports it saved, clears the start time and leaves the photo mark equal to the gesture flag, whatever the gesture reads |
| `Capture.NoCaptureAfterPhoto` | hand_photo_capture.py.py:105-125 | once the photo is taken (and so no countdown runs), no frame captures, and a gesture frame leaves the state unchanged |
| `Capture.HeldGestureCapturesAtMostOnce` | hand_photo_capture.py.py:104-125 | over any run of consecutive gesture frames at most one photo is taken, none if the photo was already taken, and after a capture the photo mark stays set |
| `Capture.HeldCountdown` | hand_photo_capture.py.py:104-125 | from a countdown started at t0 (or from idle when the first frame starts it at t0), a held gesture takes exactly one photo iff some frame checks at least 5 s after t0, and otherwise none, leaving the countdown running |
| `Capture.HeldGestureCapturesOnce` | hand_photo_capture.py.py:104-125 | from idle, a gesture held from its first frame takes exactly one photo iff some frame is 5 s past the onset, never more |
| `Capture.ThreeSecondsLeftShowsFour` | hand_photo_capture.py.py:110-113 | three seconds before expiry the status is a countdown of 4 seconds, shown as "Capturing in 4 seconds..." |
| `Capture.HeldThenCaptured` | hand_photo_capture.py.py:104-121 | frames at 0 s (no gesture), then 1, 3 and 6 s (gesture) start the countdown at 1 s (the session after the first two frames) and take one photo at 6 s, named by that frame's wall-clock time |
| `Capture.HeldThenReleased` | hand_photo_capture.py.py:104-125 | the same frames followed by 6.5 s (gesture) and 7 s (no gesture) take no second photo and end idle and re-armed |
| `Capture.HandPhotoApp.constructor` | hand_photo_capture.py.py:22-39 | a new application is stopped, idle, has shown "Press Start to begin", saves under "captured_photos" and has written nothing |
| `Capture.HandPhotoApp.ToggleStartStop` | hand_photo_capture.py.py:46-60 | start/stop flips `running` and the status text and leaves the countdown, the photo mark and the gesture flag untouched |
| `Capture.HandPhotoApp.ArmCountdown` | hand_photo_capture.py.py:104-106 | the fields become what `Arm` gives, with the detected text on the label when a countdown starts; nothing is written |
| `Capture.HandPhotoApp.CheckCountdown` | hand_photo_capture.py.py:109-121 | the fields become what `Check` gives; a capture writes the file `PhotoPath` names for the frame's wall-clock time, puts "Photo saved as" that path on the label, and counts one capture of the held gesture |
| `Capture.HandPhotoApp.RearmCapture` | hand_photo_capture.py.py:124-125 | without the gesture the photo mark is cleared and the held-gesture capture count drops to 0; nothing else changes |
| `Capture.HandPhotoApp.UpdateCountdown` | hand_photo_capture.py.py:104-125 | the fields become exactly what `Next` gives for the old state, the label shows the text of the last status the frame set, every capture appends its file to the photos written, and the held-gesture capture count stays at most 1 |
| `Capture.HandPhotoApp.ProcessFrame` | hand_photo_capture.py.py:72-125 | the gesture flag becomes the classifier's verdict on the frame's hands, and the state then moves as `Next` says |
| `Capture.HandPhotoApp.ProcessVideo` | hand_photo_capture.py.py:62-141 | after all frames the state is that of `Run` over the frames, the files written are those `PhotoPath` names for `Run`'s capture times, in order, the gesture flag is the last frame's verdict (unchanged when there is no frame), and the clean-up leaves the application stopped with "Camera stopped" |
| `Text.NatToString` | hand_photo_capture.py.py:113 | the decimal text of a number is non-empty, all digits, without a leading zero, and one digit long iff the number is below 10 |
| `Text.NatToStringValue` | hand_photo_capture.py.py:113 | the decimal text reads back as the number |
| `Text.NatToStringLength` | hand_photo_capture.py.py:116 | the decimal text of n has at most k digits iff n < 10^k |
| `Text.ZeroPad` | hand_photo_capture.py.py:116 | a padded field is all digits, at least as wide as asked, and exactly that wide for a value below 10^width |
| `Text.ZeroPadValue` | hand_photo_capture.py.py:116 | a padded field reads back as the value, whatever the width |
| `Timestamp.DatePart` | hand_photo_capture.py.py:116 | `%Y%m%d` of a valid time is 8 digits |
| `Timestamp.TimePart` | hand_photo_capture.py.py:116 | `%H%M%S` of a valid time is 6 digits |
| `Timestamp.Stamp` | hand_photo_capture.py.py:116 | the stamp of a valid time is 15 characters: 8 digits, an underscore, 6 digits |
| `Timestamp.StampRoundTrip` | hand_photo_capture.py.py:116 | parsing the stamp of a valid time gives that time back |
| `Timestamp.StampInjective` | hand_photo_capture.py.py:116 | two valid times have the same stamp iff they are the same second |
| `Timestamp.PathJoin` | hand_photo_capture.py.py:117 | an absolute name replaces the directory; otherwise the path is the directory, then exactly one '/' iff the directory is non-empty and does not end in '/', then the name |
| `Timestamp.PhotoPath` | hand_photo_capture.py.py:116-117 | the photo path is the directory, its separator, then `photo_`, the stamp and `.jpg` |
| `Timestamp.PhotoPathInjective` | hand_photo_capture.py.py:116-117 | under one directory two valid times give the same photo path iff they are the same second |

## Left out

- Camera acquisition and image handling (`cv2.VideoCapture`, `read`, `flip`, `cvtColor`, `release`, `isOpened`) are device I/O. The frames a camera delivers before it closes or a read fails are the `frames` given to `ProcessVideo`.
- MediaPipe detection and landmark drawing are an opaque model. Its output is taken as given: a sequence of 21-landmark hands per frame. The landmarks' z coordinate is unused by the source and not modelled.
- Tkinter (labels, canvas, buttons, `update_gui`, `mainloop`) is UI plumbing. Only the status label's text is kept, as a field.
- Threading and `time.sleep(0.03)` are concurrency and pacing. `ProcessVideo` runs sequentially, so a stop pressed while the loop runs is not modelled. `ToggleStartStop` models only the flag and the status text, not the camera handle.
- `time.time()`, `datetime.now()`, `cv2.imwrite` and `os.makedirs` are foreign calls. Clock readings are parameters. The write is the photo path returned and appended to the ghost list `saved`; the image written is not modelled.
- `Timestamp.WellFormed` allows any day from 1 to 31 in any month. Python's `datetime` also checks the month's length, which never affects the name's format.
- `Timestamp.Stamp` pads the year to four digits, as Python documents for `%Y`. Some C libraries print years below 1000 unpadded.
- `Timestamp.PathJoin` models the POSIX separator only. On Windows, `os.path.join` uses a backslash.
