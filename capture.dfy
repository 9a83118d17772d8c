/**
 * The countdown and capture state machine of `HandPhotoApp.process_video`
 * (lines 104-125), first as a step function over the session state, then
 * as the application object whose fields the processing loop updates in
 * place.
 */
module Capture {
  import opened Optional
  import opened Text
  import opened Timestamp
  import opened Gesture

  /** How long the gesture must be held before the shot, in seconds. */
  const HoldSeconds: real := 5.0
  const SaveDir := "captured_photos"

  /**
   * The clocks one frame reads: `time.time()` when a countdown is started
   * (line 106), `time.time()` again when it is checked (line 110), and
   * `datetime.now()` when a photo is named (line 116).
   */
  datatype FrameClock = FrameClock(startReading: real, checkReading: real, wallTime: DateTime)

  /** The fields `countdown_start` and `photo_taken`. */
  datatype Session = Session(countdownStart: Option<real>, photoTaken: bool)

  /** The three messages the frame loop puts on the status label; a saved photo is known by the time that names it. */
  datatype Status = Detected | CountingDown(seconds: nat) | Saved(shot: DateTime)

  /**
   * What a frame leaves behind: the new session, the status it last set (if
   * any), and the wall-clock time of the photo it took (if any), which names
   * the file.
   */
  datatype StepResult = StepResult(session: Session, status: Option<Status>, shot: Option<DateTime>)

  /** One frame as the state machine sees it: its clocks and its gesture flag. */
  datatype Tick = Tick(clock: FrameClock, gesture: bool)

  datatype RunResult = RunResult(session: Session, shots: seq<DateTime>)

  const Idle := Session(None, false)

  /** Python's truth value of `self.countdown_start`: `None` and `0.0` both read as "no countdown". */
  predicate CountdownRunning(start: Option<real>): (running: bool)
    ensures start == None ==> !running
    ensures start == Some(0.0) ==> !running
    ensures start.Some? && start.value != 0.0 ==> running
  {
    start.Some? && start.value != 0.0
  }

  /** No countdown runs while a photo of the current gesture is already taken. */
  predicate Consistent(s: Session) {
    s.photoTaken ==> s.countdownStart == None
  }

  function Remaining(start: real, now: real): real {
    HoldSeconds - (now - start)
  }

  /** `int(remaining) + 1` for a positive `remaining`: the least whole number of seconds above it. */
  function CountdownSeconds(remaining: real): (d: nat)
    requires remaining > 0.0
    ensures d >= 1
    ensures (d - 1) as real <= remaining < d as real
  {
    remaining.Floor + 1
  }

  /** The label text of each status (lines 108, 113 and 119), for photos saved under `dir`. */
  function StatusText(dir: string, st: Status): string {
    match st
    case Detected => "Two fingers detected! Capturing in 5 seconds..."
    case CountingDown(seconds) => "Capturing in " + NatToString(seconds) + " seconds..."
    case Saved(shot) => "Photo saved as " + PhotoPath(dir, shot)
  }

  /** Lines 104-106: an armed gesture starts a countdown at the frame's first clock reading and says so. */
  function Arm(s: Session, clock: FrameClock, gesture: bool): StepResult {
    if gesture && !CountdownRunning(s.countdownStart) && !s.photoTaken then
      StepResult(Session(Some(clock.startReading), s.photoTaken), Some(Detected), None)
    else
      StepResult(s, None, None)
  }

  /**
   * Lines 109-121: a running countdown shows its whole seconds left or, once
   * expired, takes the photo, clears the start time and marks the photo taken.
   */
  function Check(s: Session, clock: FrameClock): StepResult {
    if CountdownRunning(s.countdownStart) then
      var remaining := Remaining(s.countdownStart.value, clock.checkReading);
      if remaining > 0.0 then
        StepResult(s, Some(CountingDown(CountdownSeconds(remaining))), None)
      else
        StepResult(Session(None, true), Some(Saved(clock.wallTime)), Some(clock.wallTime))
    else
      StepResult(s, None, None)
  }

  /** Lines 124-125: a frame without the gesture clears the photo mark, which re-arms the capture. */
  function Rearm(s: Session, gesture: bool): Session {
    if !gesture && s.photoTaken then s.(photoTaken := false) else s
  }

  /**
   * One pass of lines 104-125: the three blocks in order, the status being
   * the last one written. A countdown starts on an armed gesture; a running
   * countdown shows its seconds or, once expired, fires the capture whatever
   * the gesture; a frame without the gesture re-arms.
   */
  function Next(s: Session, clock: FrameClock, gesture: bool): (r: StepResult)
    ensures Consistent(s) ==> Consistent(r.session)
    ensures r.session.photoTaken ==> gesture
    ensures r.session.photoTaken ==> s.photoTaken || r.shot.Some?
    ensures r.shot.Some? ==> r.shot == Some(clock.wallTime) && r.session.countdownStart == None
    ensures r.shot.Some? ==> r.status == Some(Saved(clock.wallTime))
  {
    var armed := Arm(s, clock, gesture);
    var checked := Check(armed.session, clock);
    StepResult(Rearm(checked.session, gesture), if checked.status.Some? then checked.status else armed.status, checked.shot)
  }

  /**
   * The state machine over a sequence of frames: the final session and the
   * times of the photos taken, in order; no frame takes more than one, and
   * a consistent session stays consistent.
   */
  function Run(s: Session, ticks: seq<Tick>): (r: RunResult)
    ensures |r.shots| <= |ticks|
    ensures Consistent(s) ==> Consistent(r.session)
  {
    if ticks == [] then RunResult(s, [])
    else
      var before := Run(s, ticks[..|ticks| - 1]);
      var last := ticks[|ticks| - 1];
      var r := Next(before.session, last.clock, last.gesture);
      RunResult(r.session, before.shots + if r.shot.Some? then [r.shot.value] else [])
  }

  // ----- one frame -----

  /** A frame without the gesture in the idle state changes nothing and shows nothing. */
  lemma IdleStaysIdle(clock: FrameClock)
    ensures Next(Idle, clock, false) == StepResult(Idle, None, None)
  {
  }

  /**
   * A countdown is started (at the frame's start reading) only on a gesture
   * frame with no countdown running and no photo taken; otherwise the start
   * time stays as it was, unless the capture clears it.
   */
  lemma CountdownStartRule(s: Session, clock: FrameClock, gesture: bool)
    ensures var r := Next(s, clock, gesture);
      r.shot.None? && r.session.countdownStart != s.countdownStart ==>
        gesture && !CountdownRunning(s.countdownStart) && !s.photoTaken &&
        r.session.countdownStart == Some(clock.startReading)
    ensures var r := Next(s, clock, gesture);
      gesture && !CountdownRunning(s.countdownStart) && !s.photoTaken && r.shot.None? ==>
        r.session.countdownStart == Some(clock.startReading)
  {
  }

  /**
   * A start time of 0.0 reads as "no countdown": a frame without the gesture
   * leaves it in place, captures nothing and shows nothing, and a gesture
   * frame that captures nothing restarts it at that frame's start reading.
   */
  lemma ZeroStartReadsAsNoCountdown(clock: FrameClock)
    ensures Next(Session(Some(0.0), false), clock, false) == StepResult(Session(Some(0.0), false), None, None)
    ensures var r := Next(Session(Some(0.0), false), clock, true);
      r.shot.None? ==> r.session.countdownStart == Some(clock.startReading)
  {
  }

  /**
   * While a running countdown has time left, nothing is captured, the start
   * time is kept, and the status shows a whole number of seconds from 1 up.
   */
  lemma CountdownShowsSeconds(s: Session, clock: FrameClock, gesture: bool)
    requires CountdownRunning(s.countdownStart)
    requires Remaining(s.countdownStart.value, clock.checkReading) > 0.0
    ensures var r := Next(s, clock, gesture);
      var d := CountdownSeconds(Remaining(s.countdownStart.value, clock.checkReading));
      r.shot == None && r.session.countdownStart == s.countdownStart &&
      d >= 1 && r.status == Some(CountingDown(d))
  {
  }

  /**
   * The shown count is at most 5 once any time has passed since the start,
   * and 6 on a frame whose two clock readings coincide.
   */
  lemma CountdownDisplayBounds(start: real, now: real)
    requires Remaining(start, now) > 0.0
    ensures start < now ==> CountdownSeconds(Remaining(start, now)) <= 5
    ensures start == now ==> CountdownSeconds(Remaining(start, now)) == 6
  {
  }

  /**
   * An expired countdown fires exactly one capture, clears the start time
   * and marks the photo taken, whatever the gesture reads on that frame
   * (on a frame without it, the mark is cleared again at once).
   */
  lemma ExpiryCaptures(s: Session, clock: FrameClock, gesture: bool)
    requires CountdownRunning(s.countdownStart)
    requires Remaining(s.countdownStart.value, clock.checkReading) <= 0.0
    ensures Next(s, clock, gesture) ==
      StepResult(Session(None, gesture), Some(Saved(clock.wallTime)), Some(clock.wallTime))
  {
  }

  /** Once the photo of a gesture is taken, no frame captures again; a gesture frame keeps that state. */
  lemma NoCaptureAfterPhoto(s: Session, clock: FrameClock, gesture: bool)
    requires Consistent(s) && s.photoTaken
    ensures Next(s, clock, gesture).shot == None
    ensures gesture ==> Next(s, clock, gesture).session == s
  {
  }

  // ----- many frames -----

  predicate AllGesture(ticks: seq<Tick>) {
    forall i :: 0 <= i < |ticks| ==> ticks[i].gesture
  }

  /**
   * Over an unbroken run of gesture frames, at most one capture fires, and
   * none at all if the photo was already taken when the run began.
   */
  lemma {:induction false} HeldGestureCapturesAtMostOnce(s: Session, ticks: seq<Tick>)
    requires Consistent(s) && AllGesture(ticks)
    ensures var r := Run(s, ticks);
      Consistent(r.session) && |r.shots| <= (if s.photoTaken then 0 else 1) &&
      (|r.shots| == 1 ==> r.session.photoTaken)
    ensures s.photoTaken ==> Run(s, ticks).session.photoTaken
  {
    if ticks != [] {
      var prefix := ticks[..|ticks| - 1];
      assert AllGesture(prefix);
      HeldGestureCapturesAtMostOnce(s, prefix);
      var before := Run(s, prefix);
      var last := ticks[|ticks| - 1];
      if before.session.photoTaken {
        NoCaptureAfterPhoto(before.session, last.clock, last.gesture);
      }
    }
  }

  /** The time the first frame of a held gesture starts the countdown at, from the idle state. */
  function OnsetTime(ticks: seq<Tick>): real
    requires ticks != []
  {
    ticks[0].clock.startReading
  }

  predicate ExpiresWithin(t0: real, ticks: seq<Tick>) {
    exists i :: 0 <= i < |ticks| && Remaining(t0, ticks[i].clock.checkReading) <= 0.0
  }

  /**
   * From a countdown started at `t0` (or from idle, when the first frame
   * starts it at `t0`), a held gesture yields exactly one photo if some
   * frame's check reading is at least 5 seconds past `t0`, and none
   * otherwise; the session then rests with the photo taken.
   */
  lemma {:induction false} HeldCountdown(s: Session, t0: real, ticks: seq<Tick>)
    requires AllGesture(ticks) && t0 != 0.0
    requires s == Session(Some(t0), false) || (s == Idle && ticks != [] && OnsetTime(ticks) == t0)
    ensures var r := Run(s, ticks);
      |r.shots| == (if ExpiresWithin(t0, ticks) then 1 else 0) &&
      r.session == (if ExpiresWithin(t0, ticks) then Session(None, true) else if ticks == [] then s else Session(Some(t0), false))
  {
    if ticks != [] {
      var prefix := ticks[..|ticks| - 1];
      var last := ticks[|ticks| - 1];
      assert AllGesture(prefix);
      if prefix == [] {
        assert ExpiresWithin(t0, ticks) <==> Remaining(t0, last.clock.checkReading) <= 0.0;
      } else {
        assert s == Idle ==> OnsetTime(prefix) == t0;
        HeldCountdown(s, t0, prefix);
        var before := Run(s, prefix);
        assert ExpiresWithin(t0, ticks) <==> ExpiresWithin(t0, prefix) || Remaining(t0, last.clock.checkReading) <= 0.0;
        if ExpiresWithin(t0, prefix) {
          NoCaptureAfterPhoto(before.session, last.clock, last.gesture);
        }
      }
    }
  }

  /**
   * A gesture held from its first frame fires exactly one capture once a
   * frame is 5 seconds past its onset, and never another while it is held.
   */
  lemma HeldGestureCapturesOnce(ticks: seq<Tick>)
    requires ticks != [] && AllGesture(ticks) && OnsetTime(ticks) != 0.0
    ensures |Run(Idle, ticks).shots| == if ExpiresWithin(OnsetTime(ticks), ticks) then 1 else 0
  {
    HeldCountdown(Idle, OnsetTime(ticks), ticks);
  }

  /** `Run` over one more frame is the step function applied after it. */
  lemma RunExtend(s: Session, ticks: seq<Tick>, i: nat)
    requires i < |ticks|
    ensures var before := Run(s, ticks[..i]);
      var r := Next(before.session, ticks[i].clock, ticks[i].gesture);
      Run(s, ticks[..i + 1]) == RunResult(r.session, before.shots + if r.shot.Some? then [r.shot.value] else [])
  {
    assert ticks[..i + 1][..i] == ticks[..i];
  }

  function At(t: real, gesture: bool, wall: DateTime): Tick {
    Tick(FrameClock(t, t, wall), gesture)
  }

  /** Three seconds into a countdown started at 1 s, the status reads 4 seconds. */
  lemma ThreeSecondsLeftShowsFour(dir: string, wall: DateTime)
    ensures var r := Next(Session(Some(1.0), false), FrameClock(3.0, 3.0, wall), true);
      r.status == Some(CountingDown(4)) && StatusText(dir, r.status.value) == "Capturing in 4 seconds..."
  {
    assert Remaining(1.0, 3.0) == 3.0;
    assert CountdownSeconds(3.0) == 4;
    assert NatToString(4) == "4";
    assert "Capturing in " + "4" + " seconds..." == "Capturing in 4 seconds...";
  }

  /**
   * A worked run, one clock reading per frame: no gesture at 0 s; the
   * gesture from 1 s, captured at 6 s under that frame's wall-clock time;
   * still held at 6.5 s; dropped at 7 s.
   */
  function ReleaseScenario(w: seq<DateTime>): seq<Tick>
    requires |w| == 6
  {
    [At(0.0, false, w[0]), At(1.0, true, w[1]), At(3.0, true, w[2]),
     At(6.0, true, w[3]), At(6.5, true, w[4]), At(7.0, false, w[5])]
  }

  /** The first four frames of the worked run: the countdown starts at 1 s, shows 4 s at 3 s, and fires at 6 s. */
  lemma HeldThenCaptured(w: seq<DateTime>)
    requires |w| == 6
    ensures Run(Idle, ReleaseScenario(w)[..2]) == RunResult(Session(Some(1.0), false), [])
    ensures Run(Idle, ReleaseScenario(w)[..4]) == RunResult(Session(None, true), [w[3]])
  {
    var ticks := ReleaseScenario(w);
    assert ticks[..0] == [];
    RunExtend(Idle, ticks, 0);
    assert Run(Idle, ticks[..1]) == RunResult(Idle, []);
    RunExtend(Idle, ticks, 1);
    assert Run(Idle, ticks[..2]) == RunResult(Session(Some(1.0), false), []);
    RunExtend(Idle, ticks, 2);
    assert Remaining(1.0, 3.0) > 0.0;
    assert Run(Idle, ticks[..3]) == RunResult(Session(Some(1.0), false), []);
    RunExtend(Idle, ticks, 3);
    assert Remaining(1.0, 6.0) <= 0.0;
  }

  /** The whole worked run: one photo, named by the 6 s frame, none at 6.5 s, and the drop at 7 s re-arms. */
  lemma HeldThenReleased(w: seq<DateTime>)
    requires |w| == 6
    ensures Run(Idle, ReleaseScenario(w)) == RunResult(Idle, [w[3]])
  {
    var ticks := ReleaseScenario(w);
    HeldThenCaptured(w);
    RunExtend(Idle, ticks, 4);
    assert Run(Idle, ticks[..5]) == RunResult(Session(None, true), [w[3]]);
    RunExtend(Idle, ticks, 5);
    assert ticks[..6] == ticks;
  }

  /** The files the photos taken at `shots` are written to, in order. */
  function Paths(dir: string, shots: seq<DateTime>): (paths: seq<string>)
    ensures |paths| == |shots|
  {
    if shots == [] then [] else Paths(dir, shots[..|shots| - 1]) + [PhotoPath(dir, shots[|shots| - 1])]
  }

  lemma PathsSnoc(dir: string, shots: seq<DateTime>, t: DateTime)
    ensures Paths(dir, shots + [t]) == Paths(dir, shots) + [PhotoPath(dir, t)]
  {
    assert (shots + [t])[..|shots|] == shots;
  }

  // ----- the application object -----

  /** One frame from the camera as the core sees it: the detected hands and the clock readings. */
  datatype VideoFrame = VideoFrame(hands: seq<Hand>, clock: FrameClock)

  function Ticks(frames: seq<VideoFrame>): seq<Tick> {
    seq(|frames|, i requires 0 <= i < |frames| => Tick(frames[i].clock, GestureInFrame(frames[i].hands)))
  }

  /** `RunExtend` for the frames of a video: one more frame is one more step on its classified hands. */
  lemma RunExtendFrames(s: Session, frames: seq<VideoFrame>, i: nat)
    requires i < |frames|
    ensures var before := Run(s, Ticks(frames)[..i]);
      var r := Next(before.session, frames[i].clock, GestureInFrame(frames[i].hands));
      Run(s, Ticks(frames)[..i + 1]) == RunResult(r.session, before.shots + if r.shot.Some? then [r.shot.value] else [])
  {
    RunExtend(s, Ticks(frames), i);
  }

  /** Stated apart so that `FollowedStep` need not find it among its sequence facts. */
  lemma AppendAssociative<T>(a: seq<T>, b: seq<T>, c: seq<T>)
    ensures (a + b) + c == a + (b + c)
  {
  }

  /**
   * The bookkeeping of one more frame: if the files before it are those of
   * the photos taken over the earlier frames, and the frame writes the
   * photo its step takes, the files are those of the photos taken over
   * both.
   */
  lemma FollowedStep(s0: Session, dir: string, frames: seq<VideoFrame>, i: nat, saved0: seq<string>,
                     savedBefore: seq<string>, photo: Option<string>)
    requires i < |frames|
    requires savedBefore == saved0 + Paths(dir, Run(s0, Ticks(frames)[..i]).shots)
    requires var r := Next(Run(s0, Ticks(frames)[..i]).session, frames[i].clock, GestureInFrame(frames[i].hands));
      photo == if r.shot.Some? then Some(PhotoPath(dir, r.shot.value)) else None
    ensures var after := Run(s0, Ticks(frames)[..i + 1]);
      after.session == Next(Run(s0, Ticks(frames)[..i]).session, frames[i].clock, GestureInFrame(frames[i].hands)).session &&
      savedBefore + (if photo.Some? then [photo.value] else []) == saved0 + Paths(dir, after.shots)
  {
    var before := Run(s0, Ticks(frames)[..i]);
    var r := Next(before.session, frames[i].clock, GestureInFrame(frames[i].hands));
    var after := Run(s0, Ticks(frames)[..i + 1]);
    RunExtendFrames(s0, frames, i);
    if r.shot.Some? {
      assert after.shots == before.shots + [r.shot.value];
      PathsSnoc(dir, before.shots, r.shot.value);
      AppendAssociative(saved0, Paths(dir, before.shots), [photo.value]);
    } else {
      assert after.shots == before.shots;
    }
  }

  /**
   * `HandPhotoApp` without its camera, detector and widgets: the flags the
   * processing loop overwrites, the status label's text, and, as ghost
   * state, the photos written and the captures of the gesture now held.
   */
  class HandPhotoApp {
    var running: bool
    var twoFingersDetected: bool
    var countdownStart: Option<real>
    var photoTaken: bool
    var status: string
    const saveDir: string
    ghost var saved: seq<string>
    ghost var heldCaptures: nat

    ghost function State(): Session
      reads this
    {
      Session(countdownStart, photoTaken)
    }

    /** At most one capture per held gesture, and the photo mark stands for that capture. */
    ghost predicate Valid()
      reads this
    {
      Consistent(State()) && heldCaptures <= 1 && (photoTaken <==> heldCaptures == 1)
    }

    constructor ()
      ensures Valid() && !running && !twoFingersDetected && State() == Idle
      ensures status == "Press Start to begin" && saveDir == SaveDir && saved == []
    {
      running := false;
      twoFingersDetected := false;
      countdownStart := None;
      photoTaken := false;
      status := "Press Start to begin";
      saveDir := SaveDir;
      saved := [];
      heldCaptures := 0;
    }

    /** Start or stop the camera; the countdown and the photo mark are left as they are. */
    method ToggleStartStop()
      modifies this
      ensures running == !old(running)
      ensures status == if running then "Camera starting..." else "Camera stopped"
      ensures State() == old(State()) && twoFingersDetected == old(twoFingersDetected)
      ensures saved == old(saved) && heldCaptures == old(heldCaptures)
    {
      if !running {
        running := true;
        status := "Camera starting...";
      } else {
        running := false;
        status := "Camera stopped";
      }
    }

    /** Lines 104-106 on the object's fields. */
    method ArmCountdown(clock: FrameClock)
      requires Valid()
      modifies this
      ensures Valid() && running == old(running) && twoFingersDetected == old(twoFingersDetected)
      ensures var r := Arm(old(State()), clock, twoFingersDetected);
        State() == r.session &&
        status == (if r.status.Some? then StatusText(saveDir, r.status.value) else old(status))
      ensures saved == old(saved) && heldCaptures == old(heldCaptures)
    {
      if twoFingersDetected && !CountdownRunning(countdownStart) && !photoTaken {
        countdownStart := Some(clock.startReading);
        status := StatusText(saveDir, Detected);
      }
    }

    /** Lines 109-121 on the object's fields: the photo, if one is taken, is written to its file. */
    method CheckCountdown(clock: FrameClock) returns (photo: Option<string>)
      requires Valid()
      modifies this
      ensures Valid() && running == old(running) && twoFingersDetected == old(twoFingersDetected)
      ensures var r := Check(old(State()), clock);
        State() == r.session &&
        photo == (if r.shot.Some? then Some(PhotoPath(saveDir, r.shot.value)) else None) &&
        status == (if r.status.Some? then StatusText(saveDir, r.status.value) else old(status))
      ensures saved == old(saved) + if photo.Some? then [photo.value] else []
      ensures heldCaptures == old(heldCaptures) + if photo.Some? then 1 else 0
    {
      photo := None;
      if CountdownRunning(countdownStart) {
        var remaining := Remaining(countdownStart.value, clock.checkReading);
        if remaining > 0.0 {
          status := StatusText(saveDir, CountingDown(CountdownSeconds(remaining)));
        } else {
          var path := PhotoPath(saveDir, clock.wallTime);
          photo := Some(path);
          saved := saved + [path];
          status := StatusText(saveDir, Saved(clock.wallTime));
          countdownStart := None;
          photoTaken := true;
          heldCaptures := heldCaptures + 1;
        }
      }
    }

    /** Lines 124-125 on the object's fields: dropping the gesture ends the capture it had. */
    method RearmCapture()
      requires Valid()
      modifies this
      ensures Valid() && running == old(running) && twoFingersDetected == old(twoFingersDetected)
      ensures State() == Rearm(old(State()), twoFingersDetected) && status == old(status) && saved == old(saved)
      ensures heldCaptures == if twoFingersDetected then old(heldCaptures) else 0
    {
      if !twoFingersDetected && photoTaken {
        photoTaken := false;
        heldCaptures := 0;
      }
    }

    /** Lines 104-125 on the object's fields, for the gesture flag the frame has set. */
    method UpdateCountdown(clock: FrameClock) returns (photo: Option<string>)
      requires Valid()
      modifies this
      ensures Valid()
      ensures running == old(running) && twoFingersDetected == old(twoFingersDetected)
      ensures var r := Next(old(State()), clock, twoFingersDetected);
        State() == r.session &&
        photo == (if r.shot.Some? then Some(PhotoPath(saveDir, r.shot.value)) else None) &&
        status == (if r.status.Some? then StatusText(saveDir, r.status.value) else old(status))
      ensures saved == old(saved) + if photo.Some? then [photo.value] else []
      ensures heldCaptures == if twoFingersDetected then old(heldCaptures) + (if photo.Some? then 1 else 0) else 0
    {
      ArmCountdown(clock);
      photo := CheckCountdown(clock);
      RearmCapture();
    }

    /** One iteration of the processing loop: classify the hands (lines 74-99), then update the countdown. */
    method ProcessFrame(frame: VideoFrame) returns (photo: Option<string>)
      requires Valid()
      modifies this
      ensures Valid()
      ensures running == old(running) && twoFingersDetected == GestureInFrame(frame.hands)
      ensures var r := Next(old(State()), frame.clock, GestureInFrame(frame.hands));
        State() == r.session &&
        photo == (if r.shot.Some? then Some(PhotoPath(saveDir, r.shot.value)) else None) &&
        status == (if r.status.Some? then StatusText(saveDir, r.status.value) else old(status))
      ensures saved == old(saved) + if photo.Some? then [photo.value] else []
    {
      twoFingersDetected := DetectTwoFingers(frame.hands);
      photo := UpdateCountdown(frame.clock);
    }

    /**
     * `process_video` over the frames the camera delivers before it closes
     * or a read fails: every frame goes through the state machine, the
     * photos it takes are written in order, then the loop's clean-up stops
     * the session.
     */
    method ProcessVideo(frames: seq<VideoFrame>)
      requires Valid() && running
      modifies this
      ensures Valid() && !running && status == "Camera stopped"
      ensures var r := Run(old(State()), Ticks(frames));
        State() == r.session && saved == old(saved) + Paths(saveDir, r.shots)
      ensures frames == [] ==> twoFingersDetected == old(twoFingersDetected)
      ensures frames != [] ==> twoFingersDetected == GestureInFrame(frames[|frames| - 1].hands)
    {
      ghost var s0, saved0 := State(), saved;
      var i := 0;
      // `self.running` of line 63: no stop request reaches this sequential loop, so it stays true.
      while running && i < |frames|
        invariant 0 <= i <= |frames| && running && Valid()
        invariant i == 0 ==> twoFingersDetected == old(twoFingersDetected)
        invariant i > 0 ==> twoFingersDetected == GestureInFrame(frames[i - 1].hands)
        invariant Followed(s0, saved0, Ticks(frames)[..i])
      {
        ProcessFrameAt(frames, i, s0, saved0);
        i := i + 1;
      }
      assert Ticks(frames)[..|frames|] == Ticks(frames);
      running := false;
      status := "Camera stopped";
    }

    /** Starting from session `s0` with `saved0` written, the object has been through `ticks`. */
    ghost predicate Followed(s0: Session, saved0: seq<string>, ticks: seq<Tick>)
      reads this
    {
      var r := Run(s0, ticks);
      State() == r.session && saved == saved0 + Paths(saveDir, r.shots)
    }

    /** The loop body on frame `i`, stated against `Run` over the frames before it. */
    method ProcessFrameAt(frames: seq<VideoFrame>, i: nat, ghost s0: Session, ghost saved0: seq<string>)
      requires i < |frames| && Valid() && Followed(s0, saved0, Ticks(frames)[..i])
      modifies this
      ensures Valid() && Followed(s0, saved0, Ticks(frames)[..i + 1])
      ensures running == old(running) && twoFingersDetected == GestureInFrame(frames[i].hands)
    {
      ghost var savedBefore := saved;
      var photo := ProcessFrame(frames[i]);
      FollowedStep(s0, saveDir, frames, i, saved0, savedBefore, photo);
    }
  }
}
