/**
 * The per-frame gesture classifier of `HandPhotoApp.process_video`: from the
 * hands the detector reports for one frame, decide whether the "two fingers
 * up, thumb folded" pose is shown.
 */
module Gesture {

  /** A normalised landmark: x and y as fractions of the frame's width and height (y grows downwards). */
  datatype Landmark = Landmark(x: real, y: real)

  /** One detected hand: the detector always reports its 21 landmarks. */
  type Hand = h: seq<Landmark> | |h| == 21 witness seq(21, _ => Landmark(0.0, 0.0))

  const Wrist := 0
  const ThumbJoint := 2
  const ThumbTip := 4
  /** Index, middle, ring and pinky fingertips; each one's lower joint is two landmarks before it. */
  const FingerTips: seq<int> := [8, 12, 16, 20]

  /**
   * The thumb counts as extended when it points away from the palm: to the
   * right for a wrist on the left half of the mirrored frame, to the left
   * otherwise. Level with its joint, it never counts.
   */
  predicate ThumbExtended(h: Hand) {
    || (h[Wrist].x < 0.5 && h[ThumbTip].x > h[ThumbJoint].x)
    || (h[Wrist].x >= 0.5 && h[ThumbTip].x < h[ThumbJoint].x)
  }

  /** A finger is up when its tip lies higher in the frame than the joint two landmarks below it. */
  predicate FingerRaised(h: Hand, tip: int) {
    2 <= tip < |h| && h[tip].y < h[tip - 2].y
  }

  function RaisedAmong(h: Hand, tips: seq<int>): set<int> {
    set tip | tip in tips && FingerRaised(h, tip)
  }

  /** The fingertips (thumb excluded) that are up. */
  function RaisedTips(h: Hand): set<int> {
    RaisedAmong(h, FingerTips)
  }

  predicate TwoFingerPose(h: Hand) {
    |RaisedTips(h)| == 2 && !ThumbExtended(h)
  }

  /** The gesture is in the frame when, scanning the detected hands in order, one shows the pose; with no hand it is not. */
  predicate GestureInFrame(hands: seq<Hand>) {
    hands != [] && (GestureInFrame(hands[..|hands| - 1]) || TwoFingerPose(hands[|hands| - 1]))
  }

  /** The scan finds the gesture exactly when some hand, wherever it is in the list, shows the pose. */
  lemma {:induction false} GestureInFrameSomeHand(hands: seq<Hand>)
    ensures GestureInFrame(hands) <==> exists k :: 0 <= k < |hands| && TwoFingerPose(hands[k])
  {
    if hands != [] {
      var prefix := hands[..|hands| - 1];
      GestureInFrameSomeHand(prefix);
      assert forall k :: 0 <= k < |prefix| ==> prefix[k] == hands[k];
    }
  }

  /**
   * Lines 79-98 for one hand: the thumb test by wrist side, then the count
   * of raised fingertips, then the pose.
   */
  method ClassifyHand(h: Hand) returns (extendedFingers: nat, thumbExtended: bool, twoFingers: bool)
    ensures thumbExtended <==> ThumbExtended(h)
    ensures extendedFingers == |RaisedTips(h)| && extendedFingers <= 4
    ensures twoFingers <==> TwoFingerPose(h)
  {
    var handPos := h[Wrist].x;
    thumbExtended := false;
    if handPos < 0.5 {
      if h[ThumbTip].x > h[ThumbJoint].x {
        thumbExtended := true;
      }
    } else {
      if h[ThumbTip].x < h[ThumbJoint].x {
        thumbExtended := true;
      }
    }

    extendedFingers := CountExtendedFingers(h);
    twoFingers := extendedFingers == 2 && !thumbExtended;
  }

  /** Lines 93-96: one increment per fingertip above its lower joint. */
  method CountExtendedFingers(h: Hand) returns (extendedFingers: nat)
    ensures extendedFingers == |RaisedTips(h)| && extendedFingers <= 4
  {
    extendedFingers := 0;
    for i := 0 to |FingerTips|
      invariant extendedFingers == |RaisedAmong(h, FingerTips[..i])|
      invariant extendedFingers <= i
    {
      var tip := FingerTips[i];
      assert FingerTips[..i + 1] == FingerTips[..i] + [tip];
      RaisedAmongAppend(h, FingerTips[..i], tip);
      if h[tip].y < h[tip - 2].y {
        extendedFingers := extendedFingers + 1;
      }
    }
    assert FingerTips[..|FingerTips|] == FingerTips;
  }

  /** Looking at one more, new, fingertip counts it once if it is up. */
  lemma RaisedAmongAppend(h: Hand, tips: seq<int>, tip: int)
    requires tip !in tips
    ensures |RaisedAmong(h, tips + [tip])| == |RaisedAmong(h, tips)| + if FingerRaised(h, tip) then 1 else 0
  {
    assert RaisedAmong(h, tips + [tip]) == RaisedAmong(h, tips) + if FingerRaised(h, tip) then {tip} else {};
  }

  /**
   * Lines 74-99: the flag is cleared, then set by every hand that shows the
   * pose; it ends up true exactly when some hand does.
   */
  method DetectTwoFingers(hands: seq<Hand>) returns (detected: bool)
    ensures detected <==> GestureInFrame(hands)
  {
    detected := false;
    for i := 0 to |hands|
      invariant detected <==> GestureInFrame(hands[..i])
    {
      var _, _, twoFingers := ClassifyHand(hands[i]);
      if twoFingers {
        detected := true;
      }
      assert hands[..i + 1][..i] == hands[..i];
    }
    assert hands[..|hands|] == hands;
  }

  /** However the landmarks lie, at most the four fingertips are counted as up. */
  lemma RaisedTipsAtMostFour(h: Hand)
    ensures |RaisedTips(h)| <= 4
  {
    var all := {8, 12, 16, 20};
    assert RaisedTips(h) <= all;
    SubsetSize(RaisedTips(h), all);
  }

  lemma SubsetSize(a: set<int>, b: set<int>)
    requires a <= b
    ensures |a| <= |b|
  {
    assert b == a + (b - a);
    assert a * (b - a) == {};
  }

  /** A thumb tip level with its joint never counts as extended, on either side of the frame. */
  lemma ThumbLevelNotExtended(h: Hand)
    requires h[ThumbTip].x == h[ThumbJoint].x
    ensures !ThumbExtended(h)
  {
  }

  /** A frame with no detected hand never shows the gesture. */
  lemma NoHandNoGesture(hands: seq<Hand>)
    requires hands == []
    ensures !GestureInFrame(hands)
  {
  }
}
