/** Target tracking (`analysis/tracking.py`): the lost-frame state machine of
    `TargetTracker` and the padded crop box of `expand_box`. The CSRT tracker
    is an oracle: what its `update` and `init` return on a frame are
    parameters, and so is what the person detector sees on that frame. */
module Tracking {
  import opened Wrappers
  import opened Numeric
  import opened Boxes
  import opened Detection

  // ---------------------------------------------------------------------
  // expand_box

  /** `expand_box`: pad by `trunc(size * ratio)` on each side, then clamp the
      corner at 0 and the far edges at the frame size. */
  function ExpandBox(b: Box, frameWidth: int, frameHeight: int, paddingRatio: real): (r: Box)
    ensures r.x >= 0 && r.y >= 0
    ensures r.x + r.w <= frameWidth && r.y + r.h <= frameHeight
    ensures r.w <= b.w + 2 * Trunc(b.w as real * paddingRatio)
    ensures r.h <= b.h + 2 * Trunc(b.h as real * paddingRatio)
  {
    var padW := Trunc(b.w as real * paddingRatio);
    var padH := Trunc(b.h as real * paddingRatio);
    var newX := Max(0, b.x - padW);
    var newY := Max(0, b.y - padH);
    var newW := Min(frameWidth - newX, b.w + 2 * padW);
    var newH := Min(frameHeight - newY, b.h + 2 * padH);
    Box(newX, newY, newW, newH)
  }

  /** A box inside the frame is a sub-box of its expansion, and the expansion
      has non-negative size. */
  lemma ExpandBoxContains(b: Box, frameWidth: int, frameHeight: int, paddingRatio: real)
    requires NonNegativeSize(b) && paddingRatio >= 0.0
    requires 0 <= b.x && Right(b) <= frameWidth && 0 <= b.y && Bottom(b) <= frameHeight
    ensures var r := ExpandBox(b, frameWidth, frameHeight, paddingRatio);
            && NonNegativeSize(r)
            && r.x <= b.x && Right(b) <= Right(r)
            && r.y <= b.y && Bottom(b) <= Bottom(r)
  {
    assert b.w as real * paddingRatio >= 0.0;
    assert b.h as real * paddingRatio >= 0.0;
  }

  /** With zero padding a box inside the frame comes back unchanged. */
  lemma ExpandBoxZeroPadding(b: Box, frameWidth: int, frameHeight: int)
    requires NonNegativeSize(b)
    requires 0 <= b.x && Right(b) <= frameWidth && 0 <= b.y && Bottom(b) <= frameHeight
    ensures ExpandBox(b, frameWidth, frameHeight, 0.0) == b
  {
  }

  // ---------------------------------------------------------------------
  // TargetTracker as a state machine

  /** Failed frames before a re-acquisition is attempted. */
  const MaxLostFrames: nat := 15
  /** A tracked box must be larger than this in both directions. */
  const MinTrackedSide: int := 10
  /** Detector threshold and IoU threshold used when re-acquiring. */
  const ReacquireConfidence: real := 0.4
  const ReacquireMinIou: real := 0.2

  /** What the CSRT tracker's `update` returned: a flag and a float box. */
  datatype CsrtResult = CsrtResult(ok: bool, x: real, y: real, w: real, h: real)

  /** Everything the outside world contributes to one `update` call. */
  datatype Frame = Frame(csrt: CsrtResult, detector: seq<RawResult>, initOk: bool)

  datatype TrackerState = TrackerState(lastBox: Box, hasTracker: bool, lostFrames: nat)

  datatype StepResult = StepResult(state: TrackerState, ok: bool, box: Box)

  function TrackedBox(c: CsrtResult): Box
  {
    Box(Trunc(c.x), Trunc(c.y), Trunc(c.w), Trunc(c.h))
  }

  /** The tracker's result is usable: it succeeded and passed the size check. */
  predicate Tracked(c: CsrtResult)
  {
    c.ok && TrackedBox(c).w > MinTrackedSide && TrackedBox(c).h > MinTrackedSide
  }

  /** `_try_reacquire`: run the detector at 0.4 and match against the last box.
      A match is a detection of that run overlapping the last box by more than 0.2. */
  function Reacquire(lastBox: Box, detector: seq<RawResult>): (r: Option<Detection>)
    ensures r.Some? ==> r.value in Numbered(Kept(Flatten(detector), ReacquireConfidence))
    ensures r.Some? ==> Iou(r.value.box, lastBox) > ReacquireMinIou
    ensures Kept(Flatten(detector), ReacquireConfidence) == [] ==> r.None?
  {
    var dets := Numbered(Kept(Flatten(detector), ReacquireConfidence));
    if |dets| == 0 then None else BestMatch(dets, lastBox, ReacquireMinIou)
  }

  /** `_init_tracker`: a tracker now exists; the counter resets only if init succeeded. */
  function Reinit(s: TrackerState, initOk: bool): TrackerState
  {
    s.(hasTracker := true, lostFrames := if initOk then 0 else s.lostFrames)
  }

  /** One call of `update`: the reported box is the one now held, the tracker
      flag never changes, and the box only moves when the call succeeds. */
  function Step(s: TrackerState, f: Frame): (r: StepResult)
    ensures r.box == r.state.lastBox
    ensures r.state.hasTracker == s.hasTracker
    ensures !r.ok ==> r.state.lastBox == s.lastBox
  {
    if !s.hasTracker then StepResult(s, false, s.lastBox)
    else if Tracked(f.csrt) then
      StepResult(s.(lastBox := TrackedBox(f.csrt), lostFrames := 0), true, TrackedBox(f.csrt))
    else
      var lost := s.(lostFrames := s.lostFrames + 1);
      var found := if lost.lostFrames >= MaxLostFrames then Reacquire(s.lastBox, f.detector) else None;
      if found.Some? then
        StepResult(Reinit(lost, f.initOk).(lastBox := found.value.box), true, found.value.box)
      else
        StepResult(lost, false, s.lastBox)
  }

  /** `update` always answers with the box it now holds, and never loses its tracker. */
  lemma StepReportsHeldBox(s: TrackerState, f: Frame)
    ensures Step(s, f).box == Step(s, f).state.lastBox
    ensures Step(s, f).state.hasTracker == s.hasTracker
    ensures !s.hasTracker ==> Step(s, f) == StepResult(s, false, s.lastBox)
  {
  }

  /** The counter after one call: reset on a tracked frame, one more on any
      other frame, except that a successful re-acquisition with a successful
      init resets it too. The box only changes when the call reports success. */
  lemma StepCounter(s: TrackerState, f: Frame)
    requires s.hasTracker
    ensures Tracked(f.csrt) ==> Step(s, f).ok && Step(s, f).state.lostFrames == 0
    ensures !Tracked(f.csrt) ==>
      Step(s, f).state.lostFrames == (if Step(s, f).ok && f.initOk then 0 else s.lostFrames + 1)
    ensures !Step(s, f).ok ==> Step(s, f).state.lastBox == s.lastBox
    ensures !Tracked(f.csrt) && Step(s, f).ok ==> s.lostFrames + 1 >= MaxLostFrames
    ensures Tracked(f.csrt) ==> Step(s, f).state.lastBox == TrackedBox(f.csrt)
    ensures !Tracked(f.csrt) && Step(s, f).ok ==>
      Reacquire(s.lastBox, f.detector).Some? &&
      Step(s, f).state.lastBox == Reacquire(s.lastBox, f.detector).value.box
    ensures !Tracked(f.csrt) && s.lostFrames + 1 >= MaxLostFrames ==>
      (Step(s, f).ok <==> Reacquire(s.lastBox, f.detector).Some?)
  {
  }

  /** Several calls in a row. */
  function Run(s: TrackerState, frames: seq<Frame>): TrackerState
    decreases |frames|
  {
    if frames == [] then s else Run(Step(s, frames[0]).state, frames[1..])
  }

  /** Fewer than `MaxLostFrames` failed frames in a row are only counted:
      whatever the detector would see, the last box stays and no
      re-acquisition happens. */
  lemma {:induction false} FailuresBelowLimitOnlyCount(s: TrackerState, frames: seq<Frame>)
    requires s.hasTracker
    requires s.lostFrames + |frames| < MaxLostFrames
    requires forall i :: 0 <= i < |frames| ==> !Tracked(frames[i].csrt)
    ensures Run(s, frames) == s.(lostFrames := s.lostFrames + |frames|)
    decreases |frames|
  {
    if frames != [] {
      var next := Step(s, frames[0]).state;
      assert next == s.(lostFrames := s.lostFrames + 1);
      FailuresBelowLimitOnlyCount(next, frames[1..]);
    }
  }

  /** With a failing tracker and a detector that finds nobody, the counter
      counts every frame, past the limit too, and the box stays. */
  lemma {:induction false} FailuresWithoutDetectionsCount(s: TrackerState, frames: seq<Frame>)
    requires s.hasTracker
    requires forall i :: 0 <= i < |frames| ==> !Tracked(frames[i].csrt)
    requires forall i :: 0 <= i < |frames| ==> Kept(Flatten(frames[i].detector), ReacquireConfidence) == []
    ensures Run(s, frames) == s.(lostFrames := s.lostFrames + |frames|)
    decreases |frames|
  {
    if frames != [] {
      var next := Step(s, frames[0]).state;
      assert next == s.(lostFrames := s.lostFrames + 1);
      FailuresWithoutDetectionsCount(next, frames[1..]);
    }
  }

  // ---------------------------------------------------------------------
  // TargetTracker as a class

  class TargetTracker {
    var lastBox: Box
    var hasTracker: bool
    var lostFrames: nat
    const maxLostFrames: nat := MaxLostFrames

    function State(): TrackerState
      reads this
    {
      TrackerState(lastBox, hasTracker, lostFrames)
    }

    /** `__init__`: remember the box, then create and initialise the tracker. */
    constructor (initialBox: Box, initOk: bool)
      ensures State() == TrackerState(initialBox, true, 0)
    {
      lastBox := initialBox;
      hasTracker := false;
      lostFrames := 0;
      new;
      InitTracker(initialBox, initOk);
    }

    /** `_init_tracker`: the CSRT init result on `box` is the oracle `initOk`. */
    method InitTracker(box: Box, initOk: bool)
      modifies this
      ensures State() == Reinit(old(State()), initOk)
    {
      hasTracker := true;
      if initOk {
        lostFrames := 0;
      }
    }

    /** `_try_reacquire`: detect persons at 0.4, match the last box at IoU 0.2. */
    method TryReacquire(detector: seq<RawResult>) returns (found: Option<Detection>)
      ensures found == Reacquire(lastBox, detector)
    {
      var detections := DetectPersons(detector, ReacquireConfidence);
      if |detections| == 0 {
        return None;
      }
      found := FindBestMatchByIou(detections, lastBox, ReacquireMinIou);
    }

    /** `update` on one frame. */
    method Update(csrt: CsrtResult, detector: seq<RawResult>, initOk: bool) returns (ok: bool, box: Box)
      modifies this
      ensures var r := Step(old(State()), Frame(csrt, detector, initOk));
              State() == r.state && ok == r.ok && box == r.box
    {
      if !hasTracker {
        return false, lastBox;
      }
      if csrt.ok {
        var x, y, w, h := Trunc(csrt.x), Trunc(csrt.y), Trunc(csrt.w), Trunc(csrt.h);
        if w > MinTrackedSide && h > MinTrackedSide {
          lastBox := Box(x, y, w, h);
          lostFrames := 0;
          return true, lastBox;
        }
      }
      lostFrames := lostFrames + 1;
      if lostFrames >= maxLostFrames {
        var found := TryReacquire(detector);
        if found.Some? {
          InitTracker(found.value.box, initOk);
          lastBox := found.value.box;
          return true, lastBox;
        }
      }
      return false, lastBox;
    }

    /** `force_reacquire`: try a re-acquisition now, whatever the counter says. */
    method ForceReacquire(detector: seq<RawResult>, initOk: bool) returns (ok: bool)
      modifies this
      ensures var found := Reacquire(old(lastBox), detector);
              && ok == found.Some?
              && (found.Some? ==> State() == Reinit(old(State()), initOk).(lastBox := found.value.box))
              && (found.None? ==> State() == old(State()))
    {
      var found := TryReacquire(detector);
      if found.Some? {
        InitTracker(found.value.box, initOk);
        lastBox := found.value.box;
        return true;
      }
      return false;
    }

    /** `get_current_box`. */
    method GetCurrentBox() returns (b: Box)
      ensures b == lastBox
    {
      b := lastBox;
    }
  }
}
