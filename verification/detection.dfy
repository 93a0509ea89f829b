/** Person detection post-processing, target auto-selection and IoU matching
    (`analysis/detection.py`). The YOLO network itself is an oracle: its raw
    output is a parameter. */
module Detection {
  import opened Wrappers
  import opened Boxes
  import opened Numeric

  /** One raw person box from the network: confidence and corners (x1, y1, x2, y2). */
  datatype RawBox = RawBox(conf: real, x1: real, y1: real, x2: real, y2: real)

  /** One result of the network; its `boxes` may be absent. */
  type RawResult = Option<seq<RawBox>>

  /** A detection as the backend reports it: an id unique within one frame,
      the box in whole pixels, and the confidence rounded to three decimals. */
  datatype Detection = Detection(id: nat, box: Box, score: real)

  function BoxesOf(r: RawResult): seq<RawBox>
  {
    if r.None? then [] else r.value
  }

  /** All raw boxes, result after result, in the order they are visited. */
  function Flatten(results: seq<RawResult>): seq<RawBox>
  {
    if results == [] then []
    else Flatten(results[..|results| - 1]) + BoxesOf(results[|results| - 1])
  }

  /** The raw boxes that survive the confidence filter, in order. */
  function Kept(raw: seq<RawBox>, threshold: real): seq<RawBox>
  {
    if raw == [] then []
    else
      var last := raw[|raw| - 1];
      Kept(raw[..|raw| - 1], threshold) + (if last.conf < threshold then [] else [last])
  }

  /** The xyxy to xywh conversion; each coordinate goes through `int(...)`. */
  function ToDetection(b: RawBox, id: nat): Detection
  {
    Detection(id, Box(Trunc(b.x1), Trunc(b.y1), Trunc(b.x2 - b.x1), Trunc(b.y2 - b.y1)),
              RoundTo(b.conf, 1000))
  }

  /** Detections numbered 0, 1, ... in acceptance order. */
  function Numbered(kept: seq<RawBox>): seq<Detection>
  {
    seq(|kept|, i requires 0 <= i < |kept| => ToDetection(kept[i], i))
  }

  /** Numbering one more accepted box gives it the next id. */
  lemma NumberedSnoc(kept: seq<RawBox>, b: RawBox)
    ensures Numbered(kept + [b]) == Numbered(kept) + [ToDetection(b, |kept|)]
  {
    var lhs := Numbered(kept + [b]);
    var rhs := Numbered(kept) + [ToDetection(b, |kept|)];
    assert |lhs| == |rhs|;
    forall i | 0 <= i < |lhs| ensures lhs[i] == rhs[i] {
      if i < |kept| {
        assert (kept + [b])[i] == kept[i];
      }
    }
  }

  /** Filtering distributes over concatenation, so the order of boxes is kept. */
  lemma {:induction false} KeptAppend(a: seq<RawBox>, b: seq<RawBox>, threshold: real)
    ensures Kept(a + b, threshold) == Kept(a, threshold) + Kept(b, threshold)
    decreases |b|
  {
    if b != [] {
      var n := |b| - 1;
      assert (a + b)[..|a + b| - 1] == a + b[..n];
      KeptAppend(a, b[..n], threshold);
    } else {
      assert a + b == a;
    }
  }

  /** Exactly the boxes with confidence at least the threshold are kept. */
  lemma {:induction false} KeptMembers(raw: seq<RawBox>, threshold: real)
    ensures forall b :: b in Kept(raw, threshold) <==> b in raw && b.conf >= threshold
  {
    if raw != [] {
      KeptMembers(raw[..|raw| - 1], threshold);
      assert raw == raw[..|raw| - 1] + [raw[|raw| - 1]];
    }
  }

  /** Visiting one more result appends its boxes. */
  lemma FlattenStep(results: seq<RawResult>, r: nat)
    requires r < |results|
    ensures Flatten(results[..r + 1]) == Flatten(results[..r]) + BoxesOf(results[r])
  {
    assert results[..r + 1][..r] == results[..r];
  }

  /** Visiting one more box numbers it next when it passes the filter. */
  lemma KeptStep(seen: seq<RawBox>, boxes: seq<RawBox>, i: nat, threshold: real)
    requires i < |boxes|
    ensures var before := Numbered(Kept(seen + boxes[..i], threshold));
            Numbered(Kept(seen + boxes[..i + 1], threshold)) ==
              if boxes[i].conf < threshold then before
              else before + [ToDetection(boxes[i], |before|)]
  {
    var prefix := seen + boxes[..i];
    assert seen + boxes[..i + 1] == prefix + [boxes[i]];
    assert (prefix + [boxes[i]])[..|prefix|] == prefix;
    if boxes[i].conf >= threshold {
      NumberedSnoc(Kept(prefix, threshold), boxes[i]);
    }
  }

  /** The post-processing loop of `detect_persons` over the network's results. */
  method DetectPersons(results: seq<RawResult>, threshold: real) returns (dets: seq<Detection>)
    ensures dets == Numbered(Kept(Flatten(results), threshold))
  {
    dets := [];
    for r := 0 to |results|
      invariant dets == Numbered(Kept(Flatten(results[..r]), threshold))
    {
      FlattenStep(results, r);
      ghost var seen := Flatten(results[..r]);
      var boxes := if results[r].Some? then results[r].value else [];
      assert seen + boxes[..0] == seen;
      for i := 0 to |boxes|
        invariant dets == Numbered(Kept(seen + boxes[..i], threshold))
      {
        KeptStep(seen, boxes, i, threshold);
        if boxes[i].conf < threshold {
          continue;
        }
        dets := dets + [ToDetection(boxes[i], |dets|)];
      }
      assert boxes[..|boxes|] == boxes;
    }
    assert results[..|results|] == results;
  }

  /** Every reported detection comes from a raw box that passed the filter,
      its id is its position, and its size is the truncated corner difference. */
  lemma DetectionsFromKeptBoxes(results: seq<RawResult>, threshold: real, i: nat)
    requires i < |Kept(Flatten(results), threshold)|
    ensures var d := Numbered(Kept(Flatten(results), threshold))[i];
            exists b :: b in Flatten(results) && b.conf >= threshold &&
              d.id == i && d.box.x == Trunc(b.x1) && d.box.y == Trunc(b.y1) &&
              d.box.w == Trunc(b.x2 - b.x1) && d.box.h == Trunc(b.y2 - b.y1)
  {
    var k := Kept(Flatten(results), threshold);
    KeptMembers(Flatten(results), threshold);
    assert k[i] in k;
  }

  // ---------------------------------------------------------------------
  // Matching a reference box.

  /** IoU of every detection against the reference box, in list order. */
  function IouScores(detections: seq<Detection>, reference: Box): (s: seq<real>)
    ensures |s| == |detections|
  {
    seq(|detections|, i requires 0 <= i < |detections| => Iou(detections[i].box, reference))
  }

  function MatchAt(detections: seq<Detection>, k: Option<nat>): Option<Detection>
  {
    if k.Some? && k.value < |detections| then Some(detections[k.value]) else None
  }

  /** The detection `find_best_match_by_iou` reports: one of the listed
      detections, overlapping the reference by more than `minIou`. */
  function BestMatch(detections: seq<Detection>, reference: Box, minIou: real): (r: Option<Detection>)
    ensures r.Some? ==> r.value in detections && Iou(r.value.box, reference) > minIou
  {
    var s := IouScores(detections, reference);
    FirstArgMaxAboveSpec(s, minIou);
    MatchAt(detections, FirstArgMaxAbove(s, minIou))
  }

  /** What a match means: None exactly when no IoU is strictly above `minIou`;
      otherwise a listed detection above `minIou` that no other beats and that
      every earlier detection falls strictly short of. */
  lemma BestMatchSpec(detections: seq<Detection>, reference: Box, minIou: real)
    ensures BestMatch(detections, reference, minIou).None? <==>
      forall i :: 0 <= i < |detections| ==> Iou(detections[i].box, reference) <= minIou
    ensures BestMatch(detections, reference, minIou).Some? ==>
      exists k :: 0 <= k < |detections| &&
        var best := Iou(detections[k].box, reference);
        && BestMatch(detections, reference, minIou) == Some(detections[k])
        && minIou < best
        && (forall i :: 0 <= i < |detections| ==> Iou(detections[i].box, reference) <= best)
        && (forall i :: 0 <= i < k ==> Iou(detections[i].box, reference) < best)
  {
    var s := IouScores(detections, reference);
    assert forall i :: 0 <= i < |detections| ==> s[i] == Iou(detections[i].box, reference);
    FirstArgMaxAboveSpec(s, minIou);
    var r := FirstArgMaxAbove(s, minIou);
    if r.Some? {
      var k := r.value;
      assert BestMatch(detections, reference, minIou) == Some(detections[k]);
      assert minIou < s[k];
    }
  }

  /** `find_best_match_by_iou`: the first detection with the largest IoU above `minIou`. */
  method FindBestMatchByIou(detections: seq<Detection>, reference: Box, minIou: real)
    returns (m: Option<Detection>)
    ensures m == BestMatch(detections, reference, minIou)
  {
    if |detections| == 0 {
      return None;
    }
    m := None;
    var bestIou := minIou;
    ghost var scores := IouScores(detections, reference);
    for i := 0 to |detections|
      invariant bestIou == BestSoFar(scores[..i], minIou)
      invariant m == MatchAt(detections, FirstArgMaxAbove(scores[..i], minIou))
    {
      assert scores[..i + 1][..i] == scores[..i];
      var iou := Iou(detections[i].box, reference);
      if iou > bestIou {
        bestIou := iou;
        m := Some(detections[i]);
      }
    }
    assert scores[..|detections|] == scores;
  }

  // ---------------------------------------------------------------------
  // Automatic target selection.

  /** The combined area/centre score of every detection, in list order. */
  function Scores(detections: seq<Detection>, score: Detection -> real): (s: seq<real>)
    ensures |s| == |detections|
  {
    seq(|detections|, i requires 0 <= i < |detections| => score(detections[i]))
  }

  /** `auto_select_target`. The weighted area/centre-distance score is the
      parameter `score` (it depends on the frame size the caller fixes);
      the running best starts at -1 and only a strictly larger score replaces it. */
  method AutoSelectTarget(detections: seq<Detection>, score: Detection -> real)
    returns (r: Option<Detection>)
    ensures |detections| == 0 ==> r == None
    ensures |detections| == 1 ==> r == Some(detections[0])
    ensures |detections| >= 2 ==> r == MatchAt(detections, FirstArgMaxAbove(Scores(detections, score), -1.0))
    ensures r.Some? ==> r.value in detections
  {
    if |detections| == 0 {
      return None;
    }
    if |detections| == 1 {
      return Some(detections[0]);
    }
    r := None;
    var bestScore := -1.0;
    ghost var scores := Scores(detections, score);
    for i := 0 to |detections|
      invariant bestScore == BestSoFar(scores[..i], -1.0)
      invariant r == MatchAt(detections, FirstArgMaxAbove(scores[..i], -1.0))
      invariant r.Some? ==> r.value in detections
    {
      assert scores[..i + 1][..i] == scores[..i];
      var combined := score(detections[i]);
      if combined > bestScore {
        bestScore := combined;
        r := Some(detections[i]);
      }
    }
    assert scores[..|detections|] == scores;
  }
}
