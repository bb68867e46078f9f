/** The earlier exercise-detection display (main_old.py): the labels drawn
    at each detected answer area, the finger-tip pixel conversion and the
    proximity test for the question mark. The detection result it draws is
    the one `parse_math_problems_response` returns, or `None`. */
module MathDetector {
  import opened JsonValue
  import opened Draw
  import QwenClient

  const PleaseAnswer := "请作答"
  const WrongPrefix := "错误："

  /** The two frame lines: at `int(w * 0.1)` and at the right edge. */
  function Dividers(w: nat, h: nat): (cmds: seq<DrawCmd>)
    ensures |cmds| == 2
    ensures cmds[0] == VerticalLine(w / 10, h, BorderGrey, 2)
    ensures cmds[1] == VerticalLine(w - 1, h, BorderGrey, 2)
  {
    [VerticalLine(w / 10, h, BorderGrey, 2), VerticalLine(w - 1, h, BorderGrey, 2)]
  }

  /** The label for an answer status: blank or any unknown status asks for
      an answer in white, a correct one says so in green, a wrong one says so
      in white followed by at most 15 characters of a non-empty reason.
      `None` for a truthy reason that is not a string. */
  function StatusLabel(status: string, reason: Json): (r: Option<(string, Color)>)
    ensures status != QwenClient.Correct && status != QwenClient.Wrong ==> r == Some((PleaseAnswer, White))
    ensures status == QwenClient.Correct ==> r == Some((QwenClient.Correct, Green))
    ensures status == QwenClient.Wrong && !Truthy(reason) ==> r == Some((QwenClient.Wrong, White))
    ensures status == QwenClient.Wrong && Truthy(reason) ==>
      (r.Some? <==> reason.JStr?) &&
      (r.Some? ==> var n := if |reason.s| > 15 then 15 else |reason.s|;
         r.value.1 == White && |r.value.0| == |WrongPrefix| + n &&
         r.value.0[..|WrongPrefix|] == WrongPrefix && r.value.0[|WrongPrefix|..] == reason.s[..n])
  {
    if status == QwenClient.Correct then Some((QwenClient.Correct, Green))
    else if status == QwenClient.Wrong then
      if !Truthy(reason) then Some((QwenClient.Wrong, White))
      else if !reason.JStr? then None
      else
        var short := if |reason.s| > 15 then reason.s[..15] else reason.s;
        Some((WrongPrefix + short, White))
    else Some((PleaseAnswer, White))
  }

  /** The label of one problem, size 20, at its corner clamped into the
      frame. */
  function ProblemLabel(p: QwenClient.MathProblem, w: nat, h: nat): (r: Option<DrawCmd>)
    ensures r.Some? ==> r.value.Text? && r.value.fontSize == 20
    ensures r.Some? && w >= 1 ==> 0 <= r.value.at.x < w
    ensures r.Some? && h >= 1 ==> 0 <= r.value.at.y < h
    ensures r.Some? ==> r.value.at == Point(Clamp(p.x, 0, w - 1), Clamp(p.y, 0, h - 1))
    ensures r.None? <==> StatusLabel(p.answerStatus, p.errorReason).None?
  {
    match StatusLabel(p.answerStatus, p.errorReason)
    case None => None
    case Some((text, color)) => Some(Text(text, Point(Clamp(p.x, 0, w - 1), Clamp(p.y, 0, h - 1)), 20, color))
  }

  /** The labels of a list of problems, in order; `None` when one raises. */
  function Labels(ps: seq<QwenClient.MathProblem>, w: nat, h: nat): (r: Option<seq<DrawCmd>>)
    ensures r.Some? ==> |r.value| == |ps|
    ensures r.Some? ==> forall i :: 0 <= i < |ps| ==> Some(r.value[i]) == ProblemLabel(ps[i], w, h)
    ensures r.None? <==> exists i :: 0 <= i < |ps| && ProblemLabel(ps[i], w, h).None?
  {
    if ps == [] then Some([])
    else
      var init := ps[..|ps| - 1];
      assert forall i :: 0 <= i < |init| ==> init[i] == ps[i];
      match Labels(init, w, h)
      case None => None
      case Some(done) =>
        match ProblemLabel(ps[|ps| - 1], w, h)
        case None => None
        case Some(c) => Some(done + [c])
  }

  /** `draw_math_problems(frame, info)` for a w-by-h frame: the two lines,
      then, when something was found, one label per problem; `None` when a
      label raises (the error leaves the display loop). */
  function MathProblemsPlan(w: nat, h: nat, info: Option<QwenClient.Detection>): (r: Option<seq<DrawCmd>>)
    ensures info.None? || !info.value.found || info.value.problems == [] ==> r == Some(Dividers(w, h))
    ensures r.Some? ==> |r.value| >= 2 && r.value[..2] == Dividers(w, h)
    ensures r.Some? && info.Some? && info.value.found ==> |r.value| == 2 + |info.value.problems|
    ensures r.None? <==> info.Some? && info.value.found && Labels(info.value.problems, w, h).None?
    ensures r.Some? && info.Some? && info.value.found ==> r.value[2..] == Labels(info.value.problems, w, h).value
  {
    if info.None? || !info.value.found || info.value.problems == [] then Some(Dividers(w, h))
    else match Labels(info.value.problems, w, h)
      case None => None
      case Some(labels) => Some(Dividers(w, h) + labels)
  }

  /** The drawing loop as the source writes it: one label per problem
      appended to the canvas. */
  method DrawMathProblems(w: nat, h: nat, info: Option<QwenClient.Detection>) returns (r: Option<seq<DrawCmd>>)
    ensures r == MathProblemsPlan(w, h, info)
  {
    var canvas := Dividers(w, h);
    if info.None? || !info.value.found || info.value.problems == [] {
      return Some(canvas);
    }
    var problems := info.value.problems;
    var i := 0;
    while i < |problems|
      invariant 0 <= i <= |problems|
      invariant Labels(problems[..i], w, h).Some?
      invariant canvas == Dividers(w, h) + Labels(problems[..i], w, h).value
    {
      assert problems[..i + 1][..i] == problems[..i];
      var next := ProblemLabel(problems[i], w, h);
      if next.None? {
        assert Labels(problems, w, h).None?;
        return None;
      }
      canvas := canvas + [next.value];
      i := i + 1;
    }
    assert problems[..i] == problems;
    return Some(canvas);
  }

  /** `detect_finger_tip` of the display: a normalised point becomes
      `(int(nx * w), int(ny * h))`; no point stays no point. */
  function FingerPixel(normalized: Option<(real, real)>, w: nat, h: nat): (r: Option<(int, int)>)
    ensures r.None? <==> normalized.None?
    ensures r.Some? ==> r.value == (Scale(normalized.value.0, w), Scale(normalized.value.1, h))
    ensures r.Some? && 0.0 <= normalized.value.0 <= 1.0 ==> 0 <= r.value.0 <= w
    ensures r.Some? && 0.0 <= normalized.value.1 <= 1.0 ==> 0 <= r.value.1 <= h
  {
    if normalized.None? then None
    else
      var nx, ny := normalized.value.0, normalized.value.1;
      ScaleBounds(nx, w);
      ScaleBounds(ny, h);
      Some((Scale(nx, w), Scale(ny, h)))
  }

  /** With the gateway's clamp, a finger tip always lands within
      [0, w] x [0, h]; a coordinate of exactly 1.0 gives w or h itself. */
  lemma FingerPixelInFrame(found: Option<(real, real)>, w: nat, h: nat)
    requires found.Some?
    ensures var p := FingerPixel(QwenClient.FingerTip(found), w, h).value;
      0 <= p.0 <= w && 0 <= p.1 <= h
  {
  }

  /** `is_finger_near_question_mark`: false when either position is missing;
      otherwise whether the Euclidean distance is at most `radius`, written
      with squares. The mark's own radius is not consulted. */
  predicate IsFingerNear(finger: Option<(int, int)>, mark: Option<(int, int, int)>, radius: int) {
    finger.Some? && mark.Some? &&
    var dx, dy := finger.value.0 - mark.value.0, finger.value.1 - mark.value.1;
    radius >= 0 && dx * dx + dy * dy <= radius * radius
  }

  /** A missing finger or mark is never near, and the mark's own radius (the
      third component) plays no part in the test. */
  lemma IsFingerNearIgnoresMarkRadius(finger: Option<(int, int)>, mark: Option<(int, int, int)>,
                                      radius: int, markRadius: int)
    ensures finger.None? || mark.None? ==> !IsFingerNear(finger, mark, radius)
    ensures mark.Some? ==>
      IsFingerNear(finger, mark, radius) ==
      IsFingerNear(finger, Some((mark.value.0, mark.value.1, markRadius)), radius)
  {
  }

  /** The squared form agrees with the source's test on the square root:
      for the non-negative root `d` of the squared distance, `d <= radius`
      exactly when the predicate holds. */
  lemma IsFingerNearMatchesDistance(finger: (int, int), mark: (int, int, int), radius: int, d: real)
    requires d >= 0.0
    requires var dx, dy := finger.0 - mark.0, finger.1 - mark.1; d * d == (dx * dx + dy * dy) as real
    ensures IsFingerNear(Some(finger), Some(mark), radius) <==> d <= radius as real
  {
    var dx, dy := finger.0 - mark.0, finger.1 - mark.1;
    var sq := dx * dx + dy * dy;
    var r := radius as real;
    assert d * d == sq as real;
    if radius >= 0 {
      var rr := radius * radius;
      assert rr as real == r * r;
      SquareMonotone(d, r);
    }
  }

  /** On non-negative reals, squaring preserves and reflects order. */
  lemma SquareMonotone(a: real, b: real)
    requires a >= 0.0 && b >= 0.0
    ensures a <= b <==> a * a <= b * b
  {
    if a <= b {
      var aa, ab, bb := a * a, a * b, b * b;
      assert aa <= ab;
      assert ab <= bb;
    } else {
      var bb, ba, aa := b * b, b * a, a * a;
      assert bb <= ba;
      assert ba < aa;
    }
  }
}
