/** The projection assistant (main.py): the render planner that turns the
    current perception report and decision into drawing commands, the
    check-mark geometry, and the per-cycle step that builds the reasoning
    feedback and commits the cycle's results. Camera, window and threads
    are not part of this model; a frame is its width and height. */
module Assistant {
  import opened JsonValue
  import opened Draw
  import QwenClient
  import Perception
  import Reasoning

  const CheckAnswer := "CHECK_ANSWER"
  const ProjectHint := "PROJECT_HINT"
  const ClearProjection := "CLEAR_PROJECTION"
  const NoInteraction := "NO_INTERACTION"
  /** The marker `projection_content` is set to when a check-mark is due. */
  const CheckmarkSentinel := "__DRAW_CHECKMARK__"
  const Writing := "书写中"
  const Idle := "空闲"

  // ---------------------------------------------------------------------
  // Geometry
  // ---------------------------------------------------------------------

  /** `int(w * 0.9)`, the column of the sidebar divider. */
  function DividerX(w: nat): (x: nat)
    ensures 10 * x <= 9 * w < 10 * x + 10
    ensures x <= w
  {
    (9 * w) / 10
  }

  /** `draw_checkmark(at, size, color)`: two strokes of thickness 3, from a
      third of the way up the left edge of the size-by-size box whose
      bottom-left corner is `at`, down to the bottom edge a third of the way
      across, and up to the top-right corner. */
  function Checkmark(at: Point, size: int, color: Color): (cmds: seq<DrawCmd>)
    ensures |cmds| == 2 && cmds[0].Line? && cmds[1].Line?
    ensures cmds[0].to == cmds[1].from
    ensures forall i :: 0 <= i < 2 ==> cmds[i].color == color && cmds[i].thickness == 3
    ensures cmds[0].from == Point(at.x, at.y - size / 3)
    ensures cmds[0].to == Point(at.x + size / 3, at.y)
    ensures cmds[1].to == Point(at.x + size, at.y - size)
    ensures size >= 0 ==> forall i :: 0 <= i < 2 ==>
      at.x <= cmds[i].from.x <= cmds[i].to.x <= at.x + size &&
      at.y - size <= cmds[i].from.y <= at.y && at.y - size <= cmds[i].to.y <= at.y
  {
    var p1 := Point(at.x, at.y - size / 3);
    var p2 := Point(at.x + size / 3, at.y);
    var p3 := Point(at.x + size, at.y - size);
    [Line(p1, p2, color, 3), Line(p2, p3, color, 3)]
  }

  // ---------------------------------------------------------------------
  // Finding the target question
  // ---------------------------------------------------------------------

  /** Outcome of the linear search for the target question: found, not
      found, or a Python error (an element without `.get`). */
  datatype Search = Found(question: Obj) | NotFound | Raised

  /** `question.get("id", "") == target` on a dict question. */
  predicate Matches(q: Json, target: Json)
    requires q.JObj?
  {
    PyEq(GetOr(q.fields, "id", JStr("")), target)
  }

  /** Every element before index i is a dict that does not match. */
  predicate NoMatchBefore(items: seq<Json>, i: int, target: Json)
    requires 0 <= i <= |items|
  {
    forall j :: 0 <= j < i ==> items[j].JObj? && !Matches(items[j], target)
  }

  /** The search over a list: the first matching dict, with every element
      before it a non-matching dict; an element that is not a dict raises. */
  function FirstMatch(items: seq<Json>, target: Json): (r: Search)
    ensures r.Found? ==> exists i :: (0 <= i < |items| && items[i] == JObj(r.question) &&
      Matches(items[i], target) && NoMatchBefore(items, i, target))
    ensures r.NotFound? <==> NoMatchBefore(items, |items|, target)
    ensures r.Raised? ==> exists i :: 0 <= i < |items| && !items[i].JObj? && NoMatchBefore(items, i, target)
  {
    if items == [] then NotFound
    else if !items[0].JObj? then Raised
    else if Matches(items[0], target) then
      assert NoMatchBefore(items, 0, target);
      Found(items[0].fields)
    else
      var rest := FirstMatch(items[1..], target);
      assert forall i :: 0 <= i < |items[1..]| ==> items[1..][i] == items[i + 1];
      assert rest.NotFound? ==> NoMatchBefore(items, |items|, target) by {
        if rest.NotFound? {
          forall j | 0 <= j < |items|
            ensures items[j].JObj? && !Matches(items[j], target)
          {
            if j > 0 {
              assert items[j] == items[1..][j - 1];
            }
          }
        }
      }
      assert (exists i :: 0 <= i < |items| && !(items[i].JObj? && !Matches(items[i], target))) ==>
        !rest.NotFound? by {
        if exists i :: 0 <= i < |items| && !(items[i].JObj? && !Matches(items[i], target)) {
          var i :| 0 <= i < |items| && !(items[i].JObj? && !Matches(items[i], target));
          assert 0 < i && items[1..][i - 1] == items[i];
        }
      }
      assert rest.Found? ==> exists i :: (0 <= i < |items| && items[i] == JObj(rest.question) &&
        Matches(items[i], target) && NoMatchBefore(items, i, target)) by {
        if rest.Found? {
          var k :| 0 <= k < |items[1..]| && items[1..][k] == JObj(rest.question) &&
            Matches(items[1..][k], target) && NoMatchBefore(items[1..], k, target);
          assert NoMatchBefore(items, k + 1, target) by {
            forall j | 0 <= j < k + 1
              ensures items[j].JObj? && !Matches(items[j], target)
            {
              if j > 0 {
                assert items[j] == items[1..][j - 1];
              }
            }
          }
        }
      }
      assert rest.Raised? ==> exists i :: 0 <= i < |items| && !items[i].JObj? && NoMatchBefore(items, i, target) by {
        if rest.Raised? {
          var k :| 0 <= k < |items[1..]| && !items[1..][k].JObj? && NoMatchBefore(items[1..], k, target);
          assert NoMatchBefore(items, k + 1, target) by {
            forall j | 0 <= j < k + 1
              ensures items[j].JObj? && !Matches(items[j], target)
            {
              if j > 0 {
                assert items[j] == items[1..][j - 1];
              }
            }
          }
        }
      }
      rest
  }

  /** `for question in questions` over whatever `questions_on_page` holds:
      a list is searched; iterating an empty dict or string finds nothing,
      a non-empty one yields strings, whose missing `.get` raises; other
      values are not iterable and raise. */
  function TargetSearch(questions: Json, target: Json): (r: Search)
    ensures questions.JArr? ==> r == FirstMatch(questions.items, target)
    ensures questions.JObj? ==> (r.NotFound? <==> questions.fields == map[]) && !r.Found?
    ensures questions.JStr? ==> (r.NotFound? <==> questions.s == "") && !r.Found?
    ensures questions.JNull? || questions.JBool? || questions.JInt? || questions.JFloat? ==> r.Raised?
  {
    match questions
    case JArr(items) => FirstMatch(items, target)
    case JObj(m) => if m == map[] then NotFound else Raised
    case JStr(s) => if s == "" then NotFound else Raised
    case _ => Raised
  }

  /** The search as the source writes it: a loop that stops at the first
      match. */
  method FindTarget(questions: Json, target: Json) returns (r: Search)
    ensures r == TargetSearch(questions, target)
  {
    if !questions.JArr? {
      return TargetSearch(questions, target);
    }
    var items := questions.items;
    var i := 0;
    while i < |items|
      invariant 0 <= i <= |items|
      invariant FirstMatch(items, target) == FirstMatch(items[i..], target)
    {
      FirstMatchUnfold(items[i..], target);
      assert items[i..][1..] == items[i + 1..];
      if !items[i].JObj? {
        return Raised;
      }
      if Matches(items[i], target) {
        return Found(items[i].fields);
      }
      i := i + 1;
    }
    FirstMatchUnfold(items[i..], target);
    return NotFound;
  }

  /** One step of the search: the head decides, or the search goes on in
      the tail. */
  lemma FirstMatchUnfold(items: seq<Json>, target: Json)
    ensures items == [] ==> FirstMatch(items, target) == NotFound
    ensures items != [] && !items[0].JObj? ==> FirstMatch(items, target) == Raised
    ensures items != [] && items[0].JObj? && Matches(items[0], target) ==>
      FirstMatch(items, target) == Found(items[0].fields)
    ensures items != [] && items[0].JObj? && !Matches(items[0], target) ==>
      FirstMatch(items, target) == FirstMatch(items[1..], target)
  {
  }

  /** Where projected text goes: under the target question, or centred. */
  datatype Placement = OnQuestion(x1: int, y2: int) | Centred

  /** `x1, y1, x2, y2 = bbox` followed by arithmetic on `x1` and `y2`: a
      list of exactly four elements whose first and last are integers. */
  function BoxAnchor(bbox: Json): (r: Option<(int, int)>)
    ensures r.Some? <==> (bbox.JArr? && |bbox.items| == 4 &&
      Integral(bbox.items[0]).Some? && Integral(bbox.items[3]).Some?)
    ensures r.Some? ==> r.value == (Integral(bbox.items[0]).value, Integral(bbox.items[3]).value)
  {
    if bbox.JArr? && |bbox.items| == 4 then
      var x1 := Integral(bbox.items[0]);
      var y2 := Integral(bbox.items[3]);
      if x1.Some? && y2.Some? then Some((x1.value, y2.value)) else None
    else None
  }

  /** The placement for a target: under the found question when it is
      truthy and has a truthy `bbox_pixel`, centred otherwise; `None` when
      the search or the unpacking raises. */
  function Locate(questions: Json, target: Json): (r: Option<Placement>)
    ensures TargetSearch(questions, target).Raised? ==> r.None?
    ensures TargetSearch(questions, target).NotFound? ==> r == Some(Centred)
    ensures var s := TargetSearch(questions, target);
      s.Found? && (s.question == map[] || !Truthy(Get(s.question, "bbox_pixel"))) ==> r == Some(Centred)
    ensures var s := TargetSearch(questions, target);
      s.Found? && s.question != map[] && Truthy(Get(s.question, "bbox_pixel")) ==>
        (r.None? <==> BoxAnchor(Get(s.question, "bbox_pixel")).None?) &&
        (r.Some? ==> r == Some(OnQuestion(BoxAnchor(Get(s.question, "bbox_pixel")).value.0,
                                          BoxAnchor(Get(s.question, "bbox_pixel")).value.1)))
    ensures r.Some? && r.value.OnQuestion? ==>
      var s := TargetSearch(questions, target);
      s.Found? && Truthy(Get(s.question, "bbox_pixel")) &&
      BoxAnchor(Get(s.question, "bbox_pixel")) == Some((r.value.x1, r.value.y2))
  {
    match TargetSearch(questions, target)
    case Raised => None
    case NotFound => Some(Centred)
    case Found(q) =>
      var bbox := Get(q, "bbox_pixel");
      if q == map[] || !Truthy(bbox) then Some(Centred)
      else match BoxAnchor(bbox)
        case None => None
        case Some((x1, y2)) => Some(OnQuestion(x1, y2))
  }

  // ---------------------------------------------------------------------
  // The projection area
  // ---------------------------------------------------------------------

  /** `put_text` of a decoded value: a string is drawn; anything else makes
      the text drawing raise. */
  function TextLine(j: Json, at: Point, fontSize: int, color: Color): (r: Option<seq<DrawCmd>>)
    ensures r.Some? <==> j.JStr?
    ensures r.Some? ==> r.value == [Text(j.s, at, fontSize, color)]
  {
    if j.JStr? then Some([Text(j.s, at, fontSize, color)]) else None
  }

  /** The text the projection shows. For CHECK_ANSWER, an `is_correct` that
      is truthy or absent replaces it by the check-mark marker, and a falsy
      one by a truthy `error_analysis`. */
  function EffectiveContent(decision: Obj): (r: Json)
    ensures Get(decision, "decision_type") != JStr(CheckAnswer) ==> r == Get(decision, "projection_content")
    ensures Get(decision, "decision_type") == JStr(CheckAnswer) && Truthy(GetOr(decision, "is_correct", JBool(true))) ==>
      r == JStr(CheckmarkSentinel)
    ensures Get(decision, "decision_type") == JStr(CheckAnswer) && !Truthy(GetOr(decision, "is_correct", JBool(true))) ==>
      r == if Truthy(Get(decision, "error_analysis")) then Get(decision, "error_analysis")
           else Get(decision, "projection_content")
  {
    var content := Get(decision, "projection_content");
    if Get(decision, "decision_type") == JStr(CheckAnswer) then
      if Truthy(GetOr(decision, "is_correct", JBool(true))) then JStr(CheckmarkSentinel)
      else
        var analysis := GetOr(decision, "error_analysis", JStr(""));
        if Truthy(analysis) then analysis else content
    else content
  }

  function Centre(w: nat, h: nat): Point {
    Point(w / 2 - 100, h / 2)
  }

  function CheckmarkCentre(w: nat, h: nat): Point {
    Point(w / 2 - 15, h / 2)
  }

  /** The projection commands for a truthy decision; `None` when drawing
      raises. */
  function Content(w: nat, h: nat, questions: Json, decision: Obj): (r: Option<seq<DrawCmd>>)
    ensures !Truthy(EffectiveContent(decision)) ==> r == Some([])
    ensures var dt := Get(decision, "decision_type");
      dt == JStr(ClearProjection) || dt == JStr(NoInteraction) ==> r == Some([])
    ensures var dt := Get(decision, "decision_type"); var target := Get(decision, "target_question_id");
      (Truthy(EffectiveContent(decision)) && (dt == JStr(ProjectHint) || dt == JStr(CheckAnswer)) &&
       Truthy(target) && Locate(questions, target).None?) ==> r.None?
  {
    var dt := Get(decision, "decision_type");
    var target := Get(decision, "target_question_id");
    var content := EffectiveContent(decision);
    if !Truthy(content) then Some([])
    else if dt == JStr(ProjectHint) && Truthy(target) then
      match Locate(questions, target)
      case None => None
      case Some(OnQuestion(x1, y2)) => TextLine(content, Point(x1, y2 + 20), 18, HintColor)
      case Some(Centred) => TextLine(content, Centre(w, h), 18, HintColor)
    else if dt == JStr(CheckAnswer) && Truthy(target) then
      var correct := Truthy(Get(decision, "is_correct"));
      match Locate(questions, target)
      case None => None
      case Some(OnQuestion(x1, y2)) =>
        if correct then Some(Checkmark(Point(x1, y2 + 30), 30, Green))
        else TextLine(content, Point(x1, y2 + 20), 18, White)
      case Some(Centred) =>
        if correct then Some(Checkmark(CheckmarkCentre(w, h), 30, Green))
        else TextLine(content, Centre(w, h), 18, White)
    else if dt == JStr(ClearProjection) || dt == JStr(NoInteraction) then Some([])
    else TextLine(content, Centre(w, h), 18, White)
  }

  /** A hint goes right under its question, 20 pixels below the box, in the
      hint colour, and in the centre when the question or its box is not
      found. */
  lemma HintPlacement(w: nat, h: nat, questions: Json, decision: Obj)
    requires Get(decision, "decision_type") == JStr(ProjectHint)
    requires Truthy(Get(decision, "target_question_id"))
    requires Get(decision, "projection_content").JStr? && Truthy(Get(decision, "projection_content"))
    requires Locate(questions, Get(decision, "target_question_id")).Some?
    ensures var text := Get(decision, "projection_content").s;
      match Locate(questions, Get(decision, "target_question_id")).value
      case OnQuestion(x1, y2) => Content(w, h, questions, decision) == Some([Text(text, Point(x1, y2 + 20), 18, HintColor)])
      case Centred => Content(w, h, questions, decision) == Some([Text(text, Centre(w, h), 18, HintColor)])
  {
  }

  /** A truthy `is_correct` with a target draws the size-30 green check-mark,
      30 pixels below the question's box or at the centre. */
  lemma CheckmarkPlacement(w: nat, h: nat, questions: Json, decision: Obj)
    requires Get(decision, "decision_type") == JStr(CheckAnswer)
    requires Truthy(Get(decision, "target_question_id"))
    requires Truthy(Get(decision, "is_correct"))
    requires Locate(questions, Get(decision, "target_question_id")).Some?
    ensures match Locate(questions, Get(decision, "target_question_id")).value
      case OnQuestion(x1, y2) => Content(w, h, questions, decision) == Some(Checkmark(Point(x1, y2 + 30), 30, Green))
      case Centred => Content(w, h, questions, decision) == Some(Checkmark(CheckmarkCentre(w, h), 30, Green))
  {
  }

  /** A CHECK_ANSWER decision without `is_correct`: the first test reads it
      as true and sets the check-mark marker, the second reads it as absent,
      so the marker itself is drawn, as white text. */
  lemma CheckmarkSentinelDrawnAsText(w: nat, h: nat, questions: Json, decision: Obj)
    requires Get(decision, "decision_type") == JStr(CheckAnswer)
    requires "is_correct" !in decision
    requires Truthy(Get(decision, "target_question_id"))
    requires Locate(questions, Get(decision, "target_question_id")).Some?
    ensures match Locate(questions, Get(decision, "target_question_id")).value
      case OnQuestion(x1, y2) =>
        Content(w, h, questions, decision) == Some([Text(CheckmarkSentinel, Point(x1, y2 + 20), 18, White)])
      case Centred =>
        Content(w, h, questions, decision) == Some([Text(CheckmarkSentinel, Centre(w, h), 18, White)])
  {
  }

  /** A CHECK_ANSWER decision whose `is_correct` is present and falsy shows
      text in white, 20 pixels below the question's box or at the centre:
      the `error_analysis` when it is truthy, the content otherwise, and
      nothing when that is falsy too. */
  lemma WrongAnswerPlacement(w: nat, h: nat, questions: Json, decision: Obj)
    requires Get(decision, "decision_type") == JStr(CheckAnswer)
    requires "is_correct" in decision && !Truthy(decision["is_correct"])
    requires Truthy(Get(decision, "target_question_id"))
    requires Locate(questions, Get(decision, "target_question_id")).Some?
    ensures var shown := if Truthy(Get(decision, "error_analysis")) then Get(decision, "error_analysis")
                         else Get(decision, "projection_content");
      && (!Truthy(shown) ==> Content(w, h, questions, decision) == Some([]))
      && (Truthy(shown) ==>
            match Locate(questions, Get(decision, "target_question_id")).value
            case OnQuestion(x1, y2) =>
              Content(w, h, questions, decision) == TextLine(shown, Point(x1, y2 + 20), 18, White)
            case Centred =>
              Content(w, h, questions, decision) == TextLine(shown, Centre(w, h), 18, White))
  {
  }

  /** Any other decision with something to show (an unknown type, or a hint
      or check without a target) puts its text in white at the centre. */
  lemma OtherDecisionCentred(w: nat, h: nat, questions: Json, decision: Obj)
    requires var dt := Get(decision, "decision_type");
      && !((dt == JStr(ProjectHint) || dt == JStr(CheckAnswer)) && Truthy(Get(decision, "target_question_id")))
      && dt != JStr(ClearProjection) && dt != JStr(NoInteraction)
    requires Truthy(EffectiveContent(decision))
    ensures Content(w, h, questions, decision) == TextLine(EffectiveContent(decision), Centre(w, h), 18, White)
  {
  }

  /** The projection branches as the source writes them, with the target
      searched by the loop. */
  method ProjectionContent(w: nat, h: nat, questions: Json, decision: Obj) returns (r: Option<seq<DrawCmd>>)
    ensures r == Content(w, h, questions, decision)
  {
    var dt := Get(decision, "decision_type");
    var target := Get(decision, "target_question_id");
    var content := Get(decision, "projection_content");
    if dt == JStr(CheckAnswer) {
      var isCorrect := GetOr(decision, "is_correct", JBool(true));
      if Truthy(isCorrect) {
        content := JStr(CheckmarkSentinel);
      } else {
        var analysis := GetOr(decision, "error_analysis", JStr(""));
        if Truthy(analysis) {
          content := analysis;
        }
      }
    }
    if !Truthy(content) {
      return Some([]);
    }
    if (dt == JStr(ProjectHint) || dt == JStr(CheckAnswer)) && Truthy(target) {
      var found := FindTarget(questions, target);
      var place := Centred;
      if found.Raised? {
        return None;
      }
      if found.Found? && found.question != map[] && Truthy(Get(found.question, "bbox_pixel")) {
        var anchor := BoxAnchor(found.question["bbox_pixel"]);
        if anchor.None? {
          return None;
        }
        place := OnQuestion(anchor.value.0, anchor.value.1);
      }
      assert Locate(questions, target) == Some(place);
      if dt == JStr(ProjectHint) {
        var at := if place.OnQuestion? then Point(place.x1, place.y2 + 20) else Centre(w, h);
        r := TextLine(content, at, 18, HintColor);
      } else if Truthy(Get(decision, "is_correct")) {
        var at := if place.OnQuestion? then Point(place.x1, place.y2 + 30) else CheckmarkCentre(w, h);
        r := Some(Checkmark(at, 30, Green));
      } else {
        var at := if place.OnQuestion? then Point(place.x1, place.y2 + 20) else Centre(w, h);
        r := TextLine(content, at, 18, White);
      }
    } else if dt == JStr(ClearProjection) || dt == JStr(NoInteraction) {
      r := Some([]);
    } else {
      r := TextLine(content, Centre(w, h), 18, White);
    }
  }

  // ---------------------------------------------------------------------
  // The sidebar
  // ---------------------------------------------------------------------

  /** A reason longer than 20 characters is cut to its first 20 followed by
      "...". */
  function ShortReason(s: string): (r: string)
    ensures |s| <= 20 ==> r == s
    ensures |s| > 20 ==> |r| == 23 && r[..20] == s[..20] && r[20..] == "..."
  {
    if |s| > 20 then s[..20] + "..." else s
  }

  /** A sidebar line: green text of size 13. */
  function StatusText(text: string, x: int, y: int): DrawCmd {
    Text(text, Point(x, y), 13, Green)
  }

  /** Lines of the sidebar, one every 22 pixels from y downwards. */
  predicate Stacked(cmds: seq<DrawCmd>, x: int, y: int) {
    forall i :: 0 <= i < |cmds| ==>
      cmds[i].Text? && cmds[i].at == Point(x, y + 22 * i) && cmds[i].fontSize == 13 && cmds[i].color == Green
  }

  lemma StackedConcat(t: seq<DrawCmd>, b: seq<DrawCmd>, x: int, y: int)
    requires Stacked(t, x, y) && Stacked(b, x, y + 22 * |t|)
    ensures Stacked(t + b, x, y)
  {
    forall i | |t| <= i < |t + b|
      ensures (t + b)[i] == b[i - |t|]
    {
    }
  }

  /** The decision lines: its type, then its reason when that is truthy;
      `None` when either is not a string. */
  function DecisionLines(x: int, decision: Obj): (r: Option<seq<DrawCmd>>)
    ensures r.Some? ==> Stacked(r.value, x, 30)
    ensures r.Some? ==> 1 <= |r.value| <= 2 && (|r.value| == 2 <==> Truthy(GetOr(decision, "reason", JStr(""))))
    ensures r.Some? ==> Get(decision, "decision_type").JStr? && r.value[0].text == Get(decision, "decision_type").s
    ensures r.Some? && |r.value| == 2 ==>
      Get(decision, "reason").JStr? && r.value[1].text == ShortReason(Get(decision, "reason").s)
  {
    var dt := Get(decision, "decision_type");
    var reason := GetOr(decision, "reason", JStr(""));
    if !dt.JStr? then None
    else if !Truthy(reason) then Some([StatusText(dt.s, x, 30)])
    else if !reason.JStr? then None
    else Some([StatusText(dt.s, x, 30), StatusText(ShortReason(reason.s), x, 52)])
  }

  /** The report lines: writing or idle, then the seconds on the active
      question when they are positive; `None` when the seconds are not a
      number (the comparison raises). */
  function ReportLines(x: int, y: int, report: Obj): (r: Option<seq<DrawCmd>>)
    ensures var t := Numeric(GetOr(report, "time_on_active_question_seconds", JInt(0)));
      r.Some? <==> t.Some?
    ensures r.Some? ==> Stacked(r.value, x, y)
    ensures r.Some? ==> |r.value| >= 1 && r.value[0].text == if Truthy(GetOr(report, "is_writing", JBool(false))) then Writing else Idle
    ensures r.Some? ==> var t := Numeric(GetOr(report, "time_on_active_question_seconds", JInt(0))).value;
      1 <= |r.value| <= 2 && (|r.value| == 2 <==> t > 0.0) &&
      (|r.value| == 2 ==> 0 <= Trunc(t) && r.value[1].text == NatToString(Trunc(t)) + "s")
  {
    var writing := if Truthy(GetOr(report, "is_writing", JBool(false))) then Writing else Idle;
    var t := Numeric(GetOr(report, "time_on_active_question_seconds", JInt(0)));
    if t.None? then None
    else if t.value > 0.0 then
      Some([StatusText(writing, x, y), StatusText(NatToString(Trunc(t.value)) + "s", x, y + 22)])
    else Some([StatusText(writing, x, y)])
  }

  /** The sidebar for a truthy report: the decision lines when the decision
      is truthy, then the report lines, stacked from y = 30 just right of
      the divider. */
  function Sidebar(w: nat, report: Obj, decision: Obj): (r: Option<seq<DrawCmd>>)
    ensures r.Some? ==> Stacked(r.value, DividerX(w) + 10, 30)
    ensures decision == map[] ==> r == ReportLines(DividerX(w) + 10, 30, report)
    ensures decision != map[] && DecisionLines(DividerX(w) + 10, decision).None? ==> r.None?
    ensures decision != map[] && DecisionLines(DividerX(w) + 10, decision).Some? ==>
      var t := DecisionLines(DividerX(w) + 10, decision).value;
      var b := ReportLines(DividerX(w) + 10, 30 + 22 * |t|, report);
      (r.None? <==> b.None?) && (r.Some? ==> r.value == t + b.value)
  {
    var x := DividerX(w) + 10;
    var top := if decision == map[] then Some([]) else DecisionLines(x, decision);
    match top
    case None => None
    case Some(t) =>
      match ReportLines(x, 30 + 22 * |t|, report)
      case None => None
      case Some(b) =>
        StackedConcat(t, b, x, 30);
        assert t == [] ==> t + b == b;
        Some(t + b)
  }

  // ---------------------------------------------------------------------
  // The whole planner
  // ---------------------------------------------------------------------

  /** `draw_projection(frame, report, decision)` for a w-by-h frame, a falsy
      report or decision being the empty dict: the divider, then, for a
      truthy report, the projection and the sidebar; the raw frame when
      drawing raises. */
  function ProjectionPlan(w: nat, h: nat, report: Obj, decision: Obj): (r: Canvas)
    ensures report == map[] ==> r == Drawn([VerticalLine(DividerX(w), h, DividerGrey, 1)])
    ensures r.Drawn? ==> |r.cmds| >= 1 && r.cmds[0] == VerticalLine(DividerX(w), h, DividerGrey, 1)
    ensures report != map[] ==>
      var content := if decision == map[] then Some([])
                     else Content(w, h, GetOr(report, Perception.Questions, JArr([])), decision);
      var sidebar := Sidebar(w, report, decision);
      (r == RawFrame <==> content.None? || sidebar.None?) &&
      (r.Drawn? ==> r.cmds == [VerticalLine(DividerX(w), h, DividerGrey, 1)] + content.value + sidebar.value)
  {
    var divider := VerticalLine(DividerX(w), h, DividerGrey, 1);
    if report == map[] then Drawn([divider])
    else
      var questions := GetOr(report, Perception.Questions, JArr([]));
      var content := if decision == map[] then Some([]) else Content(w, h, questions, decision);
      match content
      case None => RawFrame
      case Some(c) =>
        match Sidebar(w, report, decision)
        case None => RawFrame
        case Some(s) => Drawn([divider] + c + s)
  }

  /** CLEAR_PROJECTION and NO_INTERACTION project nothing: apart from the
      divider, only the sidebar is drawn. */
  lemma ClearDrawsOnlySidebar(w: nat, h: nat, report: Obj, decision: Obj)
    requires report != map[] && decision != map[]
    requires Get(decision, "decision_type") == JStr(ClearProjection) ||
             Get(decision, "decision_type") == JStr(NoInteraction)
    requires Sidebar(w, report, decision).Some?
    ensures ProjectionPlan(w, h, report, decision) ==
      Drawn([VerticalLine(DividerX(w), h, DividerGrey, 1)] + Sidebar(w, report, decision).value)
  {
    assert Content(w, h, GetOr(report, Perception.Questions, JArr([])), decision) == Some([]);
    assert [VerticalLine(DividerX(w), h, DividerGrey, 1)] + [] == [VerticalLine(DividerX(w), h, DividerGrey, 1)];
  }

  /** The sidebar as the source writes it: each line is drawn at `statusY`,
      which then moves down by the line height. */
  method SidebarCommands(w: nat, report: Obj, decision: Obj) returns (r: Option<seq<DrawCmd>>)
    ensures r == Sidebar(w, report, decision)
  {
    var statusY := 30;
    var statusX := DividerX(w) + 10;
    var cmds: seq<DrawCmd> := [];
    if decision != map[] {
      var dt := Get(decision, "decision_type");
      var reason := GetOr(decision, "reason", JStr(""));
      if !dt.JStr? {
        return None;
      }
      cmds := [StatusText(dt.s, statusX, statusY)];
      statusY := statusY + 22;
      if Truthy(reason) {
        if !reason.JStr? {
          return None;
        }
        cmds := cmds + [StatusText(ShortReason(reason.s), statusX, statusY)];
        statusY := statusY + 22;
        assert cmds == [StatusText(dt.s, statusX, 30), StatusText(ShortReason(reason.s), statusX, 52)];
        assert DecisionLines(statusX, decision) == Some(cmds);
      } else {
        assert DecisionLines(statusX, decision) == Some(cmds);
      }
    }
    ghost var top := cmds;
    var writing := if Truthy(GetOr(report, "is_writing", JBool(false))) then Writing else Idle;
    cmds := cmds + [StatusText(writing, statusX, statusY)];
    statusY := statusY + 22;
    var time := Numeric(GetOr(report, "time_on_active_question_seconds", JInt(0)));
    if time.None? {
      return None;
    }
    if time.value > 0.0 {
      cmds := cmds + [StatusText(NatToString(Trunc(time.value)) + "s", statusX, statusY)];
    }
    assert cmds == top + ReportLines(statusX, 30 + 22 * |top|, report).value;
    return Some(cmds);
  }

  /** The planner as the source writes it: the canvas grows by the divider,
      the projection and the sidebar in turn. */
  method DrawProjection(w: nat, h: nat, report: Obj, decision: Obj) returns (canvas: Canvas)
    ensures canvas == ProjectionPlan(w, h, report, decision)
  {
    var cmds := [VerticalLine(DividerX(w), h, DividerGrey, 1)];
    if report == map[] {
      return Drawn(cmds);
    }
    var questions := GetOr(report, Perception.Questions, JArr([]));
    if decision != map[] {
      var content := ProjectionContent(w, h, questions, decision);
      if content.None? {
        return RawFrame;
      }
      cmds := cmds + content.value;
    }
    var sidebar := SidebarCommands(w, report, decision);
    if sidebar.None? {
      return RawFrame;
    }
    cmds := cmds + sidebar.value;
    return Drawn(cmds);
  }

  // ---------------------------------------------------------------------
  // One analysis cycle
  // ---------------------------------------------------------------------

  const FeedbackToPerception := "feedback_to_perception"

  /** The feedback handed to the next perception call: built only from a
      decision with a truthy `feedback_to_perception`, carrying it, the
      question states (`{}` when absent), and the decision's type and
      target. */
  function BuildFeedback(decision: Option<Obj>): (r: Option<Obj>)
    ensures r.Some? <==> decision.Some? && Truthy(Get(decision.value, FeedbackToPerception))
    ensures r.Some? ==>
      r.value.Keys == {FeedbackToPerception, Reasoning.UpdatedStates, "last_decision_type", "last_target_question_id"}
    ensures r.Some? ==> r.value[FeedbackToPerception] == decision.value[FeedbackToPerception]
    ensures r.Some? ==> r.value[Reasoning.UpdatedStates] == GetOr(decision.value, Reasoning.UpdatedStates, JObj(map[]))
    ensures r.Some? ==> r.value["last_decision_type"] == Get(decision.value, "decision_type")
    ensures r.Some? ==> r.value["last_target_question_id"] == Get(decision.value, "target_question_id")
  {
    if decision.Some? && FeedbackToPerception in decision.value && Truthy(decision.value[FeedbackToPerception]) then
      var d := decision.value;
      Some(map[FeedbackToPerception := d[FeedbackToPerception],
               Reasoning.UpdatedStates := GetOr(d, Reasoning.UpdatedStates, JObj(map[])),
               "last_decision_type" := Get(d, "decision_type"),
               "last_target_question_id" := Get(d, "target_question_id")])
    else None
  }

  /** A falsy value (`None` or `{}`) as the empty dict. */
  function OrEmpty(o: Option<Obj>): (r: Obj)
    ensures o.Some? ==> r == o.value
    ensures o.None? ==> r == map[]
  {
    if o.Some? then o.value else map[]
  }

  /** The assistant's shared state: what the display draws, and the feedback
      the next perception call merges onto. */
  class LearningAssistant {
    var currentPerceptionReport: Option<Obj>
    var currentDecision: Option<Obj>
    var reasoningFeedback: Option<Obj>
    const reasoningAgent: Reasoning.ReasoningAgent

    constructor ()
      ensures currentPerceptionReport.None? && currentDecision.None? && reasoningFeedback.None?
      ensures fresh(reasoningAgent) && reasoningAgent.questionStates == map[]
    {
      currentPerceptionReport := None;
      currentDecision := None;
      reasoningFeedback := None;
      reasoningAgent := new Reasoning.ReasoningAgent();
    }

    /** One analysis cycle, with the two model replies as inputs: perception
        merges onto the last reasoning feedback, reasoning runs on a truthy
        report, and the commit overwrites the report and the decision even
        with `None` but replaces the feedback only when a new one was built. */
    method AnalyzeCycle(w: int, h: int, now: string, perceptionReply: Option<string>,
                        reasoningReply: Option<string>, decode: string -> Option<Obj>)
      modifies this, reasoningAgent
      ensures var report := if perceptionReply.None? then None
        else Perception.PerceptionResult(QwenClient.Strip(perceptionReply.value), w, h,
                                         OrEmpty(old(reasoningFeedback)), now, decode);
        && currentPerceptionReport == report
        && (report.None? || report.value == map[] ==> currentDecision.None? && reasoningFeedback == old(reasoningFeedback))
        && (report.Some? && report.value != map[] ==>
              && currentDecision == Reasoning.Decision(report.value, reasoningReply, decode)
              && reasoningAgent.questionStates == Reasoning.StatesAfter(old(reasoningAgent.questionStates), currentDecision)
              && reasoningFeedback == if BuildFeedback(currentDecision).Some? then BuildFeedback(currentDecision)
                                      else old(reasoningFeedback))
      ensures (currentPerceptionReport.None? || currentPerceptionReport.value == map[]) ==>
        reasoningAgent.questionStates == old(reasoningAgent.questionStates)
    {
      var lastFeedback := reasoningFeedback;
      var report: Option<Obj> := None;
      if perceptionReply.Some? {
        report := Perception.ParseResponse(QwenClient.Strip(perceptionReply.value), w, h,
                                           OrEmpty(lastFeedback), now, decode);
      }
      var decision: Option<Obj> := None;
      var feedback: Option<Obj> := None;
      if report.Some? && report.value != map[] {
        decision := reasoningAgent.MakeDecision(report.value, reasoningReply, decode);
        feedback := BuildFeedback(decision);
      }
      currentPerceptionReport := report;
      currentDecision := decision;
      if feedback.Some? {
        reasoningFeedback := feedback;
      }
    }
  }
}
