/** The perception agent's reply handling (perception_agent.py,
    `PerceptionAgent._parse_response`): the reply's JSON object is stamped
    with the time, merged as a partial update onto a base state, and every
    question's normalised bounding box is checked and converted to pixels.
    The base is whatever object the caller passes; the clock reading is the
    parameter `now`. */
module Perception {
  import opened JsonValue
  import QwenClient

  const Timestamp := "timestamp"
  const Attempts := "user_attempt_content"
  const Questions := "questions_on_page"
  const Bbox := "bbox"
  const BboxPixel := "bbox_pixel"

  // ---------------------------------------------------------------------
  // Merge of a partial update onto a base state
  // ---------------------------------------------------------------------

  /** The reply's object with a `timestamp` added when it has none. */
  function Stamped(data: Obj, now: string): (r: Obj)
    ensures r.Keys == data.Keys + {Timestamp}
    ensures forall k :: k in data ==> r[k] == data[k]
    ensures Timestamp !in data ==> r[Timestamp] == JStr(now + "Z")
  {
    if Timestamp in data then data else data[Timestamp := JStr(now + "Z")]
  }

  /** `target.update(arg)` on the attempts dict: keys of `arg` overwrite,
      the others stay; an empty list or string updates nothing. `None`
      where Python raises: `target` is not a dict, or `arg` is neither a
      dict nor an empty sequence. */
  function UpdateDict(target: Json, arg: Json): (r: Option<Json>)
    ensures r.Some? <==> target.JObj? && (arg.JObj? || arg == JArr([]) || arg == JStr(""))
    ensures r.Some? ==> r.value.JObj?
    ensures r.Some? ==> forall k :: k in r.value.fields <==> (k in target.fields || (arg.JObj? && k in arg.fields))
    ensures r.Some? && arg.JObj? ==> forall k :: k in arg.fields ==> r.value.fields[k] == arg.fields[k]
    ensures r.Some? ==> forall k :: k in target.fields && !(arg.JObj? && k in arg.fields) ==>
      r.value.fields[k] == target.fields[k]
  {
    if !target.JObj? then None
    else match arg
      case JObj(m) => Some(JObj(target.fields + m))
      case JArr(a) => if a == [] then Some(target) else None
      case JStr(t) => if t == "" then Some(target) else None
      case _ => None
  }

  /** Updating twice with the same argument is updating once. */
  lemma UpdateDictTwice(target: Json, arg: Json)
    requires UpdateDict(target, arg).Some?
    ensures UpdateDict(UpdateDict(target, arg).value, arg) == UpdateDict(target, arg)
  {
    var u := UpdateDict(target, arg).value;
    if arg.JObj? {
      assert u.fields + arg.fields == u.fields;
    }
  }

  /** The attempts dict the merge starts from: the base's, or a fresh `{}`. */
  function BaseAttempts(previous: Obj): (r: Json)
    ensures Attempts in previous ==> r == previous[Attempts]
    ensures Attempts !in previous ==> r == JObj(map[])
  {
    if Attempts in previous then previous[Attempts] else JObj(map[])
  }

  /** The merge the source performs when the base state is truthy: every key
      of the update overwrites, `questions_on_page` included, every other key
      of the base survives, and `user_attempt_content` is always present,
      merged id by id. `None` when the attempts update raises. */
  function Merge(previous: Obj, data: Obj): (r: Option<Obj>)
    ensures r.None? <==> Attempts in data && UpdateDict(BaseAttempts(previous), data[Attempts]).None?
    ensures r.Some? ==> r.value.Keys == previous.Keys + data.Keys + {Attempts}
    ensures r.Some? ==> forall k :: k in data && k != Attempts ==> r.value[k] == data[k]
    ensures r.Some? ==> forall k :: k in previous && k !in data && k != Attempts ==> r.value[k] == previous[k]
    ensures r.Some? && Attempts !in data ==> r.value[Attempts] == BaseAttempts(previous)
    ensures r.Some? && Attempts in data ==>
      Some(r.value[Attempts]) == UpdateDict(BaseAttempts(previous), data[Attempts])
  {
    var base := BaseAttempts(previous);
    if Attempts in data then
      match UpdateDict(base, data[Attempts])
      case None => None
      case Some(u) => Some((previous + data)[Attempts := u])
    else Some((previous + data)[Attempts := base])
  }

  /** The steps before the key loop: the copy of the base, the attempts
      default and update, and the wholesale replacement of the question
      list. */
  method PrepareMerge(previous: Obj, data: Obj) returns (r: Option<Obj>)
    ensures r.None? <==> Merge(previous, data).None?
    ensures r.Some? ==>
      && r.value.Keys == previous.Keys + {Attempts} + (if Questions in data then {Questions} else {})
      && r.value[Attempts] == Merge(previous, data).value[Attempts]
      && (Questions in data ==> r.value[Questions] == data[Questions])
      && (forall k :: k in previous && k != Attempts && !(k == Questions && Questions in data) ==>
            r.value[k] == previous[k])
  {
    var merged := previous;
    if Attempts !in merged {
      merged := merged[Attempts := JObj(map[])];
    }
    if Attempts in data {
      var updated := UpdateDict(merged[Attempts], data[Attempts]);
      if updated.None? {
        return None;
      }
      merged := merged[Attempts := updated.value];
    }
    if Questions in data {
      merged := merged[Questions := data[Questions]];
    }
    return Some(merged);
  }

  /** The merge written as the source writes it: the steps before the loop,
      then a loop copying the update's other keys. */
  method MergeStates(previous: Obj, data: Obj) returns (r: Option<Obj>)
    ensures r == Merge(previous, data)
  {
    var prepared := PrepareMerge(previous, data);
    if prepared.None? {
      return None;
    }
    var merged := CopyKeys(prepared.value, data);
    OverlaidAll(previous, data, prepared.value);
    return Some(merged);
  }

  /** The key loop: every key of the update other than the two handled
      before is copied over `start`, one key at a time. */
  method CopyKeys(start: Obj, data: Obj) returns (merged: Obj)
    ensures merged == Overlaid(start, data, data.Keys)
  {
    merged := start;
    var keys := data.Keys;
    while keys != {}
      invariant keys <= data.Keys
      invariant merged == Overlaid(start, data, data.Keys - keys)
      decreases keys
    {
      var key :| key in keys;
      OverlaidStep(start, data, data.Keys - keys, key);
      if key != Attempts && key != Questions {
        merged := merged[key := data[key]];
      }
      assert data.Keys - (keys - {key}) == (data.Keys - keys) + {key};
      keys := keys - {key};
    }
    assert data.Keys - keys == data.Keys;
  }

  /** The state of the key loop once the keys in `done` have been copied:
      those keys, except the two handled before, take the update's value. */
  ghost function Overlaid(start: Obj, data: Obj, done: set<string>): Obj {
    map k | k in start.Keys + (done * data.Keys - {Attempts, Questions}) ::
      if k in done && k in data && k != Attempts && k != Questions then data[k] else start[k]
  }

  lemma OverlaidStep(start: Obj, data: Obj, done: set<string>, key: string)
    requires key in data
    ensures key != Attempts && key != Questions ==>
      Overlaid(start, data, done + {key}) == Overlaid(start, data, done)[key := data[key]]
    ensures key == Attempts || key == Questions ==>
      Overlaid(start, data, done + {key}) == Overlaid(start, data, done)
  {
  }

  /** Once every key is copied, the loop has built the merge. */
  lemma OverlaidAll(previous: Obj, data: Obj, start: Obj)
    requires Merge(previous, data).Some?
    requires start.Keys == previous.Keys + {Attempts} + (if Questions in data then {Questions} else {})
    requires start[Attempts] == Merge(previous, data).value[Attempts]
    requires Questions in data ==> start[Questions] == data[Questions]
    requires forall k :: k in previous && k != Attempts && !(k == Questions && Questions in data) ==>
      start[k] == previous[k]
    ensures Overlaid(start, data, data.Keys) == Merge(previous, data).value
  {
  }

  /** Question ids the update does not mention keep their old text; ids it
      mentions take the new one. */
  lemma MergedAttempts(previous: Obj, data: Obj, id: string)
    requires Merge(previous, data).Some?
    requires Attempts in previous && previous[Attempts].JObj? && id in previous[Attempts].fields
    ensures var a := Merge(previous, data).value[Attempts];
      a.JObj? && id in a.fields &&
      (Attempts in data && data[Attempts].JObj? && id in data[Attempts].fields ==>
         a.fields[id] == data[Attempts].fields[id]) &&
      (!(Attempts in data && data[Attempts].JObj? && id in data[Attempts].fields) ==>
         a.fields[id] == previous[Attempts].fields[id])
  {
  }

  /** Merging the same update onto the result of merging it is a no-op. */
  lemma MergeIdempotent(previous: Obj, data: Obj)
    requires Merge(previous, data).Some?
    ensures Merge(Merge(previous, data).value, data) == Merge(previous, data)
  {
    var m := Merge(previous, data).value;
    if Attempts in data {
      UpdateDictTwice(BaseAttempts(previous), data[Attempts]);
    }
    assert Merge(m, data).value == m;
  }

  // ---------------------------------------------------------------------
  // Bounding-box validation and pixel conversion
  // ---------------------------------------------------------------------

  /** The four numbers of a question's `bbox`, when it is a dict whose
      `bbox` is a list of four or more numbers. */
  function BoxCoords(q: Json): (r: Option<(real, real, real, real)>)
    ensures r.Some? ==> q.JObj? && Bbox in q.fields && q.fields[Bbox].JArr? && |q.fields[Bbox].items| >= 4
    ensures r.Some? ==> var b := q.fields[Bbox].items;
      Numeric(b[0]) == Some(r.value.0) && Numeric(b[1]) == Some(r.value.1) &&
      Numeric(b[2]) == Some(r.value.2) && Numeric(b[3]) == Some(r.value.3)
  {
    if q.JObj? && Bbox in q.fields && q.fields[Bbox].JArr? && |q.fields[Bbox].items| >= 4 then
      var b := q.fields[Bbox].items;
      var x1, y1, x2, y2 := Numeric(b[0]), Numeric(b[1]), Numeric(b[2]), Numeric(b[3]);
      if x1.Some? && y1.Some? && x2.Some? && y2.Some? then Some((x1.value, y1.value, x2.value, y2.value))
      else None
    else None
  }

  predicate InUnit(v: real) {
    0.0 <= v <= 1.0
  }

  /** A question the source accepts: a dict with a `bbox` of four numbers in
      [0, 1], left below right and top below bottom. Any other question
      either sets the format-error flag or makes a comparison raise, and both
      end in `None`. */
  predicate ValidBox(q: Json) {
    var c := BoxCoords(q);
    c.Some? && InUnit(c.value.0) && InUnit(c.value.1) && InUnit(c.value.2) && InUnit(c.value.3)
    && c.value.0 < c.value.2 && c.value.1 < c.value.3
  }

  /** `[int(x1*w), int(y1*h), int(x2*w), int(y2*h)]` for a box in the unit
      square: inside the frame and ordered. */
  function PixelBox(x1: real, y1: real, x2: real, y2: real, w: int, h: int): (p: seq<int>)
    requires InUnit(x1) && InUnit(y1) && InUnit(x2) && InUnit(y2) && x1 < x2 && y1 < y2
    ensures |p| == 4
    ensures p[0] == Trunc(x1 * w as real) && p[1] == Trunc(y1 * h as real)
    ensures p[2] == Trunc(x2 * w as real) && p[3] == Trunc(y2 * h as real)
    ensures w >= 0 ==> 0 <= p[0] <= p[2] <= w
    ensures h >= 0 ==> 0 <= p[1] <= p[3] <= h
  {
    ScaledPair(x1, x2, w);
    ScaledPair(y1, y2, h);
    [Trunc(x1 * w as real), Trunc(y1 * h as real), Trunc(x2 * w as real), Trunc(y2 * h as real)]
  }

  /** Two ordered fractions of a non-negative size stay ordered and within
      the size once scaled and truncated. */
  lemma ScaledPair(a: real, b: real, n: int)
    requires InUnit(a) && InUnit(b) && a < b
    ensures n >= 0 ==> 0 <= Trunc(a * n as real) <= Trunc(b * n as real) <= n
  {
    ScaleUnit(a, n);
    ScaleUnit(b, n);
    ScaleBetween(a, a, b, n);
  }

  /** A pixel box as a JSON list: four integers, inside a w by h frame and
      ordered. */
  predicate PixelBoxInFrame(j: Json, w: int, h: int) {
    j.JArr? && |j.items| == 4 && (forall i :: 0 <= i < 4 ==> j.items[i].JInt?)
    && 0 <= j.items[0].i <= j.items[2].i <= w && 0 <= j.items[1].i <= j.items[3].i <= h
  }

  /** An accepted question with its `bbox_pixel` added. */
  function WithPixelBox(q: Json, w: int, h: int): (r: Json)
    requires ValidBox(q)
    ensures r.JObj? && r.fields.Keys == q.fields.Keys + {BboxPixel}
    ensures forall k :: k in q.fields && k != BboxPixel ==> r.fields[k] == q.fields[k]
    ensures w >= 0 && h >= 0 ==> PixelBoxInFrame(r.fields[BboxPixel], w, h)
    ensures r.fields[BboxPixel] == PixelList(BoxCoords(q).value, w, h)
    ensures ValidBox(r) && BoxCoords(r) == BoxCoords(q)
  {
    var c := BoxCoords(q).value;
    PixelListInFrame(c, w, h);
    var r := JObj(q.fields[BboxPixel := PixelList(c, w, h)]);
    assert r.fields[Bbox] == q.fields[Bbox];
    r
  }

  /** `[int(x1*w), int(y1*h), int(x2*w), int(y2*h)]` as a JSON list. */
  function PixelList(c: (real, real, real, real), w: int, h: int): Json {
    JArr([JInt(Scale(c.0, w)), JInt(Scale(c.1, h)), JInt(Scale(c.2, w)), JInt(Scale(c.3, h))])
  }

  lemma PixelListInFrame(c: (real, real, real, real), w: int, h: int)
    requires InUnit(c.0) && InUnit(c.1) && InUnit(c.2) && InUnit(c.3) && c.0 < c.2 && c.1 < c.3
    ensures w >= 0 && h >= 0 ==> PixelBoxInFrame(PixelList(c, w, h), w, h)
  {
    var p := PixelBox(c.0, c.1, c.2, c.3, w, h);
    assert Scale(c.0, w) == p[0] && Scale(c.1, h) == p[1] && Scale(c.2, w) == p[2] && Scale(c.3, h) == p[3];
    assert PixelList(c, w, h).items == [JInt(p[0]), JInt(p[1]), JInt(p[2]), JInt(p[3])];
  }

  /** Adding the pixel box a second time changes nothing. */
  lemma WithPixelBoxTwice(q: Json, w: int, h: int)
    requires ValidBox(q)
    ensures WithPixelBox(WithPixelBox(q, w, h), w, h) == WithPixelBox(q, w, h)
  {
    var once := WithPixelBox(q, w, h);
    assert WithPixelBox(once, w, h).fields == once.fields;
  }

  /** Every question of a list with its pixel box. */
  function WithPixelBoxes(qs: seq<Json>, w: int, h: int): (r: seq<Json>)
    requires forall i :: 0 <= i < |qs| ==> ValidBox(qs[i])
    ensures |r| == |qs|
    ensures forall i :: 0 <= i < |qs| ==> r[i] == WithPixelBox(qs[i], w, h)
  {
    if qs == [] then []
    else
      var init := qs[..|qs| - 1];
      assert forall i :: 0 <= i < |init| ==> init[i] == qs[i];
      WithPixelBoxes(init, w, h) + [WithPixelBox(qs[|qs| - 1], w, h)]
  }

  /** The validation step on the merged state. When `questions_on_page` is a
      list, one question without a valid box rejects the whole state, and
      otherwise every question gets its pixel box; a state without such a
      list passes unchanged. */
  function Validated(data: Obj, w: int, h: int): (r: Option<Obj>)
    ensures r.None? <==> (Questions in data && data[Questions].JArr? &&
      exists i :: 0 <= i < |data[Questions].items| && !ValidBox(data[Questions].items[i]))
    ensures r.Some? ==> r.value.Keys == data.Keys
    ensures r.Some? ==> forall k :: k in data && k != Questions ==> r.value[k] == data[k]
    ensures r.Some? && !(Questions in data && data[Questions].JArr?) ==> r.value == data
  {
    if Questions in data && data[Questions].JArr? then
      var qs := data[Questions].items;
      if forall i :: 0 <= i < |qs| ==> ValidBox(qs[i]) then
        Some(data[Questions := JArr(WithPixelBoxes(qs, w, h))])
      else None
    else Some(data)
  }

  /** In an accepted state every question is the original one with its
      `bbox_pixel` set to `[int(x1*w), int(y1*h), int(x2*w), int(y2*h)]`,
      which lies inside the frame. */
  lemma AcceptedQuestionsHavePixelBoxes(data: Obj, w: int, h: int)
    requires w >= 0 && h >= 0
    requires Validated(data, w, h).Some?
    requires Questions in data && data[Questions].JArr?
    ensures var qs := Validated(data, w, h).value[Questions];
      qs.JArr? && |qs.items| == |data[Questions].items| &&
      forall i :: 0 <= i < |qs.items| ==>
        var q := data[Questions].items[i];
        && ValidBox(q) && qs.items[i].JObj?
        && qs.items[i].fields == q.fields[BboxPixel := PixelList(BoxCoords(q).value, w, h)]
        && PixelBoxInFrame(qs.items[i].fields[BboxPixel], w, h)
  {
  }

  /** Validating an accepted state again accepts it unchanged. */
  lemma ValidatedTwice(data: Obj, w: int, h: int)
    requires Validated(data, w, h).Some?
    ensures Validated(Validated(data, w, h).value, w, h) == Validated(data, w, h)
  {
    if Questions in data && data[Questions].JArr? {
      var s := Validated(data, w, h).value;
      var once := WithPixelBoxes(data[Questions].items, w, h);
      WithPixelBoxesTwice(data[Questions].items, w, h);
      ValidatedFixed(s, once, w, h);
    }
  }

  /** A state whose questions already carry their pixel boxes is accepted
      unchanged. */
  lemma ValidatedFixed(s: Obj, qs: seq<Json>, w: int, h: int)
    requires Questions in s && s[Questions] == JArr(qs)
    requires forall i :: 0 <= i < |qs| ==> ValidBox(qs[i])
    requires WithPixelBoxes(qs, w, h) == qs
    ensures Validated(s, w, h) == Some(s)
  {
    assert s[Questions := JArr(qs)] == s;
  }

  lemma WithPixelBoxesTwice(qs: seq<Json>, w: int, h: int)
    requires forall i :: 0 <= i < |qs| ==> ValidBox(qs[i])
    ensures var once := WithPixelBoxes(qs, w, h);
      (forall i :: 0 <= i < |once| ==> ValidBox(once[i])) && WithPixelBoxes(once, w, h) == once
  {
    var once := WithPixelBoxes(qs, w, h);
    forall i | 0 <= i < |once|
      ensures ValidBox(once[i]) && WithPixelBox(once[i], w, h) == once[i]
    {
      WithPixelBoxTwice(qs[i], w, h);
    }
  }

  /** The validation loop as the source writes it: the questions are
      converted one at a time, and the first bad one sets the format-error
      flag and ends the loop. */
  method ValidateQuestions(data: Obj, w: int, h: int) returns (r: Option<Obj>)
    ensures r == Validated(data, w, h)
  {
    if !(Questions in data && data[Questions].JArr?) {
      return Some(data);
    }
    var original := data[Questions].items;
    var questions := original;
    var hasFormatError := false;
    var i := 0;
    while i < |questions|
      invariant 0 <= i <= |questions| == |original|
      invariant forall j :: 0 <= j < i ==> ValidBox(original[j]) && questions[j] == WithPixelBox(original[j], w, h)
      invariant forall j :: i <= j < |questions| ==> questions[j] == original[j]
    {
      if ValidBox(questions[i]) {
        questions := questions[i := WithPixelBox(questions[i], w, h)];
      } else {
        hasFormatError := true;
        break;
      }
      i := i + 1;
    }
    if hasFormatError {
      assert !ValidBox(original[i]);
      return None;
    }
    assert questions == WithPixelBoxes(original, w, h);
    return Some(data[Questions := JArr(questions)]);
  }

  // ---------------------------------------------------------------------
  // The whole reply
  // ---------------------------------------------------------------------

  /** `_parse_response(response, (h, w), previous)` with the clock reading
      `now`: `None` for a reply without a decodable object, for an attempts
      update that raises and for a bad box; otherwise the stamped update,
      merged onto `previous` when that is non-empty, and validated. */
  function PerceptionResult(response: string, w: int, h: int, previous: Obj, now: string,
                            decode: string -> Option<Obj>): (r: Option<Obj>)
    ensures response == [] || QwenClient.JsonSpan(response).None? ==> r.None?
    ensures r.Some? ==> QwenClient.ExtractJson(response, decode).Some? && Timestamp in r.value
    ensures r.Some? && previous != map[] ==> Attempts in r.value
    ensures QwenClient.ExtractJson(response, decode).Some? ==>
      var data := Stamped(QwenClient.ExtractJson(response, decode).value, now);
      && (previous == map[] ==> r == Validated(data, w, h))
      && (previous != map[] ==>
            (r.None? <==> Merge(previous, data).None? || Validated(Merge(previous, data).value, w, h).None?)
            && (r.Some? ==> r == Validated(Merge(previous, data).value, w, h)))
  {
    match QwenClient.ExtractJson(response, decode)
    case None => None
    case Some(decoded) =>
      var data := Stamped(decoded, now);
      var merged := if previous != map[] then Merge(previous, data) else Some(data);
      match merged
      case None => None
      case Some(m) => Validated(m, w, h)
  }

  /** The stamped update the merge works from. */
  function Update(response: string, now: string, decode: string -> Option<Obj>): (r: Obj)
    requires QwenClient.ExtractJson(response, decode).Some?
    ensures Timestamp in r
  {
    Stamped(QwenClient.ExtractJson(response, decode).value, now)
  }

  /** With a non-empty base, the keys of an accepted result: base keys the
      update does not mention survive, the update's keys overwrite, and the
      question list comes from the update when it has one and from the base
      otherwise, in both cases with pixel boxes added. */
  lemma PerceptionMergesKeys(response: string, w: int, h: int, previous: Obj, now: string,
                             decode: string -> Option<Obj>)
    requires previous != map[]
    requires PerceptionResult(response, w, h, previous, now, decode).Some?
    ensures var r := PerceptionResult(response, w, h, previous, now, decode).value;
      var d := Update(response, now, decode);
      && (forall k :: k in previous && k !in d && k != Attempts && k != Questions ==> r[k] == previous[k])
      && (forall k :: k in d && k != Attempts && k != Questions ==> r[k] == d[k])
      && (Questions in d && d[Questions].JArr? ==>
            (forall i :: 0 <= i < |d[Questions].items| ==> ValidBox(d[Questions].items[i])) &&
            r[Questions] == JArr(WithPixelBoxes(d[Questions].items, w, h)))
      && (Questions !in d && Questions in previous && previous[Questions].JArr? ==>
            (forall i :: 0 <= i < |previous[Questions].items| ==> ValidBox(previous[Questions].items[i])) &&
            r[Questions] == JArr(WithPixelBoxes(previous[Questions].items, w, h)))
  {
  }

  /** Applying the same reply to the state it produced gives that state
      again, provided the first base was non-empty or the update carried its
      own attempts dict. */
  lemma PerceptionIdempotent(response: string, w: int, h: int, previous: Obj, now: string,
                             decode: string -> Option<Obj>)
    requires PerceptionResult(response, w, h, previous, now, decode).Some?
    requires var d := QwenClient.ExtractJson(response, decode).value;
      previous != map[] || (Attempts in d && d[Attempts].JObj?)
    ensures var s := PerceptionResult(response, w, h, previous, now, decode).value;
      PerceptionResult(response, w, h, s, now, decode) == Some(s)
  {
    var d := Update(response, now, decode);
    var m1 := if previous != map[] then Merge(previous, d).value else d;
    if Attempts in d {
      if previous != map[] {
        UpdateDictTwice(BaseAttempts(previous), d[Attempts]);
      } else {
        assert d[Attempts].fields + d[Attempts].fields == d[Attempts].fields;
      }
    }
    RemergeValidated(m1, d, w, h);
  }

  /** Merging an update once more onto the validated state it produced, and
      validating again, gives that state back. */
  lemma RemergeValidated(m1: Obj, d: Obj, w: int, h: int)
    requires Attempts in m1 && Validated(m1, w, h).Some?
    requires forall k :: k in d && k != Attempts ==> k in m1 && m1[k] == d[k]
    requires Attempts in d ==> UpdateDict(m1[Attempts], d[Attempts]) == Some(m1[Attempts])
    ensures var s := Validated(m1, w, h).value;
      Merge(s, d).Some? && Validated(Merge(s, d).value, w, h) == Some(s)
  {
    var s := Validated(m1, w, h).value;
    var m2 := Merge(s, d).value;
    if Questions in d || !(Questions in m1 && m1[Questions].JArr?) {
      assert m2 == m1;
    } else {
      assert m2 == s;
      ValidatedTwice(m1, w, h);
    }
  }

  /** The idempotence needs its proviso: with an empty first base and an
      update without attempts, the first result has no attempts key, and
      applying the same reply to it adds an empty one. */
  lemma EmptyBaseNotIdempotent(response: string, w: int, h: int, now: string,
                               decode: string -> Option<Obj>)
    requires PerceptionResult(response, w, h, map[], now, decode).Some?
    requires Attempts !in QwenClient.ExtractJson(response, decode).value
    ensures var s := PerceptionResult(response, w, h, map[], now, decode).value;
      var again := PerceptionResult(response, w, h, s, now, decode);
      Attempts !in s && again.Some? && again.value[Attempts] == JObj(map[])
  {
    var d := Update(response, now, decode);
    var s := Validated(d, w, h).value;
    var m2 := Merge(s, d).value;
    if Questions in d && d[Questions].JArr? {
      assert m2[Questions] == d[Questions];
      assert forall i :: 0 <= i < |d[Questions].items| ==> ValidBox(d[Questions].items[i]);
    }
  }

  /** The reply handler as the source writes it. */
  method ParseResponse(response: string, w: int, h: int, previous: Obj, now: string,
                       decode: string -> Option<Obj>) returns (r: Option<Obj>)
    ensures r == PerceptionResult(response, w, h, previous, now, decode)
  {
    var extracted := QwenClient.ExtractJson(response, decode);
    if extracted.None? {
      return None;
    }
    var data := extracted.value;
    if Timestamp !in data {
      data := data[Timestamp := JStr(now + "Z")];
    }
    if previous != map[] {
      var merged := MergeStates(previous, data);
      if merged.None? {
        return None;
      }
      data := merged.value;
    }
    r := ValidateQuestions(data, w, h);
  }
}
