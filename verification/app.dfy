/** The application glue (app.py): the middleware that turns whatever a
    handler returns into a response, and the `datetime` template filter that
    labels the age of a post. Template rendering, JSON encoding and the
    clock are outside the model. */
module App {
  import opened Wrappers
  import opened PyValue
  import opened Text
  import opened Http

  const OctetStream := "application/octet-stream"
  const HtmlUtf8 := "text/html;charset=utf-8"
  const JsonUtf8 := "application/json;charset=utf-8"
  const PlainUtf8 := "text/plain;charset=utf-8"
  const RedirectPrefix := "redirect:"

  /** A status code `web.Response` accepts here: `100 <= s < 600`. */
  predicate IsStatus(v: Value)
  {
    IsInt(v) && 100 <= IntValue(v) < 600
  }

  /** `r.get('__template__')` is not `None`. */
  predicate HasTemplate(entries: map<string, Value>)
  {
    "__template__" in entries && entries["__template__"] != PyNone
  }

  /** The shapes `response_factory` distinguishes, in the order it tests them. */
  datatype Shape = StreamShape | BytesShape | StrShape | DictShape | StatusShape | StatusReasonShape | OtherShape

  function ShapeOf(r: Reply): Shape
  {
    if r.Stream? then StreamShape
    else
      var v := r.value;
      if v.Bytes? then BytesShape
      else if v.Str? then StrShape
      else if v.Dict? then DictShape
      else if IsStatus(v) then StatusShape
      else if v.Tuple? && |v.items| == 2 && IsStatus(v.items[0]) then StatusReasonShape
      else OtherShape
  }

  /** `response_factory`'s `response`: the first test that matches decides. */
  function Respond(r: Reply): (resp: Response)
    ensures ShapeOf(r) == StreamShape ==> resp == r.response
    ensures ShapeOf(r) == BytesShape ==> resp == Plain(200, None, Raw(r.value.data), Some(OctetStream))
    ensures ShapeOf(r) == StrShape ==>
      if StartsWith(r.value.s, RedirectPrefix) then resp == Found(r.value.s[|RedirectPrefix|..])
      else resp == Plain(200, None, Utf8(r.value.s), Some(HtmlUtf8))
    ensures ShapeOf(r) == DictShape ==>
      if HasTemplate(r.value.entries)
      then resp == Plain(200, None, Rendered(r.value.entries["__template__"], r.value.entries), Some(HtmlUtf8))
      else resp == Plain(200, None, Json(r.value.entries), Some(JsonUtf8))
    ensures ShapeOf(r) == StatusShape ==> resp == Plain(IntValue(r.value), None, Empty, None)
    ensures ShapeOf(r) == StatusReasonShape ==>
      resp == Plain(IntValue(r.value.items[0]), Some(r.value.items[1]), Empty, None)
    ensures ShapeOf(r) == OtherShape ==> resp == Plain(200, None, Stringified(r.value), Some(PlainUtf8))
  {
    if r.Stream? then r.response
    else
      var v := r.value;
      if v.Bytes? then Plain(200, None, Raw(v.data), Some(OctetStream))
      else if v.Str? then
        if StartsWith(v.s, RedirectPrefix) then Found(v.s[9..])
        else Plain(200, None, Utf8(v.s), Some(HtmlUtf8))
      else if v.Dict? then
        var template := if "__template__" in v.entries then v.entries["__template__"] else PyNone;
        if template == PyNone then Plain(200, None, Json(v.entries), Some(JsonUtf8))
        else Plain(200, None, Rendered(template, v.entries), Some(HtmlUtf8))
      else if IsInt(v) && 100 <= IntValue(v) < 600 then Plain(IntValue(v), None, Empty, None)
      else if v.Tuple? && |v.items| == 2 && IsInt(v.items[0]) && 100 <= IntValue(v.items[0]) < 600 then
        Plain(IntValue(v.items[0]), Some(v.items[1]), Empty, None)
      else Plain(200, None, Stringified(v), Some(PlainUtf8))
  }

  /** A redirect is produced exactly for a string with the `redirect:` prefix,
      and it goes to the rest of the string. */
  lemma RedirectIff(r: Reply)
    requires r.Value?
    ensures Respond(r).Found? <==> r.value.Str? && StartsWith(r.value.s, RedirectPrefix)
    ensures Respond(r).Found? ==> RedirectPrefix + Respond(r).location == r.value.s
  {
    if Respond(r).Found? {
      var s := r.value.s;
      assert s == s[..9] + s[9..];
    }
  }

  /** Booleans are `int`s to `isinstance`, but never a status; an integer or
      pair outside 100..599 falls through to plain text. */
  lemma OutOfRangeIsText(v: Value)
    requires v.Bool? || (v.Int? && !(100 <= v.i < 600))
      || (v.Tuple? && |v.items| == 2 && v.items[0].Int? && !(100 <= v.items[0].i < 600))
    ensures Respond(Value(v)) == Plain(200, None, Stringified(v), Some(PlainUtf8))
  {
  }

  /** The content type of every response built from a plain value tells its
      shape, except HTML, which a plain string and a dictionary naming a
      template share. */
  lemma ContentTypeTellsShape(a: Reply, b: Reply)
    requires a.Value? && b.Value?
    requires Respond(a).Plain? && Respond(b).Plain?
    requires Respond(a).contentType == Respond(b).contentType
    ensures Respond(a).contentType.None? ==> ShapeOf(a) in {StatusShape, StatusReasonShape} && ShapeOf(b) in {StatusShape, StatusReasonShape}
    ensures Respond(a).contentType == Some(OctetStream) ==> ShapeOf(a) == ShapeOf(b) == BytesShape
    ensures Respond(a).contentType == Some(JsonUtf8) ==> ShapeOf(a) == ShapeOf(b) == DictShape
    ensures Respond(a).contentType == Some(PlainUtf8) ==> ShapeOf(a) == ShapeOf(b) == OtherShape
    ensures Respond(a).contentType == Some(HtmlUtf8) ==>
      ShapeOf(a) in {StrShape, DictShape} && ShapeOf(b) in {StrShape, DictShape}
  {
  }

  /** A plain value is answered with status 200, except an integer status or a
      (status, reason) pair, which set the status themselves; only the pair
      sets a reason, and neither has a body or a content type. */
  lemma StatusOfValue(v: Value)
    ensures Respond(Value(v)).Plain? ==>
      && (Respond(Value(v)).status != 200 ==> ShapeOf(Value(v)) in {StatusShape, StatusReasonShape})
      && 100 <= Respond(Value(v)).status < 600
      && (Respond(Value(v)).reason.Some? <==> ShapeOf(Value(v)) == StatusReasonShape)
    ensures ShapeOf(Value(v)) in {StatusShape, StatusReasonShape} <==>
      Respond(Value(v)).Plain? && Respond(Value(v)).body == Empty
  {
  }

  // ---------------------------------------------------------------------------
  // The `datetime` filter

  /** How long ago, as `datetime_filter` buckets it. */
  datatype Age = JustNow | Minutes(n: nat) | Hours(n: nat) | Days(n: nat) | OverAWeek

  /** The bucket of an age of `delta` whole seconds (`int(time.time() - t)`;
      negative when `t` lies in the future). */
  function Bucket(delta: int): (a: Age)
    ensures a.JustNow? <==> delta < 60
    ensures a.Minutes? ==> 1 <= a.n < 60 && a.n * 60 <= delta < (a.n + 1) * 60
    ensures a.Hours? ==> 1 <= a.n < 24 && a.n * 3600 <= delta < (a.n + 1) * 3600
    ensures a.Days? ==> 1 <= a.n < 7 && a.n * 86400 <= delta < (a.n + 1) * 86400
    ensures a.OverAWeek? <==> 604800 <= delta
  {
    if delta < 60 then JustNow
    else if delta < 3600 then Minutes(delta / 60)
    else if delta < 86400 then Hours(delta / 3600)
    else if delta < 604800 then Days(delta / 86400)
    else OverAWeek
  }

  const MinutesAgo := "分钟前"
  const HoursAgo := "小时前"
  const DaysAgo := "天前"

  /** The label of a bucket; the calendar date of an older post is not modelled. */
  function Label(a: Age): Option<string>
  {
    match a
    case JustNow => Some("1" + MinutesAgo)
    case Minutes(n) => Some(Decimal(n) + MinutesAgo)
    case Hours(n) => Some(Decimal(n) + HoursAgo)
    case Days(n) => Some(Decimal(n) + DaysAgo)
    case OverAWeek => None
  }

  function DatetimeFilter(delta: int): Option<string>
  {
    Label(Bucket(delta))
  }

  predicate EndsWith(s: string, suffix: string)
  {
    |suffix| <= |s| && s[|s| - |suffix|..] == suffix
  }

  /** Reads a label back as a count and a unit in seconds. */
  function ReadLabel(s: string): Option<(nat, nat)>
  {
    if EndsWith(s, MinutesAgo) && IsDigits(s[..|s| - 3]) then Some((DigitsValue(s[..|s| - 3]), 60))
    else if EndsWith(s, HoursAgo) && IsDigits(s[..|s| - 3]) then Some((DigitsValue(s[..|s| - 3]), 3600))
    else if EndsWith(s, DaysAgo) && IsDigits(s[..|s| - 2]) then Some((DigitsValue(s[..|s| - 2]), 86400))
    else None
  }

  /** Every label of a post less than a week old reads back as the bucket
      holding its age: `n` units with `n * unit <= delta < (n + 1) * unit`,
      where any age under a minute reads as one minute. */
  lemma LabelReadsBack(delta: int)
    requires delta < 604800
    ensures DatetimeFilter(delta).Some?
    ensures var read := ReadLabel(DatetimeFilter(delta).value);
      && read.Some?
      && var (n, unit) := read.value;
      && unit in {60, 3600, 86400}
      && (delta < 60 ==> n == 1 && unit == 60)
      && (60 <= delta ==> n * unit <= delta < (n + 1) * unit)
  {
    var a := Bucket(delta);
    var s := DatetimeFilter(delta).value;
    match a
    case JustNow =>
      assert s == "1分钟前";
      assert s[..|s| - 3] == "1";
      assert DigitsValue("1") == 1 by {
        assert "1"[..0] == "";
      }
    case Minutes(n) =>
      DecimalRoundTrip(n);
      assert s[..|s| - 3] == Decimal(n);
    case Hours(n) =>
      DecimalRoundTrip(n);
      assert s[..|s| - 3] == Decimal(n);
      assert !EndsWith(s, MinutesAgo) by {
        assert s[|s| - 3] == '小';
      }
    case Days(n) =>
      DecimalRoundTrip(n);
      assert s[..|s| - 2] == Decimal(n);
      assert !EndsWith(s, MinutesAgo) && !EndsWith(s, HoursAgo) by {
        assert s[|s| - 2] == '天';
        assert s[|s| - 3] == Decimal(n)[|Decimal(n)| - 1];
      }
  }

  /** Ages in the same bucket share a label, and a later bucket never carries a
      smaller count of the same unit. */
  lemma BucketMonotone(d1: int, d2: int)
    requires d1 <= d2
    ensures Bucket(d1).Minutes? && Bucket(d2).Minutes? ==> Bucket(d1).n <= Bucket(d2).n
    ensures Bucket(d1).Hours? && Bucket(d2).Hours? ==> Bucket(d1).n <= Bucket(d2).n
    ensures Bucket(d1).Days? && Bucket(d2).Days? ==> Bucket(d1).n <= Bucket(d2).n
    ensures Bucket(d2).JustNow? ==> Bucket(d1).JustNow?
    ensures Bucket(d1) == Bucket(d2) ==> DatetimeFilter(d1) == DatetimeFilter(d2)
  {
  }
}
