/**
 * The session table of the dashboard: the pure helpers that format one
 * session record for display, and the choice between the loading, empty and
 * populated views. Colours are tokens that stand for the CSS class strings
 * of the source; only their identity matters. Timestamps are milliseconds
 * since the epoch (`Date.getTime()`), and the current time is a parameter.
 */
module SessionTable {
  import opened Wrappers
  import opened JsText

  // ---------------------------------------------------------------------------
  // Data model
  // ---------------------------------------------------------------------------

  /** One session record, as the caller passes it in. */
  datatype Session = Session(
    sessionId: string,
    appName: string,
    wearable: Option<string>,
    startedAt: int,
    endedAt: Option<int>,
    duration: Option<int>,
    avgBpm: Option<real>,
    avgHrv: Option<real>,
    emotion: Option<string>,
    swipScore: Option<real>,
    stressRate: Option<real>,
    os: Option<string>)

  /** A JavaScript string value is falsy when it is null or empty. */
  predicate NoText(s: Option<string>)
  {
    s.None? || s.value == ""
  }

  /** A JavaScript number value is falsy when it is null or zero. */
  predicate NoScore(x: Option<real>)
  {
    x.None? || x.value == 0.0
  }

  // ---------------------------------------------------------------------------
  // formatDuration
  // ---------------------------------------------------------------------------

  /** JavaScript's `a % 60`: the remainder of division by 60 truncated toward zero. */
  function JsRemainder60(a: int): (r: int)
    ensures -60 < r < 60
    ensures a >= 0 ==> r >= 0
    ensures a < 0 ==> r <= 0
    ensures (a - r) % 60 == 0
  {
    if a >= 0 then a % 60 else -((-a) % 60)
  }

  /** `formatDuration`: "N/A" when there is no duration, else minutes and seconds. */
  function FormatDuration(seconds: Option<int>): (text: string)
    ensures text == "N/A" <==> seconds.None? || seconds.value == 0
  {
    if seconds.None? || seconds.value == 0 then "N/A"
    else
      var mins := seconds.value / 60;
      var secs := JsRemainder60(seconds.value);
      var text := IntToString(mins) + "m " + IntToString(secs) + "s";
      assert text[|text| - 1] == 's';
      text
  }

  /** Reads text of the form "<int>m <int>s" back into its two numbers. */
  function ParseDuration(text: string): Option<(int, int)>
  {
    match ReadInt(text)
    case None => None
    case Some((mins, rest)) =>
      match ReadSeconds(rest)
      case None => None
      case Some(secs) => Some((mins, secs))
  }

  /** Reads the "m <int>s" that follows the minutes. */
  function ReadSeconds(rest: string): Option<int>
  {
    if |rest| < 2 || rest[..2] != "m " then None
    else
      match ReadInt(rest[2..])
      case None => None
      case Some((secs, tail)) => if tail == "s" then Some(secs) else None
  }

  /** The text of a present, non-zero duration names exactly the floored minutes and the truncated remainder. */
  lemma FormatDurationRoundTrip(s: int)
    requires s != 0
    ensures ParseDuration(FormatDuration(Some(s))) == Some((s / 60, JsRemainder60(s)))
  {
    var mins, secs := s / 60, JsRemainder60(s);
    assert FormatDuration(Some(s)) == IntToString(mins) + "m " + IntToString(secs) + "s";
    ParseDurationText(mins, secs);
  }

  /** Text of the form "<mins>m <secs>s" reads back as the two numbers, whatever their signs. */
  lemma ParseDurationText(mins: int, secs: int)
    ensures ParseDuration(IntToString(mins) + "m " + IntToString(secs) + "s") == Some((mins, secs))
  {
    var tail := "m " + IntToString(secs) + "s";
    assert IntToString(mins) + "m " + IntToString(secs) + "s" == IntToString(mins) + tail;
    assert tail[0] == 'm';
    ReadIntOfIntToString(mins, tail);
    ReadSecondsText(secs);
  }

  lemma ReadSecondsText(secs: int)
    ensures ReadSeconds("m " + IntToString(secs) + "s") == Some(secs)
  {
    var tail := "m " + IntToString(secs) + "s";
    assert tail[..2] == "m ";
    assert tail[2..] == IntToString(secs) + "s";
    ReadIntOfIntToString(secs, "s");
  }

  /** For a positive duration the two parts it shows add back up to it, seconds below 60. */
  lemma FormatDurationPositive(s: int)
    requires s > 0
    ensures ParseDuration(FormatDuration(Some(s))).Some?
    ensures var (mins, secs) := ParseDuration(FormatDuration(Some(s))).value;
      0 <= secs < 60 && mins * 60 + secs == s && mins >= 0
  {
    FormatDurationRoundTrip(s);
  }

  /**
   * For a negative duration that is not a whole number of minutes, the floored
   * minutes and the truncated seconds together fall one minute short.
   */
  lemma FormatDurationNegative(s: int)
    requires s < 0 && s % 60 != 0
    ensures ParseDuration(FormatDuration(Some(s))).Some?
    ensures var (mins, secs) := ParseDuration(FormatDuration(Some(s))).value;
      -60 < secs < 0 && mins * 60 + secs == s - 60
  {
    FormatDurationRoundTrip(s);
    var q, r := (-s) / 60, (-s) % 60;
    assert -s == 60 * q + r;
    assert s == 60 * (-q - 1) + (60 - r);
    assert s / 60 == -q - 1;
  }

  // ---------------------------------------------------------------------------
  // formatTimeAgo
  // ---------------------------------------------------------------------------

  const MS_PER_MINUTE: int := 60000
  const MS_PER_HOUR: int := 3600000
  const MS_PER_DAY: int := 86400000

  datatype TimeUnit = Minute | Hour | Day

  /** What the relative-time text says: "Just now", or a positive count of one unit. */
  datatype TimeAgo = JustNow | Ago(count: nat, unit: TimeUnit)

  /** Whole hours are whole minutes floored by 60, and whole days whole hours floored by 24. */
  lemma FlooredUnits(d: int)
    ensures (d / MS_PER_MINUTE) / 60 == d / MS_PER_HOUR
    ensures (d / MS_PER_HOUR) / 24 == d / MS_PER_DAY
  {
    var m, h := d / MS_PER_MINUTE, d / MS_PER_HOUR;
    var r := d % MS_PER_HOUR;
    assert d == MS_PER_HOUR * h + r;
    assert d == MS_PER_MINUTE * (60 * h + r / MS_PER_MINUTE) + r % MS_PER_MINUTE;
    assert m == 60 * h + r / MS_PER_MINUTE;
    var r2 := d % MS_PER_DAY;
    assert d == MS_PER_DAY * (d / MS_PER_DAY) + r2;
    assert d == MS_PER_HOUR * (24 * (d / MS_PER_DAY) + r2 / MS_PER_HOUR) + r2 % MS_PER_HOUR;
    assert h == 24 * (d / MS_PER_DAY) + r2 / MS_PER_HOUR;
  }

  /**
   * The classification inside `formatTimeAgo`: whole minutes, hours and days,
   * each floored from the one before, and the largest of them that is positive.
   */
  function TimeAgoOf(now: int, startedAt: int): (r: TimeAgo)
    ensures var d := now - startedAt;
      && (d < MS_PER_MINUTE <==> r == JustNow)
      && (MS_PER_MINUTE <= d < MS_PER_HOUR ==> r == Ago(d / MS_PER_MINUTE, Minute))
      && (MS_PER_HOUR <= d < MS_PER_DAY ==> r == Ago(d / MS_PER_HOUR, Hour))
      && (MS_PER_DAY <= d ==> r == Ago(d / MS_PER_DAY, Day))
    ensures r.Ago? ==> r.count >= 1
  {
    var diff := now - startedAt;
    var minutes := diff / 60000;
    var hours := minutes / 60;
    var days := hours / 24;
    FlooredUnits(diff);
    if days > 0 then Ago(days, Day)
    else if hours > 0 then Ago(hours, Hour)
    else if minutes > 0 then Ago(minutes, Minute)
    else JustNow
  }

  function UnitWord(u: TimeUnit): string
  {
    match u
    case Minute => "min"
    case Hour => "hour"
    case Day => "day"
  }

  /**
   * The text of a classification; the unit takes an "s" when the count is
   * above one, which for a positive count is the English agreement of AgoSuffix.
   */
  function RenderTimeAgo(t: TimeAgo): (text: string)
    ensures t.JustNow? ==> text == "Just now"
    ensures t.Ago? && t.count >= 1 ==> text == NatToString(t.count) + AgoSuffix(t.unit, t.count)
  {
    match t
    case JustNow => "Just now"
    case Ago(n, u) => NatToString(n) + " " + UnitWord(u) + (if n > 1 then "s" else "") + " ago"
  }

  /**
   * `formatTimeAgo(date)` evaluated at the instant `now`: "Just now" exactly
   * under a minute, and otherwise a text that reads back as its classification.
   */
  function FormatTimeAgo(now: int, startedAt: int): (text: string)
    ensures text == "Just now" <==> now - startedAt < MS_PER_MINUTE
    ensures ParseTimeAgo(text) == Some(TimeAgoOf(now, startedAt))
  {
    RenderTimeAgoRoundTrip(TimeAgoOf(now, startedAt));
    RenderTimeAgo(TimeAgoOf(now, startedAt))
  }

  /** English agreement: the singular word for exactly one, the plural for every other count. */
  function AgoSuffix(u: TimeUnit, n: int): string
  {
    " " + UnitWord(u) + (if n == 1 then "" else "s") + " ago"
  }

  /** Reads relative-time text back into what it says. */
  function ParseTimeAgo(text: string): Option<TimeAgo>
  {
    if text == "Just now" then Some(JustNow)
    else
      match ReadInt(text)
      case None => None
      case Some((n, rest)) =>
        if n < 1 then None
        else if rest == AgoSuffix(Minute, n) then Some(Ago(n, Minute))
        else if rest == AgoSuffix(Hour, n) then Some(Ago(n, Hour))
        else if rest == AgoSuffix(Day, n) then Some(Ago(n, Day))
        else None
  }

  /** The rendered text determines the classification: reading it back gives it again. */
  lemma RenderTimeAgoRoundTrip(t: TimeAgo)
    requires t.Ago? ==> t.count >= 1
    ensures ParseTimeAgo(RenderTimeAgo(t)) == Some(t)
  {
    if t.Ago? {
      ParseAgo(t.count, t.unit);
    }
  }

  /** A count with its agreeing unit reads back as that count and unit. */
  lemma ParseAgo(n: nat, u: TimeUnit)
    requires n >= 1
    ensures ParseTimeAgo(NatToString(n) + AgoSuffix(u, n)) == Some(Ago(n, u))
  {
    var rest := AgoSuffix(u, n);
    var text := NatToString(n) + rest;
    assert rest[0] == ' ';
    ReadIntOfIntToString(n, rest);
    assert IntToString(n) == NatToString(n);
    assert ReadInt(text) == Some((n, rest));
    assert text != "Just now" by {
      assert IsDigit(text[0]);
      assert "Just now"[0] == 'J';
    }
    SuffixesDiffer(n);
  }

  /** The three spellings of a count's unit are different texts. */
  lemma SuffixesDiffer(n: int)
    ensures AgoSuffix(Minute, n) != AgoSuffix(Hour, n)
    ensures AgoSuffix(Minute, n) != AgoSuffix(Day, n)
    ensures AgoSuffix(Hour, n) != AgoSuffix(Day, n)
  {
    assert AgoSuffix(Minute, n)[1] == 'm';
    assert AgoSuffix(Hour, n)[1] == 'h';
    assert AgoSuffix(Day, n)[1] == 'd';
  }

  /** Less than a minute ago is "Just now". */
  lemma FormatTimeAgoJustNow(now: int, startedAt: int)
    requires now - startedAt < MS_PER_MINUTE
    ensures FormatTimeAgo(now, startedAt) == "Just now"
  {
  }

  /** A start in the future, a negative difference, is "Just now" too. */
  lemma FormatTimeAgoFuture(now: int, startedAt: int)
    requires startedAt > now
    ensures FormatTimeAgo(now, startedAt) == "Just now"
  {
  }

  /** Ninety minutes ago is one hour ago; thirty seconds ago is just now; three days ago is three days ago. */
  lemma FormatTimeAgoExamples(now: int)
    ensures FormatTimeAgo(now, now - 90 * MS_PER_MINUTE) == "1 hour ago"
    ensures FormatTimeAgo(now, now - 30000) == "Just now"
    ensures FormatTimeAgo(now, now - 3 * MS_PER_DAY) == "3 days ago"
  {
    assert TimeAgoOf(now, now - 90 * MS_PER_MINUTE) == Ago(1, Hour);
    assert TimeAgoOf(now, now - 3 * MS_PER_DAY) == Ago(3, Day);
    OneHourText();
    ThreeDaysText();
  }

  lemma OneHourText()
    ensures RenderTimeAgo(Ago(1, Hour)) == "1 hour ago"
  {
    assert NatToString(1) == ['1'];
    assert RenderTimeAgo(Ago(1, Hour)) == ['1'] + " " + "hour" + "" + " ago";
  }

  lemma ThreeDaysText()
    ensures RenderTimeAgo(Ago(3, Day)) == "3 days ago"
  {
    assert NatToString(3) == ['3'];
    assert RenderTimeAgo(Ago(3, Day)) == ['3'] + " " + "day" + "s" + " ago";
  }

  // ---------------------------------------------------------------------------
  // Score column: text, bar width and the two colour tiers
  // ---------------------------------------------------------------------------

  /** `swipScore?.toFixed(1) || 'N/A'`: the number to one decimal place, or "N/A". */
  datatype ScoreText = NotAvailable | OneDecimal(score: real)

  /** The score text; a score of zero still shows as a number, since "0.0" is a non-empty string. */
  function ScoreLabel(score: Option<real>): (t: ScoreText)
    ensures t == NotAvailable <==> score.None?
    ensures score.Some? ==> t == OneDecimal(score.value)
  {
    match score
    case None => NotAvailable
    case Some(x) => OneDecimal(x)
  }

  /** `Math.min(swipScore || 0, 100)`: the filled percentage of the bar. */
  function BarWidth(score: Option<real>): (w: real)
    ensures w <= 100.0
    ensures NoScore(score) ==> w == 0.0
    ensures score.Some? && score.value <= 100.0 ==> w == score.value
    ensures score.Some? && score.value >= 100.0 ==> w == 100.0
  {
    var x := if NoScore(score) then 0.0 else score.value;
    if x < 100.0 then x else 100.0
  }

  /** The gradient of the score bar (`getScoreBarColor`). */
  datatype BarColor = GrayBar | RedBar | PinkBar | BlueBar | PurpleBar

  function ScoreBarColor(score: Option<real>): (c: BarColor)
    ensures c == GrayBar <==> NoScore(score)
    ensures c == PurpleBar <==> score.Some? && score.value >= 85.0
    ensures c == BlueBar <==> score.Some? && 70.0 <= score.value < 85.0
    ensures c == PinkBar <==> score.Some? && 60.0 <= score.value < 70.0
    ensures c == RedBar <==> score.Some? && score.value < 60.0 && score.value != 0.0
  {
    if NoScore(score) then GrayBar
    else if score.value >= 85.0 then PurpleBar
    else if score.value >= 70.0 then BlueBar
    else if score.value >= 60.0 then PinkBar
    else RedBar
  }

  /** The order of the bar tiers, lowest first. */
  function BarRank(c: BarColor): nat
  {
    match c
    case GrayBar => 0
    case RedBar => 1
    case PinkBar => 2
    case BlueBar => 3
    case PurpleBar => 4
  }

  /** Among present positive scores, a higher score never gets a lower bar tier. */
  lemma ScoreBarColorMonotone(a: real, b: real)
    requires 0.0 < a <= b
    ensures 1 <= BarRank(ScoreBarColor(Some(a))) <= BarRank(ScoreBarColor(Some(b)))
  {
  }

  /** One sample score per tier, and no score. */
  lemma ScoreBarColorExamples()
    ensures ScoreBarColor(Some(92.0)) == PurpleBar && BarWidth(Some(92.0)) == 92.0
    ensures ScoreBarColor(Some(72.0)) == BlueBar
    ensures ScoreBarColor(Some(65.0)) == PinkBar
    ensures ScoreBarColor(Some(40.0)) == RedBar
    ensures ScoreBarColor(None) == GrayBar && BarWidth(None) == 0.0
  {
  }

  /** The bar is empty exactly when its tier is the gray "no score" tier, or it is below zero. */
  lemma BarWidthAndColor(score: Option<real>)
    ensures BarWidth(score) == 0.0 <==> ScoreBarColor(score) == GrayBar
    ensures BarWidth(score) < 0.0 <==> score.Some? && score.value < 0.0
    ensures BarWidth(score) < 0.0 ==> ScoreBarColor(score) == RedBar
  {
  }

  /** A score of zero shows "0.0" as text but an empty gray bar. */
  lemma ZeroScore()
    ensures ScoreLabel(Some(0.0)) == OneDecimal(0.0)
    ensures ScoreBarColor(Some(0.0)) == GrayBar && BarWidth(Some(0.0)) == 0.0
  {
  }

  /** The text colour of a score (`getScoreColor`, not used by the table). */
  datatype ScoreColor = GrayText | OrangeText | YellowText | GreenText

  function ScoreTextColor(score: Option<real>): (c: ScoreColor)
    ensures c == GrayText <==> NoScore(score)
    ensures c == GreenText <==> score.Some? && score.value >= 70.0
    ensures c == YellowText <==> score.Some? && 60.0 <= score.value < 70.0
    ensures c == OrangeText <==> score.Some? && score.value < 60.0 && score.value != 0.0
  {
    if NoScore(score) then GrayText
    else if score.value >= 70.0 then GreenText
    else if score.value >= 60.0 then YellowText
    else OrangeText
  }

  /** The text colour uses the bar's tiers with the top two merged. */
  function CoarsenBar(c: BarColor): ScoreColor
  {
    match c
    case GrayBar => GrayText
    case RedBar => OrangeText
    case PinkBar => YellowText
    case BlueBar => GreenText
    case PurpleBar => GreenText
  }

  lemma ScoreTextColorCoarsensBar(score: Option<real>)
    ensures ScoreTextColor(score) == CoarsenBar(ScoreBarColor(score))
  {
  }

  // ---------------------------------------------------------------------------
  // Session-ID column
  // ---------------------------------------------------------------------------

  const ID_PREFIX_LENGTH: nat := 12

  /** `sessionId.substring(0, 12) + "..."`. */
  function SessionIdCell(id: string): (cell: string)
    ensures |cell| <= ID_PREFIX_LENGTH + 3
    ensures |cell| >= 3 && cell[|cell| - 3..] == "..."
    ensures cell[..|cell| - 3] <= id
    ensures |id| <= ID_PREFIX_LENGTH ==> cell == id + "..."
    ensures |id| >= ID_PREFIX_LENGTH ==> |cell| == ID_PREFIX_LENGTH + 3
  {
    var shown := if |id| <= ID_PREFIX_LENGTH then id else id[..ID_PREFIX_LENGTH];
    var cell := shown + "...";
    assert cell[..|cell| - 3] == shown;
    cell
  }

  lemma SessionIdCellExample()
    ensures SessionIdCell("abcdefghijklmnop") == "abcdefghijkl..."
  {
    assert "abcdefghijklmnop"[..12] == "abcdefghijkl";
  }

  // ---------------------------------------------------------------------------
  // Emotion column: the display text and the two colour tables
  // ---------------------------------------------------------------------------

  /** `emotionDisplayMap`: the three recognised emotions and their display text. */
  const EMOTION_DISPLAY: map<string, string> :=
    map["stressed" := "Stressed", "neutral" := "Neutral", "happy" := "Amused"]

  const EMOTION_LABELS: set<string> := {"Stressed", "Neutral", "Amused", "Unknown"}

  /** `normalizeEmotion`: the display text of an emotion, looked up in lower case. */
  function NormalizeEmotion(e: Option<string>): (text: string)
    ensures text in EMOTION_LABELS
    ensures text == "Unknown" <==> NoText(e) || ToLower(e.value) !in EMOTION_DISPLAY
    ensures !NoText(e) && ToLower(e.value) in EMOTION_DISPLAY ==> text == EMOTION_DISPLAY[ToLower(e.value)]
  {
    if NoText(e) then "Unknown"
    else
      var key := ToLower(e.value);
      if key in EMOTION_DISPLAY then EMOTION_DISPLAY[key] else "Unknown"
  }

  /**
   * A value read out of a JavaScript object by key: either a string, or a
   * member every plain object inherits from `Object.prototype`.
   */
  datatype JsValue = Str(s: string) | Inherited(name: string)

  /** The property names every plain object inherits from `Object.prototype`; each holds a truthy value. */
  const OBJECT_PROTOTYPE_KEYS: set<string> := {
    "constructor", "__proto__", "hasOwnProperty", "isPrototypeOf",
    "propertyIsEnumerable", "toLocaleString", "toString", "valueOf",
    "__defineGetter__", "__defineSetter__", "__lookupGetter__", "__lookupSetter__"
  }

  /**
   * `normalizeEmotion` as written: `emotionDisplayMap[key] || 'Unknown'` on a
   * plain object also finds the names the object inherits.
   */
  function NormalizeEmotionAsWritten(e: Option<string>): (r: JsValue)
    ensures r.Str? ==> r.s in EMOTION_LABELS
    ensures r.Inherited? ==>
      !NoText(e) && ToLower(e.value) == r.name && r.name in OBJECT_PROTOTYPE_KEYS && r.name !in EMOTION_DISPLAY
    ensures !NoText(e) && ToLower(e.value) in OBJECT_PROTOTYPE_KEYS ==> r == Inherited(ToLower(e.value))
  {
    if NoText(e) then Str("Unknown")
    else
      var key := ToLower(e.value);
      if key in EMOTION_DISPLAY then Str(EMOTION_DISPLAY[key])
      else if key in OBJECT_PROTOTYPE_KEYS then Inherited(key)
      else Str("Unknown")
  }

  /** The emotion "Constructor" makes the as-written lookup return the inherited `Object` constructor, not text. */
  lemma ConstructorEmotionLeaks()
    ensures NormalizeEmotionAsWritten(Some("Constructor")) == Inherited("constructor")
    ensures NormalizeEmotion(Some("Constructor")) == "Unknown"
  {
    LowerCaseOfConstructor();
    PrototypeKeysAreNotEmotions();
  }

  /** The emotion "__proto__" makes the as-written lookup return the inherited prototype object. */
  lemma ProtoEmotionLeaks()
    ensures NormalizeEmotionAsWritten(Some("__proto__")) == Inherited("__proto__")
    ensures NormalizeEmotion(Some("__proto__")) == "Unknown"
  {
    ToLowerOfLower("__proto__");
    PrototypeKeysAreNotEmotions();
  }

  lemma LowerCaseOfConstructor()
    ensures ToLower("Constructor") == "constructor"
  {
  }

  lemma PrototypeKeysAreNotEmotions()
    ensures "constructor" in OBJECT_PROTOTYPE_KEYS && "constructor" !in EMOTION_DISPLAY
    ensures "__proto__" in OBJECT_PROTOTYPE_KEYS && "__proto__" !in EMOTION_DISPLAY
  {
  }

  /**
   * Only the two inherited names without capitals can be reached, and on every
   * other input the as-written lookup gives the corrected text.
   */
  lemma NormalizeEmotionAsWrittenOtherwiseAgrees(e: Option<string>)
    ensures NormalizeEmotionAsWritten(e).Inherited? ==>
      NormalizeEmotionAsWritten(e).name == "constructor" || NormalizeEmotionAsWritten(e).name == "__proto__"
    ensures NormalizeEmotionAsWritten(e).Str? ==> NormalizeEmotionAsWritten(e) == Str(NormalizeEmotion(e))
  {
    if !NoText(e) {
      var key := ToLower(e.value);
      if key !in EMOTION_DISPLAY && key in OBJECT_PROTOTYPE_KEYS {
        ToLowerIsLower(e.value);
        LowerPrototypeKeys(key);
      }
    }
  }

  /** The inherited names without capital letters are "constructor" and "__proto__". */
  lemma LowerPrototypeKeys(key: string)
    requires key in OBJECT_PROTOTYPE_KEYS
    requires forall i :: 0 <= i < |key| ==> !IsUpper(key[i])
    ensures key == "constructor" || key == "__proto__"
  {
    if key != "constructor" && key != "__proto__" {
      var i :=
        if key == "hasOwnProperty" then 3
        else if key == "isPrototypeOf" || key == "toLocaleString" || key == "toString" then 2
        else if key == "valueOf" then 5
        else 8;
      assert IsUpper(key[i]);
    }
  }

  /** The badge variant of an emotion (the module-level `getEmotionColor`, not used by the table). */
  datatype BadgeVariant = Danger | Success | Info | DefaultVariant

  function EmotionVariant(e: Option<string>): (v: BadgeVariant)
    ensures v == Danger <==> NormalizeEmotion(e) == "Stressed"
    ensures v == Success <==> NormalizeEmotion(e) == "Amused"
    ensures v == Info <==> NormalizeEmotion(e) == "Neutral"
    ensures v == DefaultVariant <==> NormalizeEmotion(e) == "Unknown"
  {
    var normalized := NormalizeEmotion(e);
    if normalized == "Stressed" then Danger
    else if normalized == "Amused" then Success
    else if normalized == "Neutral" then Info
    else DefaultVariant
  }

  /** The colour class of the row's emotion badge (the inner `getEmotionColor`). */
  datatype BadgeColor = GrayBadge | CyanBadge | GreenBadge | YellowBadge | BlueBadge | PurpleBadge | OrangeBadge | RedBadge

  /** The seven emotions the inner colour table names, in its order. */
  const NAMED_EMOTIONS: seq<string> := ["calm", "focused", "happy", "relaxed", "stressed", "anxious", "energized"]

  const NAMED_COLORS: seq<BadgeColor> := [CyanBadge, GreenBadge, YellowBadge, BlueBadge, PurpleBadge, OrangeBadge, RedBadge]

  function BadgeColorOf(e: Option<string>): (c: BadgeColor)
    ensures c == GrayBadge <==> NoText(e)
    ensures forall i :: 0 <= i < |NAMED_EMOTIONS| && !NoText(e) && ToLower(e.value) == NAMED_EMOTIONS[i] ==>
      c == NAMED_COLORS[i]
    ensures !NoText(e) && ToLower(e.value) !in NAMED_EMOTIONS ==> c == BlueBadge
  {
    if NoText(e) then GrayBadge
    else
      var key := ToLower(e.value);
      if key == "calm" then CyanBadge
      else if key == "focused" then GreenBadge
      else if key == "happy" then YellowBadge
      else if key == "relaxed" then BlueBadge
      else if key == "stressed" then PurpleBadge
      else if key == "anxious" then OrangeBadge
      else if key == "energized" then RedBadge
      else BlueBadge
  }

  /** The seven named emotions get the seven different classes of the table, in order. */
  lemma BadgeColorsOfNamedEmotions(i: nat)
    requires i < |NAMED_EMOTIONS|
    ensures BadgeColorOf(Some(NAMED_EMOTIONS[i])) == NAMED_COLORS[i]
    ensures forall j :: 0 <= j < |NAMED_COLORS| && j != i ==> NAMED_COLORS[j] != NAMED_COLORS[i]
  {
    ToLowerOfLower(NAMED_EMOTIONS[i]);
  }

  /** Any other non-empty emotion gets the same class as "relaxed". */
  lemma BadgeColorOfOtherEmotion(other: string)
    requires other != "" && ToLower(other) !in NAMED_EMOTIONS
    ensures BadgeColorOf(Some(other)) == BadgeColorOf(Some("relaxed")) == BlueBadge
  {
    ToLowerOfLower("relaxed");
  }

  /** The badge text, its class and the unused variant ignore the case of the emotion. */
  lemma EmotionIgnoresCase(a: string, b: string)
    requires SameIgnoringCase(a, b)
    ensures NormalizeEmotion(Some(a)) == NormalizeEmotion(Some(b))
    ensures BadgeColorOf(Some(a)) == BadgeColorOf(Some(b))
    ensures EmotionVariant(Some(a)) == EmotionVariant(Some(b))
  {
    ToLowerIgnoresCase(a, b);
  }

  /** "HAPPY" and "happy" read alike, as "Amused". */
  lemma HappyIsAmused()
    ensures NormalizeEmotion(Some("HAPPY")) == NormalizeEmotion(Some("happy")) == "Amused"
  {
    assert ToLower("HAPPY") == "happy";
    ToLowerOfLower("happy");
  }

  /** The two tables disagree: "calm" gets the cyan class but the text "Unknown". */
  lemma BadgeTextAndClassDisagree()
    ensures BadgeColorOf(Some("calm")) == CyanBadge
    ensures NormalizeEmotion(Some("calm")) == "Unknown"
  {
    ToLowerOfLower("calm");
  }

  // ---------------------------------------------------------------------------
  // The component: view selection and row projection
  // ---------------------------------------------------------------------------

  /** The `sessions` prop, which the component does not trust to be an array. */
  datatype SessionsProp = ArrayValue(items: seq<Session>) | NotAnArray

  /** `Array.isArray(sessions) ? sessions : []`. */
  function SessionsArray(p: SessionsProp): (s: seq<Session>)
    ensures p.ArrayValue? ==> s == p.items
    ensures p.NotAnArray? ==> s == []
  {
    match p
    case ArrayValue(items) => items
    case NotAnArray => []
  }

  /** What a click on a row does: nothing, or one call of the handler `H` with one session. */
  datatype ClickAction<H> = Ignore | Invoke(handler: H, session: Session)

  /** One body row of the table, cell by cell. */
  datatype Row<H> = Row(
    key: string,
    appName: string,
    scoreText: ScoreText,
    barWidth: real,
    barColor: BarColor,
    idCell: string,
    badgeColor: BadgeColor,
    badgeText: string,
    created: string,
    onClick: ClickAction<H>)

  datatype View<H> = LoadingView | EmptyView | TableView(rows: seq<Row<H>>)

  /** `() => onSessionClick?.(session)`. */
  function ClickFor<H>(handler: Option<H>, s: Session): (a: ClickAction<H>)
    ensures a == Ignore <==> handler.None?
    ensures a.Invoke? ==> a.handler == handler.value && a.session == s
  {
    match handler
    case None => Ignore
    case Some(h) => Invoke(h, s)
  }

  /** The row drawn for one session at the instant `now`. */
  function RenderRow<H>(s: Session, now: int, handler: Option<H>): (row: Row<H>)
    ensures row.key == s.sessionId && row.onClick == ClickFor(handler, s)
  {
    Row(
      s.sessionId,
      s.appName,
      ScoreLabel(s.swipScore),
      BarWidth(s.swipScore),
      ScoreBarColor(s.swipScore),
      SessionIdCell(s.sessionId),
      BadgeColorOf(s.emotion),
      NormalizeEmotion(s.emotion),
      FormatTimeAgo(now, s.startedAt),
      ClickFor(handler, s))
  }

  /** `sessionsArray.map(...)`: one row per session, in order. */
  function Rows<H>(items: seq<Session>, now: int, handler: Option<H>): (rows: seq<Row<H>>)
    ensures |rows| == |items|
    ensures forall i :: 0 <= i < |items| ==> rows[i] == RenderRow(items[i], now, handler)
  {
    if items == [] then [] else [RenderRow(items[0], now, handler)] + Rows(items[1..], now, handler)
  }

  /** The component: the loading view, the empty view, or the table. */
  function SessionTableView<H>(sessions: SessionsProp, loading: bool, handler: Option<H>, now: int): (v: View<H>)
    ensures loading ==> v == LoadingView
    ensures !loading && SessionsArray(sessions) == [] ==> v == EmptyView
    ensures v.TableView? <==> !loading && sessions.ArrayValue? && |sessions.items| > 0
    ensures v.TableView? ==> |v.rows| == |sessions.items|
  {
    var sessionsArray := SessionsArray(sessions);
    if loading then LoadingView
    else if |sessionsArray| == 0 then EmptyView
    else TableView(Rows(sessionsArray, now, handler))
  }

  /**
   * In a populated table row `i` belongs to session `i`: its key is that
   * session's ID, its cells are that session's formatted fields (the badge
   * class from the inner colour table, the badge text from the display
   * table), and a click calls the handler once with that session, or
   * does nothing without a handler.
   */
  lemma RowsFollowSessions<H>(sessions: SessionsProp, handler: Option<H>, now: int, i: int)
    requires SessionTableView(sessions, false, handler, now).TableView?
    requires 0 <= i < |sessions.items|
    ensures var row := SessionTableView(sessions, false, handler, now).rows[i];
      && row.key == sessions.items[i].sessionId
      && row.appName == sessions.items[i].appName
      && row.scoreText == ScoreLabel(sessions.items[i].swipScore)
      && row.barWidth == BarWidth(sessions.items[i].swipScore)
      && row.barColor == ScoreBarColor(sessions.items[i].swipScore)
      && row.idCell == SessionIdCell(sessions.items[i].sessionId)
      && row.badgeColor == BadgeColorOf(sessions.items[i].emotion)
      && row.badgeText == NormalizeEmotion(sessions.items[i].emotion)
      && row.created == FormatTimeAgo(now, sessions.items[i].startedAt)
      && (handler.None? ==> row.onClick == Ignore)
      && (handler.Some? ==> row.onClick == Invoke(handler.value, sessions.items[i]))
  {
  }

  /** Rendering a list of sessions is rendering each part: rows keep the input order. */
  lemma RowsAppend<H>(a: seq<Session>, b: seq<Session>, now: int, handler: Option<H>)
    ensures Rows(a + b, now, handler) == Rows(a, now, handler) + Rows(b, now, handler)
  {
    var whole, parts := Rows(a + b, now, handler), Rows(a, now, handler) + Rows(b, now, handler);
    forall i | 0 <= i < |a| + |b|
      ensures whole[i] == parts[i]
    {
      if i < |a| {
        assert (a + b)[i] == a[i];
      } else {
        assert (a + b)[i] == b[i - |a|];
      }
    }
  }
}
