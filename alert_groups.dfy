/**
 * The alert-groups service: the time-range filter check behind
 * ListAlertGroupOptions.Validate and the list call that runs it before any
 * request is built (alert_group.go).
 */
module AlertGroups {
  import opened Wrappers
  import opened Text
  import opened Calendar
  import Urls
  import Client
  import ErrorRender
  import Percent

  // ---------------------------------------------------------------------
  // The range syntax
  // ---------------------------------------------------------------------

  /**
   * The pattern ^\d{4}-\d{2}-\d{2}T\d{2}:\d{2}:\d{2}_<the same>$ position
   * by position: two layouts joined by '_'. '\d' is an ASCII digit in Go's
   * regexp, and '$' only matches at the very end of the text.
   */
  function RangeChar(i: int): char {
    if i < 19 then LayoutChar(i) else if i == 19 then '_' else LayoutChar(i - 20)
  }

  predicate FitsRange(s: string) {
    |s| == 39 && forall i :: 0 <= i < 39 ==> CharFits(s[i], RangeChar(i))
  }

  /** regexp.MustCompile("_").Split(s, 2): the text around the first '_', or s alone. */
  function SplitOnSeparator(s: string): (parts: seq<string>)
    ensures 1 <= |parts| <= 2
    ensures |parts| == 2 ==> s == parts[0] + "_" + parts[1] && !ContainsChar(parts[0], '_')
    ensures |parts| == 1 ==> parts[0] == s && !ContainsChar(s, '_')
  {
    if s == "" then [""]
    else
      var (before, after, found) := Urls.Cut(s, '_');
      if found then [before, after] else [s]
  }

  /** A well-formed range splits at position 19 into two values that fit the layout. */
  lemma SplitWellFormed(s: string)
    requires FitsRange(s)
    ensures SplitOnSeparator(s) == [s[..19], s[20..]]
    ensures FitsLayout(s[..19]) && FitsLayout(s[20..])
  {
    assert CharFits(s[19], RangeChar(19));
    forall k | 0 <= k < 19 ensures s[k] != '_' {
      assert CharFits(s[k], RangeChar(k));
    }
    var i := Urls.IndexOf(s, '_');
    assert i == 19;
    forall k | 0 <= k < 19 ensures CharFits(s[20..][k], LayoutChar(k)) {
      assert CharFits(s[k + 20], RangeChar(k + 20));
    }
    forall k | 0 <= k < 19 ensures CharFits(s[..19][k], LayoutChar(k)) {
      assert CharFits(s[k], RangeChar(k));
    }
  }

  /** Two values that fit the layout, joined by '_', make a well-formed range that splits back into them. */
  lemma JoinedLayouts(x: string, y: string)
    requires FitsLayout(x) && FitsLayout(y)
    ensures FitsRange(x + "_" + y)
    ensures (x + "_" + y)[..19] == x && (x + "_" + y)[20..] == y
  {
    var s := x + "_" + y;
    forall i | 0 <= i < 39 ensures CharFits(s[i], RangeChar(i)) {
      if i < 19 {
        assert s[i] == x[i];
      } else if i > 19 {
        assert s[i] == y[i - 20];
      }
    }
    assert s[..19] == x;
    assert s[20..] == y;
  }

  /** A range written as two formatted times joined by '_' is well formed and splits back into them. */
  lemma JoinedFormats(a: Timestamp, b: Timestamp)
    requires a.year < 10000 && a.month < 100 && a.day < 100 && a.hour < 100 && a.minute < 100 && a.second < 100
    requires b.year < 10000 && b.month < 100 && b.day < 100 && b.hour < 100 && b.minute < 100 && b.second < 100
    ensures FitsRange(Format(a) + "_" + Format(b))
    ensures (Format(a) + "_" + Format(b))[..19] == Format(a)
    ensures (Format(a) + "_" + Format(b))[20..] == Format(b)
  {
    FormatFits(a);
    FormatFits(b);
    JoinedLayouts(Format(a), Format(b));
  }

  // ---------------------------------------------------------------------
  // validateTimeRange
  // ---------------------------------------------------------------------

  datatype ValidationError =
    | BadFormat
    | MissingSeparator
    | BadStart(cause: TimeError)
    | BadEnd(cause: TimeError)
    | EndBeforeStart

  /** The error text of each rejection. */
  function ValidationMessage(e: ValidationError): string {
    match e
    case BadFormat => "invalid time range format. Expected format: YYYY-MM-DDThh:mm:ss_YYYY-MM-DDThh:mm:ss"
    case MissingSeparator => "invalid time range format: missing separator '_'"
    case BadStart(cause) => "invalid start time format: " + TimeErrorMessage(cause)
    case BadEnd(cause) => "invalid end time format: " + TimeErrorMessage(cause)
    case EndBeforeStart => "end time must be after start time"
  }

  /**
   * validateTimeRange: None stands for a nil error. The separator error
   * never happens: the pattern already demands the '_'.
   */
  function ValidateTimeRange(s: string): (r: Option<ValidationError>)
    ensures s == "" ==> r == None
    ensures s != "" && !FitsRange(s) ==> r == Some(BadFormat)
    ensures r != Some(MissingSeparator)
  {
    if s == "" then None
    else if !FitsRange(s) then Some(BadFormat)
    else
      SplitWellFormed(s);
      var times := SplitOnSeparator(s);
      if |times| != 2 then Some(MissingSeparator)
      else
        match ParseTimestamp(times[0])
        case Err(e) => Some(BadStart(e))
        case Ok(start) =>
          match ParseTimestamp(times[1])
          case Err(e) => Some(BadEnd(e))
          case Ok(end) => if Before(end, start) then Some(EndBeforeStart) else None
  }

  /**
   * Every outcome of validateTimeRange in terms of the two halves of the
   * text: the empty filter passes, anything not of the pattern is a format
   * error, the start is checked before the end, and the end may equal the
   * start but not precede it (field by field).
   */
  lemma {:induction false} ValidateTimeRangeOutcomes(s: string)
    ensures FitsRange(s) && ParseTimestamp(s[..19]).Err? ==>
      ValidateTimeRange(s) == Some(BadStart(ParseTimestamp(s[..19]).error))
    ensures FitsRange(s) && ParseTimestamp(s[..19]).Ok? && ParseTimestamp(s[20..]).Err? ==>
      ValidateTimeRange(s) == Some(BadEnd(ParseTimestamp(s[20..]).error))
    ensures FitsRange(s) && ParseTimestamp(s[..19]).Ok? && ParseTimestamp(s[20..]).Ok? ==>
      ValidateTimeRange(s) == (if LexLess(Fields(s[20..]), Fields(s[..19])) then Some(EndBeforeStart) else None)
  {
    if s != "" && FitsRange(s) {
      SplitWellFormed(s);
      var start, end := ParseTimestamp(s[..19]), ParseTimestamp(s[20..]);
      if start.Ok? && end.Ok? {
        BeforeIsLexicographic(end.value, start.value);
      }
    }
  }

  /** The filter passes exactly when it is empty or names two valid times, the end not before the start. */
  lemma ValidateTimeRangeAccepts(s: string)
    ensures ValidateTimeRange(s) == None <==>
      s == "" ||
      (&& FitsRange(s)
       && Valid(Fields(s[..19])) && Valid(Fields(s[20..]))
       && !LexLess(Fields(s[20..]), Fields(s[..19])))
  {
    ValidateTimeRangeOutcomes(s);
    if s != "" && FitsRange(s) {
      SplitWellFormed(s);
    }
  }

  /** Two formatted times: accepted unless the end comes first, and then rejected with that reason. */
  lemma RangeOfTimes(start: Timestamp, end: Timestamp)
    requires Valid(start) && start.year < 10000
    requires Valid(end) && end.year < 10000
    ensures ValidateTimeRange(Format(start) + "_" + Format(end))
         == if LexLess(end, start) then Some(EndBeforeStart) else None
  {
    JoinedFormats(start, end);
    ParseFormat(start);
    ParseFormat(end);
    ValidateTimeRangeOutcomes(Format(start) + "_" + Format(end));
  }

  /** A range whose end equals its start passes: the check is "not before", not "after". */
  lemma EqualEndsAccepted(t: Timestamp)
    requires Valid(t) && t.year < 10000
    ensures ValidateTimeRange(Format(t) + "_" + Format(t)) == None
  {
    RangeOfTimes(t, t);
  }

  /** A formatted time whose hour is 25 but whose month is in range fails on the hour. */
  lemma HourOutOfRange(t: Timestamp)
    requires t.hour == 25 && 1 <= t.month <= 12
    requires t.year < 10000 && t.day < 100 && t.minute < 100 && t.second < 100
    ensures ParseTimestamp(Format(t)) == Err(OutOfRange(Format(t), "hour"))
  {
    FormatFields(t);
  }

  /** An hour of 25 in the start is reported as the start's hour, whatever the end. */
  lemma StartHourOutOfRange(start: Timestamp, end: Timestamp)
    requires start.hour == 25 && 1 <= start.month <= 12
    requires start.year < 10000 && start.day < 100 && start.minute < 100 && start.second < 100
    requires end.year < 10000 && end.month < 100 && end.day < 100 && end.hour < 100 && end.minute < 100 && end.second < 100
    ensures ValidateTimeRange(Format(start) + "_" + Format(end))
         == Some(BadStart(OutOfRange(Format(start), "hour")))
  {
    var x, y := Format(start), Format(end);
    JoinedFormats(start, end);
    HourOutOfRange(start);
    assert (x + "_" + y)[..19] == x;
    ValidateTimeRangeOutcomes(x + "_" + y);
  }

  /** 2024-02-29 exists, 2023-02-29 does not. */
  lemma LeapDay()
    ensures Valid(Timestamp(2024, 2, 29, 10, 0, 0))
    ensures !Valid(Timestamp(2023, 2, 29, 10, 0, 0))
  {
  }

  /** The documented example, "2024-03-20T10:00:00_2024-03-21T10:00:00", passes; swapped, it does not. */
  lemma DocumentedExample()
    ensures Format(Timestamp(2024, 3, 20, 10, 0, 0)) == "2024-03-20T10:00:00"
    ensures Format(Timestamp(2024, 3, 21, 10, 0, 0)) == "2024-03-21T10:00:00"
    ensures ValidateTimeRange("2024-03-20T10:00:00" + "_" + "2024-03-21T10:00:00") == None
    ensures ValidateTimeRange("2024-03-21T10:00:00" + "_" + "2024-03-20T10:00:00") == Some(EndBeforeStart)
  {
    var a, b := Timestamp(2024, 3, 20, 10, 0, 0), Timestamp(2024, 3, 21, 10, 0, 0);
    assert Format(a) == "2024-03-20T10:00:00";
    assert Format(b) == "2024-03-21T10:00:00";
    RangeOfTimes(a, b);
    RangeOfTimes(b, a);
  }

  // ---------------------------------------------------------------------
  // ListAlertGroupOptions and ListAlertGroups
  // ---------------------------------------------------------------------

  /** The query filters of a list call; page comes from the embedded ListOptions. */
  datatype ListAlertGroupOptions = ListAlertGroupOptions(
    page: int,
    alertGroupID: string,
    routeID: string,
    integrationID: string,
    state: string,
    teamID: string,
    startedAt: string,
    labels: seq<string>,
    name: string)

  /** ListAlertGroupOptions.Validate: only the started_at range is checked. */
  function Validate(o: ListAlertGroupOptions): (r: Option<ValidationError>)
    ensures var s := o.startedAt;
      r == None <==>
        s == "" ||
        (&& FitsRange(s)
         && Valid(Fields(s[..19])) && Valid(Fields(s[20..]))
         && !LexLess(Fields(s[20..]), Fields(s[..19])))
    ensures r != Some(MissingSeparator)
  {
    ValidateTimeRangeAccepts(o.startedAt);
    ValidateTimeRangeOutcomes(o.startedAt);
    ValidateTimeRange(o.startedAt)
  }

  /** Validate looks at no field but startedAt. */
  lemma ValidateIgnoresOtherFields(o: ListAlertGroupOptions, o': ListAlertGroupOptions)
    requires o.startedAt == o'.startedAt
    ensures Validate(o) == Validate(o')
  {
  }

  /** The endpoint: the service URL "alert_groups" with a trailing slash. */
  const AlertGroupsPath: string := "alert_groups" + "/"

  /**
   * How a list call ends: rejected by Validate before anything is built,
   * failed while building the request, a panic because the request library's
   * error was dropped and a nil request reached Do, or the outcome of Do.
   */
  datatype ListOutcome =
    | Rejected(err: ValidationError)
    | BuildFailed(msg: string)
    | NilRequestPanic
    | Sent(req: Client.Request, result: Client.DoResult)

  /**
   * The query encoder as NewRequest sees it: a nil options pointer is still
   * a non-nil interface value, and query.Values of a nil pointer is empty.
   */
  function QueryOfPointer(encodeQuery: ListAlertGroupOptions -> Result<string, string>)
    : (f: Option<ListAlertGroupOptions> -> Result<string, string>)
    ensures f(None) == Ok("")
    ensures forall o :: f(Some(o)) == encodeQuery(o)
  {
    (p: Option<ListAlertGroupOptions>) => if p.None? then Ok("") else encodeQuery(p.value)
  }

  /** A GET carries no body, so its options are never marshalled. */
  function NoBody(p: Option<ListAlertGroupOptions>): Result<string, string> {
    Ok("")
  }

  /** The query of a list call: the encoded options, or nothing for a nil pointer (or when encoding fails). */
  function ListQuery(opt: Option<ListAlertGroupOptions>, encodeQuery: ListAlertGroupOptions -> Result<string, string>)
    : (q: string)
    ensures opt.None? ==> q == ""
  {
    if opt.Some? && encodeQuery(opt.value).Ok? then encodeQuery(opt.value).value else ""
  }

  /**
   * The URL a list call prints for the request library: the base URL with
   * "alert_groups/" appended, decoded and raw alike, and the list query in
   * place of the base URL's own query.
   */
  lemma ListTarget(base: Urls.Url, q: string)
    ensures Client.TargetURL(base, AlertGroupsPath, q)
         == base.(path := base.path + AlertGroupsPath, rawPath := base.path + AlertGroupsPath, rawQuery := q)
  {
    Percent.PathUnescapePlain(AlertGroupsPath);
  }

  /**
   * ListAlertGroups. opt is the options pointer (None for nil); the other
   * parameters stand for what NewRequest and Do call out to.
   */
  method ListAlertGroups(c: Client.Client, opt: Option<ListAlertGroupOptions>,
                         encodeQuery: ListAlertGroupOptions -> Result<string, string>,
                         libraryAccepts: bool, limiterErr: Option<string>,
                         send: Client.Request -> Result<Client.Response, string>,
                         decodeJson: string -> Option<ErrorRender.ErrorValue>,
                         consume: (Client.Destination, Client.Response) -> Option<string>)
    returns (r: ListOutcome)
    requires c.Valid()
    requires opt.Some? && encodeQuery(opt.value).Ok? ==> Percent.IsBytes(encodeQuery(opt.value).value)
    ensures opt.Some? && Validate(opt.value).Some? ==> r == Rejected(Validate(opt.value).value)
    ensures !(opt.Some? && Validate(opt.value).Some?) ==>
      var target := Client.TargetURL(c.baseURL, AlertGroupsPath, ListQuery(opt, encodeQuery));
      && Urls.WellFormed(target)
      && (r.BuildFailed? <==> opt.Some? && encodeQuery(opt.value).Err?)
      && (r.BuildFailed? ==> r.msg == encodeQuery(opt.value).error)
      && (r.NilRequestPanic? <==> !r.BuildFailed? && !(libraryAccepts && Urls.Reparse(target).Ok?))
      && (r.Sent? ==>
          && r.req.verb == "GET"
          && r.req.body == None
          && r.req.url == Urls.Reparse(target).value
          && r.req.header == Client.RequestHeaders(c.token, c.userAgent, "GET"))
    // A nil options pointer still replaces the base URL's query, with the empty one.
    ensures r.Sent? && opt.None? ==> r.req.url.rawQuery == ""
    ensures r.Sent? && !ContainsChar(ListQuery(opt, encodeQuery), '#') ==> r.req.url.rawQuery == ListQuery(opt, encodeQuery)
    // What Do makes of the request, decoding a successful body into the result value.
    ensures r.Sent? && limiterErr.Some? ==> r.result == Client.DoResult(None, Some(Client.LimiterFailed(limiterErr.value)), false)
    ensures r.Sent? && limiterErr.None? && send(r.req).Err? ==>
      r.result == Client.DoResult(None, Some(Client.SendFailed(send(r.req).error)), false)
    ensures r.Sent? && limiterErr.None? && send(r.req).Ok? ==>
      var resp := send(r.req).value;
      && r.result.resp == Some(resp)
      && (Client.CheckResponse(resp, decodeJson).Some? ==>
            r.result.err == Some(Client.ResponseFailed(Client.CheckResponse(resp, decodeJson).value)) && !r.result.bodyUsed)
      && (Client.CheckResponse(resp, decodeJson).None? ==>
            && r.result.bodyUsed
            && r.result.err == (if consume(Client.ValueDest, resp).Some?
                                then Some(Client.BodyFailed(consume(Client.ValueDest, resp).value)) else None))
  {
    if opt.Some? {
      var err := Validate(opt.value);
      if err.Some? {
        return Rejected(err.value);
      }
    }
    var pointer := QueryOfPointer(encodeQuery);
    assert Client.RequestQuery(c.baseURL, "GET", Some(opt), pointer) == ListQuery(opt, encodeQuery)
        || (opt.Some? && encodeQuery(opt.value).Err?);
    assert Percent.IsBytes(AlertGroupsPath) && !ContainsChar(AlertGroupsPath, '%');
    var built := c.NewRequest("GET", AlertGroupsPath, Some(opt), NoBody, pointer, libraryAccepts);
    match built {
      case BuildError(msg) => return BuildFailed(msg);
      case NilRequest => return NilRequestPanic;
      case Built(req) =>
        var result := c.Do(req, Some(Client.ValueDest), limiterErr, send, decodeJson, consume);
        return Sent(req, result);
    }
  }
}
