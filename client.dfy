/**
 * The shared request/response pipeline of the on-call API client
 * (client.go): base-URL normalisation, request construction, response
 * classification, the error text, and the retry and back-off rules.
 *
 * The HTTP transport, JSON encoding and decoding, query encoding and the
 * rate limiter are outside code; they appear as parameters.
 */
module Client {
  import opened Wrappers
  import opened Text
  import opened Percent
  import opened Urls
  import opened ErrorRender

  const ApiVersionPath: string := "api/v1/"
  const DefaultUserAgent: string := "amixr-api-go-client"

  // time.Duration is an int64 count of nanoseconds.
  const Millisecond: int := 1_000_000
  const Second: int := 1_000_000_000

  // The retry settings newClient gives the HTTP client (client.go:85-87).
  const RetryWaitMin: int := 100 * Millisecond
  const RetryWaitMax: int := 400 * Millisecond
  const RetryMax: nat := 5

  // The token bucket of newClient (client.go:90-92): 50 tokens a minute, bursts of 50.
  const LimiterTokensPerMinute: nat := 50
  const LimiterBurst: nat := 50

  /** The statuses CheckResponse accepts. */
  const SuccessStatuses: set<int> := {200, 201, 202, 204, 304}

  const UnknownErrorFormat: string := "failed to parse unknown error format"

  // ---------------------------------------------------------------------
  // Base URL
  // ---------------------------------------------------------------------

  /** urlStr with a "/" appended unless it already ends with one. */
  function WithSlash(urlStr: string): (r: string)
    ensures IsBytes(urlStr) ==> IsBytes(r)
    ensures HasSuffix(r, "/")
    ensures HasSuffix(urlStr, "/") ==> r == urlStr
    ensures !HasSuffix(urlStr, "/") ==> r == urlStr + "/"
  {
    if HasSuffix(urlStr, "/") then urlStr
    else
      assert (urlStr + "/")[|urlStr|..] == "/";
      urlStr + "/"
  }

  /** path with "api/v1/" appended unless it already ends with it. */
  function WithVersion(path: string): (r: string)
    ensures IsBytes(path) ==> IsBytes(r)
    ensures HasSuffix(r, ApiVersionPath)
    ensures HasSuffix(path, ApiVersionPath) ==> r == path
    ensures !HasSuffix(path, ApiVersionPath) ==> r == path + ApiVersionPath
  {
    if HasSuffix(path, ApiVersionPath) then path
    else
      assert (path + ApiVersionPath)[|path|..] == ApiVersionPath;
      path + ApiVersionPath
  }

  /** The URL setBaseURL stores for urlStr: a trailing "/" added, parsed, and "api/v1/" appended unless present. */
  function NormalizeBaseURL(urlStr: string): (r: Result<Url, string>)
    requires IsBytes(urlStr)
    ensures r.Ok? ==> IsBytes(r.value.path) && HasSuffix(r.value.path, ApiVersionPath)
    ensures r.Err? <==> Parse(WithSlash(urlStr)).Err?
  {
    match Parse(WithSlash(urlStr))
    case Err(e) => Err(e)
    case Ok(u) => Ok(u.(path := WithVersion(u.path)))
  }

  /** The version segment is appended at most once, and nothing but the path changes. */
  lemma NormalizeBaseURLAppendsOnce(urlStr: string)
    requires IsBytes(urlStr)
    requires NormalizeBaseURL(urlStr).Ok?
    ensures Parse(WithSlash(urlStr)).Ok?
    ensures var parsed := Parse(WithSlash(urlStr)).value;
      var u := NormalizeBaseURL(urlStr).value;
      && u.(path := parsed.path) == parsed
      && (HasSuffix(parsed.path, ApiVersionPath) ==> u.path == parsed.path)
      && (!HasSuffix(parsed.path, ApiVersionPath) ==> u.path == parsed.path + ApiVersionPath)
  {
  }

  /** Appending plain bytes to a plain path keeps it plain unless a "//" could form at the start. */
  lemma PlainAppend(s: string, t: string)
    requires PlainPath(s) && forall i :: 0 <= i < |t| ==> PlainChar(t[i])
    requires |s| == 0 ==> PlainPath(t)
    requires |s| > 0 && |t| > 0 && t[0] == '/' ==> s[|s| - 1] != '/'
    ensures PlainPath(s + t)
  {
    if |s| >= 2 {
      assert |s + t| >= 2 && (s + t)[..2] == s[..2];
    } else if |s| == 1 {
      if |t| > 0 {
        assert (s + t)[..2] == [s[0], t[0]];
      }
    } else {
      assert s + t == t;
    }
  }

  lemma WithSlashPlain(s: string)
    requires PlainPath(s)
    ensures PlainPath(WithSlash(s))
  {
    if !HasSuffix(s, "/") {
      if |s| > 0 {
        assert s[|s| - 1..] == [s[|s| - 1]];
      }
      PlainAppend(s, "/");
    }
  }

  lemma WithVersionPlain(s: string)
    requires PlainPath(s)
    ensures PlainPath(WithVersion(s))
  {
    if !HasSuffix(s, ApiVersionPath) {
      PlainAppend(s, ApiVersionPath);
    }
  }

  /**
   * A plain relative base URL such as "base_url" (client_test.go:43-47) is
   * stored as a URL with only a path: itself, a "/" if it lacked one, and
   * "api/v1/" if it lacked that; and it prints as that path.
   */
  lemma NormalizePlainBaseURL(s: string)
    requires PlainPath(s)
    ensures IsBytes(s)
    ensures PlainPath(WithVersion(WithSlash(s)))
    ensures NormalizeBaseURL(s) == Ok(EmptyUrl.(path := WithVersion(WithSlash(s))))
    ensures ToString(NormalizeBaseURL(s).value) == WithVersion(WithSlash(s))
  {
    EscapePathPlain(s);
    WithSlashPlain(s);
    ParsePlainPath(WithSlash(s));
    WithVersionPlain(WithSlash(s));
    PlainPathToString(WithVersion(WithSlash(s)), "");
  }

  /** A path ending with the version segment ends with "/", so neither step changes it. */
  lemma VersionedIsFixed(path: string)
    requires HasSuffix(path, ApiVersionPath)
    ensures WithSlash(path) == path && WithVersion(path) == path
  {
    assert path[|path| - 1..] == ApiVersionPath[|ApiVersionPath| - 1..];
  }

  /** Normalising the printed form of a normalised plain base URL changes nothing. */
  lemma NormalizePlainBaseURLIdempotent(s: string)
    requires PlainPath(s)
    ensures IsBytes(s)
    ensures NormalizeBaseURL(s).Ok?
    ensures IsBytes(ToString(NormalizeBaseURL(s).value))
    ensures NormalizeBaseURL(ToString(NormalizeBaseURL(s).value)) == NormalizeBaseURL(s)
  {
    NormalizePlainBaseURL(s);
    var path := WithVersion(WithSlash(s));
    VersionedIsFixed(path);
    NormalizePlainBaseURL(path);
  }

  lemma BaseURLIsPlain()
    ensures PlainPath("base_url")
  {
    var s := "base_url";
    assert s[..2] == "ba";
    forall i | 0 <= i < |s| ensures PlainChar(s[i]) {
      assert 'a' <= s[i] <= 'z' || s[i] == '_';
    }
  }

  lemma BaseURLWithSlash()
    ensures WithSlash("base_url") == "base_url/"
  {
    assert !HasSuffix("base_url", "/");
  }

  lemma BaseURLWithVersion()
    ensures WithVersion("base_url/") == "base_url/api/v1/"
  {
    assert !HasSuffix("base_url/", ApiVersionPath);
  }

  /** client_test.go:37-48: New("base_url", "token") stores "base_url/api/v1/". */
  lemma BaseURLExample()
    ensures NormalizeBaseURL("base_url") == Ok(EmptyUrl.(path := "base_url/api/v1/"))
    ensures ToString(NormalizeBaseURL("base_url").value) == "base_url/api/v1/"
  {
    BaseURLIsPlain();
    BaseURLWithSlash();
    BaseURLWithVersion();
    NormalizePlainBaseURL("base_url");
  }

  // ---------------------------------------------------------------------
  // Requests and responses
  // ---------------------------------------------------------------------

  /** A request as NewRequest builds it; headers hold one value each, as http.Header.Set leaves them. */
  datatype Request = Request(verb: string, url: Url, header: map<string, string>, body: Option<string>)

  datatype BuildOutcome =
    | Built(req: Request)
    /** json.Marshal or query.Values failed */
    | BuildError(err: string)
    /** retryablehttp.NewRequest failed: its error is dropped and the header copy then dereferences nil */
    | NilRequest

  /** A response: the request it answers, its status, its headers under canonical keys, and the body as read. */
  datatype Response = Response(request: Request, status: int, header: map<string, string>, body: Result<string, string>)

  datatype ErrorResponse = ErrorResponse(body: string, response: Response, message: string)

  datatype CheckError =
    | ApiError(e: ErrorResponse)
    /** reading the body failed */
    | ReadError(msg: string)

  /** POST and PUT carry a JSON body; every other verb a query string. */
  predicate HasJsonBody(verb: string) {
    verb == "POST" || verb == "PUT"
  }

  /**
   * The headers NewRequest sets: every request accepts JSON and carries the
   * raw token; User-Agent only when set, Content-Type only with POST/PUT.
   */
  function RequestHeaders(token: string, userAgent: string, verb: string): (h: map<string, string>)
    ensures h.Keys <= {"Accept", "Authorization", "User-Agent", "Content-Type"}
    ensures "Accept" in h && h["Accept"] == "application/json"
    ensures "Authorization" in h && h["Authorization"] == token
    ensures "User-Agent" in h <==> userAgent != ""
    ensures "User-Agent" in h ==> h["User-Agent"] == userAgent
    ensures "Content-Type" in h <==> HasJsonBody(verb)
    ensures "Content-Type" in h ==> h["Content-Type"] == "application/json"
  {
    var h := map["Accept" := "application/json", "Authorization" := token];
    var h := if userAgent != "" then h["User-Agent" := userAgent] else h;
    if HasJsonBody(verb) then h["Content-Type" := "application/json"] else h
  }

  /** url.PathUnescape's result, or "" when the escape is malformed (its error is overwritten at client.go:160 or 173). */
  function UnescapedOrEmpty(path: string): (p: string)
    ensures IsBytes(path) ==> IsBytes(p)
    ensures !ContainsChar(path, '%') ==> p == path
  {
    assert !ContainsChar(path, '%') ==> PathUnescape(path) == Ok(path) by {
      if !ContainsChar(path, '%') { PathUnescapePlain(path); }
    }
    match PathUnescape(path)
    case Ok(p) => p
    case Err(_) => ""
  }

  /** An identifier escaped on the way in is the decoded path on the way out; a malformed escape leaves nothing. */
  lemma UnescapedOrEmptyCases(id: string, bad: string)
    requires IsBytes(id)
    requires exists i :: MalformedAt(bad, i)
    ensures UnescapedOrEmpty(EscapePath(id)) == id
    ensures UnescapedOrEmpty(bad) == ""
  {
    PathUnescapeEscape(id);
    UnescapeFailsIffMalformed(bad, PathMode);
  }

  /** The loop at the end of NewRequest: every key of src is set in dst to src's value. */
  method CopyHeaders(src: map<string, string>, dst: map<string, string>) returns (header: map<string, string>)
    ensures header == dst + src
  {
    header := dst;
    var keys := src.Keys;
    while keys != {}
      invariant keys <= src.Keys
      invariant header.Keys == dst.Keys + (src.Keys - keys)
      invariant forall k :: k in src.Keys - keys ==> header[k] == src[k]
      invariant forall k :: k in dst && k !in src ==> header[k] == dst[k]
      decreases keys
    {
      var k :| k in keys;
      header := header[k := src[k]];
      keys := keys - {k};
    }
    assert header.Keys == (dst + src).Keys;
  }

  /**
   * The end of NewRequest: retryablehttp.NewRequest is handed the text of
   * target and parses it (its error is dropped, leaving a nil request), and
   * the request-specific headers are copied into the request's empty header.
   */
  method LibraryRequest(verb: string, target: Url, reqHeaders: map<string, string>, body: Option<string>,
                        libraryAccepts: bool)
    returns (r: BuildOutcome)
    requires WellFormed(target)
    ensures !r.BuildError?
    ensures r.NilRequest? <==> !(libraryAccepts && Reparse(target).Ok?)
    ensures r.Built? ==> r.req == Request(verb, Reparse(target).value, reqHeaders, body)
    ensures r.Built? && !ContainsChar(target.rawQuery, '#') ==> r.req.url.rawQuery == target.rawQuery
  {
    if !libraryAccepts {
      return NilRequest;
    }
    var parsed := Reparse(target);
    if parsed.Err? {
      return NilRequest;
    }
    if !ContainsChar(target.rawQuery, '#') {
      ReparseKeepsQuery(target);
    }
    var header := CopyHeaders(reqHeaders, map[]);
    assert header == reqHeaders by {
      assert map[] + reqHeaders == reqHeaders;
    }
    return Built(Request(verb, parsed.value, header, body));
  }

  /** The query NewRequest sets: the encoded options for a verb without a JSON body, the base URL's otherwise. */
  function RequestQuery<P>(base: Url, verb: string, opt: Option<P>, encodeQuery: P -> Result<string, string>): (q: string)
    ensures !HasJsonBody(verb) && opt.Some? && encodeQuery(opt.value).Ok? ==> q == encodeQuery(opt.value).value
    ensures HasJsonBody(verb) || opt.None? ==> q == base.rawQuery
  {
    if !HasJsonBody(verb) && opt.Some? && encodeQuery(opt.value).Ok? then encodeQuery(opt.value).value else base.rawQuery
  }

  /** The URL NewRequest prints for the library: the base with the path appended, decoded and as given, and the query. */
  function TargetURL(base: Url, path: string, query: string): (u: Url)
    ensures WellFormed(base) && IsBytes(path) && IsBytes(query) ==> WellFormed(u)
  {
    assert WellFormed(base) && IsBytes(path) ==> IsBytes(base.path + UnescapedOrEmpty(path)) && IsBytes(base.path + path);
    base.(path := base.path + UnescapedOrEmpty(path), rawPath := base.path + path, rawQuery := query)
  }

  /** The URL NewRequest prints for a parsed base, a byte path and a byte query is one url.Parse can produce. */
  lemma TargetWellFormed<P>(base: Url, path: string, verb: string, opt: Option<P>, encodeQuery: P -> Result<string, string>)
    requires WellFormed(base) && IsBytes(path)
    requires opt.Some? && encodeQuery(opt.value).Ok? ==> IsBytes(encodeQuery(opt.value).value)
    ensures WellFormed(TargetURL(base, path, RequestQuery(base, verb, opt, encodeQuery)))
  {
  }

  /** fmt's %s of ErrorResponse: METHOD scheme://host<path decoded by QueryUnescape>: status message. */
  function ErrorText(e: ErrorResponse): (t: string)
    ensures var url := e.response.request.url;
      var head := e.response.request.verb + " " + url.scheme + "://" + url.host;
      |head| <= |t| && t[..|head|] == head
    ensures HasSuffix(t, ": " + IntToString(e.response.status) + " " + e.message)
  {
    var url := e.response.request.url;
    var path := match QueryUnescape(url.path) case Ok(p) => p case Err(_) => "";
    var head := e.response.request.verb + " " + url.scheme + "://" + url.host;
    var tail := ": " + IntToString(e.response.status) + " " + e.message;
    assert (head + path + tail)[..|head|] == head;
    assert (head + path + tail)[|head + path|..] == tail;
    head + path + tail
  }

  function PlusToSpace(s: string): (r: string)
    ensures |r| == |s|
  {
    seq(|s|, i requires 0 <= i < |s| => if s[i] == '+' then ' ' else s[i])
  }

  /**
   * The error text shows a path without escapes as it is, except that '+'
   * reads as a space; a path with a malformed escape is left out. The
   * status it shows parses back to the status.
   */
  lemma ErrorTextPath(e: ErrorResponse)
    ensures var url := e.response.request.url;
      var head := e.response.request.verb + " " + url.scheme + "://" + url.host;
      var tail := ": " + IntToString(e.response.status) + " " + e.message;
      && ((forall i :: 0 <= i < |url.path| ==> url.path[i] != '%') ==> ErrorText(e) == head + PlusToSpace(url.path) + tail)
      && ((exists i :: MalformedAt(url.path, i)) ==> ErrorText(e) == head + tail)
  {
    var path := e.response.request.url.path;
    if forall i :: 0 <= i < |path| ==> path[i] != '%' {
      QueryUnescapePlain(path);
      assert QueryUnescape(path).value == PlusToSpace(path);
    }
    UnescapeFailsIffMalformed(path, QueryMode);
  }

  /** CheckResponse as a value: None for a success status, else the error it returns. */
  function CheckResponse(r: Response, decodeJson: string -> Option<ErrorValue>): (err: Option<CheckError>)
    ensures err.None? <==> r.status in SuccessStatuses
    ensures err.Some? ==> (err.value.ApiError? <==> r.body.Ok?)
    ensures err.Some? && r.body.Ok? ==> err.value.e.body == r.body.value && err.value.e.response == r
    ensures err.Some? && r.body.Ok? && decodeJson(r.body.value).None? ==> err.value.e.message == UnknownErrorFormat
    ensures err.Some? && r.body.Ok? && decodeJson(r.body.value).Some? ==>
      err.value.e.message == Render(decodeJson(r.body.value).value)
    ensures err.Some? && r.body.Err? ==> err.value == ReadError(r.body.error)
  {
    if r.status in SuccessStatuses then None
    else
      match r.body
      case Err(e) => Some(ReadError(e))
      case Ok(data) =>
        var message := match decodeJson(data) case None => UnknownErrorFormat case Some(raw) => Render(raw);
        Some(ApiError(ErrorResponse(data, r, message)))
  }

  /** What Do was asked to fill with the body of a successful response. */
  datatype Destination = WriterDest | ValueDest

  datatype DoError =
    | LimiterFailed(msg: string)
    | SendFailed(msg: string)
    | ResponseFailed(err: CheckError)
    | BodyFailed(msg: string)

  /** Do's two results, and whether the body was copied or decoded into the destination. */
  datatype DoResult = DoResult(resp: Option<Response>, err: Option<DoError>, bodyUsed: bool)

  /** An attempt as the retry policy sees it. */
  datatype Attempt = TransportError(err: string) | Answered(resp: Response)

  // ---------------------------------------------------------------------
  // Back-off
  // ---------------------------------------------------------------------

  const TwoTo53: nat := 0x20_0000_0000_0000
  const TwoTo64: nat := 0x1_0000_0000_0000_0000

  /** int64 arithmetic wraps around. */
  function Wrap64(x: int): (r: int)
    ensures MinInt64 <= r <= MaxInt64
    ensures (r - x) % TwoTo64 == 0
    ensures MinInt64 <= x <= MaxInt64 ==> r == x
  {
    var m := x % TwoTo64;
    if m > MaxInt64 then m - TwoTo64 else m
  }

  /**
   * time.Duration(rnd.Float64() * float64(max-min)), where Float64() is
   * k / 2^53; the conversion to an integer truncates toward zero.
   */
  function Jitter(min: int, max: int, k: nat): (r: int)
    requires k < TwoTo53
    ensures Wrap64(max - min) == 0 ==> r == 0
    ensures Wrap64(max - min) > 0 ==> 0 <= r < Wrap64(max - min)
    ensures Wrap64(max - min) < 0 ==> Wrap64(max - min) < r <= 0
  {
    var w := Wrap64(max - min);
    TruncatedScale(k, w);
    var p := k * w;
    if p >= 0 then p / TwoTo53 else -((-p) / TwoTo53)
  }

  /** k / 2^53 times w, truncated toward zero, lies between 0 and w (w itself excluded unless 0). */
  lemma TruncatedScale(k: nat, w: int)
    requires k < TwoTo53
    ensures var p := k * w; var r := if p >= 0 then p / TwoTo53 else -((-p) / TwoTo53);
      && (w == 0 ==> r == 0)
      && (w > 0 ==> 0 <= r < w)
      && (w < 0 ==> w < r <= 0)
  {
    var p := k * w;
    if w > 0 {
      assert p < TwoTo53 * w;
      DivBelow(p, TwoTo53, w);
    } else if w < 0 {
      var q := -w;
      assert -p == k * q;
      assert k * q < TwoTo53 * q;
      DivBelow(-p, TwoTo53, q);
    }
  }

  /** The jitter lies in [0, max - min) when min < max, and is 0 when they are equal. */
  lemma JitterBounds(min: int, max: int, k: nat)
    requires k < TwoTo53
    requires MinInt64 <= min <= max && max - min <= MaxInt64
    ensures min == max ==> Jitter(min, max, k) == 0
    ensures min < max ==> 0 <= Jitter(min, max, k) < max - min
  {
    var d := max - min;
    assert Wrap64(d) == d;
    if min < max {
      assert k * d < TwoTo53 * d by {
        assert k < TwoTo53 && d > 0;
      }
      assert (k * d) / TwoTo53 < d by {
        DivBelow(k * d, TwoTo53, d);
      }
    }
  }

  lemma DivBelow(p: nat, q: nat, d: nat)
    requires q > 0 && p < q * d
    ensures p / q < d
  {
  }

  /** Header.Get: look the canonical form of the key up, "" when absent. */
  function HeaderGet(h: map<string, string>, key: string): (r: string)
    ensures CanonicalHeaderKey(key) !in h ==> r == ""
    ensures r != "" ==> CanonicalHeaderKey(key) in h && h[CanonicalHeaderKey(key)] == r
  {
    var k := CanonicalHeaderKey(key);
    if k in h then h[k] else ""
  }

  /** validHeaderFieldByte: the token bytes of section 5.6.2 of RFC 9110. */
  predicate IsTokenByte(c: char) {
    'a' <= c <= 'z' || 'A' <= c <= 'Z' || '0' <= c <= '9' || c in "!#$%&'*+-.^_`|~"
  }

  predicate AllTokenBytes(s: string) {
    forall i :: 0 <= i < |s| ==> IsTokenByte(s[i])
  }

  /** One byte of canonicalMIMEHeaderKey's case conversion. */
  function CaseAt(c: char, upper: bool): (r: char)
    ensures r == '-' <==> c == '-'
  {
    if upper && 'a' <= c <= 'z' then (c as int - 32) as char
    else if !upper && 'A' <= c <= 'Z' then (c as int + 32) as char
    else c
  }

  /**
   * The case conversion of canonicalMIMEHeaderKey: upper case at the start
   * and after '-', lower case elsewhere (the flag follows the converted byte,
   * which is '-' exactly when the original is).
   */
  function CanonicalCase(s: string, upper: bool): (r: string)
    ensures |r| == |s|
    decreases |s|
  {
    if |s| == 0 then "" else [CaseAt(s[0], upper)] + CanonicalCase(s[1..], s[0] == '-')
  }

  /** Byte by byte: the first follows the flag, every other is upper case exactly after a '-'. */
  lemma {:induction false} CanonicalCaseAt(s: string, upper: bool)
    ensures |s| > 0 ==> CanonicalCase(s, upper)[0] == CaseAt(s[0], upper)
    ensures forall i :: 0 < i < |s| ==> CanonicalCase(s, upper)[i] == CaseAt(s[i], s[i - 1] == '-')
    decreases |s|
  {
    if |s| > 0 {
      var rest := CanonicalCase(s[1..], s[0] == '-');
      CanonicalCaseAt(s[1..], s[0] == '-');
      assert CanonicalCase(s, upper) == [CaseAt(s[0], upper)] + rest;
      forall i | 0 < i < |s| ensures CanonicalCase(s, upper)[i] == CaseAt(s[i], s[i - 1] == '-') {
        assert CanonicalCase(s, upper)[i] == rest[i - 1];
        if i > 1 {
          assert s[1..][i - 1] == s[i] && s[1..][i - 2] == s[i - 1];
        }
      }
    }
  }

  /** textproto.CanonicalMIMEHeaderKey: a key with a byte outside the token set is left as it is. */
  function CanonicalHeaderKey(s: string): (r: string)
    ensures |r| == |s|
    ensures !AllTokenBytes(s) ==> r == s
  {
    if AllTokenBytes(s) then CanonicalCase(s, true) else s
  }

  /** Converting a + b is converting a, then b with the flag a leaves. */
  lemma {:induction false} CanonicalCaseConcat(a: string, b: string, upper: bool)
    ensures CanonicalCase(a + b, upper)
         == CanonicalCase(a, upper) + CanonicalCase(b, if |a| == 0 then upper else a[|a| - 1] == '-')
    decreases |a|
  {
    if |a| == 0 {
      assert a + b == b;
    } else {
      assert (a + b)[1..] == a[1..] + b;
      CanonicalCaseConcat(a[1..], b, a[0] == '-');
    }
  }

  lemma RateLimitResetChunks()
    ensures CanonicalCase("Rate", true) == "Rate"
    ensures CanonicalCase("Limit-", false) == "limit-"
    ensures CanonicalCase("Reset", true) == "Reset"
  {
  }

  lemma RateLimitResetCase(a: string, b: string, c: string)
    requires a == "Rate" && b == "Limit-" && c == "Reset"
    ensures CanonicalCase(a + b + c, true) == "Ratelimit-Reset"
  {
    RateLimitResetChunks();
    CanonicalCaseConcat(b, c, false);
    CanonicalCaseConcat(a, b + c, true);
    assert a + b + c == a + (b + c);
  }

  /** The key rateLimitBackoff reads is stored as "Ratelimit-Reset". */
  lemma RateLimitResetKey()
    ensures CanonicalHeaderKey("RateLimit-Reset") == "Ratelimit-Reset"
  {
    var key := "RateLimit-Reset";
    assert AllTokenBytes(key) by {
      forall i | 0 <= i < |key| ensures IsTokenByte(key[i]) {
        assert key[i] == '-' || 'a' <= key[i] <= 'z' || 'A' <= key[i] <= 'Z';
      }
    }
    RateLimitResetCase("Rate", "Limit-", "Reset");
    assert "Rate" + "Limit-" + "Reset" == key;
  }

  /** The positive value of a RateLimit-Reset text, or 0 (a missing, malformed or non-positive hint). */
  function HintFromText(v: string): (r: int)
    ensures 0 <= r <= MaxInt64
  {
    if v == "" then 0 else var (reset, _) := ParseInt64(v); if reset > 0 then reset else 0
  }

  /** The positive reset hint of a response, or 0. */
  function ResetHint(resp: Option<Response>): (r: int)
    ensures 0 <= r <= MaxInt64
    ensures resp.None? ==> r == 0
  {
    if resp.None? then 0 else HintFromText(HeaderGet(resp.value.header, "RateLimit-Reset"))
  }

  /** The hint is read from the header stored under "Ratelimit-Reset". */
  lemma ResetHintLookup(resp: Response)
    ensures ResetHint(Some(resp))
         == HintFromText(if "Ratelimit-Reset" in resp.header then resp.header["Ratelimit-Reset"] else "")
  {
    RateLimitResetKey();
  }

  /** A decimal text of a positive int64 is that hint. */
  lemma HintFromDecimal(n: int)
    requires 0 < n <= MaxInt64
    ensures HintFromText(IntToString(n)) == n
  {
    ParseIntToString(n);
  }

  /** rateLimitBackoff: min, or the reset hint in seconds when positive, plus the jitter; in int64 arithmetic. */
  function RateLimitBackoff(min: int, max: int, attemptNum: int, resp: Option<Response>, k: nat): (r: int)
    requires k < TwoTo53
    ensures MinInt64 <= r <= MaxInt64
  {
    var jitter := Jitter(min, max, k);
    var reset := ResetHint(resp);
    var floor := if reset > 0 then Wrap64(reset * Second) else min;
    Wrap64(floor + jitter)
  }

  /**
   * After a 429 with a positive RateLimit-Reset r, the wait is r seconds plus
   * the jitter; otherwise min plus the jitter; the jitter is taken from the
   * original min and max. Stated where int64 does not overflow.
   */
  lemma RateLimitBackoffFloor(min: int, max: int, attemptNum: int, resp: Option<Response>, k: nat)
    requires k < TwoTo53
    requires 0 <= min < max <= MaxInt64
    requires ResetHint(resp) * Second + max <= MaxInt64
    ensures var wait := RateLimitBackoff(min, max, attemptNum, resp, k);
      && (ResetHint(resp) > 0 ==>
            wait == ResetHint(resp) * Second + Jitter(min, max, k)
            && ResetHint(resp) * Second <= wait < ResetHint(resp) * Second + (max - min))
      && (ResetHint(resp) == 0 ==> wait == min + Jitter(min, max, k) && min <= wait < max)
  {
    JitterBounds(min, max, k);
  }

  /** A response with RateLimit-Reset "5" waits at least 5 seconds under the client's settings. */
  lemma RateLimitResetFiveSeconds(resp: Response, k: nat)
    requires k < TwoTo53
    requires "Ratelimit-Reset" in resp.header && resp.header["Ratelimit-Reset"] == "5"
    ensures 5 * Second <= RateLimitBackoff(RetryWaitMin, RetryWaitMax, 1, Some(resp), k) < 5 * Second + 300 * Millisecond
  {
    ResetHintLookup(resp);
    HintFromDecimal(5);
    assert IntToString(5) == "5";
    RateLimitBackoffFloor(RetryWaitMin, RetryWaitMax, 1, Some(resp), k);
  }

  /**
   * The conversion of the hint to a Duration is not guarded: the largest
   * int64 hint wraps around to a floor of minus one second.
   */
  lemma RateLimitResetOverflow(resp: Response, k: nat)
    requires k < TwoTo53
    requires "Ratelimit-Reset" in resp.header && resp.header["Ratelimit-Reset"] == "9223372036854775807"
    ensures RateLimitBackoff(RetryWaitMin, RetryWaitMax, 1, Some(resp), k)
         == -Second + Jitter(RetryWaitMin, RetryWaitMax, k)
  {
    ResetHintLookup(resp);
    HintFromDecimal(MaxInt64);
    MaxInt64Decimal();
    assert Wrap64(MaxInt64 * Second) == -Second;
    JitterBounds(RetryWaitMin, RetryWaitMax, k);
  }

  /**
   * A hint too large even for uint64 is clamped to the largest int64 by
   * strconv.ParseInt, and its floor wraps around the same way.
   */
  lemma RateLimitResetClamped(resp: Response, k: nat)
    requires k < TwoTo53
    requires "Ratelimit-Reset" in resp.header && resp.header["Ratelimit-Reset"] == "99999999999999999999"
    ensures ResetHint(Some(resp)) == MaxInt64
    ensures RateLimitBackoff(RetryWaitMin, RetryWaitMax, 1, Some(resp), k)
         == -Second + Jitter(RetryWaitMin, RetryWaitMax, k)
  {
    ResetHintLookup(resp);
    TwentyNinesOverflow(resp.header["Ratelimit-Reset"]);
    assert Wrap64(MaxInt64 * Second) == -Second;
    JitterBounds(RetryWaitMin, RetryWaitMax, k);
  }

  /**
   * retryHTTPBackoff: the rate-limit rule after a 429, the library's linear
   * jitter otherwise. After a 429 the wait lies in the jitter window above
   * the reset hint in seconds, or above min when there is no hint, wherever
   * int64 does not overflow.
   */
  function RetryHTTPBackoff(min: int, max: int, attemptNum: int, resp: Option<Response>, linearJitter: int, k: nat): (wait: int)
    requires k < TwoTo53
    ensures resp.Some? && resp.value.status == 429 ==> wait == RateLimitBackoff(min, max, attemptNum, resp, k)
    ensures !(resp.Some? && resp.value.status == 429) ==> wait == linearJitter
    ensures (resp.Some? && resp.value.status == 429 && 0 <= min < max <= MaxInt64
             && ResetHint(resp) * Second + max <= MaxInt64) ==>
      && (ResetHint(resp) > 0 ==> ResetHint(resp) * Second <= wait < ResetHint(resp) * Second + (max - min))
      && (ResetHint(resp) == 0 ==> min <= wait < max)
  {
    if resp.Some? && resp.value.status == 429 then
      if 0 <= min < max <= MaxInt64 && ResetHint(resp) * Second + max <= MaxInt64 then
        RateLimitBackoffFloor(min, max, attemptNum, resp, k);
        RateLimitBackoff(min, max, attemptNum, resp, k)
      else RateLimitBackoff(min, max, attemptNum, resp, k)
    else linearJitter
  }

  // ---------------------------------------------------------------------
  // The client
  // ---------------------------------------------------------------------

  class Client {
    var token: string
    var baseURL: Url
    var disableRetries: bool
    var userAgent: string

    /** The base URL is one url.Parse can produce, and its path ends with the version segment. */
    ghost predicate Valid()
      reads this
    {
      WellFormed(baseURL) && HasSuffix(baseURL.path, ApiVersionPath)
    }

    /** &Client{} */
    constructor ()
      ensures token == "" && baseURL == EmptyUrl && !disableRetries && userAgent == ""
    {
      token := "";
      baseURL := EmptyUrl;
      disableRetries := false;
      userAgent := "";
    }

    /** setBaseURL */
    method SetBaseURL(urlStr: string) returns (err: Option<string>)
      requires IsBytes(urlStr)
      modifies this
      ensures NormalizeBaseURL(urlStr).Err? ==> err == Some(NormalizeBaseURL(urlStr).error) && baseURL == old(baseURL)
      ensures NormalizeBaseURL(urlStr).Ok? ==> err == None && baseURL == NormalizeBaseURL(urlStr).value && Valid()
      ensures token == old(token) && disableRetries == old(disableRetries) && userAgent == old(userAgent)
    {
      var s := urlStr;
      if !HasSuffix(s, "/") {
        s := s + "/";
      }
      var parsed := Parse(s);
      if parsed.Err? {
        return Some(parsed.error);
      }
      var u := parsed.value;
      if !HasSuffix(u.path, ApiVersionPath) {
        u := u.(path := u.path + ApiVersionPath);
      }
      baseURL := u;
      return None;
    }

    /**
     * BaseURL: a copy of the stored URL (a Url is a value, so changing the
     * copy cannot reach the client); its path ends with the version segment.
     */
    function BaseURL(): (u: Url)
      reads this
      ensures Valid() ==> HasSuffix(u.path, ApiVersionPath) && IsBytes(u.path)
    {
      baseURL
    }

    /**
     * NewRequest. opt is the options value (a Go interface, None for nil);
     * marshal and encodeQuery stand for json.Marshal and query.Values(...).Encode();
     * libraryAccepts says whether retryablehttp.NewRequest accepts the verb
     * and the body. The URL text it is handed is parsed here, with url.Parse.
     */
    method NewRequest<P>(verb: string, path: string, opt: Option<P>,
                         marshal: P -> Result<string, string>,
                         encodeQuery: P -> Result<string, string>,
                         libraryAccepts: bool)
      returns (r: BuildOutcome)
      requires Valid() && IsBytes(path)
      requires opt.Some? && encodeQuery(opt.value).Ok? ==> IsBytes(encodeQuery(opt.value).value)
      ensures r.BuildError? <==>
        opt.Some? && (if HasJsonBody(verb) then marshal(opt.value).Err? else encodeQuery(opt.value).Err?)
      ensures r.BuildError? ==>
        r.err == (if HasJsonBody(verb) then marshal(opt.value).error else encodeQuery(opt.value).error)
      ensures var target := TargetURL(baseURL, path, RequestQuery(baseURL, verb, opt, encodeQuery));
        && WellFormed(target)
        && (r.NilRequest? <==> !r.BuildError? && !(libraryAccepts && Reparse(target).Ok?))
        && (r.Built? ==> r.req.url == Reparse(target).value)
      ensures r.Built? ==>
        && r.req.verb == verb
        && r.req.header == RequestHeaders(token, userAgent, verb)
        && r.req.body == (if HasJsonBody(verb) && opt.Some? then Some(marshal(opt.value).value) else None)
      ensures var query := RequestQuery(baseURL, verb, opt, encodeQuery);
        r.Built? && !ContainsChar(query, '#') ==> r.req.url.rawQuery == query
    {
      var target := TargetURL(baseURL, path, RequestQuery(baseURL, verb, opt, encodeQuery));
      TargetWellFormed(baseURL, path, verb, opt, encodeQuery);
      var u := baseURL;
      var unescaped := UnescapedOrEmpty(path);
      u := u.(rawPath := baseURL.path + path);
      u := u.(path := baseURL.path + unescaped);

      var reqHeaders: map<string, string> := map[];
      reqHeaders := reqHeaders["Accept" := "application/json"];
      reqHeaders := reqHeaders["Authorization" := token];
      if userAgent != "" {
        reqHeaders := reqHeaders["User-Agent" := userAgent];
      }

      var body: Option<string> := None;
      if verb == "POST" || verb == "PUT" {
        reqHeaders := reqHeaders["Content-Type" := "application/json"];
        if opt.Some? {
          var encoded := marshal(opt.value);
          if encoded.Err? {
            return BuildError(encoded.error);
          }
          body := Some(encoded.value);
        }
      } else if opt.Some? {
        var q := encodeQuery(opt.value);
        if q.Err? {
          return BuildError(q.error);
        }
        u := u.(rawQuery := q.value);
      }

      assert u == target;
      assert reqHeaders == RequestHeaders(token, userAgent, verb);
      r := LibraryRequest(verb, target, reqHeaders, body, libraryAccepts);
    }

    /** retryHTTPCheck */
    function RetryHTTPCheck(ctxErr: Option<string>, attempt: Attempt): (r: (bool, Option<string>))
      reads this
      ensures r.0 <==> ctxErr.None? && attempt.Answered? && !disableRetries
                       && (attempt.resp.status == 429 || attempt.resp.status >= 500)
      ensures r.0 ==> r.1 == None
      ensures ctxErr.Some? ==> r == (false, ctxErr)
      ensures ctxErr.None? && attempt.TransportError? ==> r == (false, Some(attempt.err))
      ensures ctxErr.None? && attempt.Answered? ==> r.1 == None
    {
      if ctxErr.Some? then (false, ctxErr)
      else if attempt.TransportError? then (false, Some(attempt.err))
      else if !disableRetries && (attempt.resp.status == 429 || attempt.resp.status >= 500) then (true, None)
      else (false, None)
    }

    /**
     * Do. limiterErr is what limiter.Wait returned, send stands for the
     * retrying HTTP client, decodeJson for json.Unmarshal of an error body,
     * and consume for copying or decoding a successful body into v.
     */
    method Do(req: Request, v: Option<Destination>, limiterErr: Option<string>,
              send: Request -> Result<Response, string>,
              decodeJson: string -> Option<ErrorValue>,
              consume: (Destination, Response) -> Option<string>)
      returns (r: DoResult)
      ensures limiterErr.Some? ==> r == DoResult(None, Some(LimiterFailed(limiterErr.value)), false)
      ensures limiterErr.None? && send(req).Err? ==> r == DoResult(None, Some(SendFailed(send(req).error)), false)
      ensures limiterErr.None? && send(req).Ok? ==> r.resp == Some(send(req).value)
      ensures limiterErr.None? && send(req).Ok? && CheckResponse(send(req).value, decodeJson).Some? ==>
        r.err == Some(ResponseFailed(CheckResponse(send(req).value, decodeJson).value)) && !r.bodyUsed
      ensures limiterErr.None? && send(req).Ok? && CheckResponse(send(req).value, decodeJson).None? ==>
        && r.bodyUsed == v.Some?
        && r.err == (if v.Some? && consume(v.value, send(req).value).Some?
                     then Some(BodyFailed(consume(v.value, send(req).value).value)) else None)
    {
      if limiterErr.Some? {
        return DoResult(None, Some(LimiterFailed(limiterErr.value)), false);
      }
      var sent := send(req);
      if sent.Err? {
        return DoResult(None, Some(SendFailed(sent.error)), false);
      }
      var resp := sent.value;
      var checked := CheckResponse(resp, decodeJson);
      if checked.Some? {
        return DoResult(Some(resp), Some(ResponseFailed(checked.value)), false);
      }
      var err: Option<DoError> := None;
      if v.Some? {
        var failure := consume(v.value, resp);
        if failure.Some? {
          err := Some(BodyFailed(failure.value));
        }
      }
      return DoResult(Some(resp), err, v.Some?);
    }
  }

  /** newClient */
  method NewClient(url: string) returns (r: Result<Client, string>)
    requires IsBytes(url)
    ensures NormalizeBaseURL(url).Err? ==> r == Err(NormalizeBaseURL(url).error)
    ensures NormalizeBaseURL(url).Ok? ==>
      && r.Ok? && fresh(r.value) && r.value.Valid()
      && r.value.baseURL == NormalizeBaseURL(url).value
      && r.value.token == "" && r.value.userAgent == DefaultUserAgent && !r.value.disableRetries
  {
    var c := new Client();
    var err := c.SetBaseURL(url);
    if err.Some? {
      return Err(err.value);
    }
    c.userAgent := DefaultUserAgent;
    return Ok(c);
  }

  /** New: the token is checked first, then the base URL. */
  method New(baseUrl: string, token: string) returns (r: Result<Client, string>)
    requires IsBytes(baseUrl)
    ensures token == "" ==> r == Err("Token required")
    ensures token != "" && baseUrl == "" ==> r == Err("BaseUrl required")
    ensures token != "" && baseUrl != "" && NormalizeBaseURL(baseUrl).Err? ==> r == Err(NormalizeBaseURL(baseUrl).error)
    ensures token != "" && baseUrl != "" && NormalizeBaseURL(baseUrl).Ok? ==>
      && r.Ok? && fresh(r.value) && r.value.Valid()
      && r.value.baseURL == NormalizeBaseURL(baseUrl).value
      && HasSuffix(r.value.baseURL.path, ApiVersionPath)
      && r.value.token == token && r.value.userAgent == DefaultUserAgent && !r.value.disableRetries
  {
    if token == "" {
      return Err("Token required");
    }
    if baseUrl == "" {
      return Err("BaseUrl required");
    }
    r := NewClient(baseUrl);
    if r.Ok? {
      r.value.token := token;
    }
  }

  /** client_test.go:37-48: New("base_url", "token") succeeds and its BaseURL prints as "base_url/api/v1/". */
  method NewClientScenario() returns (c: Client)
    ensures c.Valid() && ToString(c.BaseURL()) == "base_url/api/v1/" && c.token == "token"
  {
    var baseUrl, token := "base_url", "token";
    BaseURLExample();
    assert IsBytes(baseUrl) by {
      BaseURLIsPlain();
      EscapePathPlain(baseUrl);
    }
    var r := New(baseUrl, token);
    c := r.value;
  }

  /** The request of client_test.go:129-159: GET "test" on the base URL "base_url/api/v1/". */
  const ExampleURL: Url := EmptyUrl.(path := "base_url/api/v1/test")

  const ExampleBody: string := "{\"detail\": \"error\"}"

  lemma IntToString400()
    ensures IntToString(400) == "400"
  {
    assert NatToString(4) == "4";
    assert NatToString(40) == "40";
  }

  lemma ExampleTextPieces()
    ensures "GET" + " " + "" + "://" + "" + "base_url/api/v1/test" + ": " + "400" + " " + "{detail: error}"
         == "GET ://base_url/api/v1/test: 400 {detail: error}"
  {
    ExampleTextHead();
    assert "GET ://base_url/api/v1/test" + ": " + "400" == "GET ://base_url/api/v1/test: 400";
    assert "GET ://base_url/api/v1/test: 400" + " " + "{detail: error}"
        == "GET ://base_url/api/v1/test: 400 {detail: error}";
  }

  lemma ExampleTextHead()
    ensures "GET" + " " + "" + "://" + "" + "base_url/api/v1/test" == "GET ://base_url/api/v1/test"
  {
    assert "GET" + " " + "" + "://" + "" == "GET ://";
  }

  /** A path that QueryUnescape leaves as it is shows verbatim in the error text. */
  lemma ErrorTextVerbatim(e: ErrorResponse, path: string)
    requires e.response.request.url.path == path && QueryUnescape(path) == Ok(path)
    ensures ErrorText(e) == e.response.request.verb + " " + e.response.request.url.scheme + "://"
      + e.response.request.url.host + path + ": " + IntToString(e.response.status) + " " + e.message
  {
  }

  /** The text of a 400 for that request whose body decodes to {"detail": "error"}. */
  lemma ErrorTextExample(req: Request, decodeJson: string -> Option<ErrorValue>)
    requires req.verb == "GET" && req.url == ExampleURL
    requires decodeJson(ExampleBody) == Some(JObject([Member("detail", JString("error"))]))
    ensures var checked := CheckResponse(Response(req, 400, map[], Ok(ExampleBody)), decodeJson);
      && checked.Some? && checked.value.ApiError?
      && ErrorText(checked.value.e) == "GET ://base_url/api/v1/test: 400 {detail: error}"
  {
    DetailErrorExample();
    var e := CheckResponse(Response(req, 400, map[], Ok(ExampleBody)), decodeJson).value.e;
    assert e.message == "{detail: error}";
    IntToString400();
    QueryUnescapeIdentity("base_url/api/v1/test");
    ErrorTextVerbatim(e, "base_url/api/v1/test");
    ExampleTextPieces();
  }

  /** The stored base of New("base_url", "token") is a client state NewRequest may be called on. */
  lemma ExampleBase(c: Client)
    requires c.baseURL == EmptyUrl.(path := "base_url/api/v1/")
    ensures PlainPath("base_url/api/v1/")
    ensures c.Valid()
  {
    BaseURLIsPlain();
    BaseURLWithSlash();
    BaseURLWithVersion();
    NormalizePlainBaseURL("base_url");
    EscapePathPlain("base_url/api/v1/");
  }

  lemma ExampleRequestPath()
    requires PlainPath("base_url/api/v1/")
    ensures IsBytes("test") && UnescapedOrEmpty("test") == "test"
    ensures PlainPath("base_url/api/v1/test")
  {
    var t := "test";
    assert !ContainsChar(t, '%') && IsBytes(t);
    ExampleRequestPlain(t);
  }

  lemma ExampleRequestPlain(t: string)
    requires t == "test" && PlainPath("base_url/api/v1/")
    ensures PlainPath("base_url/api/v1/test")
  {
    assert forall i :: 0 <= i < |t| ==> PlainChar(t[i]);
    PlainAppend("base_url/api/v1/", t);
    assert "base_url/api/v1/" + t == "base_url/api/v1/test";
  }

  /** The URL printed for that request parses back to the path alone: the raw form is the default encoding. */
  lemma ExampleTarget()
    requires PlainPath("base_url/api/v1/test")
    ensures WellFormed(EmptyUrl.(path := "base_url/api/v1/test", rawPath := "base_url/api/v1/test"))
    ensures Reparse(EmptyUrl.(path := "base_url/api/v1/test", rawPath := "base_url/api/v1/test")) == Ok(ExampleURL)
  {
    ReparsePlainPath("base_url/api/v1/test", "base_url/api/v1/test");
  }

  /** NewRequest("GET", "test", nil) on the client New("base_url", "token") returns (see BaseURLExample). */
  method ExampleRequest(c: Client) returns (req: Request)
    requires c.baseURL == EmptyUrl.(path := "base_url/api/v1/")
    ensures req.verb == "GET" && req.url == ExampleURL
  {
    ExampleBase(c);
    ExampleRequestPath();
    var noOpt: Option<int> := None;
    var target := TargetURL(c.baseURL, "test", RequestQuery(c.baseURL, "GET", noOpt, (x: int) => Ok("")));
    assert target == EmptyUrl.(path := "base_url/api/v1/test", rawPath := "base_url/api/v1/test");
    ExampleTarget();
    var built := c.NewRequest("GET", "test", noOpt, (x: int) => Ok(""), (x: int) => Ok(""), true);
    req := built.req;
  }

  /**
   * client_test.go:129-159: a 400 with body {"detail":"error"} for
   * NewRequest("GET", "test", nil) on New("base_url", "token") reads
   * "GET ://base_url/api/v1/test: 400 {detail: error}".
   */
  method CheckResponseScenario(c: Client, decodeJson: string -> Option<ErrorValue>) returns (text: string)
    requires c.baseURL == EmptyUrl.(path := "base_url/api/v1/")
    requires decodeJson(ExampleBody) == Some(JObject([Member("detail", JString("error"))]))
    ensures text == "GET ://base_url/api/v1/test: 400 {detail: error}"
  {
    var req := ExampleRequest(c);
    ErrorTextExample(req, decodeJson);
    var checked := CheckResponse(Response(req, 400, map[], Ok(ExampleBody)), decodeJson);
    text := ErrorText(checked.value.e);
  }
}
