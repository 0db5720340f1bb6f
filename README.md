# On-call API client core, modelled in Dafny

This project models the shared core of a Go client for the Grafana OnCall HTTP API (`package aapi`):

- how a `Client` is created and how its base URL is normalised;
- how every request is built (`NewRequest`) and sent (`Do`);
- how a response is classified and how its error message is rendered (`CheckResponse`, `parseError`, `ErrorResponse.Error`);
- the retry policy and the rate-limit back-off;
- from the alert-groups service, the check on the `started_at` time-range filter and the list call that runs it before any request is built.

Modules:

| file | module | what it holds |
|---|---|---|
| wrappers.dfy | `Wrappers` | `Option`, `Result` |
| text.dfy | `Text` | bytewise string order, a proved insertion sort standing for `sort.Strings`, `strings.Join`, `%d` and `strconv.ParseInt(s, 10, 64)` |
| percent.dfy | `Percent` | `net/url` percent-decoding (path and query modes) and path escaping |
| urls.dfy | `Urls` | the subset of `url.Parse` and `URL.String` the client relies on |
| error_render.dfy | `ErrorRender` | a decoded JSON error body and `parseError` |
| client.dfy | `Client` | `client.go`: constants, the `Client` class, requests, responses, errors, retry and back-off |
| calendar.dfy | `Calendar` | `time.Parse` with the layout `2006-01-02T15:04:05`, `Time.Before`, and the Gregorian calendar |
| alert_groups.dfy | `AlertGroups` | `validateTimeRange`, `ListAlertGroupOptions.Validate`, `ListAlertGroups` |

Modelling choices:

- A Go `string` is a `seq<char>` in which every char stands for one byte (`Percent.IsBytes`).
- `time.Duration` is an `int` count of nanoseconds. The int64 wrap-around is written out explicitly (`Client.Wrap64`).
- Code outside the repository becomes function or boolean parameters:
  - `json.Marshal` and `json.Unmarshal`;
  - `query.Values(...).Encode()`;
  - the retrying HTTP client's send;
  - the rate limiter's wait;
  - copying or decoding a success body;
  - whether `retryablehttp.NewRequest` succeeds.
- `query.Values` of a nil `*ListAlertGroupOptions` is taken to give empty values without an error, as go-querystring documents for a nil pointer. A nil options pointer therefore reaches `NewRequest` as an empty encoded query.
- `retryablehttp.NewRequest` parses the text of the URL again (`url.Parse(u.String())`), so the sent request carries that reparsed URL (`Urls.Reparse`), not the one `NewRequest` assembled.
- `rnd.Float64()` is `k / 2^53` for a parameter `k < 2^53`. The conversion of the product to a `Duration` truncates toward zero.
- `Client` is a class; its fields are `token`, `baseURL`, `disableRetries` and `userAgent`. `SetBaseURL`, `NewClient` and `New` update them in place.
- `NewRequest`, `Do` and `ListAlertGroups` are methods, and each is specified by its outcome. `NewRequest` copies the headers in a loop, as the source does.
- Where the tests and the code disagree, this model follows the code:
  - `client_test.go:50-61` expects `New("base_url", "")` to succeed, but `client.go:63-65` rejects an empty token. `Client.New` rejects it.
  - `client_test.go:63-127` call `NewWithGrafanaURL` and `GrafanaURL` and expect an `X-Grafana-URL` header. `client.go` defines none of these. `Client.RequestHeaders` sends no such header.

Behaviour of the source that the proofs bring out:

- The error of `url.PathUnescape` (`client.go:140`) is overwritten before it is checked, by the `json.Marshal` error at `client.go:160` or by the `retryablehttp.NewRequest` call at `client.go:173`. A path with a malformed escape therefore gets an empty decoded `Path`, while its `RawPath` keeps the text (`Client.UnescapedOrEmptyCases`).
- The error of `retryablehttp.NewRequest` is dropped (`client.go:173`). When that call fails, `req` is nil and the header copy dereferences it (`Client.BuildOutcome.NilRequest`, `AlertGroups.ListOutcome.NilRequestPanic`).
- `rateLimitBackoff` converts the reset hint to a `Duration` without an overflow guard. A `RateLimit-Reset` of `9223372036854775807` wraps around to a floor of minus one second (`Client.RateLimitResetOverflow`).
- `Header.Get("RateLimit-Reset")` looks up the canonical key `Ratelimit-Reset` (`Client.RateLimitResetKey`).
- In `validateTimeRange`, the "missing separator" error can never be returned, because the pattern already demands the `_` (`AlertGroups.ValidateTimeRange`).
- `validateTimeRange` accepts an end equal to the start, although its message says "end time must be after start time" (`AlertGroups.EqualEndsAccepted`).
- `ListAlertGroups(nil)` skips validation. `NewRequest` still sees a non-nil interface holding a nil pointer, so the query is replaced by the empty one: with `opt == None`, a sent request has `rawQuery == ""` (`AlertGroups.ListAlertGroups`; `client.go:165-170`).

## Model

| member | source | states |
|---|---|---|
| Client.New | client.go:62-76 | an empty token gives "Token required" before an empty base URL gives "BaseUrl required"; otherwise a fresh valid client whose base URL is the normalised one, with the token, the default user agent and retries enabled, or the parse error (not wrapped as Go does) |
| Client.NewClient | client.go:78-117 | a fresh client with the normalised base URL, an empty token and user agent "amixr-api-go-client", or the parse error of the base URL (not wrapped as Go does) |
| Client.Client.constructor | client.go:79 | the zero client: empty token and user agent, empty URL, retries enabled |
| Client.Client.SetBaseURL | client.go:119-136 | on success the stored URL is the normalised one and ends with "api/v1/"; on a parse error (the bare message) nothing changes and the error is returned; token, user agent and retry flag are untouched |
| Client.WithSlash | client.go:121-123 | the result ends with "/"; it is the input when the input already did, and the input plus "/" when not; it stays bytes |
| Client.WithVersion | client.go:130-132 | the result ends with "api/v1/"; it is the input when the input already did, and the input plus "api/v1/" when not; it stays bytes |
| Client.NormalizeBaseURL | client.go:119-136 | it fails exactly when the slash-terminated text does not parse; on success the path is bytes and ends with "api/v1/" |
| Client.NormalizeBaseURLAppendsOnce | client.go:125-132 | the version segment is appended at most once, and only the path of the parsed URL changes |
| Client.NormalizePlainBaseURL | client.go:119-136 | a plain relative base URL (no scheme, host, query or escape) is stored as a path-only URL: itself plus "/" and "api/v1/" where missing, and it prints as that path |
| Client.NormalizePlainBaseURLIdempotent | client.go:119-136 | for a plain relative base URL (no scheme, host, query or escape), normalising the printed form of the normalised URL gives the same URL |
| Client.BaseURLExample | client_test.go:37-48 | "base_url" is stored as the path "base_url/api/v1/" and prints as that |
| Client.NewClientScenario | client_test.go:37-48 | New("base_url", "token") yields a client whose BaseURL prints as "base_url/api/v1/" |
| Client.Client.BaseURL | client.go:317-320 | the copy returned by a valid client has a bytes path ending with "api/v1/" |
| Client.RequestHeaders | client.go:147-158 | every request sends Accept: application/json and the raw token as Authorization; User-Agent only when set; Content-Type: application/json exactly for POST and PUT; no other header |
| Client.UnescapedOrEmpty | client.go:140-144 | the decoded path stays bytes, and a path without '%' is kept as it is |
| Client.UnescapedOrEmptyCases | client.go:140-144 | an escaped identifier decodes to itself in the path; a malformed escape leaves an empty decoded path |
| Client.TargetURL | client.go:139-144 | the URL assembled from a parsed base, a byte path and a byte query is one url.Parse can produce |
| Client.TargetWellFormed | client.go:139-170 | the URL NewRequest assembles, with the query it chooses, is one url.Parse can produce |
| Client.RequestQuery | client.go:154-171 | for a verb without a JSON body and a non-nil option that encodes, the query is the encoding; for POST, PUT or a nil option it is the base URL's own query |
| Client.CopyHeaders | client.go:176-178 | the copy loop leaves every key of the request-specific headers with its value, and every other key of the destination as it was |
| Client.LibraryRequest | client.go:173-178 | a nil request exactly when the library refuses or the printed URL does not parse again; otherwise the request carries the verb, the reparsed URL, exactly the given headers and the body, and a query without '#' survives the reparse |
| Client.Client.NewRequest | client.go:138-181 | a build error exactly when the JSON (POST/PUT) or query (other verbs) encoding of a non-nil option fails, carrying that error; a nil request exactly when the library call fails or url.Parse rejects the printed target; otherwise the verb, the headers above, the JSON body for POST/PUT, and as URL what url.Parse makes of the printed target (the base path joined with the decoded and the raw path, with the encoded query for other verbs, which survives when it holds no '#') |
| Client.ExampleRequest | client.go:138-181 | NewRequest("GET", "test", nil) on the base path "base_url/api/v1/" targets the path "base_url/api/v1/test"; the reparse drops the raw path, which is the default encoding |
| Client.CheckResponse | client.go:217-241 | no error exactly for 200, 201, 202, 204 and 304; otherwise an API error exactly when the body could be read, keeping the body and the response, with the fixed "unknown error format" message when the body is not JSON and the rendered message when it is; a body that could not be read gives that read error |
| Client.ErrorText | client.go:274-278 | the text starts with the verb, a space, the scheme, "://" and the host, and ends with ": ", the status in decimal, a space and the message |
| Client.ErrorTextPath | client.go:274-278 | the error text shows a path without escapes as it is, except that '+' reads as a space, and leaves out a path with a malformed escape |
| Client.ErrorTextExample | client_test.go:129-159 | a 400 whose body is {"detail": "error"} for GET "test" reads "GET ://base_url/api/v1/test: 400 {detail: error}" |
| Client.CheckResponseScenario | client_test.go:129-159 | the same text, starting from the client's request built by NewRequest |
| Client.Client.Do | client.go:186-215 | a limiter error returns no response; a send error returns no response; otherwise the response is returned, with the CheckResponse error and the body untouched, or, on success, with the body consumed exactly when a destination was given and its failure as the error |
| Client.Client.RetryHTTPCheck | client.go:280-291 | retry exactly when the context is live, an answer came, retries are enabled, and the status is 429 or at least 500; a context error comes first, then a transport error |
| Client.RetryHTTPBackoff | client.go:293-299 | after a 429 the rate-limit back-off, otherwise the library's linear jitter; after a 429, where int64 does not overflow, the wait lies in [r s, r s + max - min) for a positive reset hint r and in [min, max) without one |
| Client.RateLimitBackoff | client.go:301-315 | the wait is an int64 value (the rest of its behaviour is stated by the lemmas below) |
| Client.RateLimitBackoffFloor | client.go:301-315 | with no overflow, a positive reset hint r waits r seconds plus a jitter in [0, max-min), and otherwise min plus that jitter, so between min and max |
| Client.Jitter | client.go:302-303 | with w the int64 difference max-min, the jitter is 0 when w is 0, lies in [0, w) when w is positive, and in (w, 0] when w is negative (truncation toward zero) |
| Client.JitterBounds | client.go:302-303 | for min < max the jitter lies in [0, max-min), and it is 0 when min equals max |
| Client.RateLimitResetFiveSeconds | client.go:301-315 | a reset hint of "5" under the client's 100-400 ms settings waits from 5 s up to 5.3 s |
| Client.RateLimitResetOverflow | client.go:307-309 | the largest int64 hint wraps to a floor of minus one second |
| Client.RateLimitResetClamped | client.go:307-309 | a hint of "99999999999999999999" is clamped by ParseInt to the largest int64 and wraps to the same floor of minus one second |
| Client.RateLimitResetKey | client.go:306 | the header is looked up under its canonical form "Ratelimit-Reset" |
| Client.HeaderGet | client.go:306 | "" when the canonical key is absent; a non-empty result is the value stored under the canonical key |
| Client.ResetHint | client.go:305-311 | the hint lies in [0, MaxInt64], and is 0 without a response |
| Client.ResetHintLookup | client.go:305-311 | the hint is the positive value of the "Ratelimit-Reset" header, else 0 |
| Client.HintFromDecimal | client.go:307 | the decimal text of a positive int64 is read back as that hint |
| Client.Wrap64 | client.go:309 | the result is in the int64 range, congruent to the input modulo 2^64, and equal to it when it is in range |
| Client.CanonicalHeaderKey | client.go:306 | the key keeps its length, and a key with a non-token byte is left unchanged |
| Client.CanonicalCaseAt | client.go:306 | the first byte takes the case the flag asks for, and every later byte is upper case exactly when it follows a '-' |
| Client.CanonicalCaseConcat | client.go:306 | converting a concatenation converts the first part and then the second, with the flag the first part leaves |
| ErrorRender.ParseError | client.go:243-266 | the message equals Render of the value: strings as they are; arrays bracketed and comma-joined in order; objects as sorted "{key: value}" items joined without braces; other types named |
| ErrorRender.Render | client.go:243-266 | an array's message is bracketed by '[' and ']'; a number, boolean or null gives the "failed to parse unexpected error type: " message |
| ErrorRender.ObjectRenderOrderIndependent | client.go:255-261 | an object's message does not depend on the order in which the map is visited |
| ErrorRender.ObjectRenderSorted | client.go:255-261 | an object's message is a sorted rearrangement of its rendered members, each the rendering of one member, joined by ", " |
| ErrorRender.ArrayRenderAppend | client.go:248-253 | appending an item appends ", " and its rendering inside the brackets |
| ErrorRender.EmptyContainers | client.go:248-261 | an empty array renders as "[]", an empty object as "" |
| ErrorRender.DetailErrorExample | client_test.go:140-146 | {"detail": "error"} renders as {detail: error} |
| Text.SortStrings | client.go:260 | the result is sorted bytewise and is a permutation of the input |
| Text.SortedUnique | client.go:260 | two sorted permutations of the same strings are equal, so the sorted order is unique |
| Text.SortStringsCanonical | client.go:260 | any sorted permutation of the input is SortStrings of it |
| Text.MapSeqPermutation | client.go:257-259 | rendering the members of two permutations gives permutations |
| Text.JoinEnds | client.go:253 | a join starts with its first part and ends with its last |
| Text.JoinSnoc | client.go:253 | joining one more part adds the separator and that part |
| Text.IntToString | client.go:277 | the text is non-empty, starts with '-' exactly for a negative number, and is digits after that |
| Text.ParseUint | client.go:307 | success only on a non-empty run of digits whose value fits 64 bits; the empty text is a syntax error |
| Text.ParseInt64 | client.go:307 | the result is in the int64 range; 0 on a syntax error; on a range error the value is clamped to MinInt64 exactly for a leading '-' and to MaxInt64 otherwise |
| Text.ParseIntToString | client.go:307 | ParseInt of the decimal text of any int64 gives it back without error |
| Text.TwentyNinesOverflow | client.go:307 | "99999999999999999999" is a range error clamped to the largest int64 |
| Text.MaxInt64Decimal | client.go:307 | the decimal text of the largest int64 is "9223372036854775807" |
| Percent.Unescape | client.go:140 | a decoded value is never longer than its text and stays bytes |
| Percent.PathUnescapeEscape | client.go:140 | path-unescaping undoes path-escaping for every byte string |
| Percent.UnescapeFailsIffMalformed | client.go:140 | unescaping fails exactly when some '%' is not followed by two hex digits |
| Percent.EscapePath | client.go:173 | every escaped path is bytes and a valid encoding for RawPath |
| Percent.ValidEncodedHasNoMarks | client.go:173 | a valid path encoding holds no '?' or '#', so it cannot end the path early |
| Percent.QueryUnescapePlain | client.go:275 | without '%', query-unescaping turns each '+' into a space and keeps every other byte |
| Urls.Parse | client.go:125 | every URL it produces is well formed: each field is bytes, and scheme, opaque part and host hold no '?' or '#' |
| Urls.SetPath | client.go:125 | setting the path changes only the decoded and the raw path, and both are bytes |
| Urls.EscapedPath | client.go:173 | the printed path holds no '?' or '#' and is bytes when the raw path is |
| Urls.ToString | client.go:173 | a well-formed URL prints as bytes |
| Urls.Reparse | client.go:173 | what url.Parse makes of the printed URL is again well formed |
| Urls.ReparseKeepsQuery | client.go:173 | printing a well-formed URL and parsing it again keeps its query when the query holds no '#' |
| Urls.ReparsePlainPath | client.go:173 | a plain path URL, with or without its default raw path, prints as the path and parses back to the path alone |
| Urls.ParsePlainPath | client.go:125 | a plain relative text parses to a URL with just that path |
| Urls.PlainPathToString | client_test.go:45 | such a URL prints as its path |
| Urls.IndexOf | client.go:125 | the first position of the byte, or -1 when it does not occur |
| Calendar.ParseTimestamp | alert_group.go:70-78 | it succeeds exactly on text of the layout whose fields form a valid date and time, returning those fields; every error carries the text and names month, hour, minute, second or day |
| Calendar.ParseTimestampReportOrder | alert_group.go:70-78 | the day is reported only when month, hour, minute and second are all in range; the month is reported whenever it is out of range |
| Calendar.Format | alert_group.go:70-78 | the formatted text has the 19 bytes of the layout |
| Calendar.FormatFits | alert_group.go:70-78 | the formatted text fits the layout byte by byte |
| Calendar.ParseFormat | alert_group.go:70-78 | parsing the formatted text of any valid time with a four-digit year gives that time back |
| Calendar.FormatParse | alert_group.go:70-78 | formatting what was parsed gives back the text |
| Calendar.DaysIn | alert_group.go:70-78 | every month has 28 to 31 days, and 29 exactly for February of a leap year |
| Calendar.MonthsFillYear | alert_group.go:70-78 | the twelve months add up to the length of the year |
| Calendar.Before | alert_group.go:81 | a time on an earlier day is always before, one on a later day never |
| Calendar.DayNumberOrder | alert_group.go:81 | day numbers follow the order of year, month and day |
| Calendar.BeforeIsLexicographic | alert_group.go:81 | one valid time is before another exactly when it is smaller field by field, year first |
| AlertGroups.SplitWellFormed | alert_group.go:64-67 | a text of the pattern splits at '_' into its first 19 and last 19 bytes, and each half fits the layout |
| AlertGroups.SplitOnSeparator | alert_group.go:64 | one or two parts; two parts are the text before the first '_' and the rest after it; one part is the whole text, which then holds no '_' |
| AlertGroups.ValidateTimeRange | alert_group.go:48-86 | "" passes; a non-empty text outside the pattern is a format error; the missing-separator error is never returned |
| AlertGroups.ValidateTimeRangeOutcomes | alert_group.go:66-84 | for text of the pattern: a bad start is reported before looking at the end; then a bad end; then the end is rejected exactly when it precedes the start field by field |
| AlertGroups.ValidateTimeRangeAccepts | alert_group.go:48-86 | the filter passes exactly when it is empty, or fits the pattern with two valid times whose end is not before the start |
| AlertGroups.RangeOfTimes | alert_group.go:48-86 | two formatted valid times joined by '_' pass unless the end comes first, and are then rejected for that reason |
| AlertGroups.EqualEndsAccepted | alert_group.go:81-83 | a range whose end equals its start passes |
| AlertGroups.StartHourOutOfRange | alert_group.go:70-73 | hour 25 in the start is reported as the start's hour being out of range, whatever the end |
| AlertGroups.DocumentedExample | alert_group.go:96-99 | "2024-03-20T10:00:00_2024-03-21T10:00:00" passes and its swap is rejected because the end comes first |
| AlertGroups.LeapDay | alert_group.go:70-78 | 2024-02-29 is a valid date and 2023-02-29 is not |
| AlertGroups.Validate | alert_group.go:108-113 | the options pass exactly when started_at is empty or a well-formed, ordered range, and never with the separator error |
| AlertGroups.ValidateIgnoresOtherFields | alert_group.go:108-113 | options that agree on started_at validate alike |
| AlertGroups.ListQuery | alert_group.go:127 | a nil options pointer gives the empty query |
| AlertGroups.ListTarget | alert_group.go:125-127 | the list call's URL is the base URL with "alert_groups/" appended to the decoded and the raw path, and the list query in place of its own |
| AlertGroups.ListAlertGroups | alert_group.go:118-139 | non-nil options that fail validation are returned as that error with nothing built; otherwise a build error exactly when the query encoding fails, a nil-request panic exactly when the library refuses or the printed URL does not parse again, and else a GET with no body, the standard headers and the reparsed URL of "alert_groups/" on the base URL with the list query (empty for nil options), followed by Do's outcome: the limiter error, the send error, the CheckResponse error, or the decoding of the body into the result |

## Left out

- The rate limiter (`rate.NewLimiter`, `limiter.Wait`): its result is a parameter of `Do`. The limiter constants of `newClient` appear only as values.
- The retry loop of `retryablehttp.Client` and `LinearJitterBackoff`: the linear jitter is a parameter of `RetryHTTPBackoff`.
- The service constructors that `newClient` calls at `client.go:101-114`, and every service file besides `alert_group.go`. `newClient` creates no alert-groups service; the "alert_groups" path is the URL that `NewAlertGroupService` sets (`alert_group.go:19-24`).
- JSON encoding and decoding, and `query.Values`: these are parameters. An error body is the decoded value `ErrorRender.ErrorValue`.
- ErrorRender.ErrorValue: a `JObject` is a sequence of members and may repeat a key, which a decoded Go `map[string]interface{}` cannot; the renderings agree whenever the keys are distinct.
- Floating point: `rnd.Float64()` is the integer `k` over 2^53. The limit `50.0 / 60` is not modelled as a float.
- The clock, the seeding of the random source, and logging (`log.Printf`, `log.Println`).
- Closing the response body, and the ways `io.Copy` and the decoder work inside `Do`.
- `url.Parse` beyond the base URLs these proofs use: userinfo, ports, IPv6 hosts, host and fragment escaping and `ForceQuery` are not modelled. `Urls.Parse` covers scheme, the opaque form, authority, path, query and fragment.
- Urls.Parse: an error is the bare message; Go wraps it as `parse "<text>": <message>`. The error that `New`, `NewClient` and `SetBaseURL` return is therefore that bare message.
- Urls.ToString: prints the decoded fragment as it is, where Go prints `EscapedFragment()`. A base URL whose fragment needs escaping therefore prints differently from Go.
- Client.NormalizePlainBaseURLIdempotent: stated only for plain relative base URLs; it does not hold in general. With "http://host?x" the stored path is "api/v1/", it prints as "http://host/api/v1/?x/", and normalising that gives the path "/api/v1/".
- Client.RateLimitBackoff: its own contract states only the int64 range. The wait itself is stated by `RateLimitBackoffFloor` where int64 does not overflow, and by `RateLimitResetOverflow` and `RateLimitResetClamped` on inputs where it does.
- Client.RateLimitBackoffFloor: stated only where the int64 computation does not overflow. `RateLimitResetOverflow` covers an input where it does.
- The unreachable error of `regexp.MatchString` on the constant pattern at `alert_group.go:56-58`.
- Calendar.ParseTimestamp: its syntax-error message gives only the value and the layout, not Go's `cannot parse ... as ...` suffix. When it is called from `validateTimeRange`, that branch is never taken.
- Calendar.ParseTimestamp: covers only the one layout `validateTimeRange` uses, with a four-digit year, exactly two hour digits, and no zone or fraction. Go's "15" also accepts a one-digit hour, but the pattern check before the parse already demands two digits, so that input never reaches it.
- AlertGroups.ListAlertGroups: the decoded `PaginatedAlertGroupsResponse` is not modelled; `consume` stands for decoding it.
- Concurrency: nothing here is shared between goroutines.
