/**
 * The parts of Go's net/url that the client depends on: url.Parse (a
 * subset, see README), URL.EscapedPath and URL.String.
 */
module Urls {
  import opened Wrappers
  import opened Text
  import opened Percent

  /** The url.URL fields the client reads or writes. */
  datatype Url = Url(
    scheme: string,
    opaquePart: string,
    host: string,
    path: string,     // decoded path
    rawPath: string,  // encoded path hint, "" when the default encoding applies
    rawQuery: string,
    fragment: string)

  const EmptyUrl: Url := Url("", "", "", "", "", "", "")

  /** No '?' and no '#': the text cannot end the part it stands in. */
  predicate NoMarks(s: string) {
    !ContainsChar(s, '?') && !ContainsChar(s, '#')
  }

  /** Bytes without '?' or '#'. */
  predicate Clean(s: string) {
    IsBytes(s) && NoMarks(s)
  }

  lemma CleanConcat(a: string, b: string)
    requires Clean(a) && Clean(b)
    ensures Clean(a + b)
  {
    forall k | 0 <= k < |a + b| ensures (a + b)[k] as int < 256 && (a + b)[k] != '?' && (a + b)[k] != '#' {
      if k >= |a| { assert (a + b)[k] == b[k - |a|]; }
    }
  }

  lemma CleanSuffix(s: string, a: nat)
    requires a <= |s| && Clean(s)
    ensures Clean(s[a..])
  {
    forall k | 0 <= k < |s| - a ensures s[a..][k] == s[a + k] && s[a + k] != '?' && s[a + k] != '#' {
    }
  }

  /** What url.Parse produces: every field is bytes, and scheme, opaque part and host hold no '?' or '#'. */
  predicate WellFormed(u: Url) {
    && IsBytes(u.scheme) && IsBytes(u.opaquePart) && IsBytes(u.host) && IsBytes(u.path)
    && IsBytes(u.rawPath) && IsBytes(u.rawQuery) && IsBytes(u.fragment)
    && NoMarks(u.scheme) && NoMarks(u.opaquePart) && NoMarks(u.host)
  }

  /** Index of the first c in s, or -1. */
  function IndexOf(s: string, c: char): (i: int)
    ensures -1 <= i < |s|
    ensures i >= 0 ==> s[i] == c && forall k :: 0 <= k < i ==> s[k] != c
    ensures i == -1 ==> forall k :: 0 <= k < |s| ==> s[k] != c
    decreases |s|
  {
    if |s| == 0 then -1
    else if s[0] == c then 0
    else var j := IndexOf(s[1..], c); if j == -1 then -1 else j + 1
  }

  /** strings.Cut(s, sep) for a one-byte separator: before, after, found. */
  function Cut(s: string, c: char): (r: (string, string, bool))
    ensures IsBytes(s) ==> IsBytes(r.0) && IsBytes(r.1)
    ensures NoMarks(s) ==> NoMarks(r.0) && NoMarks(r.1)
    ensures !ContainsChar(s, '#') ==> !ContainsChar(r.0, '#') && !ContainsChar(r.1, '#')
    ensures !ContainsChar(r.0, c)
    ensures r.2 ==> s == r.0 + [c] + r.1
    ensures !r.2 ==> r.0 == s && r.1 == ""
  {
    var i := IndexOf(s, c);
    if i < 0 then (s, "", false) else (s[..i], s[i + 1..], true)
  }

  predicate HasCtlByte(s: string) {
    exists i :: 0 <= i < |s| && (s[i] < ' ' || s[i] as int == 0x7f)
  }

  predicate IsSchemeLetter(c: char) {
    'a' <= c <= 'z' || 'A' <= c <= 'Z'
  }

  /** getScheme from position i on: (scheme, rest) or an error. */
  function GetSchemeFrom(raw: string, i: nat): (r: Result<(string, string), string>)
    requires i <= |raw|
    ensures r.Ok? && IsBytes(raw) ==> IsBytes(r.value.1)
    ensures r.Ok? ==> |r.value.1| <= |raw| && r.value.1 == raw[|raw| - |r.value.1|..]
    ensures r.Ok? ==> |r.value.0| <= |raw| - |r.value.1| && r.value.0 == raw[..|r.value.0|]
    ensures r.Ok? ==> forall k :: i <= k < |raw| - |r.value.1| ==> raw[k] != '?' && raw[k] != '#'
    decreases |raw| - i
  {
    if i == |raw| then Ok(("", raw))
    else
      var c := raw[i];
      if IsSchemeLetter(c) then GetSchemeFrom(raw, i + 1)
      else if IsDigit(c) || c == '+' || c == '-' || c == '.' then
        if i == 0 then Ok(("", raw)) else GetSchemeFrom(raw, i + 1)
      else if c == ':' then
        if i == 0 then Err("missing protocol scheme") else Ok((raw[..i], raw[i + 1..]))
      else Ok(("", raw))
  }

  function ToLowerAscii(s: string): (r: string)
    ensures |r| == |s|
    ensures IsBytes(s) ==> IsBytes(r)
    ensures NoMarks(s) ==> NoMarks(r)
  {
    seq(|s|, i requires 0 <= i < |s| => if 'A' <= s[i] <= 'Z' then (s[i] as int + 32) as char else s[i])
  }

  /** URL.setPath: decode p; keep p as RawPath only if it is not the default encoding. */
  function SetPath(u: Url, p: string): (r: Result<Url, string>)
    requires IsBytes(p)
    ensures r.Ok? ==> IsBytes(r.value.path) && IsBytes(r.value.rawPath)
    ensures r.Ok? ==> r.value == u.(path := r.value.path, rawPath := r.value.rawPath)
  {
    match PathUnescape(p)
    case Err(e) => Err("invalid URL escape \"" + e + "\"")
    case Ok(path) => Ok(u.(path := path, rawPath := if EscapePath(path) == p then "" else p))
  }

  /** The "//host/path" form: host up to the first '/', the rest as path. */
  function ParseAuthority(u: Url, authority: string): (r: Result<Url, string>)
    requires IsBytes(authority)
    ensures r.Ok? ==> IsBytes(r.value.path) && IsBytes(r.value.rawPath)
    ensures r.Ok? ==> r.value == u.(host := r.value.host, path := r.value.path, rawPath := r.value.rawPath)
    ensures r.Ok? ==> IsBytes(r.value.host)
    ensures r.Ok? && NoMarks(authority) ==> NoMarks(r.value.host)
  {
    var i := IndexOf(authority, '/');
    var host := if i < 0 then authority else authority[..i];
    var path := if i < 0 then "" else authority[i..];
    SetPath(u.(host := host), path)
  }

  /** parse after the scheme: the query split off, then the opaque, authority or path form. */
  function ParseRest(scheme: string, rest0: string): (r: Result<Url, string>)
    requires IsBytes(rest0)
    ensures r.Ok? ==> IsBytes(r.value.path)
    ensures r.Ok? ==> r.value.scheme == scheme && r.value.fragment == "" && r.value.rawQuery == Cut(rest0, '?').1
    ensures r.Ok? && IsBytes(scheme) && NoMarks(scheme) && !ContainsChar(rest0, '#') ==> WellFormed(r.value)
  {
    var (rest, query, _) := Cut(rest0, '?');
    var u := EmptyUrl.(scheme := scheme, rawQuery := query);
    assert IsBytes(scheme) && NoMarks(scheme) && !ContainsChar(rest0, '#') ==> Clean(rest) && WellFormed(u);
    if !(|rest| > 0 && rest[0] == '/') && scheme != "" then Ok(u.(opaquePart := rest))
    else ParsePathForms(u, rest)
  }

  /** The parse of a rest that is not opaque: the colon check, then the authority or the plain path. */
  function ParsePathForms(u: Url, rest: string): (r: Result<Url, string>)
    requires IsBytes(rest)
    ensures r.Ok? ==> IsBytes(r.value.path)
    ensures r.Ok? ==> r.value.scheme == u.scheme && r.value.fragment == u.fragment && r.value.rawQuery == u.rawQuery
    ensures r.Ok? ==> r.value.opaquePart == u.opaquePart
    ensures r.Ok? && WellFormed(u) && Clean(rest) ==> WellFormed(r.value)
  {
    if !(|rest| > 0 && rest[0] == '/') && ContainsChar(Cut(rest, '/').0, ':') then
      Err("first path segment in URL cannot contain colon")
    else if (u.scheme != "" || !(|rest| >= 3 && rest[..3] == "///")) && |rest| >= 2 && rest[..2] == "//" then
      var authority := rest[2..];
      assert IsBytes(authority);
      assert Clean(rest) ==> Clean(authority) by {
        if Clean(rest) { CleanSuffix(rest, 2); }
      }
      ParseAuthority(u, authority)
    else SetPath(u, rest)
  }

  /** parse(rawURL, viaRequest = false) without the fragment. */
  function ParseNoFragment(raw: string): (r: Result<Url, string>)
    requires IsBytes(raw)
    ensures r.Ok? ==> IsBytes(r.value.path)
    ensures r.Ok? && !ContainsChar(raw, '#') ==> WellFormed(r.value) && r.value.fragment == ""
  {
    if HasCtlByte(raw) then Err("net/url: invalid control character in URL")
    else if raw == "*" then Ok(EmptyUrl.(path := "*"))
    else
      match GetSchemeFrom(raw, 0)
      case Err(e) => Err(e)
      case Ok((scheme0, rest0)) =>
        assert IsBytes(scheme0) && NoMarks(scheme0);
        ParseRest(ToLowerAscii(scheme0), rest0)
  }

  /** url.Parse: split off the fragment, parse the rest, decode the fragment. */
  function Parse(raw: string): (r: Result<Url, string>)
    requires IsBytes(raw)
    ensures r.Ok? ==> WellFormed(r.value)
  {
    var (u, frag, _) := Cut(raw, '#');
    match ParseNoFragment(u)
    case Err(e) => Err(e)
    case Ok(url) =>
      if frag == "" then Ok(url)
      else match Unescape(frag, PathMode)
        case Err(e) => Err("invalid URL escape \"" + e + "\"")
        case Ok(f) => Ok(url.(fragment := f))
  }

  /** URL.EscapedPath: RawPath when it is a valid encoding of Path, else Path escaped. */
  function EscapedPath(u: Url): (r: string)
    requires IsBytes(u.path)
    ensures IsBytes(u.rawPath) ==> IsBytes(r)
    ensures NoMarks(r)
  {
    assert u.rawPath != "" && ValidEncodedPath(u.rawPath) ==> NoMarks(u.rawPath) by {
      if ValidEncodedPath(u.rawPath) { ValidEncodedHasNoMarks(u.rawPath); }
    }
    assert NoMarks(EscapePath(u.path)) by { ValidEncodedHasNoMarks(EscapePath(u.path)); }
    if u.rawPath != "" && ValidEncodedPath(u.rawPath) && PathUnescape(u.rawPath) == Ok(u.path) then u.rawPath
    else if u.path == "*" then "*"
    else EscapePath(u.path)
  }

  /** The scheme part of URL.String: "scheme:" or nothing. */
  function SchemePart(u: Url): (r: string)
    ensures WellFormed(u) ==> Clean(r)
  {
    assert WellFormed(u) ==> Clean(u.scheme + ":") by {
      if WellFormed(u) {
        assert Clean(":");
        CleanConcat(u.scheme, ":");
      }
    }
    if u.scheme != "" then u.scheme + ":" else ""
  }

  /** The "//host" part of URL.String, when there is a scheme or a host. */
  function AuthorityPart(u: Url): (r: string)
    ensures WellFormed(u) ==> Clean(r)
  {
    var lead := if u.host != "" || u.path != "" then "//" else "";
    assert WellFormed(u) ==> Clean(lead + u.host) by {
      if WellFormed(u) {
        assert Clean("//") && Clean("");
        CleanConcat(lead, u.host);
      }
    }
    if u.scheme != "" || u.host != "" then lead + u.host else ""
  }

  /** The "?query" and "#fragment" parts of URL.String. */
  function QueryFragmentPart(u: Url): string {
    (if u.rawQuery != "" then "?" + u.rawQuery else "") + (if u.fragment != "" then "#" + u.fragment else "")
  }

  /** Everything URL.String writes before the escaped path of a non-opaque URL. */
  function PathPrefix(u: Url): (r: string)
    requires IsBytes(u.path)
    ensures WellFormed(u) ==> Clean(r)
  {
    var p := EscapedPath(u);
    var slash := SlashPart(u.host, p);
    var prefix := SchemePart(u) + AuthorityPart(u) + slash;
    var dot := DotPart(prefix, p);
    assert WellFormed(u) ==> Clean(prefix + dot) by {
      if WellFormed(u) {
        CleanConcat(SchemePart(u), AuthorityPart(u));
        CleanConcat(SchemePart(u) + AuthorityPart(u), slash);
        CleanConcat(prefix, dot);
      }
    }
    prefix + dot
  }

  /** The '/' URL.String puts between a host and a path that does not start with one. */
  function SlashPart(host: string, p: string): (r: string)
    ensures Clean(r)
  {
    assert Clean("/") && Clean("");
    if p != "" && p[0] != '/' && host != "" then "/" else ""
  }

  /** The "./" URL.String puts before a relative path whose first segment holds a ':'. */
  function DotPart(prefix: string, p: string): (r: string)
    ensures Clean(r)
  {
    assert Clean("./") && Clean("");
    if prefix == "" && ContainsChar(Cut(p, '/').0, ':') then "./" else ""
  }

  /** URL.String up to the query: the opaque form, or the authority and the escaped path. */
  function BeforeQuery(u: Url): (r: string)
    requires IsBytes(u.path)
    ensures WellFormed(u) ==> Clean(r)
  {
    assert WellFormed(u) ==> Clean(SchemePart(u) + u.opaquePart) && Clean(PathPrefix(u) + EscapedPath(u)) by {
      if WellFormed(u) {
        CleanConcat(SchemePart(u), u.opaquePart);
        CleanConcat(PathPrefix(u), EscapedPath(u));
      }
    }
    if u.opaquePart != "" then SchemePart(u) + u.opaquePart
    else PathPrefix(u) + EscapedPath(u)
  }

  /** URL.String */
  function ToString(u: Url): (r: string)
    requires IsBytes(u.path)
    ensures WellFormed(u) ==> IsBytes(r)
  {
    BeforeQuery(u) + QueryFragmentPart(u)
  }

  // ---------------------------------------------------------------------
  // Printing and parsing again keeps the query
  // ---------------------------------------------------------------------

  /** Cut at a c that is the first one. */
  lemma CutAt(s: string, t: string, c: char)
    requires !ContainsChar(s, c)
    ensures Cut(s + [c] + t, c) == (s, t, true)
  {
    var x := s + [c] + t;
    assert x[|s|] == c;
    assert forall k :: 0 <= k < |s| ==> x[k] == s[k];
    assert x[..|s|] == s && x[|s| + 1..] == t;
  }

  /** Dropping a prefix without c does not change what follows the first c. */
  lemma CutSuffix(x: string, n: nat, c: char)
    requires n <= |x|
    requires forall k :: 0 <= k < n ==> x[k] != c
    ensures Cut(x[n..], c).1 == Cut(x, c).1
  {
    var y := x[n..];
    var j := IndexOf(y, c);
    var i := IndexOf(x, c);
    if j >= 0 {
      assert x[n + j] == c by { assert y[j] == x[n + j]; }
      assert forall k :: 0 <= k < n + j ==> x[k] != c by {
        forall k | 0 <= k < n + j ensures x[k] != c {
          if k >= n { assert x[k] == y[k - n]; }
        }
      }
      assert i == n + j;
      assert y[j + 1..] == x[i + 1..];
    }
  }

  /** url.Parse takes the query from the first '?' on, whatever form the rest has. */
  lemma ParseNoFragmentQuery(x: string)
    requires IsBytes(x)
    ensures ParseNoFragment(x).Ok? ==> ParseNoFragment(x).value.rawQuery == Cut(x, '?').1
  {
    if ParseNoFragment(x).Ok? && x != "*" && !HasCtlByte(x) {
      var rest0 := GetSchemeFrom(x, 0).value.1;
      var n := |x| - |rest0|;
      assert rest0 == x[n..];
      CutSuffix(x, n, '?');
    }
  }

  /** A sequence of the two parts after BeforeQuery: "?" query, then "#" fragment. */
  lemma QueryFragmentCut(b: string, u: Url)
    requires NoMarks(b) && !ContainsChar(u.rawQuery, '#')
    ensures var q := if u.rawQuery != "" then "?" + u.rawQuery else "";
      && Cut(b + QueryFragmentPart(u), '#').0 == b + q
      && Cut(b + q, '?').1 == u.rawQuery
  {
    var q := if u.rawQuery != "" then "?" + u.rawQuery else "";
    assert !ContainsChar(b + q, '#') by {
      forall k | 0 <= k < |b + q| ensures (b + q)[k] != '#' {
        if k >= |b| { assert (b + q)[k] == q[k - |b|]; }
      }
    }
    if u.fragment != "" {
      assert b + QueryFragmentPart(u) == (b + q) + ['#'] + u.fragment;
      CutAt(b + q, u.fragment, '#');
    } else {
      assert b + QueryFragmentPart(u) == b + q;
    }
    if u.rawQuery != "" {
      assert b + q == b + ['?'] + u.rawQuery;
      CutAt(b, u.rawQuery, '?');
    }
  }

  /** The URL a library gets when it is handed the text of u and parses it with url.Parse. */
  function Reparse(u: Url): (r: Result<Url, string>)
    requires WellFormed(u)
    ensures r.Ok? ==> WellFormed(r.value)
  {
    Parse(ToString(u))
  }

  /**
   * Printing a well-formed URL and parsing the text again gives back its
   * query, as long as the query holds no '#'.
   */
  lemma ReparseKeepsQuery(u: Url)
    requires WellFormed(u) && !ContainsChar(u.rawQuery, '#')
    ensures Reparse(u).Ok? ==> Reparse(u).value.rawQuery == u.rawQuery
  {
    var b := BeforeQuery(u);
    var q := if u.rawQuery != "" then "?" + u.rawQuery else "";
    QueryFragmentCut(b, u);
    assert Cut(ToString(u), '#').0 == b + q;
    ParseNoFragmentQuery(b + q);
  }

  // ---------------------------------------------------------------------
  // Plain relative references: bytes that need no escaping and no ':', '?', '#', '%'
  // ---------------------------------------------------------------------

  predicate PlainChar(c: char) {
    'a' <= c <= 'z' || 'A' <= c <= 'Z' || '0' <= c <= '9' || c == '-' || c == '_' || c == '.' || c == '~' || c == '/'
  }

  /** A path that parses as itself: plain bytes, not starting with "//", not "*", not starting with a digit-free scheme. */
  predicate PlainPath(s: string) {
    (forall i :: 0 <= i < |s| ==> PlainChar(s[i])) && !(|s| >= 2 && s[..2] == "//")
  }

  lemma {:induction false} GetSchemeNoColon(raw: string, i: nat)
    requires i <= |raw|
    requires forall k :: 0 <= k < |raw| ==> raw[k] != ':'
    ensures GetSchemeFrom(raw, i) == Ok(("", raw))
    decreases |raw| - i
  {
    if i < |raw| {
      GetSchemeNoColon(raw, i + 1);
    }
  }

  lemma {:induction false} EscapePathPlain(s: string)
    requires forall i :: 0 <= i < |s| ==> PlainChar(s[i])
    ensures IsBytes(s) && EscapePath(s) == s
    decreases |s|
  {
    if |s| > 0 {
      EscapePathPlain(s[1..]);
      assert s[0] as int < 256 && !ShouldEscapeInPath(s[0]);
      assert EscapeByte(s[0]) == [s[0]];
      assert EscapePath(s) == [s[0]] + EscapePath(s[1..]);
      assert s == [s[0]] + s[1..];
    }
  }

  lemma CutAbsent(s: string, c: char)
    requires forall k :: 0 <= k < |s| ==> s[k] != c
    ensures Cut(s, c) == (s, "", false)
  {
  }

  lemma SetPathPlain(s: string)
    requires PlainPath(s)
    ensures IsBytes(s)
    ensures SetPath(EmptyUrl, s) == Ok(EmptyUrl.(path := s))
  {
    EscapePathPlain(s);
    PathUnescapePlain(s);
  }

  lemma PlainFirstSegment(s: string)
    requires PlainPath(s)
    ensures !ContainsChar(Cut(s, '/').0, ':')
  {
    var seg := Cut(s, '/').0;
    assert forall k :: 0 <= k < |seg| ==> seg[k] == s[k];
  }

  /** A relative reference without scheme, query, authority or colon in its first segment is just a path. */
  lemma ParseNoFragmentRelative(s: string)
    requires IsBytes(s) && !HasCtlByte(s) && s != "*"
    requires GetSchemeFrom(s, 0) == Ok(("", s))
    requires Cut(s, '?') == (s, "", false)
    requires !ContainsChar(Cut(s, '/').0, ':')
    requires !(|s| >= 2 && s[..2] == "//")
    ensures ParseNoFragment(s) == SetPath(EmptyUrl, s)
  {
    assert ToLowerAscii("") == "";
  }

  lemma PlainNoCtl(s: string)
    requires PlainPath(s)
    ensures !HasCtlByte(s) && s != "*"
  {
    assert |s| > 0 ==> PlainChar(s[0]);
  }

  /** A plain path has no control byte, is not "*" and has no scheme. */
  lemma PlainHasNoScheme(s: string)
    requires PlainPath(s)
    ensures IsBytes(s) && !HasCtlByte(s) && s != "*"
    ensures GetSchemeFrom(s, 0) == Ok(("", s))
  {
    assert IsBytes(s) by { EscapePathPlain(s); }
    assert !HasCtlByte(s) && s != "*" by { PlainNoCtl(s); }
    assert GetSchemeFrom(s, 0) == Ok(("", s)) by { GetSchemeNoColon(s, 0); }
  }

  /** A plain path has no query and no colon in its first segment. */
  lemma PlainHasNoQuery(s: string)
    requires PlainPath(s)
    ensures Cut(s, '?') == (s, "", false)
    ensures !ContainsChar(Cut(s, '/').0, ':')
  {
    assert Cut(s, '?') == (s, "", false) by { CutAbsent(s, '?'); }
    assert !ContainsChar(Cut(s, '/').0, ':') by { PlainFirstSegment(s); }
  }

  lemma ParseNoFragmentPlain(s: string)
    requires PlainPath(s)
    ensures IsBytes(s)
    ensures ParseNoFragment(s) == Ok(EmptyUrl.(path := s))
  {
    SetPathPlain(s);
    PlainHasNoScheme(s);
    PlainHasNoQuery(s);
    ParseNoFragmentRelative(s);
  }

  /** A plain path parses to a URL with only that path. */
  lemma ParsePlainPath(s: string)
    requires PlainPath(s)
    ensures IsBytes(s)
    ensures Parse(s) == Ok(EmptyUrl.(path := s))
  {
    ParseNoFragmentPlain(s);
    CutAbsent(s, '#');
  }

  lemma EscapedPathPlain(s: string, rawPath: string)
    requires PlainPath(s) && (rawPath == "" || rawPath == s)
    ensures IsBytes(s)
    ensures EscapedPath(EmptyUrl.(path := s, rawPath := rawPath)) == s
  {
    EscapePathPlain(s);
    assert |s| > 0 ==> PlainChar(s[0]);
    assert s != "*";
  }

  lemma PathPrefixPlain(s: string, rawPath: string)
    requires PlainPath(s) && (rawPath == "" || rawPath == s)
    ensures IsBytes(s)
    ensures PathPrefix(EmptyUrl.(path := s, rawPath := rawPath)) == ""
  {
    var u := EmptyUrl.(path := s, rawPath := rawPath);
    assert IsBytes(s) by { EscapePathPlain(s); }
    assert EscapedPath(u) == s by { EscapedPathPlain(s, rawPath); }
    assert SchemePart(u) == "";
    assert !ContainsChar(Cut(s, '/').0, ':') by { PlainFirstSegment(s); }
  }

  /**
   * ...and prints back as itself, whether or not the path is also kept as
   * its raw form.
   */
  lemma PlainPathToString(s: string, rawPath: string)
    requires PlainPath(s) && (rawPath == "" || rawPath == s)
    ensures IsBytes(s)
    ensures ToString(EmptyUrl.(path := s, rawPath := rawPath)) == s
  {
    var u := EmptyUrl.(path := s, rawPath := rawPath);
    assert IsBytes(s) by { EscapePathPlain(s); }
    assert PathPrefix(u) == "" by { PathPrefixPlain(s, rawPath); }
    assert EscapedPath(u) == s by { EscapedPathPlain(s, rawPath); }
    assert u.opaquePart == "" && u.rawQuery == "" && u.fragment == "";
    assert BeforeQuery(u) == PathPrefix(u) + EscapedPath(u) == "" + s;
    assert QueryFragmentPart(u) == "";
    assert ToString(u) == s + "";
  }

  /** Printing a plain path and parsing it again drops the raw form, as url.Parse does for the default encoding. */
  lemma ReparsePlainPath(s: string, rawPath: string)
    requires PlainPath(s) && (rawPath == "" || rawPath == s)
    ensures IsBytes(s)
    ensures ToString(EmptyUrl.(path := s, rawPath := rawPath)) == s
    ensures Parse(s) == Ok(EmptyUrl.(path := s))
  {
    PlainPathToString(s, rawPath);
    ParsePlainPath(s);
  }
}
