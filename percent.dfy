/**
 * Percent-encoding as net/url implements it (section 2.1 of RFC 3986):
 * url.PathUnescape, url.QueryUnescape and the path-mode escape used by
 * URL.EscapedPath.
 */
module Percent {
  import opened Wrappers

  /** Which decoder: PathUnescape keeps '+', QueryUnescape turns it into a space. */
  datatype Mode = PathMode | QueryMode

  predicate IsHex(c: char) {
    '0' <= c <= '9' || 'a' <= c <= 'f' || 'A' <= c <= 'F'
  }

  function UnHex(c: char): (v: nat)
    requires IsHex(c)
    ensures v < 16
  {
    if '0' <= c <= '9' then c as int - '0' as int
    else if 'a' <= c <= 'f' then c as int - 'a' as int + 10
    else c as int - 'A' as int + 10
  }

  const UpperHex: string := "0123456789ABCDEF"

  /** Every char stands for a byte. */
  predicate IsBytes(s: string) {
    forall i :: 0 <= i < |s| ==> s[i] as int < 256
  }

  /**
   * net/url's unescape for the path and query modes. A '%' not followed by
   * two hex digits is an error carrying the offending text (at most three
   * bytes); the first such '%' from the left is the one reported.
   */
  function Unescape(s: string, mode: Mode): (r: Result<string, string>)
    ensures r.Ok? ==> IsBytes(s) ==> IsBytes(r.value)
    ensures r.Ok? ==> |r.value| <= |s|
    decreases |s|
  {
    if |s| == 0 then Ok("")
    else if s[0] == '%' then
      if |s| < 3 || !IsHex(s[1]) || !IsHex(s[2]) then
        Err(if |s| < 3 then s else s[..3])
      else
        match Unescape(s[3..], mode)
        case Ok(rest) =>
          assert IsBytes(s) ==> IsBytes(s[3..]);
          Ok([(UnHex(s[1]) * 16 + UnHex(s[2])) as char] + rest)
        case Err(e) => Err(e)
    else
      match Unescape(s[1..], mode)
      case Ok(rest) =>
        assert IsBytes(s) ==> IsBytes(s[1..]);
        Ok([if s[0] == '+' && mode == QueryMode then ' ' else s[0]] + rest)
      case Err(e) => Err(e)
  }

  /** url.PathUnescape */
  function PathUnescape(s: string): Result<string, string> {
    Unescape(s, PathMode)
  }

  /** url.QueryUnescape */
  function QueryUnescape(s: string): Result<string, string> {
    Unescape(s, QueryMode)
  }

  /** shouldEscape(c, encodePath) */
  predicate ShouldEscapeInPath(c: char) {
    !('a' <= c <= 'z' || 'A' <= c <= 'Z' || '0' <= c <= '9'
      || c in "-_.~" || c in "$&+,/:;=@")
  }

  /** escape(s, encodePath): every byte that should be escaped becomes %XX with upper-case hex. */
  function EscapePath(s: string): (r: string)
    requires IsBytes(s)
    ensures IsBytes(r) && ValidEncodedPath(r)
    decreases |s|
  {
    if |s| == 0 then ""
    else
      assert IsBytes(s[1..]);
      var c := s[0];
      var head := EscapeByte(c);
      var rest := EscapePath(s[1..]);
      EncodedConcat(head, rest);
      head + rest
  }

  /** One byte of escape: "%XX" when it should be escaped, else the byte itself. */
  function EscapeByte(c: char): (r: string)
    requires c as int < 256
    ensures IsBytes(r) && ValidEncodedPath(r)
  {
    if ShouldEscapeInPath(c) then
      var hi, lo := UpperHex[c as int / 16], UpperHex[c as int % 16];
      assert '0' <= hi <= '9' || 'A' <= hi <= 'F';
      assert '0' <= lo <= '9' || 'A' <= lo <= 'F';
      ['%', hi, lo]
    else [c]
  }

  lemma EncodedConcat(a: string, b: string)
    requires IsBytes(a) && ValidEncodedPath(a) && IsBytes(b) && ValidEncodedPath(b)
    ensures IsBytes(a + b) && ValidEncodedPath(a + b)
  {
    forall k | |a| <= k < |a + b| ensures (a + b)[k] == b[k - |a|] {
    }
  }

  /** validEncoded(s, encodePath): only bytes that may stand unescaped in a path, or '%'. */
  predicate ValidEncodedPath(s: string) {
    forall i :: 0 <= i < |s| ==> s[i] in "!$&'()*+,;=:@[]%" || !ShouldEscapeInPath(s[i])
  }

  /** A valid encoding holds no '?' and no '#', so it cannot end the path early. */
  lemma ValidEncodedHasNoMarks(s: string)
    requires ValidEncodedPath(s)
    ensures forall i :: 0 <= i < |s| ==> s[i] != '?' && s[i] != '#'
  {
  }

  lemma UpperHexDecodes(d: nat)
    requires d < 16
    ensures IsHex(UpperHex[d]) && UnHex(UpperHex[d]) == d
  {
  }

  /** Decoding an escape triple yields its byte in front of the decoded rest. */
  lemma UnescapeTriple(c: char, tail: string, rest: string)
    requires c as int < 256
    requires Unescape(tail, PathMode) == Ok(rest)
    ensures Unescape(['%', UpperHex[c as int / 16], UpperHex[c as int % 16]] + tail, PathMode) == Ok([c] + rest)
  {
    var e := ['%', UpperHex[c as int / 16], UpperHex[c as int % 16]];
    UpperHexDecodes(c as int / 16);
    UpperHexDecodes(c as int % 16);
    assert (e + tail)[3..] == tail;
    assert ((c as int / 16) * 16 + c as int % 16) as char == c;
  }

  /** In path mode, decoding a byte other than '%' yields it in front of the decoded rest. */
  lemma UnescapeSingle(c: char, tail: string, rest: string)
    requires c != '%'
    requires Unescape(tail, PathMode) == Ok(rest)
    ensures Unescape([c] + tail, PathMode) == Ok([c] + rest)
  {
    assert ([c] + tail)[1..] == tail;
  }

  /** Decoding one escaped byte yields it in front of the decoded rest. */
  lemma UnescapeByte(c: char, tail: string, rest: string)
    requires c as int < 256
    requires Unescape(tail, PathMode) == Ok(rest)
    ensures Unescape(EscapeByte(c) + tail, PathMode) == Ok([c] + rest)
  {
    if ShouldEscapeInPath(c) {
      UnescapeTriple(c, tail, rest);
    } else {
      UnescapeSingle(c, tail, rest);
    }
  }

  /** Decoding undoes the path escape (section 2.1 of RFC 3986). */
  lemma {:induction false} PathUnescapeEscape(s: string)
    requires IsBytes(s)
    ensures PathUnescape(EscapePath(s)) == Ok(s)
    decreases |s|
  {
    if |s| > 0 {
      var c := s[0];
      assert IsBytes(s[1..]);
      PathUnescapeEscape(s[1..]);
      assert EscapePath(s) == EscapeByte(c) + EscapePath(s[1..]);
      UnescapeByte(c, EscapePath(s[1..]), s[1..]);
      assert s == [c] + s[1..];
    }
  }

  /** A string without '%' decodes to itself in path mode. */
  lemma {:induction false} PathUnescapePlain(s: string)
    requires forall i :: 0 <= i < |s| ==> s[i] != '%'
    ensures PathUnescape(s) == Ok(s)
    decreases |s|
  {
    if |s| > 0 {
      PathUnescapePlain(s[1..]);
      assert s == [s[0]] + s[1..];
    }
  }

  /** QueryUnescape differs from PathUnescape only by turning '+' into a space. */
  lemma {:induction false} QueryUnescapePlain(s: string)
    requires forall i :: 0 <= i < |s| ==> s[i] != '%'
    ensures QueryUnescape(s).Ok?
    ensures |QueryUnescape(s).value| == |s|
    ensures forall i :: 0 <= i < |s| ==>
      QueryUnescape(s).value[i] == if s[i] == '+' then ' ' else s[i]
    decreases |s|
  {
    if |s| > 0 {
      QueryUnescapePlain(s[1..]);
    }
  }

  /** A string with neither '%' nor '+' decodes to itself in query mode. */
  lemma {:induction false} QueryUnescapeIdentity(s: string)
    requires forall i :: 0 <= i < |s| ==> s[i] != '%' && s[i] != '+'
    ensures QueryUnescape(s) == Ok(s)
    decreases |s|
  {
    if |s| > 0 {
      QueryUnescapeIdentity(s[1..]);
      assert s == [s[0]] + s[1..];
    }
  }

  /** An error is reported exactly when some '%' is not followed by two hex digits. */
  predicate MalformedAt(s: string, i: int) {
    0 <= i < |s| && s[i] == '%' && (i + 2 >= |s| || !IsHex(s[i + 1]) || !IsHex(s[i + 2]))
  }

  /** Decoding fails exactly when some '%' is not the start of a well-formed escape. */
  lemma {:induction false} UnescapeFailsIffMalformed(s: string, mode: Mode)
    ensures Unescape(s, mode).Err? <==> exists i :: MalformedAt(s, i)
    decreases |s|
  {
    if |s| == 0 {
    } else if s[0] == '%' && (|s| < 3 || !IsHex(s[1]) || !IsHex(s[2])) {
      assert MalformedAt(s, 0);
    } else {
      var k := if s[0] == '%' then 3 else 1;
      UnescapeFailsIffMalformed(s[k..], mode);
      if exists i :: MalformedAt(s, i) {
        var i :| MalformedAt(s, i);
        assert i >= k;
        assert MalformedAt(s[k..], i - k);
      }
      if exists i :: MalformedAt(s[k..], i) {
        var i :| MalformedAt(s[k..], i);
        assert MalformedAt(s, i + k);
      }
    }
  }
}
