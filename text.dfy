/**
 * String helpers of the Go standard library that the client relies on:
 * strings.HasSuffix, strings.Join, bytewise string ordering, sort.Strings,
 * decimal formatting (%d) and strconv.ParseInt(s, 10, 64).
 *
 * A Go string is a sequence of bytes; here every `char` of a `string`
 * stands for one byte.
 */
module Text {
  import opened Wrappers

  const MaxInt64: int := 0x7fff_ffff_ffff_ffff
  const MinInt64: int := -0x8000_0000_0000_0000
  const MaxUint64: int := 0xffff_ffff_ffff_ffff

  /** strings.HasSuffix */
  predicate HasSuffix(s: string, suffix: string) {
    |suffix| <= |s| && s[|s| - |suffix|..] == suffix
  }

  /** strings.Contains for a single byte */
  predicate ContainsChar(s: string, c: char) {
    exists i :: 0 <= i < |s| && s[i] == c
  }

  /** strings.Join */
  function Join(parts: seq<string>, sep: string): string {
    if |parts| == 0 then ""
    else if |parts| == 1 then parts[0]
    else parts[0] + sep + Join(parts[1..], sep)
  }

  /** Joining one more part at the end adds the separator and that part. */
  lemma {:induction false} JoinSnoc(parts: seq<string>, x: string, sep: string)
    requires |parts| > 0
    ensures Join(parts + [x], sep) == Join(parts, sep) + sep + x
  {
    if |parts| == 1 {
      assert parts + [x] == [parts[0], x];
    } else {
      assert (parts + [x])[1..] == parts[1..] + [x];
      JoinSnoc(parts[1..], x, sep);
    }
  }

  // ---------------------------------------------------------------------
  // Bytewise ordering of strings (Go's `<` on strings) and sort.Strings
  // ---------------------------------------------------------------------

  /** a < b in Go: lexicographic comparison of the bytes, a proper prefix first. */
  predicate Less(a: string, b: string)
    decreases |a|
  {
    if |a| == 0 then |b| > 0
    else if |b| == 0 then false
    else if a[0] != b[0] then a[0] < b[0]
    else Less(a[1..], b[1..])
  }

  predicate LessEq(a: string, b: string) {
    a == b || Less(a, b)
  }

  lemma {:induction false} LessIrreflexive(a: string)
    ensures !Less(a, a)
    decreases |a|
  {
    if |a| > 0 {
      LessIrreflexive(a[1..]);
    }
  }

  lemma {:induction false} LessAsymmetric(a: string, b: string)
    requires Less(a, b)
    ensures !Less(b, a)
    decreases |a|
  {
    if |a| > 0 && |b| > 0 && a[0] == b[0] {
      LessAsymmetric(a[1..], b[1..]);
    }
  }

  lemma {:induction false} LessTransitive(a: string, b: string, c: string)
    requires Less(a, b) && Less(b, c)
    ensures Less(a, c)
    decreases |a|
  {
    if |a| > 0 && a[0] == b[0] && b[0] == c[0] {
      LessTransitive(a[1..], b[1..], c[1..]);
    }
  }

  lemma {:induction false} LessTotal(a: string, b: string)
    ensures a == b || Less(a, b) || Less(b, a)
    decreases |a|
  {
    if |a| > 0 && |b| > 0 && a[0] == b[0] {
      LessTotal(a[1..], b[1..]);
      if a[1..] == b[1..] {
        assert a == [a[0]] + a[1..] && b == [b[0]] + b[1..];
      }
    }
  }

  lemma LessEqAntisymmetric(a: string, b: string)
    requires LessEq(a, b) && LessEq(b, a)
    ensures a == b
  {
    if a != b {
      LessAsymmetric(a, b);
    }
  }

  lemma LessEqTransitive(a: string, b: string, c: string)
    requires LessEq(a, b) && LessEq(b, c)
    ensures LessEq(a, c)
  {
    if a != b && b != c {
      LessTransitive(a, b, c);
    }
  }

  predicate SortedStrings(s: seq<string>) {
    forall i, j :: 0 <= i < j < |s| ==> LessEq(s[i], s[j])
  }

  /** A head no greater than any element of a sorted sequence keeps it sorted. */
  lemma ConsSorted(h: string, rest: seq<string>)
    requires SortedStrings(rest)
    requires forall y :: y in multiset(rest) ==> LessEq(h, y)
    ensures SortedStrings([h] + rest)
  {
    forall i, j | 0 <= i < j < |[h] + rest|
      ensures LessEq(([h] + rest)[i], ([h] + rest)[j])
    {
      if i == 0 {
        assert rest[j - 1] in multiset(rest);
      }
    }
  }

  /** The head of a sorted sequence is no greater than any of its elements. */
  lemma HeadIsLeast(s: seq<string>, y: string)
    requires SortedStrings(s) && |s| > 0
    requires y in multiset(s)
    ensures LessEq(s[0], y)
  {
    var j :| 0 <= j < |s| && s[j] == y;
    if j == 0 {
    }
  }

  /** Sorted insertion below every element keeps the order. */
  lemma InsertAtFront(x: string, s: seq<string>)
    requires SortedStrings(s) && |s| > 0 && LessEq(x, s[0])
    ensures SortedStrings([x] + s)
  {
    forall y | y in multiset(s) ensures LessEq(x, y) {
      HeadIsLeast(s, y);
      LessEqTransitive(x, s[0], y);
    }
    ConsSorted(x, s);
  }

  /** Inserting x further in keeps the old head first when the head is below x. */
  lemma InsertBehindHead(x: string, s: seq<string>, rest: seq<string>)
    requires SortedStrings(s) && |s| > 0 && LessEq(s[0], x)
    requires SortedStrings(rest) && multiset(rest) == multiset(s[1..]) + multiset{x}
    ensures SortedStrings([s[0]] + rest)
  {
    forall y | y in multiset(rest) ensures LessEq(s[0], y) {
      if y != x {
        assert y in multiset(s[1..]);
        var j :| 0 <= j < |s[1..]| && s[1..][j] == y;
        assert s[j + 1] == y;
      }
    }
    ConsSorted(s[0], rest);
  }

  /** Puts x into a sorted sequence, in front of the first element not below it. */
  function Insert(x: string, s: seq<string>): (r: seq<string>)
    ensures multiset(r) == multiset(s) + multiset{x}
    ensures SortedStrings(s) ==> SortedStrings(r)
  {
    if |s| == 0 then [x]
    else if LessEq(x, s[0]) then
      assert SortedStrings(s) ==> SortedStrings([x] + s) by {
        if SortedStrings(s) {
          InsertAtFront(x, s);
        }
      }
      assert multiset([x] + s) == multiset(s) + multiset{x};
      [x] + s
    else
      var rest := Insert(x, s[1..]);
      LessTotal(x, s[0]);
      assert s == [s[0]] + s[1..];
      assert SortedStrings(s) ==> SortedStrings([s[0]] + rest) by {
        if SortedStrings(s) {
          assert SortedStrings(s[1..]);
          InsertBehindHead(x, s, rest);
        }
      }
      [s[0]] + rest
  }

  function SortStrings(s: seq<string>): (r: seq<string>)
    ensures SortedStrings(r)
    ensures multiset(r) == multiset(s)
  {
    if |s| == 0 then []
    else
      assert s == [s[0]] + s[1..];
      Insert(s[0], SortStrings(s[1..]))
  }

  lemma MultisetTail<T>(a: seq<T>)
    requires |a| > 0
    ensures multiset(a[1..]) == multiset(a) - multiset{a[0]}
  {
    assert a == [a[0]] + a[1..];
  }

  /** Two sorted sequences with the same elements start with the same one. */
  lemma SortedHeads(a: seq<string>, b: seq<string>)
    requires SortedStrings(a) && SortedStrings(b) && |a| > 0
    requires multiset(a) == multiset(b)
    ensures |b| > 0 && a[0] == b[0]
  {
    assert a[0] in multiset(b);
    assert b[0] in multiset(a);
    HeadIsLeast(a, b[0]);
    HeadIsLeast(b, a[0]);
    LessEqAntisymmetric(a[0], b[0]);
  }

  /** Two sorted arrangements of the same strings are the same sequence. */
  lemma {:induction false} SortedUnique(a: seq<string>, b: seq<string>)
    requires SortedStrings(a) && SortedStrings(b)
    requires multiset(a) == multiset(b)
    ensures a == b
  {
    if |a| == 0 {
      assert |multiset(b)| == 0;
    } else {
      SortedHeads(a, b);
      MultisetTail(a);
      MultisetTail(b);
      assert SortedStrings(a[1..]) && SortedStrings(b[1..]);
      SortedUnique(a[1..], b[1..]);
      assert a == [a[0]] + a[1..] && b == [b[0]] + b[1..];
    }
  }

  lemma SortStringsCanonical(s: seq<string>, p: seq<string>)
    requires SortedStrings(p) && multiset(p) == multiset(s)
    ensures p == SortStrings(s)
  {
    SortedUnique(p, SortStrings(s));
  }

  // ---------------------------------------------------------------------
  // Sequence map and permutations
  // ---------------------------------------------------------------------

  function MapSeq<T, U>(f: T -> U, s: seq<T>): (r: seq<U>)
    ensures |r| == |s|
    ensures forall i :: 0 <= i < |s| ==> r[i] == f(s[i])
  {
    if |s| == 0 then [] else [f(s[0])] + MapSeq(f, s[1..])
  }

  lemma MapSeqAppend<T, U>(f: T -> U, s: seq<T>, t: seq<T>)
    ensures MapSeq(f, s + t) == MapSeq(f, s) + MapSeq(f, t)
  {
  }

  /** Removing the element at j removes its image from the mapped multiset. */
  lemma MapSeqRemove<T, U>(f: T -> U, t: seq<T>, j: nat)
    requires j < |t|
    ensures multiset(MapSeq(f, t)) == multiset(MapSeq(f, t[..j] + t[j + 1..])) + multiset{f(t[j])}
  {
    var u, v := t[..j], t[j + 1..];
    assert t == u + ([t[j]] + v);
    MapSeqAppend(f, u, [t[j]] + v);
    MapSeqAppend(f, [t[j]], v);
    MapSeqAppend(f, u, v);
    var mu, mv := MapSeq(f, u), MapSeq(f, v);
    assert MapSeq(f, t) == mu + ([f(t[j])] + mv);
    assert MapSeq(f, u + v) == mu + mv;
  }

  lemma MultisetRemoveAt<T>(t: seq<T>, j: nat)
    requires j < |t|
    ensures multiset(t[..j] + t[j + 1..]) == multiset(t) - multiset{t[j]}
  {
    assert t == t[..j] + [t[j]] + t[j + 1..];
  }

  /** Mapping two permutations of each other gives two permutations of each other. */
  lemma {:induction false} MapSeqPermutation<T, U>(f: T -> U, s: seq<T>, t: seq<T>)
    requires multiset(s) == multiset(t)
    ensures multiset(MapSeq(f, s)) == multiset(MapSeq(f, t))
  {
    if |s| == 0 {
      assert |multiset(t)| == 0;
      assert t == [];
    } else {
      var x := s[0];
      assert x in multiset(t);
      var j :| 0 <= j < |t| && t[j] == x;
      var t' := t[..j] + t[j + 1..];
      MultisetRemoveAt(t, j);
      MultisetTail(s);
      MapSeqPermutation(f, s[1..], t');
      MapSeqRemove(f, t, j);
      assert MapSeq(f, s) == [f(x)] + MapSeq(f, s[1..]);
    }
  }

  // ---------------------------------------------------------------------
  // Decimal numbers: %d and strconv.ParseInt(s, 10, 64)
  // ---------------------------------------------------------------------

  predicate IsDigit(c: char) {
    '0' <= c <= '9'
  }

  function DigitValue(c: char): nat
    requires IsDigit(c)
  {
    c as int - '0' as int
  }

  function DigitChar(d: nat): (c: char)
    requires d < 10
    ensures IsDigit(c) && DigitValue(c) == d
  {
    ('0' as int + d) as char
  }

  /** The shortest decimal spelling of n. */
  function NatToString(n: nat): (r: string)
    ensures |r| > 0 && r[0] != '-'
    ensures forall i :: 0 <= i < |r| ==> IsDigit(r[i])
    decreases n
  {
    if n < 10 then [DigitChar(n)] else NatToString(n / 10) + [DigitChar(n % 10)]
  }

  /** The joined text starts with the first part and ends with the last. */
  lemma {:induction false} JoinEnds(parts: seq<string>, sep: string)
    requires |parts| > 0
    ensures var r := Join(parts, sep);
      |parts[0]| <= |r| && r[..|parts[0]|] == parts[0] && HasSuffix(r, parts[|parts| - 1])
    decreases |parts|
  {
    if |parts| > 1 {
      JoinEnds(parts[1..], sep);
      var rest := Join(parts[1..], sep);
      assert Join(parts, sep) == parts[0] + sep + rest;
      assert (parts[0] + sep + rest)[..|parts[0]|] == parts[0];
      assert parts[1..][|parts[1..]| - 1] == parts[|parts| - 1];
      assert (parts[0] + sep + rest)[|parts[0] + sep|..] == rest;
    }
  }

  /** fmt's %d: a '-' only for a negative number, then the digits. */
  function IntToString(n: int): (r: string)
    ensures |r| > 0
    ensures r[0] == '-' <==> n < 0
    ensures forall i :: (if n < 0 then 1 else 0) <= i < |r| ==> IsDigit(r[i])
  {
    if n < 0 then "-" + NatToString(-n) else NatToString(n)
  }

  datatype NumError = NoError | SyntaxError | RangeError

  /** The digit loop of strconv.ParseUint with base 10, from accumulator acc. */
  function ParseUintFrom(s: string, acc: nat): (r: Result<nat, NumError>)
    ensures r.Ok? ==> forall i :: 0 <= i < |s| ==> IsDigit(s[i])
    ensures r.Ok? && |s| > 0 ==> r.value <= MaxUint64
    decreases |s|
  {
    if |s| == 0 then Ok(acc)
    else if !IsDigit(s[0]) then Err(SyntaxError)
    else if acc * 10 + DigitValue(s[0]) > MaxUint64 then Err(RangeError)
    else ParseUintFrom(s[1..], acc * 10 + DigitValue(s[0]))
  }

  /** strconv.ParseUint(s, 10, 64): a non-empty run of digits whose value fits 64 bits. */
  function ParseUint(s: string): (r: Result<nat, NumError>)
    ensures r.Ok? ==> s != "" && (forall i :: 0 <= i < |s| ==> IsDigit(s[i])) && r.value <= MaxUint64
    ensures s == "" ==> r == Err(SyntaxError)
  {
    if s == "" then Err(SyntaxError) else ParseUintFrom(s, 0)
  }

  /**
   * strconv.ParseInt(s, 10, 64): the value it returns and its error kind.
   * On a syntax error the value is 0; out of range it is clamped to the
   * nearest int64 bound and the error is a range error.
   */
  function ParseInt64(s: string): (r: (int, NumError))
    ensures MinInt64 <= r.0 <= MaxInt64
    ensures r.1 == SyntaxError ==> r.0 == 0
    ensures r.1 == RangeError ==> s != "" && (r.0 == MinInt64 <==> s[0] == '-') && (r.0 == MaxInt64 <==> s[0] != '-')
  {
    if s == "" then (0, SyntaxError)
    else
      var neg := s[0] == '-';
      var digits := if s[0] == '+' || s[0] == '-' then s[1..] else s;
      match ParseUint(digits)
      case Err(SyntaxError) => (0, SyntaxError)
      case Err(_) => if neg then (MinInt64, RangeError) else (MaxInt64, RangeError)
      case Ok(un) =>
        if !neg && un > MaxInt64 then (MaxInt64, RangeError)
        else if neg && un > -MinInt64 then (MinInt64, RangeError)
        else if neg then (-(un as int), NoError)
        else (un, NoError)
  }

  lemma {:induction false} ParseUintFromAppend(a: string, b: string, acc: nat)
    requires ParseUintFrom(a, acc).Ok?
    ensures ParseUintFrom(a + b, acc) == ParseUintFrom(b, ParseUintFrom(a, acc).value)
    decreases |a|
  {
    if |a| == 0 {
      assert a + b == b;
    } else {
      var acc' := acc * 10 + DigitValue(a[0]);
      assert (a + b)[0] == a[0] && (a + b)[1..] == a[1..] + b;
      assert ParseUintFrom(a, acc) == ParseUintFrom(a[1..], acc');
      assert ParseUintFrom(a + b, acc) == ParseUintFrom(a[1..] + b, acc');
      ParseUintFromAppend(a[1..], b, acc');
    }
  }

  lemma {:induction false} ParseNatToString(n: nat)
    requires n <= MaxUint64
    ensures ParseUintFrom(NatToString(n), 0) == Ok(n)
    decreases n
  {
    if n >= 10 {
      ParseNatToString(n / 10);
      ParseUintFromAppend(NatToString(n / 10), [DigitChar(n % 10)], 0);
      assert [DigitChar(n % 10)][1..] == [];
    }
  }

  /** %d and strconv.ParseInt are inverse on the whole int64 range. */
  lemma ParseIntToString(n: int)
    requires MinInt64 <= n <= MaxInt64
    ensures ParseInt64(IntToString(n)) == (n, NoError)
  {
    if n < 0 {
      ParseNatToString(-n);
      assert ("-" + NatToString(-n))[1..] == NatToString(-n);
    } else {
      ParseNatToString(n);
    }
  }

  /** The decimal text of the largest int64. */
  /** Twenty nines exceed 64 bits: a range error, clamped to the largest int64. */
  lemma TwentyNinesOverflow(s: string)
    requires s == "99999999999999999999"
    ensures ParseInt64(s) == (MaxInt64, RangeError)
  {
    TwentyNinesRange(s);
  }

  lemma TwentyNinesRange(s: string)
    requires s == "99999999999999999999"
    ensures ParseUint(s) == Err(RangeError)
  {
    var nines := "9999999999999999999";
    assert s == nines + "9";
    NinesParse();
    ParseUintFromAppend(nines, "9", 0);
    assert ParseUintFrom("9", 9999999999999999999) == Err(RangeError);
  }

  lemma NinesParse()
    ensures ParseUintFrom("9999999999999999999", 0) == Ok(9999999999999999999)
  {
    NinesDecimal();
    ParseNatToString(9999999999999999999);
  }

  lemma NinesDecimal()
    ensures NatToString(9999999999999999999) == "9999999999999999999"
  {
    NinesDecimalLow();
    assert NatToString(9999999999999) == "9999999999999";
    assert NatToString(99999999999999) == "99999999999999";
    assert NatToString(999999999999999) == "999999999999999";
    assert NatToString(9999999999999999) == "9999999999999999";
    assert NatToString(99999999999999999) == "99999999999999999";
    assert NatToString(999999999999999999) == "999999999999999999";
    assert NatToString(9999999999999999999) == "9999999999999999999";
  }

  lemma NinesDecimalLow()
    ensures NatToString(999999999999) == "999999999999"
  {
    assert NatToString(9) == "9";
    assert NatToString(99) == "99";
    assert NatToString(999) == "999";
    assert NatToString(9999) == "9999";
    assert NatToString(99999) == "99999";
    assert NatToString(999999) == "999999";
    assert NatToString(9999999) == "9999999";
    assert NatToString(99999999) == "99999999";
    assert NatToString(999999999) == "999999999";
    assert NatToString(9999999999) == "9999999999";
    assert NatToString(99999999999) == "99999999999";
    assert NatToString(999999999999) == "999999999999";
  }

  lemma MaxInt64Decimal()
    ensures IntToString(MaxInt64) == "9223372036854775807"
  {
    assert NatToString(9) == "9";
    assert NatToString(92) == "92";
    assert NatToString(922) == "922";
    assert NatToString(9223) == "9223";
    assert NatToString(92233) == "92233";
    assert NatToString(922337) == "922337";
    assert NatToString(9223372) == "9223372";
    assert NatToString(92233720) == "92233720";
    assert NatToString(922337203) == "922337203";
    assert NatToString(9223372036) == "9223372036";
    assert NatToString(92233720368) == "92233720368";
    assert NatToString(922337203685) == "922337203685";
    assert NatToString(9223372036854) == "9223372036854";
    assert NatToString(92233720368547) == "92233720368547";
    assert NatToString(922337203685477) == "922337203685477";
    assert NatToString(9223372036854775) == "9223372036854775";
    assert NatToString(92233720368547758) == "92233720368547758";
    assert NatToString(922337203685477580) == "922337203685477580";
    assert NatToString(9223372036854775807) == "9223372036854775807";
  }
}
