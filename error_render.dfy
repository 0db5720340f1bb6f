/**
 * The error normaliser: a decoded JSON error body (RFC 8259 value) and the
 * message parseError renders from it (client.go:243-266).
 */
module ErrorRender {
  import opened Text

  /**
   * What json.Unmarshal into an interface{} can produce. An object's members
   * are listed in the order a Go map range visits them, which is arbitrary;
   * a number keeps its literal text, the renderer only names its type.
   */
  datatype ErrorValue =
    | JString(s: string)
    | JArray(items: seq<ErrorValue>)
    | JObject(members: seq<Member>)
    | JNumber(literal: string)
    | JBool(b: bool)
    | JNull

  datatype Member = Member(key: string, value: ErrorValue)

  const UnexpectedType: string := "failed to parse unexpected error type: "

  /** The message for v: the reference definition that ParseError is proved against. */
  function Render(v: ErrorValue): (r: string)
    ensures v.JArray? ==> |r| >= 2 && r[0] == '[' && r[|r| - 1] == ']'
    ensures v.JNumber? || v.JBool? || v.JNull? ==> |UnexpectedType| < |r| && r[..|UnexpectedType|] == UnexpectedType
    decreases v
  {
    match v
    case JString(s) => s
    case JArray(items) => "[" + Join(RenderItems(items), ", ") + "]"
    case JObject(members) => Join(SortStrings(RenderMembers(members)), ", ")
    case JNumber(_) => UnexpectedType + "float64"
    case JBool(_) => UnexpectedType + "bool"
    case JNull => UnexpectedType + "<nil>"
  }

  /** Each item rendered, in input order. */
  function RenderItems(items: seq<ErrorValue>): (r: seq<string>)
    ensures |r| == |items|
    decreases items
  {
    seq(|items|, i requires 0 <= i < |items| => Render(items[i]))
  }

  /** An object member as "{key: value}". */
  function RenderMember(m: Member): string
    decreases m
  {
    "{" + m.key + ": " + Render(m.value) + "}"
  }

  /** Each member rendered, in iteration order (before sorting). */
  function RenderMembers(members: seq<Member>): (r: seq<string>)
    ensures |r| == |members|
    decreases members
  {
    seq(|members|, i requires 0 <= i < |members| => RenderMember(members[i]))
  }

  /**
   * parseError as the source writes it: collect the rendered children with
   * append in a loop, sort the object entries, and join.
   */
  method ParseError(raw: ErrorValue) returns (msg: string)
    ensures msg == Render(raw)
    decreases raw
  {
    match raw {
      case JString(s) =>
        msg := s;
      case JArray(items) =>
        var errs: seq<string> := [];
        var i := 0;
        while i < |items|
          invariant 0 <= i <= |items|
          invariant errs == RenderItems(items)[..i]
        {
          var e := ParseError(items[i]);
          errs := errs + [e];
          i := i + 1;
        }
        assert errs == RenderItems(items);
        msg := "[" + Join(errs, ", ") + "]";
      case JObject(members) =>
        var errs: seq<string> := [];
        var i := 0;
        while i < |members|
          invariant 0 <= i <= |members|
          invariant errs == RenderMembers(members)[..i]
        {
          var e := ParseError(members[i].value);
          errs := errs + ["{" + members[i].key + ": " + e + "}"];
          i := i + 1;
        }
        assert errs == RenderMembers(members);
        errs := SortStrings(errs);
        msg := Join(errs, ", ");
      case JNumber(_) =>
        msg := UnexpectedType + "float64";
      case JBool(_) =>
        msg := UnexpectedType + "bool";
      case JNull =>
        msg := UnexpectedType + "<nil>";
    }
  }

  /**
   * An object renders the same whatever order its members are visited in:
   * Go's random map iteration order does not show in the message.
   */
  lemma ObjectRenderOrderIndependent(ms: seq<Member>, ms': seq<Member>)
    requires multiset(ms) == multiset(ms')
    ensures Render(JObject(ms)) == Render(JObject(ms'))
  {
    MapSeqPermutation(RenderMember, ms, ms');
    assert RenderMembers(ms) == MapSeq(RenderMember, ms);
    assert RenderMembers(ms') == MapSeq(RenderMember, ms');
    SortedUnique(SortStrings(RenderMembers(ms)), SortStrings(RenderMembers(ms')));
  }

  /**
   * An object's message is its rendered members, each "{key: value}", in
   * ascending bytewise order, joined by ", " with no outer braces.
   */
  lemma ObjectRenderSorted(ms: seq<Member>)
    ensures exists parts: seq<string> ::
      && Render(JObject(ms)) == Join(parts, ", ")
      && SortedStrings(parts)
      && multiset(parts) == multiset(RenderMembers(ms))
      && (forall k :: 0 <= k < |parts| ==> exists m :: m in ms && parts[k] == RenderMember(m))
  {
    var parts := SortStrings(RenderMembers(ms));
    forall k | 0 <= k < |parts| ensures exists m :: m in ms && parts[k] == RenderMember(m) {
      RenderedPartOf(ms, parts, k);
    }
  }

  /** Every element of a rearrangement of the rendered members is the rendering of a member. */
  lemma RenderedPartOf(ms: seq<Member>, parts: seq<string>, k: nat)
    requires multiset(parts) == multiset(RenderMembers(ms)) && k < |parts|
    ensures exists m :: m in ms && parts[k] == RenderMember(m)
  {
    assert parts[k] in multiset(RenderMembers(ms));
    var j :| 0 <= j < |ms| && RenderMembers(ms)[j] == parts[k];
    assert ms[j] in ms;
  }

  /** An array keeps its items in order, each rendered, comma-separated and bracketed. */
  lemma {:induction false} ArrayRenderAppend(items: seq<ErrorValue>, x: ErrorValue)
    requires |items| > 0
    ensures Render(JArray(items + [x]))
         == Render(JArray(items))[..|Render(JArray(items))| - 1] + ", " + Render(x) + "]"
  {
    var inner := Join(RenderItems(items), ", ");
    assert Join(RenderItems(items + [x]), ", ") == inner + ", " + Render(x) by {
      assert RenderItems(items + [x]) == RenderItems(items) + [Render(x)];
      JoinSnoc(RenderItems(items), Render(x), ", ");
    }
    var whole := Render(JArray(items));
    assert whole[..|whole| - 1] == "[" + inner by {
      assert whole == "[" + inner + "]";
    }
    assert Render(JArray(items + [x])) == "[" + (inner + ", " + Render(x)) + "]";
    assert "[" + (inner + ", " + Render(x)) + "]" == ("[" + inner) + ", " + Render(x) + "]";
  }

  /** Empty containers: "[]" for an array, "" for an object. */
  lemma EmptyContainers()
    ensures Render(JArray([])) == "[]"
    ensures Render(JObject([])) == ""
  {
  }

  /** The body {"detail":"error"} of client_test.go renders as {detail: error}. */
  lemma DetailErrorExample()
    ensures Render(JObject([Member("detail", JString("error"))])) == "{detail: error}"
  {
    var m := Member("detail", JString("error"));
    assert RenderMember(m) == "{detail: error}";
    assert RenderMembers([m]) == ["{detail: error}"];
    assert SortStrings(["{detail: error}"]) == ["{detail: error}"];
  }
}
