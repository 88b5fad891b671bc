/** Single filter items: what the builder writes, the parser reads back and the validator accepts. */
module FilterItems {
  import opened Wrappers
  import opened Text
  import opened LdapFilter

  // --- Escaping -------------------------------------------------------------------------

  lemma ReplaceCons(x: char, s: string, c: char, code: string)
    ensures ReplaceAll([x] + s, c, code) == (if x == c then code else [x]) + ReplaceAll(s, c, code)
  {
    assert ([x] + s)[1..] == s;
  }

  lemma {:induction false} ReplaceSplit(a: string, b: string, c: char, code: string)
    ensures ReplaceAll(a + b, c, code) == ReplaceAll(a, c, code) + ReplaceAll(b, c, code)
  {
    if a == "" {
      assert a + b == b;
      assert ReplaceAll(a, c, code) == "";
    } else {
      hide ReplaceAll;
      var x, rest := a[0], a[1..];
      ReplaceSplit(rest, b, c, code);
      ReplaceCons(x, rest, c, code);
      ReplaceCons(x, rest + b, c, code);
      Assoc([x], rest, b);
      assert a == [x] + rest;
      Assoc(if x == c then code else [x], ReplaceAll(rest, c, code), ReplaceAll(b, c, code));
    }
  }

  lemma EscapeSplit(a: string, b: string)
    ensures EscapeFilterValue(a + b) == EscapeFilterValue(a) + EscapeFilterValue(b)
  {
    hide ReplaceAll;
    var a1, b1 := ReplaceAll(a, '\\', "\\5c"), ReplaceAll(b, '\\', "\\5c");
    ReplaceSplit(a, b, '\\', "\\5c");
    var a2, b2 := ReplaceAll(a1, '*', "\\2a"), ReplaceAll(b1, '*', "\\2a");
    ReplaceSplit(a1, b1, '*', "\\2a");
    var a3, b3 := ReplaceAll(a2, '(', "\\28"), ReplaceAll(b2, '(', "\\28");
    ReplaceSplit(a2, b2, '(', "\\28");
    var a4, b4 := ReplaceAll(a3, ')', "\\29"), ReplaceAll(b3, ')', "\\29");
    ReplaceSplit(a3, b3, ')', "\\29");
    ReplaceSplit(a4, b4, '\0', "\\00");
  }

  lemma ReplaceOne(x: char, c: char, code: string)
    ensures ReplaceAll([x], c, code) == if x == c then code else [x]
  {
    assert [x][1..] == "";
  }

  lemma ReplaceThree(x: char, y: char, c: char, code: string)
    requires x != c && y != c && '\\' != c
    ensures ReplaceAll(['\\', x, y], c, code) == ['\\', x, y]
  {
    ReplaceSplit(['\\', x], [y], c, code);
    ReplaceSplit(['\\'], [x], c, code);
    ReplaceOne('\\', c, code);
    ReplaceOne(x, c, code);
    ReplaceOne(y, c, code);
    assert ['\\'] + [x] + [y] == ['\\', x, y];
    assert ['\\'] + [x] == ['\\', x];
    assert ['\\', x] + [y] == ['\\', x, y];
  }

  lemma EscapeOne(x: char)
    ensures EscapeFilterValue([x]) == EscapeChar(x)
  {
    hide ReplaceAll;
    ReplaceOne(x, '\\', "\\5c");
    ReplaceOne(x, '*', "\\2a");
    ReplaceOne(x, '(', "\\28");
    ReplaceOne(x, ')', "\\29");
    ReplaceOne(x, '\0', "\\00");
    ReplaceThree('5', 'c', '*', "\\2a");
    ReplaceThree('5', 'c', '(', "\\28");
    ReplaceThree('5', 'c', ')', "\\29");
    ReplaceThree('5', 'c', '\0', "\\00");
    ReplaceThree('2', 'a', '(', "\\28");
    ReplaceThree('2', 'a', ')', "\\29");
    ReplaceThree('2', 'a', '\0', "\\00");
    ReplaceThree('2', '8', ')', "\\29");
    ReplaceThree('2', '8', '\0', "\\00");
    ReplaceThree('2', '9', '\0', "\\00");
  }

  /** The five successive replacements never touch one another's output. */
  lemma {:induction false} EscapesEachCharacterOnce(v: string)
    ensures EscapeFilterValue(v) == EscapeEach(v)
  {
    if v != "" {
      EscapeSplit([v[0]], v[1..]);
      assert [v[0]] + v[1..] == v;
      EscapeOne(v[0]);
      EscapesEachCharacterOnce(v[1..]);
    }
  }

  /** Escaped text holds no character with a meaning of its own in a filter. */
  predicate Inert(s: string) {
    forall i :: 0 <= i < |s| ==> s[i] != '(' && s[i] != ')' && s[i] != '*' && s[i] != '\0'
  }

  lemma {:induction false} EscapedIsInert(v: string)
    ensures Inert(EscapeEach(v)) && (v != "" ==> EscapeEach(v) != "")
  {
    if v != "" {
      EscapedIsInert(v[1..]);
      assert Inert(EscapeChar(v[0]));
    }
  }

  /** An escape is the character itself, or a backslash and the two digits of its code. */
  lemma EscapeCharShape(c: char)
    ensures var e := EscapeChar(c);
            || (e == [c] && c != '\\' && c != '*')
            || (|e| == 3 && e[0] == '\\' && IsHex(e[1]) && IsHex(e[2])
                && 0 <= 16 * HexValue(e[1]) + HexValue(e[2]) < 128
                && (16 * HexValue(e[1]) + HexValue(e[2])) as char == c)
  {
  }

  lemma UnescapeHex(s: string, tail: string, bytes: seq<int>, decode: Decoder)
    requires HexEscape(s) && s[3..] == tail
    ensures Unescape(s, bytes, decode) == Unescape(tail, bytes + [16 * HexValue(s[1]) + HexValue(s[2])], decode)
  {
  }

  lemma UnescapeOther(c: char, tail: string, bytes: seq<int>, decode: Decoder)
    requires c != '\\' && DecodesAscii(decode) && forall i :: 0 <= i < |bytes| ==> 0 <= bytes[i] < 128
    ensures Unescape([c] + tail, bytes, decode) == Chars(bytes) + [c] + Unescape(tail, [], decode)
  {
    assert ([c] + tail)[1..] == tail;
    assert FlushBytes(bytes, decode) == Chars(bytes);
  }

  lemma UnescapeEscape(c: char, tail: string, bytes: seq<int>, decode: Decoder)
    requires |EscapeChar(c)| == 3
    ensures 0 <= c as int < 128
    ensures Unescape(EscapeChar(c) + tail, bytes, decode) == Unescape(tail, bytes + [c as int], decode)
  {
    EscapeCharShape(c);
    hide EscapeChar, HexValue, Unescape;
    var s := EscapeChar(c) + tail;
    assert s[0] == EscapeChar(c)[0] && s[1] == EscapeChar(c)[1] && s[2] == EscapeChar(c)[2] && s[3..] == tail;
    UnescapeHex(s, tail, bytes, decode);
  }

  /** Unescaping undoes escaping, also across runs of escapes decoded together. */
  lemma {:induction false} UnescapeEscaped(v: string, bytes: seq<int>, decode: Decoder)
    requires DecodesAscii(decode) && forall i :: 0 <= i < |bytes| ==> 0 <= bytes[i] < 128
    ensures Unescape(EscapeEach(v), bytes, decode) == Chars(bytes) + v
    decreases |v|
  {
    hide EscapeChar, DecodesAscii, Unescape, Chars;
    if v == "" {
      UnescapeNothing(bytes, decode);
    } else {
      EscapeCharShape(v[0]);
      if |EscapeChar(v[0])| == 3 {
        UnescapeEscape(v[0], EscapeEach(v[1..]), bytes, decode);
        UnescapeEscaped(v[1..], bytes + [v[0] as int], decode);
        CharsSnoc(bytes, v[0] as int);
      } else {
        UnescapeOther(v[0], EscapeEach(v[1..]), bytes, decode);
        UnescapeNothing([], decode);
        UnescapeEscaped(v[1..], [], decode);
      }
      assert Chars(bytes) + [v[0]] + v[1..] == Chars(bytes) + v;
    }
  }

  lemma UnescapeNothing(bytes: seq<int>, decode: Decoder)
    requires DecodesAscii(decode) && forall i :: 0 <= i < |bytes| ==> 0 <= bytes[i] < 128
    ensures Unescape("", bytes, decode) == Chars(bytes) && Chars([]) == ""
  {
  }

  lemma EscapeRoundTrip(v: string, decode: Decoder)
    requires DecodesAscii(decode)
    ensures Unescape(EscapeFilterValue(v), [], decode) == v
  {
    EscapesEachCharacterOnce(v);
    UnescapeEscaped(v, [], decode);
  }

  /** Escaped text is one segment, whatever follows it. */
  lemma {:induction false} SplitEscaped(current: string, v: string, rest: string)
    ensures SplitWildcards(current, false, EscapeEach(v) + rest) == SplitWildcards(current + EscapeEach(v), false, rest)
    decreases |v|
  {
    if v == "" {
      assert EscapeEach(v) + rest == rest;
      assert current + EscapeEach(v) == current;
    } else {
      var e, more := EscapeChar(v[0]), EscapeEach(v[1..]);
      EscapeCharShape(v[0]);
      hide EscapeChar, HexValue;
      var tail := more + rest;
      SplitEscaped(current + e, v[1..], rest);
      assert current + e + more == current + (e + more);
      assert e + more + rest == e + tail;
      SplitOneEscape(current, e, tail);
    }
  }

  lemma SplitOneEscape(current: string, e: string, tail: string)
    requires (|e| == 1 && e[0] != '\\' && e[0] != '*') || (|e| == 3 && e[0] == '\\' && IsHex(e[2]))
    ensures SplitWildcards(current, false, e + tail) == SplitWildcards(current + e, false, tail)
  {
    var s := e + tail;
    if |e| == 1 {
      assert s[1..] == tail && [s[0]] == e;
    } else {
      var c1 := current + [e[0]];
      var c2 := c1 + [e[1]];
      assert SplitWildcards(current, false, s) == SplitWildcards(c1, true, s[1..]);
      assert SplitWildcards(c1, true, s[1..]) == SplitWildcards(c2, false, s[1..][1..]);
      assert s[1..][1..][1..] == tail && s[1..][1..][0] == e[2];
      assert c2 + [e[2]] == current + e;
    }
  }

  // --- Items ----------------------------------------------------------------------------

  lemma SplitItem(attr: string, operator: string, value: string)
    requires IsAttributeDescription(attr) && operator in {"=", ">=", "<=", "~="}
    ensures SplitClause(attr + operator + value) == Some((attr, operator, value))
  {
    AttributeShape(attr);
    assert forall i :: 0 <= i < |attr| ==> attr[i] !in {'=', '>', '<', '~'};
    var before := attr + operator[..|operator| - 1];
    var body := attr + operator + value;
    assert body == before + ['='] + value;
    IndexOfAt(before, '=', value);
    assert body[|before| - 1] == before[|before| - 1];
    assert body[..|attr|] == attr;
    if |operator| == 2 {
      assert body[|attr|..|attr| + 2] == operator;
    }
  }

  predicate Substring(op: Op) {
    op == Contains || op == StartsWith || op == EndsWith
  }

  lemma SplitStar(s: string)
    ensures SplitWildcards("", false, "*" + s) == [""] + SplitWildcards("", false, s)
  {
    assert ("*" + s)[1..] == s;
  }

  lemma SplitLast(e: string)
    ensures SplitWildcards(e, false, "*") == [e, ""]
    ensures SplitWildcards(e, false, "") == [e]
  {
    assert "*"[1..] == "";
    assert [e] + [""] == [e, ""];
  }

  lemma EscapedSegments(v: string)
    ensures SplitWildcards("", false, EscapeEach(v)) == [EscapeEach(v)]
    ensures SplitWildcards("", false, EscapeEach(v) + "*") == [EscapeEach(v), ""]
  {
    hide EscapeEach, SplitWildcards;
    var e := EscapeEach(v);
    SplitEscaped("", v, "");
    SplitEscaped("", v, "*");
    assert "" + e == e && e + "" == e;
    SplitLast(e);
  }

  lemma NotOneStar(op: Op, e: string)
    requires e != "" && Inert(e) && (op == Equals || Substring(op))
    ensures RawValue(op, e) != "*"
  {
    assert e[0] != '*';
    assert op == EndsWith || op == Contains ==> |RawValue(op, e)| > 1;
  }

  lemma ItemSegments(op: Op, v: string)
    requires v != "" && (op == Equals || Substring(op))
    ensures RawValue(op, EscapeEach(v)) != "*"
    ensures SplitWildcards("", false, RawValue(op, EscapeEach(v)))
      == match op
         case Contains => ["", EscapeEach(v), ""]
         case StartsWith => [EscapeEach(v), ""]
         case EndsWith => ["", EscapeEach(v)]
         case _ => [EscapeEach(v)]
  {
    hide EscapeEach, Inert, SplitWildcards;
    var e := EscapeEach(v);
    EscapedIsInert(v);
    NotOneStar(op, e);
    EscapedSegments(v);
    SplitStar(e + "*");
    SplitStar(e);
    assert "*" + e + "*" == "*" + (e + "*");
    assert [""] + [e, ""] == ["", e, ""] && [""] + [e] == ["", e];
  }

  predicate Comparison(op: Op) {
    op == Gte || op == Lte || op == Approx
  }

  function Operator(op: Op): string {
    match op
    case Gte => ">="
    case Lte => "<="
    case _ => "~="
  }

  lemma ParseSplit(body: string, attr: string, op: Op, raw: string, decode: Decoder)
    requires SplitClause(body) == Some((attr, Operator(op), raw)) && Comparison(op)
    requires IsAttributeDescription(attr) && Trimmed(attr) && raw != ""
    ensures ParseClauseItem(body, decode) == Some(Clause(attr, op, Unescape(raw, [], decode), false))
  {
    TrimKeeps(attr);
    hide IsAttributeDescription, Unescape, SplitClause, Trim;
  }

  lemma ParseComparison(attr: string, op: Op, v: string, decode: Decoder)
    requires IsAttributeDescription(attr) && v != "" && Comparison(op) && DecodesAscii(decode)
    ensures ParseClauseItem(ItemBody(attr, op, EscapeFilterValue(v)), decode) == Some(Clause(attr, op, v, false))
  {
    hide IsAttributeDescription, EscapeFilterValue, Unescape, SplitClause, EscapeEach, Inert, Trimmed, DecodesAscii, ParseClauseItem;
    EscapeRoundTrip(v, decode);
    EscapesEachCharacterOnce(v);
    EscapedIsInert(v);
    AttributeShape(attr);
    SplitItem(attr, Operator(op), EscapeFilterValue(v));
    ParseSplit(ItemBody(attr, op, EscapeFilterValue(v)), attr, op, EscapeFilterValue(v), decode);
  }

  /** The value the builder writes for an equality or substring clause. */
  function RawValue(op: Op, e: string): string {
    match op
    case Contains => "*" + e + "*"
    case StartsWith => e + "*"
    case EndsWith => "*" + e
    case _ => e
  }

  /** What the parser makes of a value once it is split at its stars. */
  lemma ParseSegments(attr: string, op: Op, e: string, raw: string, decode: Decoder)
    requires e != "" && raw != "*" && (op == Equals || Substring(op))
    requires SplitWildcards("", false, raw)
      == match op case Contains => ["", e, ""] case StartsWith => [e, ""] case EndsWith => ["", e] case _ => [e]
    ensures ParseEquality(attr, raw, decode) == Some(Clause(attr, op, Unescape(e, [], decode), false))
  {
    hide SplitWildcards, Unescape;
  }

  lemma ParseRawValue(attr: string, op: Op, v: string, decode: Decoder)
    requires v != "" && (op == Equals || Substring(op)) && DecodesAscii(decode)
    ensures ParseEquality(attr, RawValue(op, EscapeEach(v)), decode) == Some(Clause(attr, op, v, false))
  {
    hide EscapeFilterValue, Unescape, EscapeEach, SplitWildcards, Inert, RawValue, DecodesAscii, ParseEquality;
    EscapesEachCharacterOnce(v);
    EscapeRoundTrip(v, decode);
    EscapedIsInert(v);
    ItemSegments(op, v);
    ParseSegments(attr, op, EscapeEach(v), RawValue(op, EscapeEach(v)), decode);
  }

  lemma ValueText(attr: string, op: Op, e: string)
    requires op == Equals || Substring(op)
    ensures ItemBody(attr, op, e) == attr + "=" + RawValue(op, e)
  {
  }

  lemma ParseEqual(body: string, attr: string, raw: string, decode: Decoder)
    requires SplitClause(body) == Some((attr, "=", raw)) && IsAttributeDescription(attr) && Trim(attr) == attr
    ensures ParseClauseItem(body, decode) == ParseEquality(attr, raw, decode)
  {
    hide IsAttributeDescription, SplitClause, Trim, ParseEquality;
  }

  lemma ParseValue(attr: string, op: Op, v: string, decode: Decoder)
    requires IsAttributeDescription(attr) && v != "" && (op == Equals || Substring(op)) && DecodesAscii(decode)
    ensures ParseClauseItem(ItemBody(attr, op, EscapeFilterValue(v)), decode) == Some(Clause(attr, op, v, false))
  {
    hide *;
    var e := EscapeEach(v);
    var raw := RawValue(op, e);
    EscapesEachCharacterOnce(v);
    AttributeShape(attr);
    TrimKeeps(attr);
    ParseRawValue(attr, op, v, decode);
    ValueText(attr, op, e);
    SplitItem(attr, "=", raw);
    ParseEqual(attr + "=" + raw, attr, raw, decode);
  }

  /** Parsing the item the builder writes gives back its attribute, operator and value. */
  lemma ParseItemBody(attr: string, op: Op, v: string, decode: Decoder)
    requires IsAttributeDescription(attr) && op != NotEquals && (v != "" <==> op != Present) && DecodesAscii(decode)
    ensures ParseClauseItem(ItemBody(attr, op, EscapeFilterValue(v)), decode) == Some(Clause(attr, op, v, false))
  {
    if Comparison(op) {
      ParseComparison(attr, op, v, decode);
    } else if op == Present {
      AttributeShape(attr);
      TrimKeeps(attr);
      SplitItem(attr, "=", "*");
    } else {
      ParseValue(attr, op, v, decode);
    }
  }

  // --- What an item looks like inside its parentheses -----------------------------------

  /** A body that is read as an item and ends at its closing parenthesis. */
  predicate PlainBody(body: string) {
    body != "" && !IsGap(body[0]) && body[0] !in {'&', '|', '!'}
    && forall i :: 0 <= i < |body| ==> body[i] != '(' && body[i] != ')'
  }

  lemma AttributeCharsPlain(attr: string)
    requires attr != "" && forall i :: 0 <= i < |attr| ==> IsAttrChar(attr[i])
    ensures PlainBody(attr)
  {
  }

  lemma PlainThen(body: string, more: string)
    requires PlainBody(body) && NoParens(more)
    ensures PlainBody(body + more)
  {
  }

  /** No parenthesis, so that the item it stands in ends where it should. */
  predicate NoParens(s: string) {
    forall i :: 0 <= i < |s| ==> s[i] != '(' && s[i] != ')'
  }

  lemma ItemTail(attr: string, op: Op, e: string) returns (tail: string)
    requires NoParens(e)
    ensures ItemBody(attr, op, e) == attr + tail && NoParens(tail)
  {
    var prefix := match op case Contains => "=*" case EndsWith => "=*" case Present => "=*"
                           case Gte => ">=" case Lte => "<=" case Approx => "~=" case _ => "=";
    var suffix := if op == Contains || op == StartsWith then "*" else "";
    tail := prefix + (if op == Present then "" else e) + suffix;
  }

  lemma ItemBodyPlain(attr: string, op: Op, v: string)
    requires IsAttributeDescription(attr)
    ensures PlainBody(ItemBody(attr, op, EscapeFilterValue(v)))
  {
    AttributeShape(attr);
    EscapesEachCharacterOnce(v);
    EscapedIsInert(v);
    hide IsAttributeDescription, EscapeFilterValue, EscapeEach, Trimmed, ItemBody, PlainBody;
    var tail := ItemTail(attr, op, EscapeFilterValue(v));
    AttributeCharsPlain(attr);
    PlainThen(attr, tail);
  }

  // --- Validation of single items -------------------------------------------------------

  lemma {:induction false} EscapedIsValid(v: string, rest: string, stars: bool)
    ensures ValidValue(EscapeEach(v) + rest, stars) == ValidValue(rest, stars)
  {
    var s := EscapeEach(v) + rest;
    if v == "" {
      assert s == rest;
    } else {
      var e := EscapeChar(v[0]);
      var tail := EscapeEach(v[1..]) + rest;
      assert s == e + tail;
      EscapedIsValid(v[1..], rest, stars);
      EscapeCharShape(v[0]);
      assert |e| == 1 ==> Inert(e);
      hide EscapeChar, HexValue;
      if |e| == 3 {
        assert s[3..] == tail;
      } else {
        assert s[1..] == tail;
      }
    }
  }

  lemma {:induction false} GuidBytesValid(hex: string, order: seq<nat>)
    requires forall i :: 0 <= i < |hex| ==> IsHex(hex[i])
    ensures ValidValue(GuidBytes(hex, order), true)
    ensures forall i :: 0 <= i < |GuidBytes(hex, order)| ==> GuidBytes(hex, order)[i] !in {'(', ')'}
  {
    if order != [] {
      GuidBytesValid(hex, order[1..]);
      var s := GuidBytes(hex, order);
      if 2 * order[0] + 2 <= |hex| {
        var pair := hex[2 * order[0]..2 * order[0] + 2];
        assert s == "\\" + pair + GuidBytes(hex, order[1..]);
        assert s[3..] == GuidBytes(hex, order[1..]);
      } else {
        assert s == GuidBytes(hex, order[1..]);
      }
    }
  }

  lemma {:induction false} HexDigitsAreHex(s: string)
    requires forall i :: 0 <= i < |s| ==> s[i] == '-' || IsHex(s[i])
    ensures forall i :: 0 <= i < |HexDigits(s)| ==> IsHex(HexDigits(s)[i])
  {
    if s != "" {
      HexDigitsAreHex(s[1..]);
    }
  }

  /** Where the first equals sign stands, and what stands around it. */
  lemma AssertionShape(attr: string, operator: string, value: string)
    requires attr != "" && (forall i :: 0 <= i < |attr| ==> IsAttrChar(attr[i])) && operator in {"=", ">=", "<=", "~="}
    ensures var body := attr + operator + value;
            var p := |attr| + |operator| - 1;
            && IndexOf(body, '=') == p && body[..|attr|] == attr && body[p + 1..] == value
            && body[p - 1] == if operator == "=" then attr[|attr| - 1] else operator[0]
  {
    assert forall i :: 0 <= i < |attr| ==> attr[i] != '=';
    var before := attr + operator[..|operator| - 1];
    assert attr + operator + value == before + ['='] + value;
    IndexOfAt(before, '=', value);
  }

  lemma SplitAssertion(attr: string, operator: string, value: string)
    requires IsAttributeDescription(attr) && operator in {"=", ">=", "<=", "~="}
    ensures ValidAssertion(attr + operator + value) == ValidValue(value, operator == "=")
  {
    AttributeShape(attr);
    hide IsAttributeDescription, ValidValue, ValidExtensible, Trimmed;
    AssertionShape(attr, operator, value);
    assert attr[|attr| - 1] !in {'=', '>', '<', '~', ':'};
  }

  lemma ItemBodyValid(attr: string, op: Op, v: string)
    requires IsAttributeDescription(attr)
    ensures ValidAssertion(ItemBody(attr, op, EscapeFilterValue(v)))
  {
    EscapesEachCharacterOnce(v);
    var e := EscapeEach(v);
    EscapedIsValid(v, "", true);
    EscapedIsValid(v, "", false);
    EscapedIsValid(v, "*", true);
    assert e + "" == e;
    assert ValidValue("*", true);
    assert ("*" + e)[1..] == e;
    assert ("*" + e + "*")[1..] == e + "*";
    hide IsAttributeDescription, EscapeFilterValue, EscapeEach, ValidAssertion;
    match op {
      case Contains => SplitAssertion(attr, "=", "*" + e + "*");
      case StartsWith => SplitAssertion(attr, "=", e + "*");
      case EndsWith => SplitAssertion(attr, "=", "*" + e);
      case Gte => SplitAssertion(attr, ">=", e);
      case Lte => SplitAssertion(attr, "<=", e);
      case Approx => SplitAssertion(attr, "~=", e);
      case Present => SplitAssertion(attr, "=", "*");
      case _ => SplitAssertion(attr, "=", e);
    }
  }

  lemma GuidBodyValid(raw: string)
    requires IsGuid(raw)
    ensures ValidAssertion("objectGUID" + "=" + GuidBytes(HexDigits(raw), GUID_ORDER))
    ensures PlainBody("objectGUID" + "=" + GuidBytes(HexDigits(raw), GUID_ORDER))
  {
    HexDigitsAreHex(raw);
    GuidBytesValid(HexDigits(raw), GUID_ORDER);
    ObjectGuidBody(GuidBytes(HexDigits(raw), GUID_ORDER));
  }

  lemma ObjectGuidBody(bytes: string)
    requires ValidValue(bytes, true) && forall i :: 0 <= i < |bytes| ==> bytes[i] !in {'(', ')'}
    ensures ValidAssertion("objectGUID" + "=" + bytes) && PlainBody("objectGUID" + "=" + bytes)
  {
    hide *;
    ObjectGuidIsAttribute();
    AttributeBody("objectGUID", bytes);
  }

  lemma EqualsThen(value: string)
    requires forall i :: 0 <= i < |value| ==> value[i] !in {'(', ')'}
    ensures NoParens("=" + value)
  {
  }

  lemma AttributeBody(attr: string, value: string)
    requires IsAttributeDescription(attr) && ValidValue(value, true)
    requires forall i :: 0 <= i < |value| ==> value[i] !in {'(', ')'}
    ensures ValidAssertion(attr + "=" + value) && PlainBody(attr + "=" + value)
  {
    hide *;
    EqualsThen(value);
    Assoc(attr, "=", value);
    SplitAssertion(attr, "=", value);
    AttributeShape(attr);
    AttributeCharsPlain(attr);
    PlainThen(attr, "=" + value);
  }

  lemma ObjectGuidIsAttribute()
    ensures IsAttributeDescription("objectGUID")
  {
    NameIsAttribute("objectGUID", Start);
  }
}
