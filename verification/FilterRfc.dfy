/**
 Filter items as section 3 of RFC 4515 has them, with a meaning of their own: simple, presence and
 substring assertions over attribute descriptions, their values made of plain characters and
 escaped octets. parseClauseItem and isValidFilterAssertion of ldapFilter.ts are measured
 against them.
 */
module FilterRfc {
  import opened Wrappers
  import opened Text
  import opened LdapFilter
  import opened FilterItems

  // --- The grammar ----------------------------------------------------------------------

  /** normal or escaped. */
  datatype Unit = Plain(c: char) | Escaped(hi: char, lo: char)

  /** assertionvalue */
  type Coded = seq<Unit>

  datatype FilterType = Equal | Approximate | GreaterOrEqual | LessOrEqual

  datatype Assertion =
    | Simple(attribute: string, filterType: FilterType, value: Coded)
    | Presence(attribute: string)
    | Substrings(attribute: string, initial: Coded, any: seq<Coded>, final: Coded)

  predicate UnitOk(u: Unit) {
    match u
    case Plain(c) => c != '\0' && c != '(' && c != ')' && c != '*' && c != '\\'
    case Escaped(hi, lo) => IsHex(hi) && IsHex(lo)
  }

  predicate CodedOk(v: Coded) {
    forall i :: 0 <= i < |v| ==> UnitOk(v[i])
  }

  predicate AllCoded(pieces: seq<Coded>) {
    forall i :: 0 <= i < |pieces| ==> CodedOk(pieces[i])
  }

  /** The pieces between the stars, the outer ones possibly absent. */
  function Pieces(a: Assertion): seq<Coded>
    requires a.Substrings?
  {
    [a.initial] + a.any + [a.final]
  }

  predicate WellFormed(a: Assertion) {
    IsAttributeDescription(a.attribute)
    && match a
       case Simple(_, _, value) => CodedOk(value)
       case Presence(_) => true
       case Substrings(_, initial, any, final) => AllCoded(Pieces(a)) && Pieces(a) != [[], []]
  }

  function ShowUnit(u: Unit): string {
    match u
    case Plain(c) => [c]
    case Escaped(hi, lo) => ['\\', hi, lo]
  }

  function Show(v: Coded): string {
    if v == [] then "" else ShowUnit(v[0]) + Show(v[1..])
  }

  function ShowAll(pieces: seq<Coded>): (r: seq<string>)
    ensures |r| == |pieces| && forall i :: 0 <= i < |pieces| ==> r[i] == Show(pieces[i])
  {
    if pieces == [] then [] else [Show(pieces[0])] + ShowAll(pieces[1..])
  }

  function Sign(f: FilterType): string {
    match f
    case Equal => "="
    case Approximate => "~="
    case GreaterOrEqual => ">="
    case LessOrEqual => "<="
  }

  function ShowItem(a: Assertion): string {
    match a
    case Simple(attribute, filterType, value) => attribute + Sign(filterType) + Show(value)
    case Presence(attribute) => attribute + "=" + "*"
    case Substrings(attribute, _, _, _) => attribute + "=" + Text.Join(ShowAll(Pieces(a)), "*")
  }

  // --- Meaning --------------------------------------------------------------------------

  /** What the matching rules of a directory say of one entry; any answer will do. */
  datatype Rules = Rules(equal: (string, string) -> bool, approximate: (string, string) -> bool,
                         atLeast: (string, string) -> bool, atMost: (string, string) -> bool,
                         present: string -> bool, substrings: (string, string, seq<string>, string) -> bool)

  /** The value asserted: plain characters as they are, runs of octets through the decoder. */
  function Value(v: Coded, run: seq<int>, decode: Decoder): string
    requires CodedOk(v)
    decreases |v|
  {
    if v == [] then FlushBytes(run, decode)
    else
      match v[0]
      case Plain(c) => FlushBytes(run, decode) + [c] + Value(v[1..], [], decode)
      case Escaped(hi, lo) => Value(v[1..], run + [16 * HexValue(hi) + HexValue(lo)], decode)
  }

  function Values(pieces: seq<Coded>, decode: Decoder): seq<string>
    requires AllCoded(pieces)
  {
    if pieces == [] then [] else [Value(pieces[0], [], decode)] + Values(pieces[1..], decode)
  }

  predicate Holds(a: Assertion, rules: Rules, decode: Decoder)
    requires WellFormed(a)
  {
    match a
    case Simple(attribute, Equal, value) => rules.equal(attribute, Value(value, [], decode))
    case Simple(attribute, Approximate, value) => rules.approximate(attribute, Value(value, [], decode))
    case Simple(attribute, GreaterOrEqual, value) => rules.atLeast(attribute, Value(value, [], decode))
    case Simple(attribute, LessOrEqual, value) => rules.atMost(attribute, Value(value, [], decode))
    case Presence(attribute) => rules.present(attribute)
    case Substrings(attribute, initial, any, final) =>
      var pieces := Pieces(a);
      assert pieces[0] == initial && pieces[|pieces| - 1] == final && pieces[1..|pieces| - 1] == any;
      assert forall i :: 0 <= i < |any| ==> any[i] == pieces[i + 1];
      rules.substrings(attribute, Value(initial, [], decode), Values(any, decode), Value(final, [], decode))
  }

  /** The builder's operators under these rules. */
  predicate Atom(rules: Rules, attribute: string, op: Op, value: string) {
    match op
    case Equals => rules.equal(attribute, value)
    case NotEquals => !rules.equal(attribute, value)
    case Contains => rules.substrings(attribute, "", [value], "")
    case StartsWith => rules.substrings(attribute, value, [], "")
    case EndsWith => rules.substrings(attribute, "", [], value)
    case Present => rules.present(attribute)
    case Gte => rules.atLeast(attribute, value)
    case Lte => rules.atMost(attribute, value)
    case Approx => rules.approximate(attribute, value)
  }

  /** The clause that shows an assertion in the builder; None for those it has no operator for. */
  function ClauseOf(a: Assertion, decode: Decoder): Option<Node>
    requires WellFormed(a)
  {
    match a
    case Simple(attribute, filterType, value) =>
      if value == [] then None
      else
        var op := match filterType
                  case Equal => Equals
                  case Approximate => Approx
                  case GreaterOrEqual => Gte
                  case LessOrEqual => Lte;
        Some(Clause(attribute, op, Value(value, [], decode), false))
    case Presence(attribute) => Some(Clause(attribute, Present, "", false))
    case Substrings(attribute, initial, any, final) =>
      assert Pieces(a)[0] == initial && Pieces(a)[|any| + 1] == final;
      assert any != [] ==> any[0] == Pieces(a)[1];
      if any == [] && final == [] then Some(Clause(attribute, StartsWith, Value(initial, [], decode), false))
      else if any == [] && initial == [] then Some(Clause(attribute, EndsWith, Value(final, [], decode), false))
      else if initial == [] && final == [] && |any| == 1 && any[0] != [] then
        Some(Clause(attribute, Contains, Value(any[0], [], decode), false))
      else None
  }

  lemma ClauseMeansAssertion(a: Assertion, rules: Rules, decode: Decoder)
    requires WellFormed(a) && ClauseOf(a, decode).Some?
    ensures var c := ClauseOf(a, decode).value;
            c.Clause? && !c.negate && c.op != NotEquals
            && (Holds(a, rules, decode) <==> Atom(rules, c.attribute, c.op, c.value))
  {
    if a.Substrings? {
      assert Pieces(a)[0] == a.initial && Pieces(a)[|a.any| + 1] == a.final;
      if |a.any| == 1 {
        assert a.any[0] == Pieces(a)[1] && a.any[1..] == [];
        assert Values(a.any, decode) == [Value(a.any[0], [], decode)];
      }
      hide Value, IsAttributeDescription;
      assert Value([], [], decode) == "" by {
        NoValue(decode);
      }
    }
  }

  lemma NoValue(decode: Decoder)
    ensures Value([], [], decode) == ""
  {
  }

  // --- Values in the text ---------------------------------------------------------------

  lemma {:induction false} UnescapeReads(v: Coded, run: seq<int>, decode: Decoder)
    requires CodedOk(v)
    ensures Unescape(Show(v), run, decode) == Value(v, run, decode)
    decreases |v|
  {
    if v != [] {
      var s := Show(v);
      match v[0] {
        case Plain(c) =>
          UnescapeReads(v[1..], [], decode);
          assert s[1..] == Show(v[1..]) && s[0] == c;
        case Escaped(hi, lo) =>
          UnescapeReads(v[1..], run + [16 * HexValue(hi) + HexValue(lo)], decode);
          assert s[3..] == Show(v[1..]) && s[0] == '\\' && s[1] == hi && s[2] == lo;
      }
    }
  }

  lemma {:induction false} ShowSplits(current: string, v: Coded, rest: string)
    requires CodedOk(v)
    ensures SplitWildcards(current, false, Show(v) + rest) == SplitWildcards(current + Show(v), false, rest)
    decreases |v|
  {
    hide SplitWildcards;
    if v == [] {
      assert Show(v) + rest == rest && current + Show(v) == current;
    } else {
      var e, more := ShowUnit(v[0]), Show(v[1..]);
      assert UnitOk(v[0]) && Show(v) == e + more;
      hide Show;
      Assoc(e, more, rest);
      SplitOneEscape(current, e, more + rest);
      ShowSplits(current + e, v[1..], rest);
      Assoc(current, e, more);
    }
  }

  lemma JoinedPieces(p: string, rest: seq<string>)
    requires rest != []
    ensures Text.Join([p] + rest, "*") == p + ("*" + Text.Join(rest, "*"))
  {
    assert ([p] + rest)[1..] == rest;
  }

  /** Splitting at the stars finds the pieces. */
  lemma {:induction false} SplitPieces(pieces: seq<Coded>)
    requires pieces != [] && AllCoded(pieces)
    ensures SplitWildcards("", false, Text.Join(ShowAll(pieces), "*")) == ShowAll(pieces)
  {
    var p := Show(pieces[0]);
    if |pieces| == 1 {
      ShowSplits("", pieces[0], "");
      assert ShowAll(pieces) == [p] && p + "" == p && "" + p == p;
    } else {
      var rest := ShowAll(pieces[1..]);
      SplitPieces(pieces[1..]);
      assert ShowAll(pieces) == [p] + rest;
      JoinedPieces(p, rest);
      ShowSplits("", pieces[0], "*" + Text.Join(rest, "*"));
      assert "" + p == p && ("*" + Text.Join(rest, "*"))[1..] == Text.Join(rest, "*");
    }
  }

  lemma {:induction false} ShowEmpty(v: Coded)
    ensures Show(v) == "" <==> v == []
  {
    if v != [] {
      assert ShowUnit(v[0]) != "";
    }
  }

  // --- What the parser makes of an assertion ----------------------------------------------

  /** What parseClauseItem does with the pieces behind an equals sign. */
  function PiecesClause(attribute: string, pieces: seq<Coded>, decode: Decoder): Option<Node>
    requires pieces != [] && AllCoded(pieces)
  {
    if pieces == [[], []] then Some(Clause(attribute, Present, "", false))
    else if exists i :: 0 < i < |pieces| - 1 && pieces[i] == [] then None
    else
      var first := if pieces[0] == [] then 1 else 0;
      var last := if pieces[|pieces| - 1] == [] then |pieces| - 1 else |pieces|;
      if last - first != 1 then None
      else
        var op := if first == 1 && last < |pieces| then Contains
                  else if first == 1 then EndsWith
                  else if last < |pieces| then StartsWith else Equals;
        Some(Clause(attribute, op, Value(pieces[first], [], decode), false))
  }

  lemma StarAlone(pieces: seq<Coded>)
    requires pieces != [] && AllCoded(pieces)
    ensures Text.Join(ShowAll(pieces), "*") == "*" <==> pieces == [[], []]
  {
    SplitPieces(pieces);
    assert SplitWildcards("", false, "*") == ["", ""] by {
      assert "*"[1..] == "";
    }
    if Text.Join(ShowAll(pieces), "*") == "*" {
      assert ShowAll(pieces) == ["", ""];
      ShowEmpty(pieces[0]);
      ShowEmpty(pieces[1]);
    }
    if pieces == [[], []] {
      assert ShowAll(pieces) == ["", ""];
      assert ["", ""][1..] == [""];
    }
  }

  lemma EqualityReads(attribute: string, pieces: seq<Coded>, decode: Decoder)
    requires pieces != [] && AllCoded(pieces)
    ensures ParseEquality(attribute, Text.Join(ShowAll(pieces), "*"), decode) == PiecesClause(attribute, pieces, decode)
  {
    hide *;
    SplitPieces(pieces);
    StarAlone(pieces);
    PiecesMatch(pieces, decode);
    SameEquality(attribute, Text.Join(ShowAll(pieces), "*"), ShowAll(pieces), pieces, decode);
  }

  /** Segment by segment, the text says what the pieces say. */
  ghost predicate Match(segments: seq<string>, pieces: seq<Coded>, decode: Decoder)
    requires AllCoded(pieces)
  {
    |segments| == |pieces|
    && forall i :: 0 <= i < |pieces| ==>
         (segments[i] == "" <==> pieces[i] == []) && Unescape(segments[i], [], decode) == Value(pieces[i], [], decode)
  }

  lemma PiecesMatch(pieces: seq<Coded>, decode: Decoder)
    requires AllCoded(pieces)
    ensures Match(ShowAll(pieces), pieces, decode)
  {
    hide Show, Unescape, Value;
    forall i | 0 <= i < |pieces|
      ensures ShowAll(pieces)[i] == "" <==> pieces[i] == []
      ensures Unescape(ShowAll(pieces)[i], [], decode) == Value(pieces[i], [], decode)
    {
      ShowEmpty(pieces[i]);
      UnescapeReads(pieces[i], [], decode);
    }
  }

  lemma SameEquality(attribute: string, raw: string, segments: seq<string>, pieces: seq<Coded>, decode: Decoder)
    requires pieces != [] && AllCoded(pieces) && SplitWildcards("", false, raw) == segments
    requires raw == "*" <==> pieces == [[], []]
    requires Match(segments, pieces, decode)
    ensures ParseEquality(attribute, raw, decode) == PiecesClause(attribute, pieces, decode)
  {
    hide SplitWildcards, Unescape, Value, CodedOk;
    if i :| 0 < i < |pieces| - 1 && pieces[i] == [] {
      assert segments[i] == "";
    }
  }

  lemma PiecesOfSubstrings(a: Assertion, decode: Decoder)
    requires a.Substrings? && WellFormed(a)
    ensures PiecesClause(a.attribute, Pieces(a), decode) == ClauseOf(a, decode)
  {
    var pieces := Pieces(a);
    hide Value, IsAttributeDescription;
    assert pieces[0] == a.initial && pieces[|pieces| - 1] == a.final && |pieces| == |a.any| + 2;
    assert forall i :: 0 <= i < |a.any| ==> pieces[i + 1] == a.any[i];
    if |a.any| == 0 {
      assert pieces == [a.initial, a.final];
    } else if |a.any| == 1 {
      assert pieces == [a.initial, a.any[0], a.final];
    }
  }

  lemma ClauseReads(attr: string, operator: string, raw: string, decode: Decoder)
    requires IsAttributeDescription(attr) && operator in {"=", ">=", "<=", "~="}
    ensures ParseClauseItem(attr + operator + raw, decode)
      == if operator == "=" then ParseEquality(attr, raw, decode)
         else if raw == "" then None
         else Some(Clause(attr, if operator == ">=" then Gte else if operator == "<=" then Lte else Approx,
                          Unescape(raw, [], decode), false))
  {
    SplitItem(attr, operator, raw);
    AttributeShape(attr);
    TrimKeeps(attr);
    hide SplitClause, IsAttributeDescription, ParseEquality, Unescape, Trim;
  }

  /** The parser shows every assertion of the grammar as the clause that means it, and refuses
      exactly those it has no operator for. */
  lemma ReadsAssertion(a: Assertion, decode: Decoder)
    requires WellFormed(a)
    ensures ParseClauseItem(ShowItem(a), decode) == ClauseOf(a, decode)
  {
    hide ParseClauseItem, IsAttributeDescription, ParseEquality, Unescape, Value, CodedOk, AllCoded;
    match a
    case Simple(attribute, filterType, value) =>
      ClauseReads(attribute, Sign(filterType), Show(value), decode);
      ShowEmpty(value);
      UnescapeReads(value, [], decode);
      if filterType == Equal {
        OnePiece(value);
        EqualityReads(attribute, [value], decode);
      }
    case Presence(attribute) =>
      ClauseReads(attribute, "=", "*", decode);
      ParseStar(attribute, decode);
    case Substrings(attribute, _, _, _) =>
      ClauseReads(attribute, "=", Text.Join(ShowAll(Pieces(a)), "*"), decode);
      EqualityReads(attribute, Pieces(a), decode);
      PiecesOfSubstrings(a, decode);
  }

  lemma OnePiece(value: Coded)
    ensures Text.Join(ShowAll([value]), "*") == Show(value)
    ensures CodedOk(value) <==> AllCoded([value])
  {
    assert ShowAll([value]) == [Show(value)];
    hide CodedOk;
    assert [value][0] == value;
  }

  lemma ParseStar(attribute: string, decode: Decoder)
    ensures ParseEquality(attribute, "*", decode) == Some(Clause(attribute, Present, "", false))
  {
  }

  // --- What the validator makes of it -----------------------------------------------------

  lemma {:induction false} ShownIsValid(v: Coded, rest: string, stars: bool)
    requires CodedOk(v)
    ensures ValidValue(Show(v) + rest, stars) == ValidValue(rest, stars)
    decreases |v|
  {
    var s := Show(v) + rest;
    if v == [] {
      assert s == rest;
    } else {
      var e, tail := ShowUnit(v[0]), Show(v[1..]) + rest;
      assert s == e + tail && UnitOk(v[0]);
      ShownIsValid(v[1..], rest, stars);
      if v[0].Plain? {
        assert s[1..] == tail;
      } else {
        assert s[3..] == tail;
      }
    }
  }

  lemma {:induction false} PiecesAreValid(pieces: seq<Coded>)
    requires pieces != [] && AllCoded(pieces)
    ensures ValidValue(Text.Join(ShowAll(pieces), "*"), true)
  {
    var p := Show(pieces[0]);
    if |pieces| == 1 {
      ShownIsValid(pieces[0], "", true);
      assert ShowAll(pieces) == [p] && p + "" == p;
    } else {
      var rest := ShowAll(pieces[1..]);
      PiecesAreValid(pieces[1..]);
      assert ShowAll(pieces) == [p] + rest;
      JoinedPieces(p, rest);
      var tail := "*" + Text.Join(rest, "*");
      assert tail[1..] == Text.Join(rest, "*");
      ShownIsValid(pieces[0], tail, true);
    }
  }

  /** The pieces of a valid value. */
  lemma {:induction false} ReadPieces(raw: string, stars: bool) returns (pieces: seq<Coded>)
    requires ValidValue(raw, stars)
    ensures pieces != [] && AllCoded(pieces) && Text.Join(ShowAll(pieces), "*") == raw
    ensures !stars ==> |pieces| == 1
    decreases |raw|
  {
    if raw == "" {
      pieces := [[]];
      OnePiece([]);
    } else if raw[0] == '*' {
      var rest := ReadPieces(raw[1..], stars);
      pieces := [[]] + rest;
      assert ShowAll(pieces) == [""] + ShowAll(rest);
      JoinedPieces("", ShowAll(rest));
      assert "" + ("*" + raw[1..]) == raw;
    } else {
      var u := if raw[0] == '\\' then Escaped(raw[1], raw[2]) else Plain(raw[0]);
      var e := ShowUnit(u);
      var rest := ReadPieces(raw[|e|..], stars);
      pieces := [[u] + rest[0]] + rest[1..];
      assert raw == e + raw[|e|..];
      hide ValidValue;
      PrependUnit(u, rest, pieces);
    }
  }

  lemma PrependUnit(u: Unit, rest: seq<Coded>, pieces: seq<Coded>)
    requires rest != [] && AllCoded(rest) && UnitOk(u) && pieces == [[u] + rest[0]] + rest[1..]
    ensures AllCoded(pieces) && Text.Join(ShowAll(pieces), "*") == ShowUnit(u) + Text.Join(ShowAll(rest), "*")
  {
    var head := [u] + rest[0];
    assert rest == [rest[0]] + rest[1..];
    assert head[1..] == rest[0] && Show(head) == ShowUnit(u) + Show(rest[0]);
    assert ShowAll(pieces) == [Show(head)] + ShowAll(rest[1..]);
    assert ShowAll(rest) == [Show(rest[0])] + ShowAll(rest[1..]);
    assert CodedOk(head) by {
      assert CodedOk(rest[0]);
    }
    hide Show, ShowAll, CodedOk;
    if |rest| > 1 {
      JoinedPieces(Show(head), ShowAll(rest[1..]));
      JoinedPieces(Show(rest[0]), ShowAll(rest[1..]));
      Assoc(ShowUnit(u), Show(rest[0]), "*" + Text.Join(ShowAll(rest[1..]), "*"));
    }
  }

  /** The form with a colon before the equals sign: a matching rule. */
  predicate Extensible(body: string) {
    var p := IndexOf(body, '=');
    p >= 1 && body[p - 1] == ':'
  }

  lemma AssertionIsValid(a: Assertion)
    requires WellFormed(a)
    ensures ValidAssertion(ShowItem(a)) && !Extensible(ShowItem(a))
  {
    hide ValidAssertion, IsAttributeDescription, ValidValue, CodedOk, AllCoded;
    match a {
      case Simple(attribute, filterType, value) =>
        SplitAssertion(attribute, Sign(filterType), Show(value));
        ShownIsValid(value, "", filterType == Equal);
        assert Show(value) + "" == Show(value);
        NothingIsValid(filterType == Equal);
        NotExtensible(attribute, Sign(filterType), Show(value));
      case Presence(attribute) =>
        SplitAssertion(attribute, "=", "*");
        StarIsValid();
        NotExtensible(attribute, "=", "*");
      case Substrings(attribute, _, _, _) =>
        SplitAssertion(attribute, "=", Text.Join(ShowAll(Pieces(a)), "*"));
        PiecesAreValid(Pieces(a));
        NotExtensible(attribute, "=", Text.Join(ShowAll(Pieces(a)), "*"));
    }
  }

  lemma NothingIsValid(stars: bool)
    ensures ValidValue("", stars)
  {
  }

  lemma StarIsValid()
    ensures ValidValue("*", true)
  {
    assert "*"[1..] == "";
  }

  lemma NotExtensible(attr: string, operator: string, value: string)
    requires IsAttributeDescription(attr) && operator in {"=", ">=", "<=", "~="}
    ensures !Extensible(attr + operator + value)
  {
    AttributeShape(attr);
    AssertionShape(attr, operator, value);
  }

  /** Where the assertion's operator and value stand. */
  lemma AssertionParts(body: string) returns (attr: string, operator: string, value: string)
    requires ValidAssertion(body) && !Extensible(body)
    ensures operator in {"=", ">=", "<=", "~="} && body == attr + operator + value
    ensures IsAttributeDescription(attr) && ValidValue(value, operator == "=")
  {
    var p := IndexOf(body, '=');
    hide IsAttributeDescription, ValidValue;
    value := body[p + 1..];
    if p >= 1 && body[p - 1] in {'>', '<', '~'} {
      attr, operator := body[..p - 1], [body[p - 1], '='];
    } else {
      attr, operator := body[..p], "=";
    }
  }

  /** A valid item is an assertion of the grammar. */
  lemma Derives(body: string) returns (a: Assertion)
    requires ValidAssertion(body) && !Extensible(body)
    ensures WellFormed(a) && ShowItem(a) == body
  {
    hide *;
    var attr, operator, value := AssertionParts(body);
    var pieces := ReadPieces(value, operator == "=");
    a := FromPieces(attr, operator, value, pieces);
  }

  lemma FromPieces(attr: string, operator: string, value: string, pieces: seq<Coded>) returns (a: Assertion)
    requires IsAttributeDescription(attr) && operator in {"=", ">=", "<=", "~="}
    requires pieces != [] && AllCoded(pieces) && Text.Join(ShowAll(pieces), "*") == value
    requires operator != "=" ==> |pieces| == 1
    ensures WellFormed(a) && ShowItem(a) == attr + operator + value
  {
    hide IsAttributeDescription, CodedOk, AllCoded, Text.Join, Show, ShowAll;
    if |pieces| == 1 {
      assert pieces == [pieces[0]];
      OnePiece(pieces[0]);
      a := Simple(attr, if operator == "=" then Equal else if operator == ">=" then GreaterOrEqual
                        else if operator == "<=" then LessOrEqual else Approximate, pieces[0]);
      assert Sign(a.filterType) == operator;
    } else if pieces == [[], []] {
      StarAlone(pieces);
      a := Presence(attr);
    } else {
      a := Substrings(attr, pieces[0], pieces[1..|pieces| - 1], pieces[|pieces| - 1]);
      assert Pieces(a) == pieces;
    }
  }

  ghost predicate Derivable(body: string) {
    exists a :: WellFormed(a) && ShowItem(a) == body
  }

  /** Matching rules apart, the validator accepts exactly the items of the grammar. */
  lemma ValidIsDerivable(body: string)
    ensures Derivable(body) <==> ValidAssertion(body) && !Extensible(body)
  {
    hide ValidAssertion, WellFormed, ShowItem, Extensible;
    if ValidAssertion(body) && !Extensible(body) {
      var a := Derives(body);
    }
    if Derivable(body) {
      var a :| WellFormed(a) && ShowItem(a) == body;
      AssertionIsValid(a);
    }
  }

  // --- What the parser accepts beyond the grammar -----------------------------------------

  /** Each backslash is followed by two hex digits. */
  predicate GoodEscapes(s: string)
    decreases |s|
  {
    if s == "" then true
    else if s[0] == '\\' then HexEscape(s) && GoodEscapes(s[3..])
    else GoodEscapes(s[1..])
  }

  /** No blanks around the attribute, well-formed escapes, raw stars only behind a plain equals
      sign, and no character that must be escaped. */
  predicate Clean(body: string) {
    match SplitClause(body)
    case None => false
    case Some((attribute, operator, value)) =>
      && Trim(attribute) == attribute
      && GoodEscapes(value)
      && (operator != "=" ==> '*' !in value)
      && '(' !in value && ')' !in value && '\0' !in value
  }

  lemma {:induction false} ValidValueIs(value: string, stars: bool)
    ensures ValidValue(value, stars)
      <==> GoodEscapes(value) && (stars || '*' !in value) && '(' !in value && ')' !in value && '\0' !in value
    decreases |value|
  {
    if value != "" {
      if value[0] == '\\' {
        if HexEscape(value) {
          ValidValueIs(value[3..], stars);
          assert value == [value[0], value[1], value[2]] + value[3..];
          OverThree(value);
        }
      } else {
        ValidValueIs(value[1..], stars);
        assert value == [value[0]] + value[1..];
      }
    }
  }

  lemma OverThree(value: string)
    requires HexEscape(value)
    ensures forall c :: c in {'*', '(', ')', '\0'} ==> (c in value <==> c in value[3..])
  {
    assert value == [value[0], value[1], value[2]] + value[3..];
    forall c | c in {'*', '(', ')', '\0'} ensures c in value <==> c in value[3..] {
      assert c != value[0] && c != value[1] && c != value[2];
    }
  }

  lemma AcceptedParts(body: string, decode: Decoder)
    requires ParseClauseItem(body, decode).Some?
    ensures SplitClause(body).Some? && IsAttributeDescription(Trim(SplitClause(body).value.0))
    ensures SplitClause(body).value.1 in {"=", ">=", "<=", "~="}
    ensures body == SplitClause(body).value.0 + SplitClause(body).value.1 + SplitClause(body).value.2
  {
    hide ParseEquality, Unescape, IsAttributeDescription, Trim;
    var p := IndexOf(body, '=');
    assert body == body[..p] + "=" + body[p + 1..];
    if p >= 2 && body[p - 1] in {'>', '<', '~'} {
      assert body[p - 1..p + 1] == [body[p - 1], '='];
      assert body == body[..p - 1] + body[p - 1..p + 1] + body[p + 1..];
    }
  }

  /** An accepted item is valid exactly when it is clean. */
  lemma AcceptedIsValid(body: string, decode: Decoder)
    requires ParseClauseItem(body, decode).Some?
    ensures ValidAssertion(body) && !Extensible(body) <==> Clean(body)
  {
    AcceptedParts(body, decode);
    var (attribute, operator, value) := SplitClause(body).value;
    hide ParseClauseItem, IsAttributeDescription, ValidValue, Trim, ValidAssertion, Extensible, GoodEscapes, SplitClause;
    if Trim(attribute) == attribute {
      SplitAssertion(attribute, operator, value);
      ValidValueIs(value, operator == "=");
      NotExtensible(attribute, operator, value);
    } else if ValidAssertion(body) && !Extensible(body) {
      var attr, op, v := AssertionParts(body);
      SplitItem(attr, op, v);
      AttributeShape(attr);
      TrimKeeps(attr);
    }
  }

  /** The rules see the clause as they see the assertion. */
  ghost predicate Agrees(body: string, c: Node, decode: Decoder)
    requires c.Clause?
  {
    exists a :: WellFormed(a) && ShowItem(a) == body && ClauseOf(a, decode) == Some(c)
  }

  /** What the parser accepts is an assertion of the grammar, and means the clause shown, exactly
      when it is clean; and then it can be read in no other way. */
  lemma AcceptedItemAgrees(body: string, decode: Decoder)
    requires ParseClauseItem(body, decode).Some?
    ensures Agrees(body, ParseClauseItem(body, decode).value, decode) <==> Clean(body)
    ensures Derivable(body) <==> Clean(body)
    ensures forall a :: WellFormed(a) && ShowItem(a) == body ==> ClauseOf(a, decode) == ParseClauseItem(body, decode)
  {
    hide ParseClauseItem, WellFormed, ShowItem, ValidAssertion, Extensible, Clean, ClauseOf;
    AcceptedIsValid(body, decode);
    ValidIsDerivable(body);
    forall a | WellFormed(a) && ShowItem(a) == body ensures ClauseOf(a, decode) == ParseClauseItem(body, decode) {
      ReadsAssertion(a, decode);
    }
    if Derivable(body) {
      var a :| WellFormed(a) && ShowItem(a) == body;
      assert ClauseOf(a, decode) == Some(ParseClauseItem(body, decode).value);
    }
  }

  /** Three items the parser accepts and the grammar does not have: a backslash that begins no escape,
      a raw star behind >=, and a blank behind the attribute. */
  lemma BeyondTheGrammar(decode: Decoder)
    ensures ParseClauseItem("cn=a\\zz", decode).Some? && !Derivable("cn=a\\zz")
    ensures ParseClauseItem("cn>=*", decode).Some? && !Derivable("cn>=*")
    ensures ParseClauseItem("cn =a", decode).Some? && !Derivable("cn =a")
  {
    CnIsAttribute();
    assert "cn" + "=" + "a\\zz" == "cn=a\\zz" && "cn" + ">=" + "*" == "cn>=*";
    hide *;
    ClauseReads("cn", "=", "a\\zz", decode);
    LooseBackslash(decode);
    ClauseReads("cn", ">=", "*", decode);
    SplitItem("cn", "=", "a\\zz");
    SplitItem("cn", ">=", "*");
    BlankAccepted(decode);
    NotClean("cn=a\\zz", "cn", "=", "a\\zz");
    NotClean("cn>=*", "cn", ">=", "*");
    NotClean("cn =a", "cn ", "=", "a");
    BadSamples();
    AcceptedItemAgrees("cn=a\\zz", decode);
    AcceptedItemAgrees("cn>=*", decode);
    AcceptedItemAgrees("cn =a", decode);
  }

  lemma CnIsAttribute()
    ensures IsAttributeDescription("cn")
  {
    assert "cn"[1..] == "n" && "n"[1..] == "";
    assert AttrRun(Start, "cn", true, false) == AttrRun(Name, "n", true, false) == AttrRun(Name, "", true, false);
  }

  lemma NotClean(body: string, attribute: string, operator: string, value: string)
    requires SplitClause(body) == Some((attribute, operator, value))
    ensures !GoodEscapes(value) || (operator != "=" && '*' in value) || Trim(attribute) != attribute ==> !Clean(body)
  {
    hide Trim, GoodEscapes;
  }

  lemma BadSamples()
    ensures !GoodEscapes("a\\zz") && '*' in "*" && Trim("cn ") == "cn"
  {
    assert "a\\zz"[1..] == "\\zz" && !HexEscape("\\zz");
    assert "*"[0] == '*';
    assert "cn "[..2] == "cn" && TrimStart("cn ") == "cn " && TrimEnd("cn ") == TrimEnd("cn") == "cn";
  }

  lemma WildStep(current: string, escaped: bool, c: char, rest: string)
    requires escaped || c != '*'
    ensures SplitWildcards(current, escaped, [c] + rest) == SplitWildcards(current + [c], !escaped && c == '\\', rest)
  {
    assert ([c] + rest)[1..] == rest;
  }

  lemma WildEnd(current: string)
    ensures SplitWildcards(current, false, "") == [current]
  {
  }

  lemma LooseBackslash(decode: Decoder)
    ensures ParseEquality("cn", "a\\zz", decode).Some?
  {
    assert SplitWildcards("", false, "a\\zz") == ["a\\zz"] by {
      hide SplitWildcards;
      WildStep("", false, 'a', "\\zz");
      WildStep("a", false, '\\', "zz");
      WildStep("a\\", true, 'z', "z");
      WildStep("a\\z", false, 'z', "");
      WildEnd("a\\zz");
      assert ['a'] + "\\zz" == "a\\zz" && ['\\'] + "zz" == "\\zz" && ['z'] + "z" == "zz" && ['z'] + "" == "z";
      assert "" + ['a'] == "a" && "a" + ['\\'] == "a\\" && "a\\" + ['z'] == "a\\z" && "a\\z" + ['z'] == "a\\zz";
    }
    hide SplitWildcards, Unescape;
  }

  lemma BlankAccepted(decode: Decoder)
    ensures ParseClauseItem("cn =a", decode).Some? && SplitClause("cn =a") == Some(("cn ", "=", "a"))
  {
    assert "cn " + ['='] + "a" == "cn =a";
    IndexOfAt("cn ", '=', "a");
    assert "cn =a"[..3] == "cn " && "cn =a"[4..] == "a" && "cn =a"[2] == ' ';
    assert SplitClause("cn =a") == Some(("cn ", "=", "a"));
    PlainA(decode);
    hide SplitClause, ParseEquality, Trim, IsAttributeDescription;
    CnIsAttribute();
    BadSamples();
  }

  lemma PlainA(decode: Decoder)
    ensures ParseEquality("cn", "a", decode).Some?
  {
    assert SplitWildcards("", false, "a") == ["a"] by {
      hide SplitWildcards;
      WildStep("", false, 'a', "");
      WildEnd("a");
      assert ['a'] + "" == "a" && "" + ['a'] == "a";
    }
    hide SplitWildcards, Unescape;
  }
}
