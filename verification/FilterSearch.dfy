/**
 What the filter of the tree's search box selects, with the items of RFC 4515 and their meaning:
 buildTreeKeywordFilter and buildTreeWildcardFilter of ldapFilter.ts.
 */
module FilterSearch {
  import opened Wrappers
  import opened Text
  import opened LdapFilter
  import opened FilterItems
  import opened FilterGrammar
  import opened FilterBuilder
  import opened FilterTheorems
  import opened FilterConformance
  import Rfc = FilterRfc

  // --- An item can be read in one way only ------------------------------------------------

  lemma UnitsDiffer(u: Rfc.Unit, w: Rfc.Unit, a: string, b: string)
    requires Rfc.UnitOk(u) && Rfc.UnitOk(w) && Rfc.ShowUnit(u) + a == Rfc.ShowUnit(w) + b
    ensures u == w && a == b
  {
    var s, r := Rfc.ShowUnit(u) + a, Rfc.ShowUnit(w) + b;
    assert s[0] == Rfc.ShowUnit(u)[0] && r[0] == Rfc.ShowUnit(w)[0];
    assert u.Escaped? <==> w.Escaped?;
    assert s[|Rfc.ShowUnit(u)|..] == a && r[|Rfc.ShowUnit(w)|..] == b;
    if u.Escaped? {
      assert s[1] == u.hi && s[2] == u.lo && r[1] == w.hi && r[2] == w.lo;
    }
  }

  lemma {:induction false} ShowTells(v: Rfc.Coded, w: Rfc.Coded)
    requires Rfc.CodedOk(v) && Rfc.CodedOk(w) && Rfc.Show(v) == Rfc.Show(w)
    ensures v == w
  {
    Rfc.ShowEmpty(v);
    Rfc.ShowEmpty(w);
    if v != [] && w != [] {
      UnitsDiffer(v[0], w[0], Rfc.Show(v[1..]), Rfc.Show(w[1..]));
      ShowTells(v[1..], w[1..]);
      assert v == [v[0]] + v[1..] && w == [w[0]] + w[1..];
    }
  }

  lemma PiecesTell(p: seq<Rfc.Coded>, q: seq<Rfc.Coded>)
    requires Rfc.AllCoded(p) && Rfc.AllCoded(q) && Rfc.ShowAll(p) == Rfc.ShowAll(q)
    ensures p == q
  {
    assert |p| == |Rfc.ShowAll(p)| == |Rfc.ShowAll(q)| == |q|;
    hide Rfc.Show, Rfc.CodedOk;
    forall i | 0 <= i < |p| ensures p[i] == q[i] {
      assert Rfc.ShowAll(p)[i] == Rfc.ShowAll(q)[i];
      ShowTells(p[i], q[i]);
    }
  }

  /** All pieces of an assertion's value, the stars left out. */
  function PiecesOf(a: Rfc.Assertion): (r: seq<Rfc.Coded>)
    ensures r != []
  {
    match a
    case Simple(_, _, value) => [value]
    case Presence(_) => [[], []]
    case Substrings(_, _, _, _) => Rfc.Pieces(a)
  }

  function SignOf(a: Rfc.Assertion): string {
    if a.Simple? then Rfc.Sign(a.filterType) else "="
  }

  lemma ItemParts(a: Rfc.Assertion)
    requires Rfc.WellFormed(a)
    ensures Rfc.AllCoded(PiecesOf(a)) && IsAttributeDescription(a.attribute) && SignOf(a) in {"=", ">=", "<=", "~="}
    ensures Rfc.ShowItem(a) == a.attribute + SignOf(a) + Text.Join(Rfc.ShowAll(PiecesOf(a)), "*")
  {
    hide IsAttributeDescription, Rfc.CodedOk, Rfc.Show;
    match a {
      case Simple(_, _, value) => Rfc.OnePiece(value);
      case Presence(_) => TwoNothings();
      case Substrings(_, _, _, _) =>
    }
  }

  lemma TwoNothings()
    ensures Rfc.AllCoded([[], []]) && Text.Join(Rfc.ShowAll([[], []]), "*") == "*"
  {
    assert Rfc.CodedOk([]);
    assert Rfc.AllCoded([[], []]);
    Rfc.StarAlone([[], []]);
  }

  lemma SameParts(a: Rfc.Assertion, b: Rfc.Assertion)
    requires Rfc.WellFormed(a) && Rfc.WellFormed(b)
    requires a.attribute == b.attribute && SignOf(a) == SignOf(b) && PiecesOf(a) == PiecesOf(b)
    ensures a == b
  {
    hide IsAttributeDescription, Rfc.CodedOk;
    var p := PiecesOf(a);
    if a.Substrings? {
      assert p[0] == a.initial && p[|p| - 1] == a.final && p[1..|p| - 1] == a.any;
    }
    if b.Substrings? {
      assert p[0] == b.initial && p[|p| - 1] == b.final && p[1..|p| - 1] == b.any;
    }
  }

  /** Two assertions of RFC 4515 that are written alike are the same. */
  lemma ItemsTell(a: Rfc.Assertion, b: Rfc.Assertion)
    requires Rfc.WellFormed(a) && Rfc.WellFormed(b) && Rfc.ShowItem(a) == Rfc.ShowItem(b)
    ensures a == b
  {
    hide *;
    ItemParts(a);
    ItemParts(b);
    var p, q := PiecesOf(a), PiecesOf(b);
    SplitItem(a.attribute, SignOf(a), Text.Join(Rfc.ShowAll(p), "*"));
    SplitItem(b.attribute, SignOf(b), Text.Join(Rfc.ShowAll(q), "*"));
    Rfc.SplitPieces(p);
    Rfc.SplitPieces(q);
    PiecesTell(p, q);
    SameParts(a, b);
  }

  /** So an item selects what its assertion holds of. */
  lemma ItemSelects(a: Rfc.Assertion, rules: Rfc.Rules, decode: Decoder)
    requires Rfc.WellFormed(a)
    ensures ItemHolds(Rfc.ShowItem(a), rules, decode) <==> Rfc.Holds(a, rules, decode)
  {
    hide Rfc.WellFormed, Rfc.ShowItem, Rfc.Holds;
    forall b | Rfc.WellFormed(b) && Rfc.ShowItem(b) == Rfc.ShowItem(a) ensures b == a {
      ItemsTell(a, b);
    }
  }

  // --- Values as they are typed -----------------------------------------------------------

  /** A typed character in a filter. */
  function CodeChar(c: char): Rfc.Unit {
    match c
    case '\\' => Rfc.Escaped('5', 'c')
    case '*' => Rfc.Escaped('2', 'a')
    case '(' => Rfc.Escaped('2', '8')
    case ')' => Rfc.Escaped('2', '9')
    case '\0' => Rfc.Escaped('0', '0')
    case _ => Rfc.Plain(c)
  }

  function Code(v: string): (r: Rfc.Coded)
    ensures |r| == |v|
  {
    if v == "" then [] else [CodeChar(v[0])] + Code(v[1..])
  }

  lemma {:induction false} CodeShows(v: string)
    ensures Rfc.CodedOk(Code(v)) && Rfc.Show(Code(v)) == EscapeEach(v)
  {
    if v != "" {
      CodeShows(v[1..]);
      assert Code(v)[1..] == Code(v[1..]);
      assert Rfc.UnitOk(CodeChar(v[0])) && Rfc.ShowUnit(CodeChar(v[0])) == EscapeChar(v[0]);
    }
  }

  /** The escaped value asserts the value typed. */
  lemma CodeMeans(v: string, decode: Decoder)
    requires DecodesAscii(decode)
    ensures Rfc.CodedOk(Code(v)) && Rfc.Show(Code(v)) == EscapeFilterValue(v) && Rfc.Value(Code(v), [], decode) == v
  {
    hide *;
    CodeShows(v);
    EscapesEachCharacterOnce(v);
    EscapeRoundTrip(v, decode);
    Rfc.UnescapeReads(Code(v), [], decode);
  }

  function CodeAll(texts: seq<string>): (r: seq<Rfc.Coded>)
    ensures |r| == |texts| && forall i :: 0 <= i < |texts| ==> r[i] == Code(texts[i])
  {
    if texts == [] then [] else [Code(texts[0])] + CodeAll(texts[1..])
  }

  lemma {:induction false} CodedTexts(texts: seq<string>, decode: Decoder)
    requires DecodesAscii(decode)
    ensures Rfc.AllCoded(CodeAll(texts)) && Rfc.ShowAll(CodeAll(texts)) == EscapeAll(texts)
    ensures Rfc.Values(CodeAll(texts), decode) == texts
  {
    hide DecodesAscii, Rfc.CodedOk, Rfc.Show, Rfc.Value, Code, EscapeFilterValue;
    forall i | 0 <= i < |texts| ensures Rfc.CodedOk(CodeAll(texts)[i]) {
      CodeMeans(texts[i], decode);
    }
    if texts != [] {
      CodeMeans(texts[0], decode);
      CodedTexts(texts[1..], decode);
      assert CodeAll(texts)[1..] == CodeAll(texts[1..]);
      assert texts == [texts[0]] + texts[1..];
    }
  }

  /** The texts between the stars of a pattern, the outer ones empty where it begins or ends with one. */
  function Pattern(first: string, mid: seq<string>, last: string): string {
    Text.Join(EscapeAll([first] + mid + [last]), "*")
  }

  predicate Bare(first: string, mid: seq<string>, last: string) {
    first == "" && mid == [] && last == ""
  }

  function AssertionOf(attr: string, first: string, mid: seq<string>, last: string): Rfc.Assertion {
    Rfc.Substrings(attr, Code(first), CodeAll(mid), Code(last))
  }

  lemma PatternPieces(attr: string, first: string, mid: seq<string>, last: string)
    ensures Rfc.Pieces(AssertionOf(attr, first, mid, last)) == CodeAll([first] + mid + [last])
    ensures !Bare(first, mid, last) ==> Rfc.Pieces(AssertionOf(attr, first, mid, last)) != [[], []]
  {
    hide Code, CodeAll;
    var texts := [first] + mid + [last];
    var pieces := [Code(first)] + CodeAll(mid) + [Code(last)];
    assert forall i :: 0 < i < |texts| - 1 ==> texts[i] == mid[i - 1] && pieces[i] == CodeAll(mid)[i - 1];
    assert |CodeAll(texts)| == |pieces| && forall i :: 0 <= i < |texts| ==> CodeAll(texts)[i] == pieces[i];
    assert |pieces[0]| == |first| && |pieces[|mid| + 1]| == |last|;
  }

  lemma PatternShows(attr: string, first: string, mid: seq<string>, last: string, decode: Decoder)
    requires IsAttributeDescription(attr) && DecodesAscii(decode) && !Bare(first, mid, last)
    ensures Rfc.WellFormed(AssertionOf(attr, first, mid, last))
    ensures Rfc.ShowItem(AssertionOf(attr, first, mid, last)) == attr + "=" + Pattern(first, mid, last)
  {
    hide IsAttributeDescription, DecodesAscii, Rfc.AllCoded, Rfc.ShowAll, Rfc.Pieces, Rfc.Values, Text.Join, Code, CodeAll,
      EscapeAll;
    PatternPieces(attr, first, mid, last);
    CodedTexts([first] + mid + [last], decode);
  }

  lemma PatternMeaning(attr: string, first: string, mid: seq<string>, last: string, rules: Rfc.Rules, decode: Decoder)
    requires DecodesAscii(decode) && Rfc.WellFormed(AssertionOf(attr, first, mid, last))
    ensures Rfc.Holds(AssertionOf(attr, first, mid, last), rules, decode) <==> rules.substrings(attr, first, mid, last)
  {
    hide IsAttributeDescription, DecodesAscii, Rfc.CodedOk, Rfc.AllCoded, Rfc.Value, Rfc.Values, Code, CodeAll;
    CodedTexts(mid, decode);
    CodeMeans(first, decode);
    CodeMeans(last, decode);
  }

  /** A pattern is an item of the grammar, and selects by its first, middle and last texts. */
  lemma PatternSelects(attr: string, first: string, mid: seq<string>, last: string, rules: Rfc.Rules, decode: Decoder)
    requires IsAttributeDescription(attr) && DecodesAscii(decode) && !Bare(first, mid, last)
    ensures Rfc.Derivable(attr + "=" + Pattern(first, mid, last))
    ensures ItemHolds(attr + "=" + Pattern(first, mid, last), rules, decode) <==> rules.substrings(attr, first, mid, last)
  {
    hide *;
    PatternShows(attr, first, mid, last, decode);
    PatternMeaning(attr, first, mid, last, rules, decode);
    ItemSelects(AssertionOf(attr, first, mid, last), rules, decode);
    ShownIsDerivable(AssertionOf(attr, first, mid, last));
  }

  lemma ShownIsDerivable(a: Rfc.Assertion)
    requires Rfc.WellFormed(a)
    ensures Rfc.Derivable(Rfc.ShowItem(a))
  {
  }

  lemma ContainsPattern(v: string)
    ensures Pattern("", [v], "") == "*" + EscapeFilterValue(v) + "*"
  {
    EscapesEachCharacterOnce("");
    assert EscapeFilterValue("") == "";
    hide EscapeFilterValue, Text.Join;
    assert [""][1..] == [] && [v, ""][1..] == [""] && ["", v, ""][1..] == [v, ""];
    assert EscapeAll([""]) == [""];
    assert EscapeAll([v, ""]) == [EscapeFilterValue(v)] + [""];
    assert EscapeAll(["", v, ""]) == [""] + EscapeAll([v, ""]);
    Rfc.JoinedPieces(EscapeFilterValue(v), [""]);
    Rfc.JoinedPieces("", EscapeAll([v, ""]));
    assert [""] + [v] + [""] == ["", v, ""];
    OneText();
  }

  lemma OneText()
    ensures Text.Join([""], "*") == ""
  {
  }

  /** The contains item of the builder. */
  lemma ContainsSelects(attr: string, v: string, rules: Rfc.Rules, decode: Decoder)
    requires IsAttributeDescription(attr) && DecodesAscii(decode)
    ensures var body := ItemBody(attr, Contains, EscapeFilterValue(v));
            Rfc.Derivable(body) && PlainBody(body) && (ItemHolds(body, rules, decode) <==> rules.substrings(attr, "", [v], ""))
  {
    hide IsAttributeDescription, EscapeFilterValue, PlainBody, DecodesAscii, Pattern, ItemHolds, Rfc.Derivable;
    ContainsPattern(v);
    PatternSelects(attr, "", [v], "", rules, decode);
    ItemBodyPlain(attr, Contains, v);
  }

  lemma EqualSelects(attr: string, v: string, rules: Rfc.Rules, decode: Decoder)
    requires IsAttributeDescription(attr) && DecodesAscii(decode)
    ensures var body := attr + "=" + EscapeFilterValue(v);
            Rfc.Derivable(body) && (ItemHolds(body, rules, decode) <==> rules.equal(attr, v))
  {
    var a := Rfc.Simple(attr, Rfc.Equal, Code(v));
    CodeMeans(v, decode);
    assert Rfc.ShowItem(a) == attr + "=" + EscapeFilterValue(v);
    hide IsAttributeDescription, EscapeFilterValue, DecodesAscii, Rfc.CodedOk, Rfc.Value, Code, ItemHolds;
    ItemSelects(a, rules, decode);
  }

  lemma PresentSelects(attr: string, rules: Rfc.Rules, decode: Decoder)
    requires IsAttributeDescription(attr)
    ensures var body := attr + "=" + "*";
            Rfc.Derivable(body) && (ItemHolds(body, rules, decode) <==> rules.present(attr))
  {
    var a := Rfc.Presence(attr);
    assert Rfc.ShowItem(a) == attr + "=" + "*";
    hide IsAttributeDescription, ItemHolds;
    ItemSelects(a, rules, decode);
  }

  // --- The parts of a value with stars ----------------------------------------------------

  /** The texts between the stars of the value. */
  predicate Parted(value: string, parts: seq<string>) {
    parts != [] && Text.Join(parts, "*") == value && forall i :: 0 <= i < |parts| ==> '*' !in parts[i]
  }

  /** The parts that are not blank, in order, without the blanks around them. */
  function Words(parts: seq<string>): seq<string> {
    if parts == [] then []
    else (if Trim(parts[0]) == "" then [] else [Trim(parts[0])]) + Words(parts[1..])
  }

  lemma {:induction false} WordsAreTrimmed(parts: seq<string>)
    ensures Words(parts) == TrimAll(parts)
  {
    hide Trim;
    if parts != [] {
      WordsAreTrimmed(parts[1..]);
    }
  }

  lemma {:induction false} SplitParts(value: string)
    ensures Parted(value, Text.Split(value, '*'))
  {
    if value != "" {
      SplitParts(value[1..]);
      var rest := Text.Split(value[1..], '*');
      var parts := Text.Split(value, '*');
      if value[0] == '*' {
        Rfc.JoinedPieces("", rest);
        assert "" + ("*" + value[1..]) == value;
      } else {
        JoinFront([value[0]], rest);
        assert [value[0]] + value[1..] == value;
      }
    }
  }

  lemma JoinFront(e: string, parts: seq<string>)
    requires parts != []
    ensures Text.Join([e + parts[0]] + parts[1..], "*") == e + Text.Join(parts, "*")
  {
    assert parts == [parts[0]] + parts[1..];
    if |parts| > 1 {
      Rfc.JoinedPieces(e + parts[0], parts[1..]);
      Rfc.JoinedPieces(parts[0], parts[1..]);
      Assoc(e, parts[0], "*" + Text.Join(parts[1..], "*"));
    }
  }

  lemma {:induction false} SplitFront(p: string, rest: string)
    requires '*' !in p
    ensures Text.Split(p + rest, '*') == [p + Text.Split(rest, '*')[0]] + Text.Split(rest, '*')[1..]
  {
    if p == "" {
      assert p + rest == rest && "" + Text.Split(rest, '*')[0] == Text.Split(rest, '*')[0];
    } else {
      SplitFront(p[1..], rest);
      assert (p + rest)[1..] == p[1..] + rest && (p + rest)[0] == p[0];
      assert p[0] in p && '*' !in p[1..];
      assert [p[0]] + (p[1..] + Text.Split(rest, '*')[0]) == p + Text.Split(rest, '*')[0];
    }
  }

  lemma {:induction false} PartsAreSplit(parts: seq<string>)
    requires parts != [] && forall i :: 0 <= i < |parts| ==> '*' !in parts[i]
    ensures Text.Split(Text.Join(parts, "*"), '*') == parts
  {
    assert parts == [parts[0]] + parts[1..];
    if |parts| == 1 {
      SplitFront(parts[0], "");
      assert parts[0] + "" == parts[0];
    } else {
      var rest := Text.Join(parts[1..], "*");
      PartsAreSplit(parts[1..]);
      Rfc.JoinedPieces(parts[0], parts[1..]);
      SplitFront(parts[0], "*" + rest);
      assert ("*" + rest)[1..] == rest;
      assert parts[0] + "" == parts[0];
    }
  }

  /** A value has one way to be parted. */
  lemma PartedOnce(value: string, parts: seq<string>)
    requires Parted(value, parts)
    ensures parts == Text.Split(value, '*')
  {
    PartsAreSplit(parts);
  }

  lemma {:induction false} BlankIsSpace(s: string)
    requires TrimStart(s) == ""
    ensures forall i :: 0 <= i < |s| ==> IsSpace(s[i])
  {
    if s != "" {
      BlankIsSpace(s[1..]);
      assert forall i :: 0 < i < |s| ==> s[i] == s[1..][i - 1];
    }
  }

  lemma NotBlank(s: string, i: nat)
    requires i < |s| && !IsSpace(s[i])
    ensures Trim(s) != ""
  {
    if TrimStart(s) == "" {
      BlankIsSpace(s);
    } else {
      TrimStartBounds(s);
      TrimEndKeepsStart(TrimStart(s));
    }
  }

  lemma {:induction false} LastWord(parts: seq<string>)
    requires parts != [] && Trim(parts[|parts| - 1]) != ""
    ensures Words(parts) != []
  {
    hide Trim;
    if |parts| > 1 {
      LastWord(parts[1..]);
    }
  }

  lemma {:induction false} JoinEnds(parts: seq<string>)
    requires parts != []
    ensures parts[0] == "" || (Text.Join(parts, "*") != "" && Text.Join(parts, "*")[0] == parts[0][0])
    ensures parts[|parts| - 1] == "" || (Text.Join(parts, "*") != ""
              && Text.Join(parts, "*")[|Text.Join(parts, "*")| - 1] == parts[|parts| - 1][|parts[|parts| - 1]| - 1])
    ensures |parts| > 1 && parts[0] == "" ==> Text.Join(parts, "*") != "" && Text.Join(parts, "*")[0] == '*'
    ensures |parts| > 1 && parts[|parts| - 1] == "" ==>
              Text.Join(parts, "*") != "" && Text.Join(parts, "*")[|Text.Join(parts, "*")| - 1] == '*'
  {
    if |parts| > 1 {
      JoinEnds(parts[1..]);
      assert parts == [parts[0]] + parts[1..];
      Rfc.JoinedPieces(parts[0], parts[1..]);
    }
  }

  /** Between two ends that are neither stars nor blanks, a star leaves at least two words. */
  lemma TwoWords(value: string, parts: seq<string>)
    requires Parted(value, parts) && '*' in value && Trimmed(value) && value != ""
    requires value[0] != '*' && value[|value| - 1] != '*'
    ensures |Words(parts)| >= 2
  {
    if |parts| > 1 {
      JoinEnds(parts);
      var last := parts[|parts| - 1];
      NotBlank(parts[0], 0);
      NotBlank(last, |last| - 1);
      hide Trim;
      LastWord(parts[1..]);
    }
  }

  // --- What a value with stars selects ----------------------------------------------------

  /** The words of the value, anchored where it does not begin or end with a star. */
  predicate WordsSelect(attr: string, value: string, words: seq<string>, rules: Rfc.Rules)
    requires value != ""
  {
    if words == [] then rules.present(attr)
    else
      var from := if value[0] == '*' then 0 else 1;
      var to := if value[|value| - 1] == '*' then |words| else |words| - 1;
      from <= to && rules.substrings(attr, if from == 0 then "" else words[0], words[from..to],
                                     if to == |words| then "" else words[|words| - 1])
  }

  /** What the search box promises for a value behind a prefix. */
  ghost predicate ValueSelects(attr: string, value: string, rules: Rfc.Rules) {
    if value == "" then rules.present(attr)
    else if '*' !in value then rules.substrings(attr, "", [value], "")
    else exists parts :: Parted(value, parts) && WordsSelect(attr, value, Words(parts), rules)
  }

  lemma {:induction false} EscapeAllSplits(a: seq<string>, b: seq<string>)
    ensures EscapeAll(a + b) == EscapeAll(a) + EscapeAll(b)
  {
    hide EscapeFilterValue;
    if a == [] {
      assert a + b == b;
    } else {
      EscapeAllSplits(a[1..], b);
      assert (a + b)[1..] == a[1..] + b;
    }
  }

  lemma NothingEscaped()
    ensures EscapeAll([""]) == [""]
  {
    assert [""][1..] == [];
    assert EscapeFilterValue("") == "";
  }

  lemma {:induction false} JoinBack(parts: seq<string>)
    requires parts != []
    ensures Text.Join(parts + [""], "*") == Text.Join(parts, "*") + "*"
  {
    if |parts| == 1 {
      Rfc.JoinedPieces(parts[0], [""]);
      assert [parts[0]] + [""] == parts + [""] && Text.Join([""], "*") == "";
      assert "*" + "" == "*";
    } else {
      JoinBack(parts[1..]);
      assert parts == [parts[0]] + parts[1..] && parts + [""] == [parts[0]] + (parts[1..] + [""]);
      Rfc.JoinedPieces(parts[0], parts[1..]);
      Rfc.JoinedPieces(parts[0], parts[1..] + [""]);
      Assoc("*", Text.Join(parts[1..], "*"), "*");
      Assoc(parts[0], "*" + Text.Join(parts[1..], "*"), "*");
    }
  }

  /** Stars at the ends are empty texts there. */
  lemma EndStars(words: seq<string>, lead: bool, tail: bool)
    requires words != []
    ensures Text.Join(EscapeAll((if lead then [""] else []) + words + (if tail then [""] else [])), "*")
         == (if lead then "*" else "") + Text.Join(EscapeAll(words), "*") + (if tail then "*" else "")
  {
    hide EscapeAll, Text.Join;
    var front, back := if lead then [""] else [], if tail then [""] else [];
    var inner := EscapeAll(words);
    NothingEscaped();
    EscapeAllNone();
    EscapeAllSplits(front + words, back);
    EscapeAllSplits(front, words);
    assert inner != [] by {
      EscapeAllSome(words);
    }
    if lead {
      Rfc.JoinedPieces("", inner);
      assert [""] + inner != [];
    } else {
      assert [] + inner == inner;
    }
    if tail {
      JoinBack(if lead then [""] + inner else inner);
    } else {
      assert EscapeAll(front + words) + [] == EscapeAll(front + words);
    }
  }

  lemma EscapeAllNone()
    ensures EscapeAll([]) == []
  {
  }

  lemma EscapeAllSome(words: seq<string>)
    requires words != []
    ensures EscapeAll(words) != []
  {
  }

  lemma WildcardText(attr: string, value: string, words: seq<string>) returns (first: string, mid: seq<string>, last: string)
    requires SafeAttribute(attr) == attr && attr != "" && value != "" && '*' in value
    requires words == TrimAll(Text.Split(value, '*')) && words != []
    requires value[0] == '*' || value[|value| - 1] == '*' || |words| >= 2
    ensures TreeWildcardFilter(attr, value) == "(" + (attr + "=" + Pattern(first, mid, last)) + ")"
    ensures forall rules :: WordsSelect(attr, value, words, rules) <==> rules.substrings(attr, first, mid, last)
    ensures words[0] != "" && words[|words| - 1] != "" ==> !Bare(first, mid, last)
  {
    hide SafeAttribute, EscapeAll, TrimAll, Text.Join, Text.Split;
    var lead, tail := value[0] == '*', value[|value| - 1] == '*';
    var from, to := if lead then 0 else 1, if tail then |words| else |words| - 1;
    first, mid, last := if lead then "" else words[0], words[from..to], if tail then "" else words[|words| - 1];
    EndStars(words, lead, tail);
    assert [first] + mid + [last] == (if lead then [""] else []) + words + (if tail then [""] else []);
  }

  lemma DerivableIsPlain(attr: string, value: string)
    requires IsAttributeDescription(attr) && Rfc.Derivable(attr + "=" + value)
    ensures PlainBody(attr + "=" + value)
  {
    hide *;
    Rfc.ValidIsDerivable(attr + "=" + value);
    SplitAssertion(attr, "=", value);
    Rfc.ValidValueIs(value, true);
    assert forall i :: 0 <= i < |value| ==> value[i] in value;
    AttributeBody(attr, value);
  }

  lemma PartsSelect(attr: string, value: string, rules: Rfc.Rules)
    requires value != "" && '*' in value
    ensures ValueSelects(attr, value, rules) <==> WordsSelect(attr, value, TrimAll(Text.Split(value, '*')), rules)
  {
    var parts := Text.Split(value, '*');
    SplitParts(value);
    WordsAreTrimmed(parts);
    hide Parted, WordsSelect, Text.Split, Words, TrimAll;
    forall other | Parted(value, other) ensures other == parts {
      PartedOnce(value, other);
    }
  }

  lemma {:induction false} WordsNotEmpty(parts: seq<string>)
    ensures forall i :: 0 <= i < |TrimAll(parts)| ==> TrimAll(parts)[i] != ""
  {
    hide Trim;
    if parts != [] {
      WordsNotEmpty(parts[1..]);
    }
  }

  /** What stands between the outer parentheses. */
  function Inside(filter: string): string {
    if |filter| < 2 then "" else filter[1..|filter| - 1]
  }

  /** The filter is one item of the grammar, and the item selects what is asked for. */
  ghost predicate ItemFor(filter: string, selects: bool, rules: Rfc.Rules, decode: Decoder) {
    && filter == "(" + Inside(filter) + ")" && Rfc.Derivable(Inside(filter)) && PlainBody(Inside(filter))
    && (ItemHolds(Inside(filter), rules, decode) <==> selects)
  }

  lemma ItemIsFor(attr: string, value: string, filter: string, selects: bool, rules: Rfc.Rules, decode: Decoder)
    requires IsAttributeDescription(attr) && filter == "(" + (attr + "=" + value) + ")" && Rfc.Derivable(attr + "=" + value)
    requires ItemHolds(attr + "=" + value, rules, decode) <==> selects
    ensures ItemFor(filter, selects, rules, decode)
  {
    assert Inside(filter) == attr + "=" + value;
    hide IsAttributeDescription, Rfc.Derivable, PlainBody, ItemHolds, Inside;
    DerivableIsPlain(attr, value);
  }

  lemma PresenceSelects(attr: string, filter: string, rules: Rfc.Rules, decode: Decoder)
    requires IsAttributeDescription(attr) && filter == "(" + (attr + "=" + "*") + ")"
    ensures ItemFor(filter, rules.present(attr), rules, decode)
  {
    hide *;
    PresentSelects(attr, rules, decode);
    ItemIsFor(attr, "*", filter, rules.present(attr), rules, decode);
  }

  lemma EnoughWords(value: string, parts: seq<string>)
    requires parts == Text.Split(value, '*') && '*' in value && Trimmed(value) && value != ""
    ensures forall i :: 0 <= i < |TrimAll(parts)| ==> TrimAll(parts)[i] != ""
    ensures value[0] == '*' || value[|value| - 1] == '*' || |TrimAll(parts)| >= 2
  {
    hide *;
    SplitParts(value);
    WordsAreTrimmed(parts);
    WordsNotEmpty(parts);
    if value[0] != '*' && value[|value| - 1] != '*' {
      TwoWords(value, parts);
    }
  }

  lemma WordsFilter(attr: string, value: string, words: seq<string>, rules: Rfc.Rules, decode: Decoder)
    requires IsAttributeDescription(attr) && SafeAttribute(attr) == attr && attr != "" && DecodesAscii(decode)
    requires value != "" && '*' in value && words == TrimAll(Text.Split(value, '*')) && words != []
    requires words[0] != "" && words[|words| - 1] != ""
    requires value[0] == '*' || value[|value| - 1] == '*' || |words| >= 2
    ensures ItemFor(TreeWildcardFilter(attr, value), WordsSelect(attr, value, words, rules), rules, decode)
  {
    hide *;
    var first, mid, last := WildcardText(attr, value, words);
    PatternSelects(attr, first, mid, last, rules, decode);
    ItemIsFor(attr, Pattern(first, mid, last), TreeWildcardFilter(attr, value), WordsSelect(attr, value, words, rules),
      rules, decode);
  }

  lemma StarsSelect(attr: string, value: string, rules: Rfc.Rules, decode: Decoder)
    requires IsAttributeDescription(attr) && SafeAttribute(attr) == attr && attr != "" && DecodesAscii(decode)
    requires Trimmed(value) && value != "" && '*' in value
    ensures ItemFor(TreeWildcardFilter(attr, value), ValueSelects(attr, value, rules), rules, decode)
  {
    hide *;
    var words := TrimAll(Text.Split(value, '*'));
    PartsSelect(attr, value, rules);
    EnoughWords(value, Text.Split(value, '*'));
    if words == [] {
      OnlyStars(attr, value, words);
      NoWords(attr, value, rules);
      PresenceSelects(attr, TreeWildcardFilter(attr, value), rules, decode);
    } else {
      WordsFilter(attr, value, words, rules, decode);
    }
  }

  lemma NoWords(attr: string, value: string, rules: Rfc.Rules)
    requires value != ""
    ensures WordsSelect(attr, value, [], rules) <==> rules.present(attr)
  {
  }

  lemma OnlyStars(attr: string, value: string, words: seq<string>)
    requires SafeAttribute(attr) == attr && attr != "" && '*' in value && words == TrimAll(Text.Split(value, '*')) && words == []
    ensures TreeWildcardFilter(attr, value) == "(" + (attr + "=" + "*") + ")"
  {
  }

  /** Without a star the value may stand anywhere. */
  lemma PlainValueSelects(attr: string, value: string, rules: Rfc.Rules, decode: Decoder)
    requires IsAttributeDescription(attr) && SafeAttribute(attr) == attr && attr != "" && DecodesAscii(decode)
    requires Trim(value) == value && value != ""
    ensures ItemFor(ItemFilter(attr, Contains, value), rules.substrings(attr, "", [value], ""), rules, decode)
  {
    ContainsSelects(attr, value, rules, decode);
    var e := EscapeFilterValue(value);
    assert ItemFilter(attr, Contains, value) == "(" + (attr + "=" + ("*" + e + "*")) + ")";
    hide *;
    ItemBodyIs(attr, e);
    ItemIsFor(attr, "*" + e + "*", ItemFilter(attr, Contains, value), rules.substrings(attr, "", [value], ""), rules, decode);
  }

  lemma ItemBodyIs(attr: string, e: string)
    ensures ItemBody(attr, Contains, e) == attr + "=" + ("*" + e + "*")
  {
  }

  // --- The search box ---------------------------------------------------------------------

  /** What a keyword is meant to select. */
  ghost predicate KeywordSelects(keyword: string, rules: Rfc.Rules) {
    match ParseTreeKeywordPrefix(keyword)
    case Some((attribute, value)) =>
      if attribute == "objectclass" then
        if value == "" then rules.present("objectClass") else rules.equal("objectClass", value)
      else ValueSelects(attribute, value, rules)
    case None =>
      if Trim(keyword) == "" then rules.present("objectClass")
      else SomeHolds(TREE_FILTER_ATTRIBUTES, Trim(keyword), rules)
  }

  lemma PresenceFilterIs(attr: string)
    requires SafeAttribute(attr) == attr && attr != ""
    ensures PresenceFilter(attr) == "(" + (attr + "=" + "*") + ")"
  {
  }

  lemma PlainFilterIs(attr: string, value: string)
    requires SafeAttribute(attr) == attr && attr != "" && '*' !in value
    ensures TreeWildcardFilter(attr, value) == ItemFilter(attr, Contains, value)
  {
    hide SafeAttribute, ItemFilter;
  }

  lemma PlainMeans(attr: string, value: string, rules: Rfc.Rules)
    requires '*' !in value
    ensures ValueSelects(attr, value, rules) <==> if value == "" then rules.present(attr) else rules.substrings(attr, "",
      [value], "")
  {
  }

  lemma ValueFilterSelects(attr: string, value: string, rules: Rfc.Rules, decode: Decoder)
    requires attr in TREE_FILTER_ATTRIBUTES && Trim(value) == value && DecodesAscii(decode)
    ensures ItemFor(if value == "" then PresenceFilter(attr) else OrAnyEntry(TreeWildcardFilter(attr, value)),
                    ValueSelects(attr, value, rules), rules, decode)
  {
    hide *;
    TreeAttributeIsValid(attr);
    AttributeShape(attr);
    TrimTrims(value);
    if value == "" {
      PresenceFilterIs(attr);
      PlainMeans(attr, value, rules);
      PresenceSelects(attr, PresenceFilter(attr), rules, decode);
    } else {
      if '*' in value {
        StarsSelect(attr, value, rules, decode);
      } else {
        PlainFilterIs(attr, value);
        PlainMeans(attr, value, rules);
        PlainValueSelects(attr, value, rules, decode);
      }
      ItemIsSome(TreeWildcardFilter(attr, value), ValueSelects(attr, value, rules), rules, decode);
    }
  }

  lemma ItemIsSome(filter: string, selects: bool, rules: Rfc.Rules, decode: Decoder)
    requires ItemFor(filter, selects, rules, decode)
    ensures filter != "" && OrAnyEntry(filter) == filter
  {
    hide Rfc.Derivable, PlainBody, ItemHolds;
    assert filter[0] == '(';
  }

  lemma ClassSelects(value: string, rules: Rfc.Rules, decode: Decoder)
    requires Trim(value) == value && DecodesAscii(decode)
    ensures value == "" ==> ItemFor(ANY_ENTRY, rules.present("objectClass"), rules, decode)
    ensures value != "" ==> ItemFor(EqualityFilter("objectClass", value), rules.equal("objectClass", value), rules, decode)
  {
    hide *;
    TreeAttributeIsValid("objectClass");
    if value == "" {
      AnyEntryIs();
      PresenceSelects("objectClass", ANY_ENTRY, rules, decode);
    } else {
      ClassFilterIs(value);
      EqualSelects("objectClass", value, rules, decode);
      ItemIsFor("objectClass", EscapeFilterValue(value), EqualityFilter("objectClass", value), rules.equal("objectClass",
        value), rules, decode);
    }
  }

  lemma AnyEntryIs()
    ensures ANY_ENTRY == "(" + ("objectClass" + "=" + "*") + ")"
  {
  }

  lemma ClassFilterIs(value: string)
    requires Trim(value) == value && value != "" && SafeAttribute("objectClass") == "objectClass"
    ensures EqualityFilter("objectClass", value) == "(" + ("objectClass" + "=" + EscapeFilterValue(value)) + ")"
  {
    hide IsAttributeDescription, EscapeFilterValue, IsGuid, Trim;
    assert Lower("objectClass")[6] == 'c' && "objectguid"[6] == 'g';
  }

  /** One of these attributes holds the text. */
  ghost predicate SomeHolds(attributes: seq<string>, text: string, rules: Rfc.Rules) {
    exists attribute :: attribute in attributes && rules.substrings(attribute, "", [text], "")
  }

  lemma SomeHoldsMore(attributes: seq<string>, text: string, rules: Rfc.Rules)
    requires attributes != []
    ensures SomeHolds(attributes, text, rules)
      <==> rules.substrings(attributes[0], "", [text], "") || SomeHolds(attributes[1..], text, rules)
  {
    assert attributes == [attributes[0]] + attributes[1..];
  }

  /** The same text in each of the attributes. */
  lemma {:induction false} KeywordItemsSelect(attributes: seq<string>, text: string, rules: Rfc.Rules, decode: Decoder)
    requires DecodesAscii(decode)
    requires forall i :: 0 <= i < |attributes| ==> IsAttributeDescription(attributes[i])
    ensures RfcItems(KeywordItems(attributes, text))
    ensures AnySelects(KeywordItems(attributes, text), rules, decode) <==> SomeHolds(attributes, text, rules)
  {
    hide IsAttributeDescription, DecodesAscii, EscapeFilterValue, ItemBody, PlainBody, ItemHolds, Rfc.Derivable, SomeHolds;
    if attributes != [] {
      ContainsSelects(attributes[0], text, rules, decode);
      KeywordItemsSelect(attributes[1..], text, rules, decode);
      SomeHoldsMore(attributes, text, rules);
    } else {
      NoneHolds(text, rules);
    }
  }

  lemma NoneHolds(text: string, rules: Rfc.Rules)
    ensures !SomeHolds([], text, rules)
  {
  }

  lemma KeywordListPrints(text: string)
    requires text != "" && Trim(text) == text
    ensures var t := List("", '|', "", KeywordItems(TREE_FILTER_ATTRIBUTES, text));
            && OrAnyEntry(CombineFilters(KeywordFilters(TREE_FILTER_ATTRIBUTES, text), Or)) == Print(t)
            && Depth(t) == 1 && KeywordItems(TREE_FILTER_ATTRIBUTES, text) != End
  {
    var attributes := TREE_FILTER_ATTRIBUTES;
    var items := KeywordItems(attributes, text);
    assert |attributes| > 1 && |attributes[1..]| > 0;
    assert items.More? && items.rest == KeywordItems(attributes[1..], text) && items.rest.More?;
    KeywordAttributes();
    KeywordFiltersPrint(attributes, text);
    hide KeywordFilters, KeywordItems, TrimAll, IsAttributeDescription, SafeAttribute, Concat, PrintedItems, Print, ValidItems;
    CombinedPrints(items, Or, List("", '|', "", items));
    MorePrinted(items);
    PrintOpens(List("", '|', "", items));
  }

  /** The derivation of the filter sent for a keyword. */
  function KeywordTree(keyword: string): Tree {
    if ParseTreeKeywordPrefix(keyword).None? && Trim(keyword) != ""
    then List("", '|', "", KeywordItems(TREE_FILTER_ATTRIBUTES, Trim(keyword)))
    else Leaf("", Inside(TreeKeywordFilter(keyword)))
  }

  lemma LeafFor(filter: string, selects: bool, rules: Rfc.Rules, decode: Decoder)
    requires ItemFor(filter, selects, rules, decode)
    ensures var t := Leaf("", Inside(filter));
            RfcTree(t) && Depth(t) == 0 && Print(t) == filter && (Selects(t, rules, decode) <==> selects)
  {
    hide Rfc.Derivable, PlainBody, ItemHolds;
    assert "(" + "" + Inside(filter) + ")" == "(" + Inside(filter) + ")";
  }

  lemma PrefixTrims(keyword: string)
    ensures ParseTreeKeywordPrefix(Trim(keyword)) == ParseTreeKeywordPrefix(keyword)
  {
    TrimAgain(keyword);
    hide Trim;
  }

  lemma PrefixedSelects(keyword: string, rules: Rfc.Rules, decode: Decoder)
    requires DecodesAscii(decode) && ParseTreeKeywordPrefix(keyword).Some?
    ensures ItemFor(TreeKeywordFilter(keyword), KeywordSelects(keyword, rules), rules, decode)
  {
    hide ParseTreeKeywordPrefix, EqualityFilter, PresenceFilter, TreeWildcardFilter, OrAnyEntry, ItemFor, ValueSelects, Trim,
      KeywordFilters, CombineFilters, SomeHolds, DecodesAscii;
    PrefixTrims(keyword);
    KeywordValueTrimmed(Trim(keyword));
    var (attribute, value) := ParseTreeKeywordPrefix(keyword).value;
    if attribute == "objectclass" {
      ClassSelects(value, rules, decode);
    } else {
      ValueFilterSelects(attribute, value, rules, decode);
    }
  }

  lemma BlankSelects(keyword: string, rules: Rfc.Rules, decode: Decoder)
    requires DecodesAscii(decode) && ParseTreeKeywordPrefix(keyword).None? && Trim(keyword) == ""
    ensures ItemFor(TreeKeywordFilter(keyword), KeywordSelects(keyword, rules), rules, decode)
  {
    hide ParseTreeKeywordPrefix, ItemFor, Trim, KeywordFilters, CombineFilters, DecodesAscii;
    PrefixTrims(keyword);
    NoKeyword();
    assert Trim("") == "" by {
      TrimAgain(keyword);
    }
    ClassSelects("", rules, decode);
  }

  lemma PlainKeywordSelects(keyword: string, rules: Rfc.Rules, decode: Decoder)
    requires DecodesAscii(decode) && ParseTreeKeywordPrefix(keyword).None? && Trim(keyword) != ""
    ensures var t := KeywordTree(keyword);
            && RfcTree(t) && Depth(t) == 1 && Print(t) == TreeKeywordFilter(keyword)
            && (Selects(t, rules, decode) <==> KeywordSelects(keyword, rules))
  {
    hide ParseTreeKeywordPrefix, Trim, KeywordFilters, CombineFilters, OrAnyEntry, SomeHolds, DecodesAscii, KeywordItems,
      IsAttributeDescription, SafeAttribute, Print, Depth;
    PrefixTrims(keyword);
    TrimAgain(keyword);
    KeywordAttributes();
    KeywordItemsSelect(TREE_FILTER_ATTRIBUTES, Trim(keyword), rules, decode);
    KeywordListPrints(Trim(keyword));
  }

  /**
   Whatever is typed into the search box, the filter sent is a sentence of RFC 4515, at most one operator
   deep, that selects what the keyword is meant to: behind a prefix the words of the value between its
   stars, anchored where it has no star, or the presence of the attribute; without a prefix the keyword
   anywhere in one of the listed attributes.
   */
  lemma KeywordFilterSelects(keyword: string, rules: Rfc.Rules, decode: Decoder)
    requires DecodesAscii(decode)
    ensures var t := KeywordTree(keyword);
            && RfcTree(t) && Depth(t) <= 1 && Print(t) == TreeKeywordFilter(keyword)
            && (Selects(t, rules, decode) <==> KeywordSelects(keyword, rules))
  {
    if ParseTreeKeywordPrefix(keyword).None? && Trim(keyword) != "" {
      hide *;
      PlainKeywordSelects(keyword, rules, decode);
    } else {
      assert KeywordTree(keyword) == Leaf("", Inside(TreeKeywordFilter(keyword)));
      hide *;
      if ParseTreeKeywordPrefix(keyword).Some? {
        PrefixedSelects(keyword, rules, decode);
      } else {
        BlankSelects(keyword, rules, decode);
      }
      LeafFor(TreeKeywordFilter(keyword), KeywordSelects(keyword, rules), rules, decode);
    }
  }
}
