/** Round trip of the visual builder, and validity of everything the builders emit. */
module FilterTheorems {
  import opened Wrappers
  import opened Text
  import opened LdapFilter
  import opened FilterItems
  import opened FilterGrammar
  import opened FilterBuilder

  // --- Round trip -----------------------------------------------------------------------

  lemma BuiltReadable(n: Node, decode: Decoder)
    requires NoGuids(n) && DecodesAscii(decode) && BuildTree(n).Some?
    ensures Readable(BuildTree(n).value, decode)
  {
    BuiltMeansIntended(n, (a, op, v) => true, decode);
  }

  /** Parsing what the builder wrote succeeds exactly when it nests no deeper than the limit. */
  lemma BuiltTextParses(n: Node, decode: Decoder)
    requires NoGuids(n) && DecodesAscii(decode) && BuildNode(n) != ""
    ensures BuildTree(n).Some? && Readable(BuildTree(n).value, decode)
    ensures ParseFilterStructure(BuildNode(n), decode)
      == if Depth(BuildTree(n).value) <= MAX_DEPTH then Some(NodeOf(BuildTree(n).value, decode)) else None
  {
    hide *;
    BuildPrints(n);
    BuiltIsPrinted(n);
    BuiltReadable(n, decode);
    PrintedParses(BuildTree(n).value, decode);
  }

  lemma BuiltIsPrinted(n: Node)
    requires BuildNode(n) == Printed(BuildTree(n)) && BuildNode(n) != ""
    ensures BuildTree(n).Some? && BuildNode(n) == Print(BuildTree(n).value)
  {
    hide BuildNode, BuildTree, Print;
  }

  lemma PrintedParses(t: Tree, decode: Decoder)
    requires Readable(t, decode)
    ensures ParseFilterStructure(Print(t), decode) == if Depth(t) <= MAX_DEPTH then Some(NodeOf(t, decode)) else None
  {
    hide ParseItem, Readable, Print, NodeOf, Depth, Trim;
    PrintTrimmed(t);
    ParsesPrinted(t, 0, "", decode);
    assert Print(t) + "" == Print(t);
    assert SkipGaps("") == "";
  }

  /** The round trip: what is read back selects exactly the entries the user asked for. */
  lemma RoundTripKeepsMeaning(n: Node, atoms: Atoms, decode: Decoder)
    requires NoGuids(n) && NoDoubleNegations(n) && DecodesAscii(decode)
    requires ParseFilterStructure(BuildNode(n), decode).Some?
    ensures Intended(n, atoms) == Some(Eval(ParseFilterStructure(BuildNode(n), decode).value, atoms))
  {
    assert BuildNode(n) != "" by {
      assert Trim("") == "";
    }
    BuiltTextParses(n, decode);
    BuiltMeansIntended(n, atoms, decode);
    hide DecodesAscii, NoGuids, BuildNode, ParseItem, ParseFilterStructure, Eval;
    NodeMeansTree(BuildTree(n).value, atoms, decode);
  }

  /** A node is written as nothing exactly when it asks for nothing. */
  lemma EmptyTextMeansNoCondition(n: Node, atoms: Atoms, decode: Decoder)
    requires NoGuids(n) && DecodesAscii(decode)
    ensures BuildNode(n) == "" <==> Intended(n, atoms) == None
  {
    BuildPrints(n);
    BuiltMeansIntended(n, atoms, decode);
    if BuildTree(n).Some? {
      PrintTrimmed(BuildTree(n).value);
    }
  }

  /** A clause is read back with its meaning exactly when it does not say "not" twice: the
      negate flag of a notEquals clause is dropped by the builder. */
  lemma ClauseRoundTrip(c: Node, atoms: Atoms, decode: Decoder)
    requires c.Clause? && !GuidClause(c) && ClauseBody(c).Some? && DecodesAscii(decode)
    ensures ParseFilterStructure(BuildNode(c), decode).Some?
    ensures Eval(ParseFilterStructure(BuildNode(c), decode).value, atoms) == Intended(c, atoms).value
      <==> !(c.op == NotEquals && c.negate)
  {
    BuildPrints(c);
    PrintTrimmed(BuildTree(c).value);
    assert NoGuids(c);
    BuiltTextParses(c, decode);
    ClauseReadable(c, atoms, decode);
    assert Depth(BuildTree(c).value) <= 1;
    hide DecodesAscii, BuildNode, ParseItem, ParseFilterStructure, Eval, Intended;
    NodeMeansTree(BuildTree(c).value, atoms, decode);
  }

  /** The dropped negation, concretely: not (cn != a) is written as cn != a. */
  lemma DoubleNegationIsLost()
    ensures BuildNode(Clause("cn", NotEquals, "a", true)) == BuildNode(Clause("cn", NotEquals, "a", false))
    ensures forall atoms: Atoms ::
      Eval(Clause("cn", NotEquals, "a", true), atoms) != Eval(Clause("cn", NotEquals, "a", false), atoms)
  {
  }

  // --- Validity -------------------------------------------------------------------------

  predicate ValidTree(t: Tree) {
    match t
    case Leaf(lead, body) => lead == "" && PlainBody(body) && ValidAssertion(body)
    case Not(lead, mid, child, tail) => lead == "" && mid == "" && tail == "" && ValidTree(child)
    case List(lead, op, mid, items) =>
      lead == "" && mid == "" && (op == '&' || op == '|') && items != End && ValidItems(items)
  }

  predicate ValidItems(items: Items) {
    match items
    case End => true
    case More(first, gap, rest) => ValidTree(first) && gap == "" && ValidItems(rest)
  }

  lemma {:induction false} SimpleItemStops(body: string, post: string)
    requires forall i :: 0 <= i < |body| ==> body[i] != '(' && body[i] != ')'
    ensures SimpleItem(body + ([')'] + post)) == Some(body)
  {
    if body == "" {
      assert body + ([')'] + post) == [')'] + post;
    } else {
      var s := body + ([')'] + post);
      SimpleItemStops(body[1..], post);
      assert s[1..] == body[1..] + ([')'] + post) && s[0] == body[0];
      assert [body[0]] + body[1..] == body;
    }
  }

  lemma ValidatesLeaf(body: string, depth: nat, post: string)
    requires PlainBody(body) && ValidAssertion(body) && depth <= MAX_DEPTH
    ensures ValidItem("(" + body + ")" + post, depth) == Some(post)
  {
    hide ValidAssertion;
    var s1 := body + ([')'] + post);
    assert ("(" + body + ")" + post)[1..] == s1;
    SimpleItemStops(body, post);
    assert s1[|body|..] == [')'] + post && ([')'] + post)[1..] == post;
  }

  /** The validator accepts a printed derivation without gaps exactly when it is not too deep. */
  lemma {:induction false} ValidatesPrinted(t: Tree, depth: nat, post: string)
    requires ValidTree(t) && depth <= MAX_DEPTH
    ensures ValidItem(Print(t) + post, depth) == if depth + Depth(t) <= MAX_DEPTH then Some(post) else None
    decreases t
  {
    match t
    case Leaf(lead, body) =>
      assert "(" + "" + body + ")" == "(" + body + ")";
      ValidatesLeaf(body, depth, post);
    case Not(_, _, child, _) =>
      ValidatesNot(t, depth, post);
    case List(_, _, _, items) =>
      ValidatesList(t, depth, post);
  }

  lemma UnfoldValidNot(inner: string, depth: nat)
    requires depth <= MAX_DEPTH
    ensures ValidItem("(!" + inner, depth)
      == match ValidItem(inner, depth + 1)
         case None => None
         case Some(rest) => if rest == "" || rest[0] != ')' then None else Some(rest[1..])
  {
    assert ("(!" + inner)[1..] == "!" + inner && ("!" + inner)[1..] == inner;
  }

  lemma ValidatesNot(t: Tree, depth: nat, post: string)
    requires t.Not? && ValidTree(t) && depth <= MAX_DEPTH
    ensures ValidItem(Print(t) + post, depth) == if depth + Depth(t) <= MAX_DEPTH then Some(post) else None
    decreases t, 0
  {
    var after := [')'] + post;
    assert Print(t) + post == "(!" + (Print(t.child) + after);
    hide ValidItem, Print;
    UnfoldValidNot(Print(t.child) + after, depth);
    if depth + 1 <= MAX_DEPTH {
      ValidatesPrinted(t.child, depth + 1, after);
    } else {
      InvalidTooDeep(Print(t.child) + after, depth + 1);
    }
    assert after[1..] == post;
  }

  lemma InvalidTooDeep(s: string, depth: nat)
    requires depth > MAX_DEPTH
    ensures ValidItem(s, depth) == None
  {
  }

  lemma UnfoldValidList(op: char, inner: string, depth: nat)
    requires (op == '&' || op == '|') && depth <= MAX_DEPTH
    ensures ValidItem("(" + ([op] + inner), depth)
      == match ValidMany(inner, depth)
         case None => None
         case Some((matched, rest)) =>
           if matched < 1 || rest == "" || rest[0] != ')' then None else Some(rest[1..])
  {
    hide ValidMany;
    var s1 := [op] + inner;
    assert ("(" + s1)[1..] == s1 && s1[1..] == inner;
  }

  lemma ValidatesList(t: Tree, depth: nat, post: string)
    requires t.List? && ValidTree(t) && depth <= MAX_DEPTH
    ensures ValidItem(Print(t) + post, depth) == if depth + Depth(t) <= MAX_DEPTH then Some(post) else None
    decreases t, 0
  {
    hide Print, PrintItems, ValidMany, ValidItem;
    var close := [')'] + post;
    var inner := PrintItems(t.items) + close;
    ListText(t, post);
    assert "" + ([t.op] + "" + inner) == [t.op] + inner;
    ValidatesItems(t.items, depth, post);
    UnfoldValidList(t.op, inner, depth);
    assert close[1..] == post;
  }

  function Count(items: Items): nat {
    match items
    case End => 0
    case More(_, _, rest) => 1 + Count(rest)
  }

  lemma UnfoldValidMany(s: string, depth: nat)
    requires s != "" && s[0] == '('
    ensures var first := ValidItem(s, depth + 1);
            && (first.None? ==> ValidMany(s, depth) == None)
            && (first.Some? ==>
                  var more := ValidMany(first.value, depth);
                  ValidMany(s, depth) == if more.None? then None else Some((more.value.0 + 1, more.value.1)))
  {
    hide ValidItem;
  }

  lemma ValidParts(items: Items)
    requires items.More? && ValidItems(items)
    ensures ValidTree(items.first) && items.gap == "" && ValidItems(items.rest)
    ensures Count(items) == 1 + Count(items.rest)
    ensures ItemsDepth(items)
      == if Depth(items.first) < ItemsDepth(items.rest) then ItemsDepth(items.rest) else Depth(items.first)
    ensures items.rest == End ==> ItemsDepth(items.rest) == 0
  {
  }

  lemma ValidatesNoItems(depth: nat, post: string)
    ensures ValidMany(PrintItems(End) + ([')'] + post), depth) == Some((Count(End), [')'] + post))
  {
    assert PrintItems(End) + ([')'] + post) == [')'] + post;
  }

  lemma ValidatesItems(items: Items, depth: nat, post: string)
    requires ValidItems(items) && depth <= MAX_DEPTH
    ensures ValidMany(PrintItems(items) + ([')'] + post), depth)
      == if items == End || depth + 1 + ItemsDepth(items) <= MAX_DEPTH then Some((Count(items), [')'] + post)) else None
    decreases items, 1
  {
    hide *;
    if items == End {
      ValidatesNoItems(depth, post);
    } else {
      var first, rest := items.first, items.rest;
      ValidParts(items);
      ItemsText(items, post);
      var later := PrintItems(rest) + ([')'] + post);
      assert "" + later == later;
      UnfoldValidMany(Print(first) + later, depth);
      if depth + 1 <= MAX_DEPTH {
        ValidatesPrinted(first, depth + 1, later);
      } else {
        InvalidTooDeep(Print(first) + later, depth + 1);
      }
      ValidatesItems(rest, depth, post);
    }
  }

  lemma PrintedIsValid(t: Tree)
    requires ValidTree(t)
    ensures ValidateFilter(Print(t)) <==> Depth(t) <= MAX_DEPTH
  {
    PrintTrimmed(t);
    ValidatesPrinted(t, 0, "");
    assert Print(t) + "" == Print(t);
  }

  lemma ClauseBodyValid(c: Node)
    requires c.Clause? && ClauseBody(c).Some?
    ensures PlainBody(ClauseBody(c).value) && ValidAssertion(ClauseBody(c).value)
  {
    BodyStarts(c);
    var attr, raw := SafeAttribute(c.attribute), Trim(c.value);
    if c.op == Present {
      PresentIgnoresValue(attr);
      ItemBodyValid(attr, Present, "");
    } else if GuidClause(c) {
      GuidBodyValid(raw);
    } else {
      ItemBodyValid(attr, if c.op == NotEquals then Equals else c.op, raw);
    }
  }

  lemma {:induction false} BuiltIsValidTree(n: Node)
    ensures BuildTree(n).Some? ==> ValidTree(BuildTree(n).value)
    decreases n, 0
  {
    match n
    case Clause(_, _, _, _) =>
      if ClauseBody(n).Some? {
        ClauseBodyValid(n);
      }
    case Group(_, children, _) =>
      BuiltItemsValid(children);
  }

  lemma {:induction false} BuiltItemsValid(ns: seq<Node>)
    ensures ValidItems(BuildItems(ns))
    decreases ns
  {
    if ns != [] {
      BuiltIsValidTree(ns[0]);
      BuiltItemsValid(ns[1..]);
    }
  }

  /** Whatever tree the builder is given, its text is valid exactly when it is not empty and
      nests no deeper than the validator's limit. */
  lemma BuiltTextIsValid(n: Node)
    ensures ValidateFilter(BuildNode(n))
      <==> BuildNode(n) != "" && BuildTree(n).Some? && Depth(BuildTree(n).value) <= MAX_DEPTH
  {
    BuildPrints(n);
    BuiltIsValidTree(n);
    if BuildTree(n).Some? {
      PrintTrimmed(BuildTree(n).value);
      PrintedIsValid(BuildTree(n).value);
    } else {
      assert Trim("") == "";
    }
  }

  // --- The search box of the directory tree ---------------------------------------------

  /** A tree of valid items, at most one operator deep. */
  ghost predicate Shallow(filter: string) {
    exists t :: ValidTree(t) && Depth(t) <= 1 && filter == Print(t)
  }

  lemma ShallowIsValid(filter: string)
    requires Shallow(filter)
    ensures ValidateFilter(filter)
  {
    var t :| ValidTree(t) && Depth(t) <= 1 && filter == Print(t);
    PrintedIsValid(t);
  }

  lemma LeafIsShallow(body: string)
    requires PlainBody(body) && ValidAssertion(body)
    ensures Shallow("(" + body + ")") && ValidTree(Leaf("", body)) && Print(Leaf("", body)) == "(" + body + ")"
  {
    hide ValidAssertion, PlainBody;
    assert "(" + "" + body + ")" == "(" + body + ")";
    assert ValidTree(Leaf("", body)) && Depth(Leaf("", body)) == 0;
  }

  lemma ItemIsShallow(attr: string, op: Op, v: string)
    requires IsAttributeDescription(attr)
    ensures Shallow("(" + ItemBody(attr, op, EscapeFilterValue(v)) + ")")
  {
    ItemBodyPlain(attr, op, v);
    ItemBodyValid(attr, op, v);
    LeafIsShallow(ItemBody(attr, op, EscapeFilterValue(v)));
  }

  lemma TreeAttributeIsValid(attr: string)
    requires attr in TREE_FILTER_ATTRIBUTES || attr == "objectClass"
    ensures IsAttributeDescription(attr) && SafeAttribute(attr) == attr
  {
    NameIsAttribute(attr, Start);
    AttributeShape(attr);
    TrimKeeps(attr);
  }

  lemma PresenceIsShallow(attr: string)
    requires IsAttributeDescription(attr) && SafeAttribute(attr) == attr
    ensures Shallow(PresenceFilter(attr))
  {
    PresentIgnoresValue(attr);
    ItemIsShallow(attr, Present, "");
    AttributeShape(attr);
  }

  lemma AnyEntryIsShallow()
    ensures Shallow(ANY_ENTRY)
  {
    hide Shallow, IsAttributeDescription, SafeAttribute, ItemBody;
    TreeAttributeIsValid("objectClass");
    PresentIgnoresValue("objectClass");
    ItemIsShallow("objectClass", Present, "");
  }

  lemma EqualityIsShallow(attr: string, value: string)
    requires SafeAttribute(attr) != "" && Trim(value) != ""
    ensures Shallow(EqualityFilter(attr, value))
  {
    var c := Clause(attr, Equals, value, false);
    PositiveFilter(c);
    ClauseBodyValid(c);
    LeafIsShallow(ClauseBody(c).value);
  }

  // Wildcards: the escaped pieces with stars between them.

  predicate ValidPattern(s: string) {
    ValidValue(s, true) && NoParens(s)
  }

  lemma PieceValid(piece: string, later: string)
    requires ValidPattern(later)
    ensures ValidPattern(EscapeFilterValue(piece) + later)
  {
    EscapesEachCharacterOnce(piece);
    EscapedIsInert(piece);
    hide EscapeFilterValue;
    EscapedIsValid(piece, later, true);
  }

  lemma StarValid(later: string)
    requires ValidPattern(later)
    ensures ValidPattern("*" + later)
  {
    assert ("*" + later)[1..] == later;
  }

  lemma JoinPieces(piece: string, more: seq<string>)
    requires more != []
    ensures Text.Join(EscapeAll([piece] + more), "*") == EscapeFilterValue(piece) + "*" + Text.Join(EscapeAll(more), "*")
  {
    hide EscapeFilterValue;
    assert ([piece] + more)[1..] == more;
    var all := EscapeAll([piece] + more);
    assert all == [EscapeFilterValue(piece)] + EscapeAll(more);
    assert all[1..] == EscapeAll(more);
    assert |EscapeAll(more)| > 0;
  }

  lemma JoinPiece(piece: string)
    ensures Text.Join(EscapeAll([piece]), "*") == EscapeFilterValue(piece)
  {
    hide EscapeFilterValue;
    assert [piece][1..] == [];
    assert EscapeAll([piece]) == [EscapeFilterValue(piece)];
  }

  lemma Regroup(a: string, b: string, c: string, d: string)
    ensures a + b + c + d == a + (b + (c + d))
  {
  }

  lemma {:induction false} JoinedPiecesValid(pieces: seq<string>, tail: string)
    requires ValidPattern(tail)
    ensures ValidPattern(Text.Join(EscapeAll(pieces), "*") + tail)
  {
    hide ValidPattern, EscapeFilterValue;
    if pieces == [] {
      assert Text.Join(EscapeAll(pieces), "*") + tail == tail;
    } else if |pieces| == 1 {
      hide Text.Join, EscapeAll;
      assert pieces == [pieces[0]];
      JoinPiece(pieces[0]);
      PieceValid(pieces[0], tail);
    } else {
      hide Text.Join, EscapeAll;
      var rest := pieces[1..];
      assert pieces == [pieces[0]] + rest;
      JoinPieces(pieces[0], rest);
      JoinedPiecesValid(rest, tail);
      var later := Text.Join(EscapeAll(rest), "*") + tail;
      StarValid(later);
      PieceValid(pieces[0], "*" + later);
      Regroup(EscapeFilterValue(pieces[0]), "*", Text.Join(EscapeAll(rest), "*"), tail);
    }
  }

  lemma WildcardIsShallow(attr: string, value: string)
    requires IsAttributeDescription(attr) && SafeAttribute(attr) == attr && value != "" && Trim(value) == value
    ensures Shallow(TreeWildcardFilter(attr, value))
  {
    AttributeShape(attr);
    if '*' !in value {
      ItemIsShallow(attr, Contains, value);
    } else if TrimAll(Text.Split(value, '*')) == [] {
      PresenceIsShallow(attr);
    } else {
      var pieces := TrimAll(Text.Split(value, '*'));
      hide TrimAll, IsAttributeDescription, SafeAttribute, Trimmed;
      var head := if value[0] == '*' then "*" else "";
      var tail := if value[|value| - 1] == '*' then "*" else "";
      assert ValidPattern("") && ("*")[1..] == "";
      JoinedPiecesValid(pieces, tail);
      PatternIsShallow(attr, head, Text.Join(EscapeAll(pieces), "*") + tail);
      assert head + Text.Join(EscapeAll(pieces), "*") + tail == head + (Text.Join(EscapeAll(pieces), "*") + tail);
    }
  }

  lemma PatternIsShallow(attr: string, head: string, pattern: string)
    requires IsAttributeDescription(attr) && (head == "" || head == "*")
    requires ValidPattern(pattern)
    ensures Shallow("(" + (attr + "=" + (head + pattern)) + ")")
  {
    hide IsAttributeDescription, ValidValue, ValidAssertion, Trimmed;
    var value := head + pattern;
    if head == "" {
      assert value == pattern;
    } else {
      StarValid(pattern);
    }
    AttributeShape(attr);
    SplitAssertion(attr, "=", value);
    assert (attr + "=" + value)[0] == attr[0];
    LeafIsShallow(attr + "=" + value);
  }

  // Plain keywords: the same substring in each of the attributes.

  function KeywordItems(attributes: seq<string>, text: string): Items {
    if attributes == [] then End
    else More(Leaf("", ItemBody(attributes[0], Contains, EscapeFilterValue(text))), "", KeywordItems(attributes[1..], text))
  }

  lemma {:induction false} KeywordFiltersPrint(attributes: seq<string>, text: string)
    requires text != "" && Trim(text) == text
    requires forall i :: 0 <= i < |attributes| ==> IsAttributeDescription(attributes[i]) && SafeAttribute(attributes[i]) == attributes[i]
    ensures var items := KeywordItems(attributes, text);
            && ValidItems(items) && Compact(items) && ItemsDepth(items) == 0
            && TrimAll(KeywordFilters(attributes, text)) == PrintedItems(items)
  {
    if attributes != [] {
      KeywordFiltersPrint(attributes[1..], text);
      var attr := attributes[0];
      assert attr != "" by {
        AttributeShape(attr);
      }
      ItemBodyPlain(attr, Contains, text);
      ItemBodyValid(attr, Contains, text);
      var body := ItemBody(attr, Contains, EscapeFilterValue(text));
      LeafIsShallow(body);
      PrintTrimmed(Leaf("", body));
      hide ItemBody, EscapeFilterValue, ValidAssertion, PlainBody, Print, Trim, IsAttributeDescription, SafeAttribute;
    }
  }

  lemma KeywordAttributes()
    ensures forall i :: 0 <= i < |TREE_FILTER_ATTRIBUTES| ==>
      IsAttributeDescription(TREE_FILTER_ATTRIBUTES[i]) && SafeAttribute(TREE_FILTER_ATTRIBUTES[i]) == TREE_FILTER_ATTRIBUTES[i]
  {
    forall i | 0 <= i < |TREE_FILTER_ATTRIBUTES|
      ensures IsAttributeDescription(TREE_FILTER_ATTRIBUTES[i]) && SafeAttribute(TREE_FILTER_ATTRIBUTES[i]) == TREE_FILTER_ATTRIBUTES[i]
    {
      TreeAttributeIsValid(TREE_FILTER_ATTRIBUTES[i]);
    }
  }

  lemma ListIsShallow(items: Items, join: Join)
    requires items.More? && items.rest.More? && ValidItems(items) && Compact(items) && ItemsDepth(items) == 0
    ensures Shallow("(" + [JoinChar(join)] + Concat(PrintedItems(items)) + ")") && |PrintedItems(items)| > 1
  {
    var t := List("", JoinChar(join), "", items);
    assert items == More(items.first, "", items.rest);
    CombinedPrints(items, join, t);
    MorePrinted(items);
    hide Print, PrintedItems, ValidItems, Concat;
    assert ValidTree(t) && Depth(t) == 1;
  }

  lemma KeywordIsShallow(text: string)
    requires text != "" && Trim(text) == text
    ensures Shallow(CombineFilters(KeywordFilters(TREE_FILTER_ATTRIBUTES, text), Or))
  {
    var attributes := TREE_FILTER_ATTRIBUTES;
    var items := KeywordItems(attributes, text);
    assert |attributes| > 1 && |attributes[1..]| > 0;
    assert items.More? && items.rest == KeywordItems(attributes[1..], text);
    KeywordAttributes();
    KeywordFiltersPrint(attributes, text);
    hide KeywordFilters, KeywordItems, TrimAll, Shallow, IsAttributeDescription, SafeAttribute, Concat, PrintedItems;
    ListIsShallow(items, Or);
  }

  lemma PrefixIsShallow(attribute: string, value: string)
    requires (attribute == "objectclass" || attribute in TREE_FILTER_ATTRIBUTES) && Trim(value) == value
    ensures Shallow(if attribute == "objectclass" then
                      if value == "" then ANY_ENTRY else EqualityFilter("objectClass", value)
                    else if value == "" then PresenceFilter(attribute)
                    else OrAnyEntry(TreeWildcardFilter(attribute, value)))
  {
    hide Shallow, EqualityFilter, PresenceFilter, TreeWildcardFilter, IsAttributeDescription, SafeAttribute, Trim;
    AnyEntryIsShallow();
    if attribute == "objectclass" {
      TreeAttributeIsValid("objectClass");
      if value != "" {
        EqualityIsShallow("objectClass", value);
      }
    } else {
      TreeAttributeIsValid(attribute);
      if value == "" {
        PresenceIsShallow(attribute);
      } else {
        WildcardIsShallow(attribute, value);
      }
    }
  }

  /** Whatever is typed into the search box, the filter sent is valid. */
  lemma KeywordFilterIsValid(keyword: string)
    ensures ValidateFilter(TreeKeywordFilter(keyword))
  {
    hide Shallow, TreeWildcardFilter, EqualityFilter, PresenceFilter, CombineFilters, ValidateFilter, ParseTreeKeywordPrefix,
      KeywordFilters, Trim, OrAnyEntry;
    var text := Trim(keyword);
    TrimAgain(keyword);
    if ParseTreeKeywordPrefix(text).Some? {
      KeywordValueTrimmed(text);
      var (attribute, value) := ParseTreeKeywordPrefix(text).value;
      PrefixIsShallow(attribute, value);
    } else {
      PlainKeywordIsShallow(text);
    }
    ShallowIsValid(TreeKeywordFilter(keyword));
  }

  lemma PlainKeywordIsShallow(text: string)
    requires Trim(text) == text
    ensures Shallow(OrAnyEntry(CombineFilters(KeywordFilters(TREE_FILTER_ATTRIBUTES, text), Or)))
  {
    hide Shallow, CombineFilters, KeywordFilters, Trim;
    AnyEntryIsShallow();
    if text != "" {
      KeywordIsShallow(text);
    } else {
      NoKeyword();
    }
  }

  lemma KeywordValueTrimmed(text: string)
    requires ParseTreeKeywordPrefix(text).Some?
    ensures var (attribute, value) := ParseTreeKeywordPrefix(text).value;
            (attribute == "objectclass" || attribute in TREE_FILTER_ATTRIBUTES) && Trim(value) == value
  {
    var n := NameLength(Trim(text));
    var rest := TrimStart(Trim(text)[n..]);
    TrimAgain(TrimStart(rest[1..]));
  }

  lemma {:induction false} NoKeywordFilters(attributes: seq<string>)
    ensures KeywordFilters(attributes, "") == []
  {
    assert Trim("") == "";
    if attributes != [] {
      NoKeywordFilters(attributes[1..]);
    }
  }

  lemma NoKeyword()
    ensures CombineFilters(KeywordFilters(TREE_FILTER_ATTRIBUTES, ""), Or) == ""
  {
    NoKeywordFilters(TREE_FILTER_ATTRIBUTES);
  }
}
