/** The parser and the validator of ldapFilter.ts against each other and against RFC 4515. */
module FilterConformance {
  import opened Wrappers
  import opened Text
  import opened LdapFilter
  import opened FilterItems
  import opened FilterGrammar
  import opened FilterBuilder
  import opened FilterTheorems
  import Rfc = FilterRfc

  // --- The same trees for both ------------------------------------------------------------

  /** A derivation, with gaps, whose items may be anything without parentheses. */
  predicate Shaped(t: Tree) {
    match t
    case Leaf(lead, body) => Gaps(lead) && PlainBody(body)
    case Not(lead, mid, child, tail) => Gaps(lead) && Gaps(mid) && Gaps(tail) && Shaped(child)
    case List(lead, op, mid, items) =>
      Gaps(lead) && Gaps(mid) && (op == '&' || op == '|') && items != End && ShapedItems(items)
  }

  predicate ShapedItems(items: Items) {
    match items
    case End => true
    case More(first, gap, rest) => Shaped(first) && Gaps(gap) && ShapedItems(rest)
  }

  lemma {:induction false} ReadableIsShaped(t: Tree, decode: Decoder)
    requires Readable(t, decode)
    ensures Shaped(t)
    decreases t
  {
    hide ParseClauseItem, PlainBody, Gaps;
    match t
    case Leaf(_, _) =>
    case Not(_, _, child, _) => ReadableIsShaped(child, decode);
    case List(_, _, _, items) => ReadableAreShaped(items, decode);
  }

  lemma {:induction false} ReadableAreShaped(items: Items, decode: Decoder)
    requires ReadableItems(items, decode)
    ensures ShapedItems(items)
    decreases items
  {
    hide Gaps;
    match items
    case End =>
    case More(first, _, rest) =>
      ReadableIsShaped(first, decode);
      ReadableAreShaped(rest, decode);
  }

  // --- The parser refuses what it cannot show ---------------------------------------------

  lemma {:induction false} RefusesUnreadable(t: Tree, depth: nat, post: string, decode: Decoder)
    requires Shaped(t) && !Readable(t, decode) && depth <= MAX_DEPTH
    ensures ParseItem(Print(t) + post, depth, decode) == None
    decreases t
  {
    match t
    case Leaf(lead, body) =>
      hide ParseItem, ParseClauseItem, PlainBody, Gaps;
      ParsesLeaf(lead, body, post, depth, decode);
    case Not(lead, mid, child, tail) =>
      hide ParseItem, ParseClauseItem, PlainBody, Gaps, Print, SkipGaps;
      var after := tail + ([')'] + post);
      NotText(t, post);
      PrintOpens(child);
      ParenIsNoGap();
      UnfoldNot(lead, mid, Print(child) + after, depth, decode);
      if depth + 1 <= MAX_DEPTH {
        RefusesUnreadable(child, depth + 1, after, decode);
      } else {
        TooDeep(Print(child) + after, depth + 1, decode);
      }
    case List(lead, op, mid, items) =>
      hide ParseItem, ParseMany, ParseClauseItem, PlainBody, Gaps, Print, SkipGaps;
      ListText(t, post);
      ItemsText(items, post);
      UnfoldList(lead, op, mid, PrintItems(items) + ([')'] + post), depth, decode);
      RefusesItems(items, depth, post, decode);
  }

  lemma {:induction false} RefusesItems(items: Items, depth: nat, post: string, decode: Decoder)
    requires ShapedItems(items) && !ReadableItems(items, decode) && depth <= MAX_DEPTH
    ensures ParseMany(PrintItems(items) + ([')'] + post), depth, decode) == None
    decreases items
  {
    hide ParseItem, ParseMany, ParseClauseItem, PlainBody, Gaps, Print, PrintItems, SkipGaps, NodeOf, NodesOf, Shaped;
    var first, rest := items.first, items.rest;
    assert Shaped(first) && Gaps(items.gap) && ShapedItems(rest);
    ItemsText(items, post);
    var later := PrintItems(rest) + ([')'] + post);
    UnfoldMany(Print(first) + (items.gap + later), depth, decode);
    SkipGapsOver(items.gap, later);
    if depth + 1 > MAX_DEPTH {
      TooDeep(Print(first) + (items.gap + later), depth + 1, decode);
    } else if Readable(first, decode) {
      ParsesPrinted(first, depth + 1, items.gap + later, decode);
      RefusesItems(rest, depth, post, decode);
    } else {
      RefusesUnreadable(first, depth + 1, items.gap + later, decode);
    }
  }

  // --- The validator refuses gaps and bad items -------------------------------------------

  lemma {:induction false} SimpleItemBlocked(front: string, rest: string)
    requires forall i :: 0 <= i < |front| ==> front[i] != '(' && front[i] != ')'
    ensures SimpleItem(front + ("(" + rest)) == None
  {
    if front == "" {
      assert front + ("(" + rest) == "(" + rest;
    } else {
      SimpleItemBlocked(front[1..], rest);
      assert (front + ("(" + rest))[1..] == front[1..] + ("(" + rest);
    }
  }

  lemma SplitHead(s: string, c: char)
    requires s != "" && s[0] != c
    ensures Split(s, c)[0] != "" && Split(s, c)[0][0] == s[0]
  {
  }

  lemma BlankInFront(body: string)
    requires ValidAssertion(body)
    ensures body != "" && !IsGap(body[0])
  {
    var p := IndexOf(body, '=');
    hide ValidValue, IsAttributeDescription, IsRule;
    if body != "" && IsGap(body[0]) && p >= 1 {
      if body[p - 1] == ':' {
        SplitHead(body[..p - 1], ':');
        AttributeShape(Split(body[..p - 1], ':')[0]);
      } else if body[p - 1] in {'>', '<', '~'} {
        AttributeShape(body[..p - 1]);
      } else {
        AttributeShape(body[..p]);
      }
    }
  }

  lemma ValidatesBody(lead: string, body: string, depth: nat, post: string)
    requires Gaps(lead) && PlainBody(body) && depth <= MAX_DEPTH
    ensures ValidItem("(" + lead + body + ")" + post, depth)
      == if lead == "" && ValidAssertion(body) then Some(post) else None
  {
    var all := lead + body;
    var s1 := all + ([')'] + post);
    assert ("(" + lead + body + ")" + post)[1..] == s1;
    assert s1[0] == all[0] && all[0] == if lead == "" then body[0] else lead[0];
    assert forall i :: 0 <= i < |all| ==> all[i] != '(' && all[i] != ')';
    SimpleItemStops(all, post);
    if ValidAssertion(all) {
      BlankInFront(all);
    }
    assert lead == "" ==> all == body;
    hide ValidAssertion, SimpleItem, Gaps, PlainBody;
    assert s1[|all|..] == [')'] + post && ([')'] + post)[1..] == post;
  }

  /** A gap in front of an operator makes the validator look for an item, and find a parenthesis. */
  lemma GapBlocks(lead: string, op: char, mid: string, rest: string, depth: nat)
    requires Gaps(lead) && lead != "" && Gaps(mid) && op in {'&', '|', '!'} && depth <= MAX_DEPTH
    ensures ValidItem("(" + (lead + ([op] + mid + ("(" + rest))), depth) == None
  {
    var front := lead + ([op] + mid);
    var s1 := lead + ([op] + mid + ("(" + rest));
    assert s1 == front + ("(" + rest) && ("(" + s1)[1..] == s1 && s1[0] == lead[0];
    assert IsGap(lead[0]);
    SimpleItemBlocked(front, rest);
    hide SimpleItem, Gaps, ValidAssertion, ValidMany;
  }

  /** The validator accepts a derivation exactly when it has no gaps, its items are valid and it
      is not too deep. */
  lemma {:induction false} ValidatesShaped(t: Tree, depth: nat, post: string)
    requires Shaped(t) && depth <= MAX_DEPTH
    ensures ValidItem(Print(t) + post, depth)
      == if ValidTree(t) && depth + Depth(t) <= MAX_DEPTH then Some(post) else None
    decreases t, 2
  {
    match t
    case Leaf(lead, body) =>
      hide ValidItem, ValidAssertion, PlainBody, Gaps;
      ValidatesBody(lead, body, depth, post);
    case Not(_, _, child, _) =>
      ValidatesShapedNot(t, depth, post);
    case List(_, _, _, items) =>
      ValidatesShapedList(t, depth, post);
  }

  lemma GapFirst(gap: string, s: string)
    requires Gaps(gap) && gap != ""
    ensures gap + s != "" && (gap + s)[0] == gap[0] != '(' && gap[0] != ')'
  {
    assert IsGap(gap[0]);
  }

  lemma GapIsNoItem(s: string, depth: nat)
    requires s != "" && s[0] != '('
    ensures ValidItem(s, depth) == None && ValidMany(s, depth) == Some((0, s))
  {
  }

  lemma NotTextGapped(lead: string, mid: string, inner: string)
    requires inner != "" && inner[0] == '('
    ensures "(" + lead + "!" + mid + inner == "(" + (lead + (['!'] + mid + ("(" + inner[1..])))
  {
    assert inner == "(" + inner[1..];
  }

  lemma NotTextTight(mid: string, inner: string)
    ensures "(" + "" + "!" + mid + inner == "(!" + (mid + inner)
  {
  }

  lemma {:induction false} ValidatesShapedNot(t: Tree, depth: nat, post: string)
    requires t.Not? && Shaped(t) && depth <= MAX_DEPTH
    ensures ValidItem(Print(t) + post, depth)
      == if ValidTree(t) && depth + Depth(t) <= MAX_DEPTH then Some(post) else None
    decreases t, 0
  {
    var Not(lead, mid, child, tail) := t;
    var inner := Print(child) + (tail + ([')'] + post));
    hide ValidItem, Print, Gaps;
    NotText(t, post);
    PrintOpens(child);
    if lead != "" {
      NotTextGapped(lead, mid, inner);
      GapBlocks(lead, '!', mid, inner[1..], depth);
    } else {
      NotTextTight(mid, inner);
      ValidatesInner(mid, child, tail, depth, post);
    }
  }

  lemma {:induction false} ValidatesInner(mid: string, child: Tree, tail: string, depth: nat, post: string)
    requires Gaps(mid) && Gaps(tail) && Shaped(child) && depth <= MAX_DEPTH
    ensures ValidItem("(!" + (mid + (Print(child) + (tail + ([')'] + post)))), depth)
      == if mid == "" && tail == "" && ValidTree(child) && depth + 1 + Depth(child) <= MAX_DEPTH then Some(post) else None
    decreases child, 3
  {
    hide *;
    var close := [')'] + post;
    var after := tail + close;
    var inner := Print(child) + after;
    UnfoldValidNot(mid + inner, depth);
    assert close[1..] == post;
    if mid != "" {
      GapFirst(mid, inner);
      GapIsNoItem(mid + inner, depth + 1);
    } else {
      assert mid + inner == inner;
      if depth + 1 <= MAX_DEPTH {
        ValidatesShaped(child, depth + 1, after);
      } else {
        InvalidTooDeep(inner, depth + 1);
      }
      if tail != "" {
        GapFirst(tail, close);
      } else {
        assert after == close;
      }
    }
  }

  lemma ListTextTight(op: char, mid: string, inner: string)
    ensures "(" + ("" + ([op] + mid + inner)) == "(" + ([op] + (mid + inner))
  {
    assert "" + ([op] + mid + inner) == [op] + (mid + inner);
  }

  lemma {:induction false} ValidatesShapedList(t: Tree, depth: nat, post: string)
    requires t.List? && Shaped(t) && depth <= MAX_DEPTH
    ensures ValidItem(Print(t) + post, depth)
      == if ValidTree(t) && depth + Depth(t) <= MAX_DEPTH then Some(post) else None
    decreases t, 0
  {
    var List(lead, op, mid, items) := t;
    var inner := PrintItems(items) + ([')'] + post);
    hide ValidItem, Print, PrintItems, Gaps;
    ListText(t, post);
    ItemsText(items, post);
    if lead != "" {
      assert inner == "(" + inner[1..];
      hide *;
      GapBlocks(lead, op, mid, inner[1..], depth);
    } else {
      ListTextTight(op, mid, inner);
      ValidatesMembers(op, mid, items, depth, post);
    }
  }

  lemma {:induction false} ValidatesMembers(op: char, mid: string, items: Items, depth: nat, post: string)
    requires (op == '&' || op == '|') && Gaps(mid) && ShapedItems(items) && items != End && depth <= MAX_DEPTH
    ensures ValidItem("(" + ([op] + (mid + (PrintItems(items) + ([')'] + post)))), depth)
      == if mid == "" && ValidItems(items) && depth + 1 + ItemsDepth(items) <= MAX_DEPTH then Some(post) else None
    decreases items, 3
  {
    assert Count(items) >= 1;
    hide ValidItem, ValidMany, Print, PrintItems, Gaps, Shaped, ShapedItems, ValidItems, ItemsDepth, Count;
    var close := [')'] + post;
    var inner := PrintItems(items) + close;
    UnfoldValidList(op, mid + inner, depth);
    if mid != "" {
      GapFirst(mid, inner);
      GapIsNoItem(mid + inner, depth);
    } else {
      assert mid + inner == inner && close[1..] == post;
      ValidatesShapedItems(items, depth, post);
    }
  }

  /** What ends a list: the closing parenthesis, or something that spoils it. */
  predicate Closed(r: Option<(nat, string)>) {
    r.Some? && r.value.1 != "" && r.value.1[0] == ')'
  }

  lemma NoItems()
    ensures ValidItems(End) && Count(End) == 0
  {
  }

  lemma OneMoreItem(items: Items)
    requires items.More? && ShapedItems(items)
    ensures Shaped(items.first) && Gaps(items.gap) && ShapedItems(items.rest)
    ensures ValidItems(items) <==> ValidTree(items.first) && items.gap == "" && ValidItems(items.rest)
    ensures Count(items) == 1 + Count(items.rest)
    ensures ItemsDepth(items)
      == if items.rest.More? && ItemsDepth(items.rest) > Depth(items.first) then ItemsDepth(items.rest) else Depth(items.first)
  {
    hide Shaped, Gaps, ValidTree, Depth;
  }

  lemma {:induction false} ValidatesShapedItems(items: Items, depth: nat, post: string)
    requires ShapedItems(items) && depth <= MAX_DEPTH
    ensures var r := ValidMany(PrintItems(items) + ([')'] + post), depth);
            if ValidItems(items) && (items == End || depth + 1 + ItemsDepth(items) <= MAX_DEPTH)
            then r == Some((Count(items), [')'] + post)) else !Closed(r)
    decreases items, 1
  {
    hide ValidItem, ValidMany, Print, PrintItems, Gaps, Shaped, ValidItems, ItemsDepth, Count, ShapedItems, ValidTree, Depth;
    if items == End {
      NoItems();
      ValidatesNoItems(depth, post);
    } else {
      var first, gap, rest := items.first, items.gap, items.rest;
      OneMoreItem(items);
      ItemsText(items, post);
      var later := PrintItems(rest) + ([')'] + post);
      UnfoldValidMany(Print(first) + (gap + later), depth);
      if depth + 1 <= MAX_DEPTH {
        ValidatesShaped(first, depth + 1, gap + later);
      } else {
        InvalidTooDeep(Print(first) + (gap + later), depth + 1);
      }
      if gap != "" {
        GapFirst(gap, later);
        GapIsNoItem(gap + later, depth);
      } else {
        assert gap + later == later;
        ValidatesShapedItems(rest, depth, post);
      }
    }
  }

  // --- Sentences of the grammar and their meaning -----------------------------------------

  /** A filter of section 3 of RFC 4515 without matching rules: no gaps, and assertions for items. */
  ghost predicate RfcTree(t: Tree) {
    match t
    case Leaf(lead, body) => lead == "" && PlainBody(body) && Rfc.Derivable(body)
    case Not(lead, mid, child, tail) => lead == "" && mid == "" && tail == "" && RfcTree(child)
    case List(lead, op, mid, items) =>
      lead == "" && mid == "" && (op == '&' || op == '|') && items != End && RfcItems(items)
  }

  ghost predicate RfcItems(items: Items) {
    match items
    case End => true
    case More(first, gap, rest) => RfcTree(first) && gap == "" && RfcItems(rest)
  }

  /** The item is an assertion that these rules find true. */
  ghost predicate ItemHolds(body: string, rules: Rfc.Rules, decode: Decoder) {
    exists a :: Rfc.WellFormed(a) && Rfc.ShowItem(a) == body && Rfc.Holds(a, rules, decode)
  }

  ghost predicate Selects(t: Tree, rules: Rfc.Rules, decode: Decoder) {
    match t
    case Leaf(_, body) => ItemHolds(body, rules, decode)
    case Not(_, _, child, _) => !Selects(child, rules, decode)
    case List(_, op, _, items) => if op == '&' then AllSelect(items, rules, decode) else AnySelects(items, rules, decode)
  }

  ghost predicate AllSelect(items: Items, rules: Rfc.Rules, decode: Decoder) {
    match items
    case End => true
    case More(first, _, rest) => Selects(first, rules, decode) && AllSelect(rest, rules, decode)
  }

  ghost predicate AnySelects(items: Items, rules: Rfc.Rules, decode: Decoder) {
    match items
    case End => false
    case More(first, _, rest) => Selects(first, rules, decode) || AnySelects(rest, rules, decode)
  }

  function AtomsOf(rules: Rfc.Rules): Atoms {
    (attribute, op, value) => Rfc.Atom(rules, attribute, op, value)
  }

  lemma ColonAttribute(body: string)
    requires Rfc.Extensible(body) && SplitClause(body).Some?
    ensures SplitClause(body).value.0 != "" && SplitClause(body).value.0[|SplitClause(body).value.0| - 1] == ':'
  {
  }

  lemma NoColon(s: string)
    requires IsAttributeDescription(s)
    ensures s != "" && s[|s| - 1] != ':'
  {
    AttributeShape(s);
    hide IsAttributeDescription;
  }

  lemma AcceptedIsSimple(body: string, decode: Decoder)
    requires ParseClauseItem(body, decode).Some?
    ensures !Rfc.Extensible(body)
  {
    hide *;
    Rfc.AcceptedParts(body, decode);
    NoColon(Trim(SplitClause(body).value.0));
    if Rfc.Extensible(body) {
      ColonAttribute(body);
      ColonStays(SplitClause(body).value.0);
    }
  }

  lemma ColonStays(s: string)
    requires s != "" && s[|s| - 1] == ':'
    ensures Trim(s) != "" && Trim(s)[|Trim(s)| - 1] == ':'
  {
    ColonKept(s);
    assert TrimEnd(TrimStart(s)) == TrimStart(s);
  }

  lemma {:induction false} ColonKept(s: string)
    requires s != "" && s[|s| - 1] == ':'
    ensures TrimStart(s) != "" && TrimStart(s)[|TrimStart(s)| - 1] == ':'
  {
    if IsSpace(s[0]) {
      ColonKept(s[1..]);
    }
  }

  /** For a derivation the parser reads, valid and conforming are one. */
  lemma {:induction false} ValidIsRfc(t: Tree, decode: Decoder)
    requires Readable(t, decode)
    ensures ValidTree(t) <==> RfcTree(t)
    decreases t
  {
    hide ParseClauseItem, PlainBody, Gaps, ValidAssertion, Rfc.Derivable, Rfc.Extensible;
    match t
    case Leaf(_, body) =>
      AcceptedIsSimple(body, decode);
      Rfc.ValidIsDerivable(body);
    case Not(_, _, child, _) => ValidIsRfc(child, decode);
    case List(_, _, _, items) => ValidAreRfc(items, decode);
  }

  lemma {:induction false} ValidAreRfc(items: Items, decode: Decoder)
    requires ReadableItems(items, decode)
    ensures ValidItems(items) <==> RfcItems(items)
    decreases items
  {
    hide Gaps;
    match items
    case End =>
    case More(first, _, rest) =>
      ValidIsRfc(first, decode);
      ValidAreRfc(rest, decode);
  }

  lemma ItemMeans(body: string, rules: Rfc.Rules, decode: Decoder)
    requires ParseClauseItem(body, decode).Some? && Rfc.Derivable(body)
    ensures var c := ParseClauseItem(body, decode).value;
            ItemHolds(body, rules, decode) <==> AtomsOf(rules)(c.attribute, c.op, c.value)
  {
    var c := ParseClauseItem(body, decode).value;
    Rfc.AcceptedItemAgrees(body, decode);
    hide ParseClauseItem, Rfc.WellFormed, Rfc.ShowItem, Rfc.Holds, Rfc.ClauseOf, Rfc.Atom, Rfc.Clean;
    forall a | Rfc.WellFormed(a) && Rfc.ShowItem(a) == body
      ensures Rfc.Holds(a, rules, decode) <==> Rfc.Atom(rules, c.attribute, c.op, c.value)
    {
      Rfc.ClauseMeansAssertion(a, rules, decode);
    }
    var a :| Rfc.WellFormed(a) && Rfc.ShowItem(a) == body;
  }

  /** A conforming derivation selects what the parser's reading of it selects. */
  lemma {:induction false} SelectsAsRead(t: Tree, rules: Rfc.Rules, decode: Decoder)
    requires Readable(t, decode) && RfcTree(t)
    ensures Selects(t, rules, decode) <==> Means(t, AtomsOf(rules), decode)
    decreases t
  {
    hide ParseClauseItem, PlainBody, Gaps, Rfc.Derivable, ItemHolds, AtomsOf;
    match t
    case Leaf(_, body) => ItemMeans(body, rules, decode);
    case Not(_, _, child, _) => SelectsAsRead(child, rules, decode);
    case List(_, _, _, items) => SelectAsRead(items, rules, decode);
  }

  lemma {:induction false} SelectAsRead(items: Items, rules: Rfc.Rules, decode: Decoder)
    requires ReadableItems(items, decode) && RfcItems(items)
    ensures AllSelect(items, rules, decode) <==> AllMean(items, AtomsOf(rules), decode)
    ensures AnySelects(items, rules, decode) <==> AnyMeans(items, AtomsOf(rules), decode)
    decreases items
  {
    hide Gaps, AtomsOf;
    match items
    case End =>
    case More(first, _, rest) =>
      SelectsAsRead(first, rules, decode);
      SelectAsRead(rest, rules, decode);
  }

  // --- Both on one filter -----------------------------------------------------------------

  /** A derivation is parsed exactly when its items can be shown, and valid exactly when its items
      are valid and nothing stands between its tokens. */
  lemma ParsedAndValid(t: Tree, decode: Decoder)
    requires Shaped(t)
    ensures ParseFilterStructure(Print(t), decode).Some? <==> Readable(t, decode) && Depth(t) <= MAX_DEPTH
    ensures ValidateFilter(Print(t)) <==> ValidTree(t) && Depth(t) <= MAX_DEPTH
  {
    PrintTrimmed(t);
    ValidatesShaped(t, 0, "");
    assert Print(t) + "" == Print(t);
    assert SkipGaps("") == "";
    hide ParseItem, ValidItem, Readable, Shaped, ValidTree, Print, Trim;
    if Readable(t, decode) {
      ParsesPrinted(t, 0, "", decode);
    } else {
      RefusesUnreadable(t, 0, "", decode);
    }
  }

  lemma NoGapBehind(filter: string, printed: string, gap: string)
    requires Trim(filter) == printed + gap && Gaps(gap)
    ensures gap == ""
  {
    TrimTrims(filter);
    hide Trim;
    if gap != "" {
      GapEnds(printed, gap);
    }
  }

  lemma GapEnds(front: string, gap: string)
    requires Gaps(gap) && gap != ""
    ensures front + gap != "" && IsSpace((front + gap)[|front + gap| - 1])
  {
    assert IsGap(gap[|gap| - 1]) && (front + gap)[|front + gap| - 1] == gap[|gap| - 1];
  }

  /** An accepted filter is a sentence of RFC 4515 exactly when the validator accepts it too, and then
      the node shown selects what the sentence selects, under any matching rules. */
  lemma AcceptedFilterConforms(filter: string, decode: Decoder) returns (t: Tree)
    requires ParseFilterStructure(filter, decode).Some?
    ensures Readable(t, decode) && Depth(t) <= MAX_DEPTH && Trim(filter) == Print(t)
    ensures ValidateFilter(filter) <==> RfcTree(t)
    ensures (exists t' :: RfcTree(t') && Depth(t') <= MAX_DEPTH && Print(t') == Trim(filter)) <==> RfcTree(t)
    ensures RfcTree(t) ==> forall rules: Rfc.Rules ::
              Eval(ParseFilterStructure(filter, decode).value, AtomsOf(rules)) <==> Selects(t, rules, decode)
  {
    hide *;
    var gap: string;
    t, gap := ParsingKeepsMeaning(filter, decode);
    NoGapBehind(filter, Print(t), gap);
    assert Print(t) + gap == Print(t);
    ReadableIsShaped(t, decode);
    ParsedAndValid(t, decode);
    ValidIsRfc(t, decode);
    ValidTrims(filter);
    if RfcTree(t) {
      forall rules: Rfc.Rules
        ensures Eval(ParseFilterStructure(filter, decode).value, AtomsOf(rules)) <==> Selects(t, rules, decode)
      {
        SelectsAsRead(t, rules, decode);
      }
    }
    forall t' | RfcTree(t') && Depth(t') <= MAX_DEPTH && Print(t') == Print(t) ensures RfcTree(t) {
      RfcIsValid(t');
      PrintedIsValid(t');
    }
  }

  lemma ValidTrims(filter: string)
    ensures ValidateFilter(filter) <==> ValidateFilter(Trim(filter))
  {
    TrimAgain(filter);
    hide Trim, ValidItem;
  }

  lemma {:induction false} RfcIsValid(t: Tree)
    requires RfcTree(t)
    ensures ValidTree(t)
    decreases t
  {
    hide PlainBody, ValidAssertion, Rfc.Derivable;
    match t
    case Leaf(_, body) => Rfc.ValidIsDerivable(body);
    case Not(_, _, child, _) => RfcIsValid(child);
    case List(_, _, _, items) => RfcAreValid(items);
  }

  lemma {:induction false} RfcAreValid(items: Items)
    requires RfcItems(items)
    ensures ValidItems(items)
    decreases items
  {
    match items
    case End =>
    case More(first, _, rest) =>
      RfcIsValid(first);
      RfcAreValid(rest);
  }
}
