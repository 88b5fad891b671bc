/**
 The nesting of filters in section 3 of RFC 4515, with the white space the parser tolerates between
 tokens, as derivation trees; their meaning; and the parser measured against them. The items here
 are those parseClauseItem reads; FilterRfc has the items of the standard, and FilterConformance
 says when the two agree.
 */
module FilterGrammar {
  import opened Wrappers
  import opened Text
  import opened LdapFilter
  import opened FilterItems

  /** A derivation of a filter. The strings are the white space found between tokens. */
  datatype Tree =
    | Leaf(lead: string, body: string)
    | Not(lead: string, mid: string, child: Tree, tail: string)
    | List(lead: string, op: char, mid: string, items: Items)

  datatype Items = End | More(first: Tree, gap: string, rest: Items)

  function Print(t: Tree): string {
    match t
    case Leaf(lead, body) => "(" + lead + body + ")"
    case Not(lead, mid, child, tail) => "(" + lead + "!" + mid + Print(child) + tail + ")"
    case List(lead, op, mid, items) => "(" + lead + [op] + mid + PrintItems(items) + ")"
  }

  function PrintItems(items: Items): string {
    match items
    case End => ""
    case More(first, gap, rest) => Print(first) + gap + PrintItems(rest)
  }

  function Depth(t: Tree): nat {
    match t
    case Leaf(_, _) => 0
    case Not(_, _, child, _) => 1 + Depth(child)
    case List(_, _, _, items) => 1 + ItemsDepth(items)
  }

  function ItemsDepth(items: Items): nat {
    match items
    case End => 0
    case More(first, _, rest) =>
      if Depth(first) < ItemsDepth(rest) then ItemsDepth(rest) else Depth(first)
  }

  predicate Gaps(s: string) {
    forall i :: 0 <= i < |s| ==> IsGap(s[i])
  }

  /** A derivation whose items the visual builder can show. */
  predicate Readable(t: Tree, decode: Decoder) {
    match t
    case Leaf(lead, body) => Gaps(lead) && PlainBody(body) && ParseClauseItem(body, decode).Some?
    case Not(lead, mid, child, tail) => Gaps(lead) && Gaps(mid) && Gaps(tail) && Readable(child, decode)
    case List(lead, op, mid, items) =>
      Gaps(lead) && Gaps(mid) && (op == '&' || op == '|') && items != End && ReadableItems(items, decode)
  }

  predicate ReadableItems(items: Items, decode: Decoder) {
    match items
    case End => true
    case More(first, gap, rest) => Readable(first, decode) && Gaps(gap) && ReadableItems(rest, decode)
  }

  // --- Meaning --------------------------------------------------------------------------

  /** Which entries an attribute assertion selects; any interpretation will do. */
  type Atoms = (string, Op, string) -> bool

  predicate Means(t: Tree, atoms: Atoms, decode: Decoder)
    requires Readable(t, decode)
  {
    match t
    case Leaf(_, body) =>
      var c := ParseClauseItem(body, decode).value;
      atoms(c.attribute, c.op, c.value)
    case Not(_, _, child, _) => !Means(child, atoms, decode)
    case List(_, op, _, items) => if op == '&' then AllMean(items, atoms, decode) else AnyMeans(items, atoms, decode)
  }

  predicate AllMean(items: Items, atoms: Atoms, decode: Decoder)
    requires ReadableItems(items, decode)
  {
    match items
    case End => true
    case More(first, _, rest) => Means(first, atoms, decode) && AllMean(rest, atoms, decode)
  }

  predicate AnyMeans(items: Items, atoms: Atoms, decode: Decoder)
    requires ReadableItems(items, decode)
  {
    match items
    case End => false
    case More(first, _, rest) => Means(first, atoms, decode) || AnyMeans(rest, atoms, decode)
  }

  /** The meaning of a builder node: notEquals and a set negate flag are one negation each. */
  predicate Eval(n: Node, atoms: Atoms) {
    match n
    case Clause(attribute, op, value, negate) =>
      var holds := if op == NotEquals then !atoms(attribute, Equals, value) else atoms(attribute, op, value);
      if negate then !holds else holds
    case Group(join, children, negate) =>
      var holds := if join == And then forall c :: c in children ==> Eval(c, atoms)
                   else exists c :: c in children && Eval(c, atoms);
      if negate then !holds else holds
  }

  // --- The parser reads exactly the grammar ---------------------------------------------

  function NodeOf(t: Tree, decode: Decoder): Node
    requires Readable(t, decode)
  {
    match t
    case Leaf(_, body) => ParseClauseItem(body, decode).value
    case Not(_, _, child, _) => Negated(NodeOf(child, decode))
    case List(_, op, _, items) => Group(if op == '&' then And else Or, NodesOf(items, decode), false)
  }

  function NodesOf(items: Items, decode: Decoder): (r: seq<Node>)
    requires ReadableItems(items, decode)
    ensures r == [] <==> items == End
  {
    match items
    case End => []
    case More(first, _, rest) => [NodeOf(first, decode)] + NodesOf(rest, decode)
  }

  lemma SkipGapsOver(gap: string, s: string)
    requires Gaps(gap) && (s != "" ==> !IsGap(s[0]))
    ensures SkipGaps(gap + s) == s
  {
    if gap == "" {
      assert gap + s == s;
    } else {
      assert (gap + s)[1..] == gap[1..] + s;
      SkipGapsOver(gap[1..], s);
    }
  }

  lemma PrintOpens(t: Tree)
    ensures Print(t) != "" && Print(t)[0] == '('
  {
  }

  /** A printed derivation, with anything after it, is read whole: exactly when it is not too deep. */
  lemma {:induction false} ParsesPrinted(t: Tree, depth: nat, post: string, decode: Decoder)
    requires Readable(t, decode) && depth <= MAX_DEPTH
    ensures ParseItem(Print(t) + post, depth, decode)
      == if depth + Depth(t) <= MAX_DEPTH then Some((NodeOf(t, decode), post)) else None
    decreases t
  {
    match t
    case Leaf(lead, body) =>
      var s := body + [')'] + post;
      assert Print(t) + post == "(" + lead + s;
      SkipGapsOver(lead, s);
      ParsesLeaf(lead, body, post, depth, decode);
    case Not(lead, mid, child, tail) =>
      ParsesNot(t, depth, post, decode);
    case List(lead, op, mid, items) =>
      ParsesList(t, depth, post, decode);
  }

  lemma ParsesLeaf(lead: string, body: string, post: string, depth: nat, decode: Decoder)
    requires Gaps(lead) && PlainBody(body) && depth <= MAX_DEPTH
    ensures ParseItem("(" + lead + body + ")" + post, depth, decode)
      == match ParseClauseItem(body, decode) case None => None case Some(c) => Some((c, post))
  {
    var s := body + [')'] + post;
    var whole := "(" + lead + body + ")" + post;
    assert whole[1..] == lead + s;
    SkipGapsOver(lead, s);
    hide ParseClauseItem;
    IndexOfAt(body, ')', post);
    assert s[..|body|] == body && s[|body| + 1..] == post;
  }

  lemma UnfoldNot(lead: string, mid: string, inner: string, depth: nat, decode: Decoder)
    requires Gaps(lead) && Gaps(mid) && inner != "" && !IsGap(inner[0]) && depth <= MAX_DEPTH
    ensures ParseItem("(" + lead + "!" + mid + inner, depth, decode)
      == match ParseItem(inner, depth + 1, decode)
         case None => None
         case Some((child, s2)) =>
           var s3 := SkipGaps(s2);
           if s3 == "" || s3[0] != ')' then None else Some((Negated(child), s3[1..]))
  {
    hide Negated;
    var s1 := "!" + mid + inner;
    assert ("(" + lead + "!" + mid + inner)[1..] == lead + s1;
    SkipGapsOver(lead, s1);
    assert s1[1..] == mid + inner;
    SkipGapsOver(mid, inner);
  }

  lemma NotText(t: Tree, post: string)
    requires t.Not?
    ensures Print(t) + post == "(" + t.lead + "!" + t.mid + (Print(t.child) + (t.tail + ([')'] + post)))
  {
    assert Print(t) == "(" + t.lead + "!" + t.mid + Print(t.child) + t.tail + ")" by {
    }
  }

  lemma NotParts(t: Tree, decode: Decoder)
    requires t.Not? && Readable(t, decode)
    ensures Readable(t.child, decode) && Gaps(t.lead) && Gaps(t.mid) && Gaps(t.tail)
    ensures NodeOf(t, decode) == Negated(NodeOf(t.child, decode)) && Depth(t) == 1 + Depth(t.child)
  {
    hide Gaps, Negated;
  }

  lemma ParsesNot(t: Tree, depth: nat, post: string, decode: Decoder)
    requires t.Not? && Readable(t, decode) && depth <= MAX_DEPTH
    ensures ParseItem(Print(t) + post, depth, decode)
      == if depth + Depth(t) <= MAX_DEPTH then Some((NodeOf(t, decode), post)) else None
    decreases t, 0
  {
    hide *;
    NotParts(t, decode);
    NotText(t, post);
    var close := [')'] + post;
    var after := t.tail + close;
    var inner := Print(t.child) + after;
    PrintOpens(t.child);
    ParenIsNoGap();
    UnfoldNot(t.lead, t.mid, inner, depth, decode);
    if depth + 1 <= MAX_DEPTH {
      ParsesPrinted(t.child, depth + 1, after, decode);
    } else {
      TooDeep(inner, depth + 1, decode);
    }
    SkipGapsOver(t.tail, close);
    assert close[1..] == post;
  }

  lemma ParenIsNoGap()
    ensures !IsGap('(') && !IsGap(')')
  {
  }

  lemma TooDeep(s: string, depth: nat, decode: Decoder)
    requires depth > MAX_DEPTH
    ensures ParseItem(s, depth, decode) == None
  {
  }

  lemma ListText(t: Tree, post: string)
    requires t.List?
    ensures Print(t) + post == "(" + (t.lead + ([t.op] + t.mid + (PrintItems(t.items) + ([')'] + post))))
  {
    assert Print(t) == "(" + t.lead + [t.op] + t.mid + PrintItems(t.items) + ")" by {
    }
  }

  lemma UnfoldList(lead: string, op: char, mid: string, inner: string, depth: nat, decode: Decoder)
    requires Gaps(lead) && Gaps(mid) && inner != "" && !IsGap(inner[0]) && (op == '&' || op == '|') && depth <= MAX_DEPTH
    ensures ParseItem("(" + (lead + ([op] + mid + inner)), depth, decode)
      == match ParseMany(inner, depth, decode)
         case None => None
         case Some((children, s2)) =>
           if children == [] || s2 == "" || s2[0] != ')' then None
           else Some((Group(if op == '&' then And else Or, children, false), s2[1..]))
  {
    hide ParseMany, Gaps, ParseClauseItem;
    var s1 := [op] + mid + inner;
    assert ("(" + (lead + s1))[1..] == lead + s1;
    SkipGapsOver(lead, s1);
    assert s1[1..] == mid + inner;
    SkipGapsOver(mid, inner);
  }

  lemma ListParts(t: Tree, decode: Decoder)
    requires t.List? && Readable(t, decode)
    ensures ReadableItems(t.items, decode) && Gaps(t.lead) && Gaps(t.mid) && (t.op == '&' || t.op == '|') && t.items != End
    ensures NodeOf(t, decode) == Group(if t.op == '&' then And else Or, NodesOf(t.items, decode), false)
    ensures Depth(t) == 1 + ItemsDepth(t.items)
  {
    hide Gaps;
  }

  lemma ParsesList(t: Tree, depth: nat, post: string, decode: Decoder)
    requires t.List? && Readable(t, decode) && depth <= MAX_DEPTH
    ensures ParseItem(Print(t) + post, depth, decode)
      == if depth + Depth(t) <= MAX_DEPTH then Some((NodeOf(t, decode), post)) else None
    decreases t, 0
  {
    hide *;
    ListParts(t, decode);
    ListText(t, post);
    var close := [')'] + post;
    var inner := PrintItems(t.items) + close;
    ItemsText(t.items, post);
    UnfoldList(t.lead, t.op, t.mid, inner, depth, decode);
    ParsesItems(t.items, depth, post, decode);
    assert close[1..] == post;
  }

  lemma ItemsText(items: Items, post: string)
    requires items.More?
    ensures var later := PrintItems(items.rest) + ([')'] + post);
            PrintItems(items) + ([')'] + post) == Print(items.first) + (items.gap + later)
            && later != "" && !IsGap(later[0])
    ensures Print(items.first) != "" && Print(items.first)[0] == '('
    ensures var s := PrintItems(items) + ([')'] + post);
            s != "" && s[0] == '(' && !IsGap(s[0])
  {
    PrintOpens(items.first);
    if items.rest.More? {
      PrintOpens(items.rest.first);
    }
    hide Print;
  }

  lemma UnfoldMany(s: string, depth: nat, decode: Decoder)
    requires s != "" && s[0] == '('
    ensures var first := ParseItem(s, depth + 1, decode);
            && (first.None? ==> ParseMany(s, depth, decode) == None)
            && (first.Some? ==>
                  var more := ParseMany(SkipGaps(first.value.1), depth, decode);
                  ParseMany(s, depth, decode)
                    == if more.None? then None else Some(([first.value.0] + more.value.0, more.value.1)))
  {
    hide ParseItem, SkipGaps;
  }

  lemma MoreParts(items: Items, decode: Decoder)
    requires items.More? && ReadableItems(items, decode)
    ensures Readable(items.first, decode) && Gaps(items.gap) && ReadableItems(items.rest, decode)
    ensures NodesOf(items, decode) == [NodeOf(items.first, decode)] + NodesOf(items.rest, decode)
    ensures ItemsDepth(items)
      == if Depth(items.first) < ItemsDepth(items.rest) then ItemsDepth(items.rest) else Depth(items.first)
    ensures items.rest == End ==> ItemsDepth(items.rest) == 0
  {
  }

  lemma ParsesNoItems(depth: nat, post: string, decode: Decoder)
    ensures ParseMany(PrintItems(End) + ([')'] + post), depth, decode) == Some((NodesOf(End, decode), [')'] + post))
  {
    assert PrintItems(End) + ([')'] + post) == [')'] + post;
  }

  lemma ParsesItems(items: Items, depth: nat, post: string, decode: Decoder)
    requires ReadableItems(items, decode) && depth <= MAX_DEPTH
    ensures ParseMany(PrintItems(items) + ([')'] + post), depth, decode)
      == if items == End || depth + 1 + ItemsDepth(items) <= MAX_DEPTH
         then Some((NodesOf(items, decode), [')'] + post)) else None
    decreases items, 1
  {
    hide *;
    if items == End {
      ParsesNoItems(depth, post, decode);
    } else {
      var first, gap, rest := items.first, items.gap, items.rest;
      MoreParts(items, decode);
      ItemsText(items, post);
      var later := PrintItems(rest) + ([')'] + post);
      var s := Print(first) + (gap + later);
      UnfoldMany(s, depth, decode);
      if depth + 1 <= MAX_DEPTH {
        ParsesPrinted(first, depth + 1, gap + later, decode);
      } else {
        TooDeep(s, depth + 1, decode);
      }
      SkipGapsOver(gap, later);
      ParsesItems(rest, depth, post, decode);
    }
  }

  // --- The parser accepts nothing else --------------------------------------------------

  lemma GapOf(s: string) returns (gap: string)
    ensures Gaps(gap) && s == gap + SkipGaps(s)
  {
    if s != "" && IsGap(s[0]) {
      var rest := GapOf(s[1..]);
      gap := [s[0]] + rest;
    } else {
      gap := "";
    }
  }

  /** Whatever the parser accepts is a derivation, and the node it returns is that derivation's. */
  lemma {:induction false} ParsedIsGrammatical(s: string, depth: nat, decode: Decoder) returns (t: Tree)
    requires ParseItem(s, depth, decode).Some?
    ensures Readable(t, decode) && depth + Depth(t) <= MAX_DEPTH
    ensures s == Print(t) + ParseItem(s, depth, decode).value.1
    ensures ParseItem(s, depth, decode).value.0 == NodeOf(t, decode)
    decreases |s|, 1
  {
    var s1 := SkipGaps(s[1..]);
    if s1[0] == '&' || s1[0] == '|' {
      t := ParsedList(s, depth, decode);
    } else if s1[0] == '!' {
      t := ParsedNot(s, depth, decode);
    } else {
      t := ParsedLeaf(s, depth, decode);
    }
  }

  lemma EmptyBody(decode: Decoder)
    ensures ParseClauseItem("", decode) == None
  {
  }

  lemma LeafShape(s: string, depth: nat, decode: Decoder)
    requires ParseItem(s, depth, decode).Some? && SkipGaps(s[1..])[0] !in {'&', '|', '!'}
    ensures var s1 := SkipGaps(s[1..]);
            var close := IndexOf(s1, ')');
            s[0] == '(' && depth <= MAX_DEPTH && close >= 0 && '(' !in s1[..close]
            && ParseClauseItem(s1[..close], decode).Some?
            && ParseItem(s, depth, decode) == Some((ParseClauseItem(s1[..close], decode).value, s1[close + 1..]))
  {
    hide ParseClauseItem;
  }

  lemma GlueLeaf(s: string, lead: string, body: string, post: string)
    requires s != "" && s[0] == '(' && s[1..] == lead + (body + [')'] + post)
    ensures s == Print(Leaf(lead, body)) + post
  {
    assert s == "(" + s[1..];
  }

  lemma BodyIsPlain(s: string)
    requires s != "" && !IsGap(s[0]) && s[0] !in {'&', '|', '!'}
    requires IndexOf(s, ')') > 0 && '(' !in s[..IndexOf(s, ')')]
    ensures var close := IndexOf(s, ')');
            PlainBody(s[..close]) && s == s[..close] + [')'] + s[close + 1..]
  {
  }

  lemma ParsedLeaf(s: string, depth: nat, decode: Decoder) returns (t: Tree)
    requires ParseItem(s, depth, decode).Some?
    requires SkipGaps(s[1..])[0] !in {'&', '|', '!'}
    ensures Readable(t, decode) && Depth(t) == 0
    ensures s == Print(t) + ParseItem(s, depth, decode).value.1
    ensures ParseItem(s, depth, decode).value.0 == NodeOf(t, decode)
  {
    hide ParseItem, ParseClauseItem, Print, PlainBody, SkipGaps, Gaps;
    LeafShape(s, depth, decode);
    EmptyBody(decode);
    var lead := GapOf(s[1..]);
    var s1 := SkipGaps(s[1..]);
    var close := IndexOf(s1, ')');
    var body := s1[..close];
    t := Leaf(lead, body);
    assert close != 0 by {
      assert close == 0 ==> body == "";
    }
    BodyIsPlain(s1);
    GlueLeaf(s, lead, body, s1[close + 1..]);
  }

  lemma NotShape(s: string, depth: nat, decode: Decoder)
    requires ParseItem(s, depth, decode).Some? && SkipGaps(s[1..])[0] == '!'
    ensures s != "" && SkipGaps(s[1..]) != ""
    ensures var inner := SkipGaps(SkipGaps(s[1..])[1..]);
            && |inner| < |s| && depth < MAX_DEPTH && s[0] == '('
            && ParseItem(inner, depth + 1, decode).Some?
            && SkipGaps(s[1..])[0] == '!'
            && var (child, s2) := ParseItem(inner, depth + 1, decode).value;
               SkipGaps(s2) != "" && SkipGaps(s2)[0] == ')'
               && ParseItem(s, depth, decode) == Some((Negated(child), SkipGaps(s2)[1..]))
  {
    hide Negated;
  }

  lemma HeadTail(s: string)
    requires s != ""
    ensures s == [s[0]] + s[1..]
  {
  }

  lemma GlueNot(s: string, t: Tree, s1: string, inner: string, s2: string, post: string)
    requires t.Not? && s != "" && s[0] == '(' && s[1..] == t.lead + s1
    requires s1 != "" && s1[0] == '!' && s1[1..] == t.mid + inner
    requires inner == Print(t.child) + s2 && s2 == t.tail + ([')'] + post)
    ensures s == Print(t) + post
  {
    HeadTail(s);
    HeadTail(s1);
    NotText(t, post);
    hide Print;
    var tail := t.mid + inner;
    assert "(" + (t.lead + ("!" + tail)) == "(" + t.lead + "!" + t.mid + inner;
  }

  lemma ParsedNot(s: string, depth: nat, decode: Decoder) returns (t: Tree)
    requires ParseItem(s, depth, decode).Some?
    requires SkipGaps(s[1..])[0] == '!'
    ensures Readable(t, decode) && depth + Depth(t) <= MAX_DEPTH
    ensures s == Print(t) + ParseItem(s, depth, decode).value.1
    ensures ParseItem(s, depth, decode).value.0 == NodeOf(t, decode)
    decreases |s|, 0
  {
    NotShape(s, depth, decode);
    hide *;
    var s1 := SkipGaps(s[1..]);
    var inner := SkipGaps(s1[1..]);
    var lead := GapOf(s[1..]);
    var mid := GapOf(s1[1..]);
    var child := ParsedIsGrammatical(inner, depth + 1, decode);
    var s2 := ParseItem(inner, depth + 1, decode).value.1;
    var tail := GapOf(s2);
    var s3 := SkipGaps(s2);
    t := Not(lead, mid, child, tail);
    HeadTail(s3);
    GlueNot(s, t, s1, inner, s2, s3[1..]);
    NotFromParts(t, decode);
  }

  lemma NotFromParts(t: Tree, decode: Decoder)
    requires t.Not? && Readable(t.child, decode) && Gaps(t.lead) && Gaps(t.mid) && Gaps(t.tail)
    ensures Readable(t, decode) && NodeOf(t, decode) == Negated(NodeOf(t.child, decode)) && Depth(t) == 1 + Depth(t.child)
  {
    hide Gaps, Negated;
  }

  lemma ListShape(s: string, depth: nat, decode: Decoder)
    requires ParseItem(s, depth, decode).Some? && (SkipGaps(s[1..])[0] == '&' || SkipGaps(s[1..])[0] == '|')
    ensures s != "" && SkipGaps(s[1..]) != ""
    ensures var s1 := SkipGaps(s[1..]);
            var inner := SkipGaps(s1[1..]);
            && |inner| < |s| && depth <= MAX_DEPTH && s[0] == '('
            && ParseMany(inner, depth, decode).Some?
            && var (children, s2) := ParseMany(inner, depth, decode).value;
               children != [] && s2 != "" && s2[0] == ')'
               && ParseItem(s, depth, decode) == Some((Group(if s1[0] == '&' then And else Or, children, false), s2[1..]))
  {
    hide ParseMany;
  }

  lemma GlueList(s: string, t: Tree, s1: string, inner: string, post: string)
    requires t.List? && s != "" && s[0] == '(' && s[1..] == t.lead + s1
    requires s1 != "" && s1[0] == t.op && s1[1..] == t.mid + inner
    requires inner == PrintItems(t.items) + ([')'] + post)
    ensures s == Print(t) + post
  {
    HeadTail(s);
    HeadTail(s1);
    ListText(t, post);
    hide Print, PrintItems;
    assert [t.op] + (t.mid + inner) == [t.op] + t.mid + inner;
  }

  lemma ParsedList(s: string, depth: nat, decode: Decoder) returns (t: Tree)
    requires ParseItem(s, depth, decode).Some?
    requires SkipGaps(s[1..])[0] == '&' || SkipGaps(s[1..])[0] == '|'
    ensures Readable(t, decode) && depth + Depth(t) <= MAX_DEPTH
    ensures s == Print(t) + ParseItem(s, depth, decode).value.1
    ensures ParseItem(s, depth, decode).value.0 == NodeOf(t, decode)
    decreases |s|, 0
  {
    ListShape(s, depth, decode);
    hide *;
    var s1 := SkipGaps(s[1..]);
    var inner := SkipGaps(s1[1..]);
    var lead := GapOf(s[1..]);
    var mid := GapOf(s1[1..]);
    var items := ParsedMany(inner, depth, decode);
    var s2 := ParseMany(inner, depth, decode).value.1;
    t := List(lead, s1[0], mid, items);
    HeadTail(s2);
    GlueList(s, t, s1, inner, s2[1..]);
    ListFromParts(t, decode);
  }

  lemma ListFromParts(t: Tree, decode: Decoder)
    requires t.List? && ReadableItems(t.items, decode) && Gaps(t.lead) && Gaps(t.mid) && (t.op == '&' || t.op == '|')
    ensures NodesOf(t.items, decode) != [] ==> Readable(t, decode)
    ensures NodesOf(t.items, decode) != [] ==>
      NodeOf(t, decode) == Group(if t.op == '&' then And else Or, NodesOf(t.items, decode), false)
    ensures Depth(t) == 1 + ItemsDepth(t.items)
    ensures NodesOf(t.items, decode) != [] ==> t.items != End
  {
    hide Gaps;
  }

  lemma ManyShape(s: string, depth: nat, decode: Decoder)
    requires ParseMany(s, depth, decode).Some? && s != "" && s[0] == '('
    ensures ParseItem(s, depth + 1, decode).Some? && |ParseItem(s, depth + 1, decode).value.1| < |s|
            && |SkipGaps(ParseItem(s, depth + 1, decode).value.1)| < |s|
            && var (child, s1) := ParseItem(s, depth + 1, decode).value;
               ParseMany(SkipGaps(s1), depth, decode).Some?
               && var (children, s2) := ParseMany(SkipGaps(s1), depth, decode).value;
                  ParseMany(s, depth, decode) == Some(([child] + children, s2))
  {
    hide ParseItem;
  }

  lemma ManyEnds(s: string, depth: nat, decode: Decoder)
    requires s == "" || s[0] != '('
    ensures ParseMany(s, depth, decode) == Some(([], s)) && "" + s == s
  {
  }

  lemma ParsedMany(s: string, depth: nat, decode: Decoder) returns (items: Items)
    requires ParseMany(s, depth, decode).Some? && depth <= MAX_DEPTH
    ensures ReadableItems(items, decode) && (items != End ==> depth + 1 + ItemsDepth(items) <= MAX_DEPTH)
    ensures s == PrintItems(items) + ParseMany(s, depth, decode).value.1
    ensures ParseMany(s, depth, decode).value.0 == NodesOf(items, decode)
    decreases |s|, 2
  {
    hide *;
    if s == "" || s[0] != '(' {
      items := End;
      ManyEnds(s, depth, decode);
      EndParts(decode);
    } else {
      ManyShape(s, depth, decode);
      var first := ParsedIsGrammatical(s, depth + 1, decode);
      var s1 := ParseItem(s, depth + 1, decode).value.1;
      var gap := GapOf(s1);
      var rest := ParsedMany(SkipGaps(s1), depth, decode);
      items := More(first, gap, rest);
      MoreFromParts(items, decode);
      GlueMany(s, items, s1, SkipGaps(s1), ParseMany(s, depth, decode).value.1);
    }
  }

  lemma EndParts(decode: Decoder)
    ensures ReadableItems(End, decode) && PrintItems(End) == "" && NodesOf(End, decode) == []
  {
  }

  lemma MoreFromParts(items: Items, decode: Decoder)
    requires items.More? && Readable(items.first, decode) && Gaps(items.gap) && ReadableItems(items.rest, decode)
    ensures ReadableItems(items, decode)
    ensures NodesOf(items, decode) == [NodeOf(items.first, decode)] + NodesOf(items.rest, decode)
    ensures ItemsDepth(items)
      == if Depth(items.first) < ItemsDepth(items.rest) then ItemsDepth(items.rest) else Depth(items.first)
    ensures items.rest == End ==> ItemsDepth(items.rest) == 0
  {
    hide Gaps;
  }

  lemma GlueMany(s: string, items: Items, s1: string, s2: string, post: string)
    requires items.More? && s == Print(items.first) + s1 && s1 == items.gap + s2 && s2 == PrintItems(items.rest) + post
    ensures s == PrintItems(items) + post
  {
  }

  // --- Folding and unfolding negations keeps the meaning --------------------------------

  lemma NegatedNegates(child: Node, atoms: Atoms)
    ensures Eval(Negated(child), atoms) == !Eval(child, atoms)
  {
    if child.negate {
      var n := Group(And, [child], true);
      assert child in n.children;
      assert Eval(n, atoms) == !Eval(child, atoms);
    }
  }

  /** The parsed node means what the derivation means. */
  lemma {:induction false} NodeMeansTree(t: Tree, atoms: Atoms, decode: Decoder)
    requires Readable(t, decode)
    ensures Eval(NodeOf(t, decode), atoms) == Means(t, atoms, decode)
  {
    match t
    case Leaf(_, _) =>
    case Not(_, _, child, _) =>
      NodeMeansTree(child, atoms, decode);
      NegatedNegates(NodeOf(child, decode), atoms);
    case List(_, op, _, items) =>
      NodesMeanItems(items, atoms, decode);
  }

  lemma {:induction false} NodesMeanItems(items: Items, atoms: Atoms, decode: Decoder)
    requires ReadableItems(items, decode)
    ensures (forall c :: c in NodesOf(items, decode) ==> Eval(c, atoms)) <==> AllMean(items, atoms, decode)
    ensures (exists c :: c in NodesOf(items, decode) && Eval(c, atoms)) <==> AnyMeans(items, atoms, decode)
  {
    match items
    case End =>
    case More(first, _, rest) =>
      NodeMeansTree(first, atoms, decode);
      NodesMeanItems(rest, atoms, decode);
      var ns := NodesOf(items, decode);
      assert ns[0] == NodeOf(first, decode) && ns[1..] == NodesOf(rest, decode);
      assert forall c :: c in ns <==> c == ns[0] || c in ns[1..];
  }

  /** Parsing an accepted string: it is a sentence of the grammar and keeps its meaning. */
  lemma ParsingKeepsMeaning(filter: string, decode: Decoder) returns (t: Tree, gap: string)
    requires ParseFilterStructure(filter, decode).Some?
    ensures Readable(t, decode) && Depth(t) <= MAX_DEPTH && Gaps(gap)
    ensures Trim(filter) == Print(t) + gap
    ensures forall atoms: Atoms :: Eval(ParseFilterStructure(filter, decode).value, atoms) == Means(t, atoms, decode)
  {
    t := ParsedIsGrammatical(Trim(filter), 0, decode);
    gap := GapOf(ParseItem(Trim(filter), 0, decode).value.1);
    forall atoms: Atoms ensures Eval(NodeOf(t, decode), atoms) == Means(t, atoms, decode) {
      NodeMeansTree(t, atoms, decode);
    }
  }
}
