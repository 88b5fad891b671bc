/** The builder's output as derivations of the grammar: round trip and validity. */
module FilterBuilder {
  import opened Wrappers
  import opened Text
  import opened LdapFilter
  import opened FilterItems
  import opened FilterGrammar

  /** The item a clause contributes; None when it is incomplete and is dropped. */
  function ClauseBody(c: Node): Option<string>
    requires c.Clause?
  {
    var attr := SafeAttribute(c.attribute);
    var raw := Trim(c.value);
    if attr == "" then None
    else if c.op == Present then Some(ItemBody(attr, Present, ""))
    else if raw == "" then None
    else if (c.op == Equals || c.op == NotEquals) && GuidEquality(c.attribute, c.value) then
      Some("objectGUID" + "=" + GuidBytes(HexDigits(raw), GUID_ORDER))
    else Some(ItemBody(attr, if c.op == NotEquals then Equals else c.op, EscapeFilterValue(raw)))
  }

  function Negate(t: Tree, negate: bool): Tree {
    if negate then Tree.Not("", "", t, "") else t
  }

  function BuildTree(n: Node): Option<Tree>
    decreases n, 0
  {
    match n
    case Clause(_, op, _, negate) =>
      (match ClauseBody(n)
       case None => None
       case Some(body) => Some(Negate(Leaf("", body), negate || op == NotEquals)))
    case Group(join, children, negate) =>
      (match BuildItems(children)
       case End => None
       case More(first, _, rest) =>
         Some(Negate(if rest == End then first else List("", JoinChar(join), "", More(first, "", rest)), negate)))
  }

  function BuildItems(ns: seq<Node>): Items
    decreases ns
  {
    if ns == [] then End
    else
      match BuildTree(ns[0])
      case None => BuildItems(ns[1..])
      case Some(t) => More(t, "", BuildItems(ns[1..]))
  }

  // --- BuildNode prints BuildTree -------------------------------------------------------

  function Printed(t: Option<Tree>): string {
    match t
    case None => ""
    case Some(tree) => Print(tree)
  }

  lemma PrintTrimmed(t: Tree)
    ensures Print(t) != "" && Trim(Print(t)) == Print(t) && Print(t)[|Print(t)| - 1] == ')'
  {
    assert Print(t)[0] == '(';
    TrimKeeps(Print(t));
  }

  lemma ParenTrimmed(s: string)
    requires |s| >= 2 && s[0] == '(' && s[|s| - 1] == ')'
    ensures Trim(s) == s
  {
    TrimKeeps(s);
  }

  function Wrapped(body: string): string {
    "(" + body + ")"
  }

  lemma BodyStarts(c: Node)
    requires c.Clause? && ClauseBody(c).Some?
    ensures PlainBody(ClauseBody(c).value)
  {
    var attr, raw := SafeAttribute(c.attribute), Trim(c.value);
    if c.op == Present {
      ItemBodyPlain(attr, Present, "");
    } else if (c.op == Equals || c.op == NotEquals) && GuidEquality(c.attribute, c.value) {
      GuidBodyValid(raw);
    } else {
      ItemBodyPlain(attr, if c.op == NotEquals then Equals else c.op, raw);
    }
  }

  lemma PositiveFilter(c: Node)
    requires c.Clause?
    ensures c.op != NotEquals ==>
      ClauseFilter(c) == if ClauseBody(c).None? then "" else Wrapped(ClauseBody(c).value)
    ensures c.op == NotEquals ==>
      EqualityFilter(c.attribute, c.value) == if ClauseBody(c).None? then "" else Wrapped(ClauseBody(c).value)
  {
    hide SafeAttribute, Trim, EscapeFilterValue, GuidBytes, HexDigits, GuidEquality;
  }

  lemma WrappedNegates(body: string)
    requires PlainBody(body)
    ensures NegatedFilter(Wrapped(body)) == "(!" + Wrapped(body) + ")" && Wrapped(body) != ""
    ensures Print(Leaf("", body)) == Wrapped(body)
    ensures Print(Negate(Leaf("", body), true)) == "(!" + Wrapped(body) + ")"
  {
    ParenTrimmed(Wrapped(body));
    assert Wrapped(body)[1] == body[0];
    PrintNegated(Leaf("", body));
  }

  lemma PrintNegated(t: Tree)
    ensures Print(Negate(t, true)) == "(!" + Print(t) + ")"
  {
    assert "(" + "" + "!" + "" + Print(t) + "" + ")" == "(!" + Print(t) + ")";
  }

  lemma ClausePrints(c: Node)
    requires c.Clause?
    ensures BuildNode(c) == Printed(BuildTree(c))
  {
    PositiveFilter(c);
    if ClauseBody(c).Some? {
      BodyStarts(c);
      WrappedNegates(ClauseBody(c).value);
    }
    hide ClauseBody, EqualityFilter, NegatedFilter, Print, PlainBody;
  }

  // --- Groups ---------------------------------------------------------------------------

  function PrintedItems(items: Items): seq<string> {
    match items
    case End => []
    case More(first, _, rest) => [Print(first)] + PrintedItems(rest)
  }

  predicate Compact(items: Items) {
    items.More? ==> items.gap == "" && Compact(items.rest)
  }

  lemma {:induction false} ConcatPrints(items: Items)
    requires Compact(items)
    ensures Concat(PrintedItems(items)) == PrintItems(items)
  {
    if items.More? {
      ConcatPrints(items.rest);
      assert PrintedItems(items)[1..] == PrintedItems(items.rest);
      assert Print(items.first) + "" + PrintItems(items.rest) == Print(items.first) + PrintItems(items.rest);
    }
  }

  lemma GroupPrints(n: Node, items: Items)
    requires n.Group? && Compact(items) && BuildItems(n.children) == items
    requires TrimAll(BuildNodes(n.children)) == PrintedItems(items)
    ensures BuildNode(n) == Printed(BuildTree(n))
  {
    if items.More? {
      var inner := if items.rest == End then items.first
                   else List("", JoinChar(n.join), "", More(items.first, "", items.rest));
      CombinedPrints(items, n.join, inner);
      PrintTrimmed(inner);
      PrintNegated(inner);
      hide Print, TrimAll;
    }
  }

  /** Two or more filters are joined under an operator; a single one stands for the group. */
  lemma CombinedPrints(items: Items, join: Join, inner: Tree)
    requires items.More? && Compact(items)
    requires inner == if items.rest == End then items.first else List("", JoinChar(join), "", More(items.first, "", items.rest))
    ensures var cleaned := PrintedItems(items);
            cleaned != [] && Print(inner) == if |cleaned| == 1 then cleaned[0]
                                             else "(" + [JoinChar(join)] + Concat(cleaned) + ")"
  {
    ConcatPrints(items);
    assert items == More(items.first, "", items.rest);
    if items.rest == End {
      assert PrintedItems(items) == [Print(items.first)];
    } else {
      MorePrinted(items);
      PrintedList(items, join);
      hide Concat, Print, PrintItems, PrintedItems;
    }
  }

  lemma MorePrinted(items: Items)
    requires items.More? && items.rest != End
    ensures |PrintedItems(items)| > 1
  {
    assert |PrintedItems(items)| == 1 + |PrintedItems(items.rest)|;
  }

  lemma PrintedList(items: Items, join: Join)
    ensures Print(List("", JoinChar(join), "", items)) == "(" + [JoinChar(join)] + PrintItems(items) + ")"
  {
    hide PrintItems;
    assert "(" + "" + [JoinChar(join)] + "" + PrintItems(items) + ")" == "(" + [JoinChar(join)] + PrintItems(items) + ")";
  }

  /** The text the builder writes is the print of its derivation. */
  lemma {:induction false} BuildPrints(n: Node)
    ensures BuildNode(n) == Printed(BuildTree(n))
    decreases n, 0
  {
    match n
    case Clause(_, _, _, _) => ClausePrints(n);
    case Group(_, children, _) =>
      ItemsPrint(children);
      GroupPrints(n, BuildItems(children));
  }

  lemma {:induction false} ItemsPrint(ns: seq<Node>)
    ensures Compact(BuildItems(ns))
    ensures TrimAll(BuildNodes(ns)) == PrintedItems(BuildItems(ns))
    decreases ns
  {
    if ns != [] {
      BuildPrints(ns[0]);
      ItemsPrint(ns[1..]);
      assert BuildNodes(ns)[1..] == BuildNodes(ns[1..]);
      if BuildTree(ns[0]).Some? {
        PrintTrimmed(BuildTree(ns[0]).value);
      }
      assert Trim("") == "";
    }
  }

  // --- What a builder tree means --------------------------------------------------------

  predicate GuidClause(c: Node)
    requires c.Clause?
  {
    (c.op == Equals || c.op == NotEquals) && GuidEquality(c.attribute, c.value)
  }

  /** No equality with a UUID-shaped objectGUID, which is written as raw bytes. */
  predicate NoGuids(n: Node) {
    match n
    case Clause(_, _, _, _) => !GuidClause(n)
    case Group(_, children, _) => forall c :: c in children ==> NoGuids(c)
  }

  /** No clause that carries both of the ways to say "not". */
  predicate NoDoubleNegations(n: Node) {
    match n
    case Clause(_, op, _, negate) => !(op == NotEquals && negate)
    case Group(_, children, _) => forall c :: c in children ==> NoDoubleNegations(c)
  }

  /** The clause as searched for: trimmed, and without a value when none is used. */
  function Cleaned(c: Node): Node
    requires c.Clause?
  {
    Clause(SafeAttribute(c.attribute), c.op, if c.op == Present then "" else Trim(c.value), c.negate)
  }

  /** What the user asked for: incomplete clauses and empty groups ask for nothing. */
  function Intended(n: Node, atoms: Atoms): Option<bool>
    decreases n, 0
  {
    match n
    case Clause(_, _, _, _) => if ClauseBody(n).None? then None else Some(Eval(Cleaned(n), atoms))
    case Group(join, children, negate) =>
      (match IntendedAll(children, join, atoms)
       case None => None
       case Some(holds) => Some(if negate then !holds else holds))
  }

  function IntendedAll(ns: seq<Node>, join: Join, atoms: Atoms): Option<bool>
    decreases ns
  {
    if ns == [] then None
    else
      match (Intended(ns[0], atoms), IntendedAll(ns[1..], join, atoms))
      case (None, rest) => rest
      case (first, None) => first
      case (Some(a), Some(b)) => Some(if join == And then a && b else a || b)
  }

  lemma LeafMeans(body: string, parsed: Node, negate: bool, atoms: Atoms, decode: Decoder)
    requires PlainBody(body) && ParseClauseItem(body, decode) == Some(parsed)
    ensures Readable(Negate(Leaf("", body), negate), decode)
    ensures Means(Negate(Leaf("", body), negate), atoms, decode)
      == (atoms(parsed.attribute, parsed.op, parsed.value) != negate)
  {
    hide ParseClauseItem, PlainBody;
  }

  lemma ClauseParses(c: Node, decode: Decoder)
    requires c.Clause? && !GuidClause(c) && ClauseBody(c).Some? && DecodesAscii(decode)
    ensures ParseClauseItem(ClauseBody(c).value, decode)
      == Some(Clause(SafeAttribute(c.attribute), if c.op == NotEquals then Equals else c.op,
                     if c.op == Present then "" else Trim(c.value), false))
  {
    var op := if c.op == NotEquals then Equals else c.op;
    var v := if op == Present then "" else Trim(c.value);
    assert IsAttributeDescription(SafeAttribute(c.attribute));
    ParseItemBody(SafeAttribute(c.attribute), op, v, decode);
    PresentIgnoresValue(SafeAttribute(c.attribute));
    hide Trim, IsAttributeDescription, EscapeFilterValue, ParseClauseItem, GuidEquality, DecodesAscii, ItemBody, SafeAttribute;
  }

  lemma ClauseReadable(c: Node, atoms: Atoms, decode: Decoder)
    requires c.Clause? && !GuidClause(c) && ClauseBody(c).Some? && DecodesAscii(decode)
    ensures Readable(BuildTree(c).value, decode)
    ensures Means(BuildTree(c).value, atoms, decode) == (Intended(c, atoms).value != (c.op == NotEquals && c.negate))
  {
    hide ParseClauseItem, ClauseBody, DecodesAscii, SafeAttribute, Trim, GuidClause, PlainBody, Means, Readable;
    BodyStarts(c);
    ClauseParses(c, decode);
    LeafMeans(ClauseBody(c).value, ParseClauseItem(ClauseBody(c).value, decode).value, c.negate || c.op == NotEquals,
              atoms, decode);
  }

  lemma PresentIgnoresValue(attr: string)
    ensures ItemBody(attr, Present, EscapeFilterValue("")) == ItemBody(attr, Present, "")
  {
  }

  predicate JoinMeans(items: Items, join: Join, atoms: Atoms, decode: Decoder)
    requires ReadableItems(items, decode)
  {
    if join == And then AllMean(items, atoms, decode) else AnyMeans(items, atoms, decode)
  }

  /** The derivation the builder writes means what was intended. */
  lemma {:induction false} BuiltMeansIntended(n: Node, atoms: Atoms, decode: Decoder)
    requires NoGuids(n) && DecodesAscii(decode)
    ensures BuildTree(n).Some? <==> Intended(n, atoms).Some?
    ensures BuildTree(n).Some? ==> Readable(BuildTree(n).value, decode)
    ensures BuildTree(n).Some? && NoDoubleNegations(n)
      ==> Means(BuildTree(n).value, atoms, decode) == Intended(n, atoms).value
    decreases n, 0
  {
    match n
    case Clause(_, _, _, _) =>
      if ClauseBody(n).Some? {
        ClauseReadable(n, atoms, decode);
      }
    case Group(join, children, _) =>
      hide DecodesAscii;
      ItemsMeanIntended(children, join, atoms, decode);
      GroupMeans(n, atoms, decode);
  }

  lemma NegateMeans(t: Tree, negate: bool, atoms: Atoms, decode: Decoder)
    requires Readable(t, decode)
    ensures Readable(Negate(t, negate), decode)
    ensures Means(Negate(t, negate), atoms, decode) == (Means(t, atoms, decode) != negate)
  {
  }

  lemma JoinFirst(first: Tree, rest: Items, join: Join, atoms: Atoms, decode: Decoder)
    requires Readable(first, decode) && ReadableItems(rest, decode)
    ensures ReadableItems(More(first, "", rest), decode)
    ensures JoinMeans(More(first, "", rest), join, atoms, decode)
      == if rest == End then Means(first, atoms, decode)
         else if join == And then Means(first, atoms, decode) && JoinMeans(rest, join, atoms, decode)
         else Means(first, atoms, decode) || JoinMeans(rest, join, atoms, decode)
  {
    var all := More(first, "", rest);
    assert AllMean(all, atoms, decode) == (Means(first, atoms, decode) && AllMean(rest, atoms, decode));
    assert AnyMeans(all, atoms, decode) == (Means(first, atoms, decode) || AnyMeans(rest, atoms, decode));
    assert rest == End ==> AllMean(rest, atoms, decode) && !AnyMeans(rest, atoms, decode);
  }

  lemma ListMeans(items: Items, join: Join, atoms: Atoms, decode: Decoder)
    requires items != End && ReadableItems(items, decode)
    ensures Readable(List("", JoinChar(join), "", items), decode)
    ensures Means(List("", JoinChar(join), "", items), atoms, decode) == JoinMeans(items, join, atoms, decode)
  {
  }

  lemma GroupMeans(n: Node, atoms: Atoms, decode: Decoder)
    requires n.Group? && ReadableItems(BuildItems(n.children), decode) && Compact(BuildItems(n.children))
    requires BuildItems(n.children) == End <==> IntendedAll(n.children, n.join, atoms) == None
    ensures BuildTree(n).Some? <==> Intended(n, atoms).Some?
    ensures BuildTree(n).Some? ==> Readable(BuildTree(n).value, decode)
    ensures BuildTree(n).Some? && JoinMeans(BuildItems(n.children), n.join, atoms, decode)
              == IntendedAll(n.children, n.join, atoms).value
      ==> Means(BuildTree(n).value, atoms, decode) == Intended(n, atoms).value
  {
    var items := BuildItems(n.children);
    if items.More? {
      var inner := if items.rest == End then items.first
                   else List("", JoinChar(n.join), "", More(items.first, "", items.rest));
      assert items == More(items.first, "", items.rest);
      assert Readable(inner, decode);
      JoinFirst(items.first, items.rest, n.join, atoms, decode);
      ListMeans(items, n.join, atoms, decode);
      hide Means, Readable, JoinMeans;
      NegateMeans(inner, n.negate, atoms, decode);
    }
  }

  lemma {:induction false} ItemsMeanIntended(ns: seq<Node>, join: Join, atoms: Atoms, decode: Decoder)
    requires (forall c :: c in ns ==> NoGuids(c)) && DecodesAscii(decode)
    ensures ReadableItems(BuildItems(ns), decode) && Compact(BuildItems(ns))
    ensures BuildItems(ns) == End <==> IntendedAll(ns, join, atoms) == None
    ensures BuildItems(ns) != End && (forall c :: c in ns ==> NoDoubleNegations(c))
      ==> JoinMeans(BuildItems(ns), join, atoms, decode) == IntendedAll(ns, join, atoms).value
    decreases ns
  {
    hide DecodesAscii, NoGuids, NoDoubleNegations, Intended, BuildTree, JoinMeans;
    if ns != [] {
      assert ns[0] in ns && forall c :: c in ns[1..] ==> c in ns;
      BuiltMeansIntended(ns[0], atoms, decode);
      ItemsMeanIntended(ns[1..], join, atoms, decode);
      if BuildTree(ns[0]).Some? {
        JoinFirst(BuildTree(ns[0]).value, BuildItems(ns[1..]), join, atoms, decode);
      }
    }
  }
}
