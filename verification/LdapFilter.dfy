/**
 Building and parsing RFC 4515 filters for the visual builder: frontend/src/lib/ldapFilter.ts.
 The parsers work on the rest of the text; FilterCursor gives them the source's cursor.
 */
module LdapFilter {
  import opened Wrappers
  import opened Text

  // --- Escaping -------------------------------------------------------------------------

  /** text.replace(/c/g, code) */
  function ReplaceAll(s: string, c: char, code: string): string {
    if s == "" then "" else (if s[0] == c then code else [s[0]]) + ReplaceAll(s[1..], c, code)
  }

  /** The replacements in the order they are applied: backslash first. */
  function EscapeFilterValue(value: string): string {
    ReplaceAll(ReplaceAll(ReplaceAll(ReplaceAll(ReplaceAll(value,
      '\\', "\\5c"), '*', "\\2a"), '(', "\\28"), ')', "\\29"), '\0', "\\00")
  }

  function EscapeChar(c: char): string {
    match c
    case '\\' => "\\5c"
    case '*' => "\\2a"
    case '(' => "\\28"
    case ')' => "\\29"
    case '\0' => "\\00"
    case _ => [c]
  }

  /** What escaping is meant to do: each special character by its own code, once. */
  function EscapeEach(s: string): string {
    if s == "" then "" else EscapeChar(s[0]) + EscapeEach(s[1..])
  }

  // --- The builder's tree ---------------------------------------------------------------

  datatype Op = Equals | NotEquals | Contains | StartsWith | EndsWith | Present | Gte | Lte | Approx

  datatype Join = And | Or

  datatype Node =
    | Clause(attribute: string, op: Op, value: string, negate: bool)
    | Group(join: Join, children: seq<Node>, negate: bool)

  function SafeAttribute(attribute: string): string {
    if IsAttributeDescription(Trim(attribute)) then Trim(attribute) else ""
  }

  /** A canonical UUID: hex digits with hyphens after 8, 12, 16 and 20 of them. */
  predicate IsGuid(s: string) {
    |s| == 36 && forall i :: 0 <= i < 36 ==> if i in {8, 13, 18, 23} then s[i] == '-' else IsHex(s[i])
  }

  function HexDigits(s: string): string {
    if s == "" then "" else if s[0] == '-' then HexDigits(s[1..]) else [LowerChar(s[0])] + HexDigits(s[1..])
  }

  const GUID_ORDER: seq<nat> := [3, 2, 1, 0, 5, 4, 7, 6, 8, 9, 10, 11, 12, 13, 14, 15]

  function GuidBytes(hex: string, order: seq<nat>): string {
    if order == [] then ""
    else (if 2 * order[0] + 2 <= |hex| then "\\" + hex[2 * order[0]..2 * order[0] + 2] else "")
         + GuidBytes(hex, order[1..])
  }

  predicate GuidEquality(attribute: string, value: string) {
    Lower(SafeAttribute(attribute)) == "objectguid" && IsGuid(Trim(value))
  }

  function PresenceFilter(attribute: string): string {
    var attr := SafeAttribute(attribute);
    if attr == "" then "" else "(" + ItemBody(attr, Present, "") + ")"
  }

  function EqualityFilter(attribute: string, value: string): string {
    var attr := SafeAttribute(attribute);
    var raw := Trim(value);
    if attr == "" || raw == "" then ""
    else if GuidEquality(attribute, value) then
      "(" + ("objectGUID" + "=" + GuidBytes(HexDigits(raw), GUID_ORDER)) + ")"
    else "(" + (attr + "=" + EscapeFilterValue(raw)) + ")"
  }

  /** The text between the parentheses for a substring or comparison operator. */
  function ItemBody(attr: string, op: Op, escaped: string): string {
    match op
    case Contains => attr + "=" + ("*" + escaped + "*")
    case StartsWith => attr + "=" + (escaped + "*")
    case EndsWith => attr + "=" + ("*" + escaped)
    case Gte => attr + ">=" + escaped
    case Lte => attr + "<=" + escaped
    case Approx => attr + "~=" + escaped
    case Present => attr + "=" + "*"
    case _ => attr + "=" + escaped
  }

  function ItemFilter(attribute: string, op: Op, value: string): string {
    var attr := SafeAttribute(attribute);
    var raw := Trim(value);
    if attr == "" || raw == "" then "" else "(" + ItemBody(attr, op, EscapeFilterValue(raw)) + ")"
  }

  predicate StartsWithNot(s: string) {
    |s| >= 2 && s[0] == '(' && s[1] == '!' && s[|s| - 1] == ')'
  }

  function NegatedFilter(filter: string): string {
    var source := Trim(filter);
    if source == "" then "" else if StartsWithNot(source) then source else "(!" + source + ")"
  }

  function ClauseFilter(c: Node): string
    requires c.Clause?
  {
    match c.op
    case Present => PresenceFilter(c.attribute)
    case Equals => EqualityFilter(c.attribute, c.value)
    case NotEquals =>
      var equality := EqualityFilter(c.attribute, c.value);
      if equality == "" then "" else NegatedFilter(equality)
    case _ => ItemFilter(c.attribute, c.op, c.value)
  }

  function TrimAll(filters: seq<string>): seq<string> {
    if filters == [] then []
    else (if Trim(filters[0]) == "" then [] else [Trim(filters[0])]) + TrimAll(filters[1..])
  }

  function Concat(parts: seq<string>): string {
    if parts == [] then "" else parts[0] + Concat(parts[1..])
  }

  function JoinChar(join: Join): char {
    if join == Or then '|' else '&'
  }

  function CombineFilters(filters: seq<string>, join: Join): string {
    var cleaned := TrimAll(filters);
    if cleaned == [] then ""
    else if |cleaned| == 1 then cleaned[0]
    else "(" + [JoinChar(join)] + Concat(cleaned) + ")"
  }

  function BuildNode(n: Node): string
    decreases n, 0
  {
    match n
    case Clause(_, op, _, negate) =>
      var expression := ClauseFilter(n);
      if expression == "" then ""
      else if negate && op != NotEquals then "(!" + expression + ")" else expression
    case Group(join, children, negate) =>
      var inner := CombineFilters(BuildNodes(children), join);
      if inner == "" then "" else if negate then "(!" + inner + ")" else inner
  }

  function BuildNodes(ns: seq<Node>): (r: seq<string>)
    ensures |r| == |ns|
    decreases ns
  {
    if ns == [] then [] else [BuildNode(ns[0])] + BuildNodes(ns[1..])
  }

  // --- Parsing a clause -----------------------------------------------------------------

  /** Runs of hex escapes are collected and decoded together as UTF-8. */
  function Unescape(s: string, bytes: seq<int>, decode: Decoder): string
    decreases |s|
  {
    if s == "" then FlushBytes(bytes, decode)
    else if HexEscape(s) then Unescape(s[3..], bytes + [16 * HexValue(s[1]) + HexValue(s[2])], decode)
    else FlushBytes(bytes, decode) + [s[0]] + Unescape(s[1..], [], decode)
  }

  /** The pieces between unescaped stars; a backslash shields the next character. */
  function SplitWildcards(current: string, escaped: bool, s: string): (r: seq<string>)
    ensures r != []
    decreases |s|
  {
    if s == "" then [current]
    else if escaped then SplitWildcards(current + [s[0]], false, s[1..])
    else if s[0] == '\\' then SplitWildcards(current + [s[0]], true, s[1..])
    else if s[0] == '*' then [current] + SplitWildcards("", false, s[1..])
    else SplitWildcards(current + [s[0]], false, s[1..])
  }

  /** The match of /^([^=]+?)(>=|<=|~=|=)(.*)$/: attribute, operator and value. */
  function SplitClause(body: string): Option<(string, string, string)> {
    var p := IndexOf(body, '=');
    if p < 0 then None
    else if p >= 2 && body[p - 1] in {'>', '<', '~'} then Some((body[..p - 1], body[p - 1..p + 1], body[p + 1..]))
    else if p >= 1 then Some((body[..p], "=", body[p + 1..]))
    else None
  }

  function ParseEquality(attribute: string, raw: string, decode: Decoder): Option<Node> {
    if raw == "*" then Some(Clause(attribute, Present, "", false)) else
    var segments := SplitWildcards("", false, raw);
    if exists i :: 0 < i < |segments| - 1 && segments[i] == "" then None else
    var leading := segments[0] == "";
    var trailing := segments[|segments| - 1] == "";
    var first := if leading then 1 else 0;
    var last := if trailing then |segments| - 1 else |segments|;
    if last - first != 1 then None else
    var op := if leading && trailing then Contains
              else if leading then EndsWith
              else if trailing then StartsWith else Equals;
    Some(Clause(attribute, op, Unescape(segments[first], [], decode), false))
  }

  function ParseClauseItem(body: string, decode: Decoder): (r: Option<Node>)
    ensures r.Some? ==> r.value.Clause? && r.value.op != NotEquals && !r.value.negate
  {
    match SplitClause(body)
    case None => None
    case Some((prefix, operator, raw)) =>
      var attribute := Trim(prefix);
      if !IsAttributeDescription(attribute) then None
      else if operator == "=" then ParseEquality(attribute, raw, decode)
      else if raw == "" then None
      else
        var op := if operator == ">=" then Gte else if operator == "<=" then Lte else Approx;
        Some(Clause(attribute, op, Unescape(raw, [], decode), false))
  }

  // --- Parsing a filter -----------------------------------------------------------------

  const MAX_DEPTH := 100

  predicate IsGap(c: char) {
    c == ' ' || c == '\t' || c == '\r' || c == '\n'
  }

  function SkipGaps(s: string): (r: string)
    ensures |r| <= |s|
    ensures r != "" ==> !IsGap(r[0])
  {
    if s != "" && IsGap(s[0]) then SkipGaps(s[1..]) else s
  }

  /** NOT over a parsed child: = and its negation fold into one another, a set flag is wrapped. */
  function Negated(child: Node): Node {
    if child.Clause? && child.op == Equals && !child.negate then child.(op := NotEquals, negate := false)
    else if child.Clause? && child.op == NotEquals && !child.negate then child.(op := Equals, negate := false)
    else if child.negate then Group(And, [child], true)
    else child.(negate := true)
  }

  function ParseItem(s: string, depth: nat, decode: Decoder): (r: Option<(Node, string)>)
    ensures r.Some? ==> |r.value.1| < |s|
    decreases |s|, 0
  {
    if depth > MAX_DEPTH || s == "" || s[0] != '(' then None else
    var s1 := SkipGaps(s[1..]);
    if s1 == "" then None
    else if s1[0] == '&' || s1[0] == '|' then
      match ParseMany(SkipGaps(s1[1..]), depth, decode)
      case None => None
      case Some((children, s2)) =>
        if children == [] || s2 == "" || s2[0] != ')' then None
        else Some((Group(if s1[0] == '&' then And else Or, children, false), s2[1..]))
    else if s1[0] == '!' then
      match ParseItem(SkipGaps(s1[1..]), depth + 1, decode)
      case None => None
      case Some((child, s2)) =>
        var s3 := SkipGaps(s2);
        if s3 == "" || s3[0] != ')' then None else Some((Negated(child), s3[1..]))
    else
      var close := IndexOf(s1, ')');
      if close < 0 || '(' in s1[..close] then None
      else
        match ParseClauseItem(s1[..close], decode)
        case None => None
        case Some(clause) => Some((clause, s1[close + 1..]))
  }

  function ParseMany(s: string, depth: nat, decode: Decoder): (r: Option<(seq<Node>, string)>)
    ensures r.Some? ==> |r.value.1| <= |s|
    decreases |s|, 1
  {
    if s == "" || s[0] != '(' then Some(([], s))
    else
      match ParseItem(s, depth + 1, decode)
      case None => None
      case Some((child, s1)) =>
        match ParseMany(SkipGaps(s1), depth, decode)
        case None => None
        case Some((children, s2)) => Some(([child] + children, s2))
  }

  function ParseFilterStructure(filter: string, decode: Decoder): Option<Node> {
    match ParseItem(Trim(filter), 0, decode)
    case None => None
    case Some((node, rest)) => if SkipGaps(rest) == "" then Some(node) else None
  }

  // --- Validation -----------------------------------------------------------------------

  /** Backslashes must introduce two hex digits; raw stars only after a plain equals sign. */
  predicate ValidValue(value: string, stars: bool)
    decreases |value|
  {
    if value == "" then true
    else if value[0] == '\\' then HexEscape(value) && ValidValue(value[3..], stars)
    else value[0] != '\0' && value[0] != '(' && value[0] != ')' && (value[0] != '*' || stars)
         && ValidValue(value[1..], stars)
  }

  /** A matching rule: a descriptor or a dotted OID. */
  predicate IsRule(s: string) {
    Accepting(AttrRun(Start, s, false, false))
  }

  predicate ValidExtensible(prefix: string) {
    var parts := Split(prefix, ':');
    var attribute := parts[0];
    var options := if |parts| > 1 && Lower(parts[1]) == "dn" then parts[2..] else parts[1..];
    && (attribute == "" || IsAttributeDescription(attribute))
    && |options| <= 1
    && (|options| == 1 ==> IsRule(options[0]))
    && (attribute == "" ==> |options| == 1)
  }

  predicate ValidAssertion(body: string) {
    var p := IndexOf(body, '=');
    if p < 0 then false
    else if p >= 1 && body[p - 1] == ':' then ValidExtensible(body[..p - 1]) && ValidValue(body[p + 1..], false)
    else if p >= 1 && body[p - 1] in {'>', '<', '~'} then
      IsAttributeDescription(body[..p - 1]) && ValidValue(body[p + 1..], false)
    else IsAttributeDescription(body[..p]) && ValidValue(body[p + 1..], true)
  }

  /** The text up to the first closing parenthesis; None when an opening one comes before it. */
  function SimpleItem(s: string): (r: Option<string>)
    ensures r.Some? ==> |r.value| <= |s| && s[..|r.value|] == r.value
  {
    if s == "" || s[0] == ')' then Some("")
    else if s[0] == '(' then None
    else
      match SimpleItem(s[1..])
      case None => None
      case Some(body) => Some([s[0]] + body)
  }

  function ValidItem(s: string, depth: nat): (r: Option<string>)
    ensures r.Some? ==> |r.value| < |s|
    decreases |s|, 0
  {
    if depth > MAX_DEPTH || s == "" || s[0] != '(' then None else
    var s1 := s[1..];
    var inner :=
      if s1 != "" && (s1[0] == '&' || s1[0] == '|') then
        match ValidMany(s1[1..], depth)
        case None => None
        case Some((matched, rest)) => if matched < 1 then None else Some(rest)
      else if s1 != "" && s1[0] == '!' then ValidItem(s1[1..], depth + 1)
      else
        match SimpleItem(s1)
        case None => None
        case Some(body) => if ValidAssertion(body) then Some(s1[|body|..]) else None;
    match inner
    case None => None
    case Some(rest) => if rest == "" || rest[0] != ')' then None else Some(rest[1..])
  }

  function ValidMany(s: string, depth: nat): (r: Option<(nat, string)>)
    ensures r.Some? ==> |r.value.1| <= |s|
    decreases |s|, 1
  {
    if s == "" || s[0] != '(' then Some((0, s))
    else
      match ValidItem(s, depth + 1)
      case None => None
      case Some(rest) =>
        match ValidMany(rest, depth)
        case None => None
        case Some((matched, rest')) => Some((matched + 1, rest'))
  }

  predicate ValidateFilter(filter: string) {
    ValidItem(Trim(filter), 0) == Some("")
  }

  // --- The filter of the directory tree's search box ------------------------------------

  const TREE_FILTER_ATTRIBUTES := ["cn", "ou", "dc", "uid", "o", "sn", "givenName", "name", "displayName", "mail",
    "sAMAccountName"]

  predicate IsLineEnd(c: char) {
    c == '\n' || c == '\r' || c == '\U{2028}' || c == '\U{2029}'
  }

  /** The length of the leading run of letters, digits and hyphens that starts with a letter. */
  function NameLength(s: string): (n: nat)
    ensures n <= |s|
  {
    if s == "" || !IsAlpha(s[0]) then 0 else NameTail(s, 1)
  }

  function NameTail(s: string, i: nat): (n: nat)
    requires i <= |s|
    ensures i <= n <= |s|
    decreases |s| - i
  {
    if i < |s| && (IsAlpha(s[i]) || IsDigit(s[i]) || s[i] == '-') then NameTail(s, i + 1) else i
  }

  function ParseTreeKeywordPrefix(keyword: string): Option<(string, string)> {
    var text := Trim(keyword);
    var n := NameLength(text);
    var rest := TrimStart(text[n..]);
    if n == 0 || rest == "" || !(rest[0] == '=' || rest[0] == ':') then None else
    var value := TrimStart(rest[1..]);
    if exists i :: 0 <= i < |value| && IsLineEnd(value[i]) then None else
    var attribute := Lower(text[..n]);
    if attribute != "objectclass" && attribute !in TREE_FILTER_ATTRIBUTES then None
    else Some((attribute, Trim(value)))
  }

  function EscapeAll(pieces: seq<string>): seq<string> {
    if pieces == [] then [] else [EscapeFilterValue(pieces[0])] + EscapeAll(pieces[1..])
  }

  function TreeWildcardFilter(attribute: string, value: string): string {
    var attr := SafeAttribute(attribute);
    if attr == "" then ""
    else if '*' !in value then ItemFilter(attribute, Contains, value)
    else
      var pieces := TrimAll(Split(value, '*'));
      if pieces == [] then PresenceFilter(attribute)
      else
        var head := if value[0] == '*' then "*" else "";
        var tail := if value[|value| - 1] == '*' then "*" else "";
        "(" + (attr + "=" + (head + Text.Join(EscapeAll(pieces), "*") + tail)) + ")"
  }

  function KeywordFilters(attributes: seq<string>, text: string): seq<string> {
    if attributes == [] then []
    else
      var f := ItemFilter(attributes[0], Contains, text);
      (if f == "" then [] else [f]) + KeywordFilters(attributes[1..], text)
  }

  /** (objectClass=*) */
  const ANY_ENTRY := "(" + ItemBody("objectClass", Present, "") + ")"

  function OrAnyEntry(filter: string): string {
    if filter == "" then ANY_ENTRY else filter
  }

  function TreeKeywordFilter(keyword: string): string {
    var text := Trim(keyword);
    match ParseTreeKeywordPrefix(text)
    case Some((attribute, value)) =>
      if attribute == "objectclass" then
        if value == "" then ANY_ENTRY else EqualityFilter("objectClass", value)
      else if value == "" then PresenceFilter(attribute)
      else OrAnyEntry(TreeWildcardFilter(attribute, value))
    case None => OrAnyEntry(CombineFilters(KeywordFilters(TREE_FILTER_ATTRIBUTES, text), Or))
  }
}
