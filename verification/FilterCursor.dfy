/** The loops of frontend/src/lib/ldapFilter.ts, with the cursors they advance. */
module FilterCursor {
  import opened Wrappers
  import opened Text
  import opened LdapFilter
  import FilterItems

  // --- Values ---------------------------------------------------------------------------

  const ESCAPE_REPLACEMENTS: seq<(char, string)> :=
    [('\\', "\\5c"), ('*', "\\2a"), ('(', "\\28"), (')', "\\29"), ('\0', "\\00")]

  function Replaced(value: string, n: nat): string
    requires n <= |ESCAPE_REPLACEMENTS|
  {
    if n == 0 then value
    else ReplaceAll(Replaced(value, n - 1), ESCAPE_REPLACEMENTS[n - 1].0, ESCAPE_REPLACEMENTS[n - 1].1)
  }

  lemma AllReplaced(value: string)
    ensures Replaced(value, |ESCAPE_REPLACEMENTS|) == EscapeFilterValue(value)
  {
    hide ReplaceAll;
    assert Replaced(value, 1) == ReplaceAll(value, '\\', "\\5c");
    assert Replaced(value, 2) == ReplaceAll(Replaced(value, 1), '*', "\\2a");
    assert Replaced(value, 3) == ReplaceAll(Replaced(value, 2), '(', "\\28");
    assert Replaced(value, 4) == ReplaceAll(Replaced(value, 3), ')', "\\29");
  }

  /** The replacements are applied one after the other, and yet each character is escaped once. */
  method EscapeValue(value: string) returns (result: string)
    ensures result == EscapeFilterValue(value) == EscapeEach(value)
  {
    result := value;
    for i := 0 to |ESCAPE_REPLACEMENTS|
      invariant result == Replaced(value, i)
    {
      result := ReplaceAll(result, ESCAPE_REPLACEMENTS[i].0, ESCAPE_REPLACEMENTS[i].1);
    }
    AllReplaced(value);
    FilterItems.EscapesEachCharacterOnce(value);
  }

  method UnescapeValue(source: string, decode: Decoder) returns (result: string)
    ensures result == Unescape(source, [], decode)
  {
    hide HexValue, FlushBytes;
    result := "";
    var bytes: seq<int> := [];
    var i := 0;
    while i < |source|
      invariant 0 <= i <= |source|
      invariant Unescape(source, [], decode) == result + Unescape(source[i..], bytes, decode)
    {
      var rest := source[i..];
      if HexEscape(rest) {
        bytes := bytes + [16 * HexValue(rest[1]) + HexValue(rest[2])];
        assert source[i + 3..] == rest[3..];
        i := i + 3;
      } else {
        result := result + FlushBytes(bytes, decode) + [rest[0]];
        bytes := [];
        assert source[i + 1..] == rest[1..];
        i := i + 1;
      }
    }
    result := result + FlushBytes(bytes, decode);
  }

  method SplitFilterValueWildcards(raw: string) returns (segments: seq<string>)
    ensures segments == SplitWildcards("", false, raw)
  {
    segments := [];
    var current, escaped := "", false;
    for i := 0 to |raw|
      invariant SplitWildcards("", false, raw) == segments + SplitWildcards(current, escaped, raw[i..])
    {
      assert raw[i..][0] == raw[i] && raw[i..][1..] == raw[i + 1..];
      if escaped {
        current, escaped := current + [raw[i]], false;
      } else if raw[i] == '\\' {
        current, escaped := current + [raw[i]], true;
      } else if raw[i] == '*' {
        segments, current := segments + [current], "";
      } else {
        current := current + [raw[i]];
      }
    }
    segments := segments + [current];
  }

  method CheckValue(value: string, stars: bool) returns (ok: bool)
    ensures ok <==> ValidValue(value, stars)
  {
    var i := 0;
    while i < |value|
      invariant 0 <= i <= |value|
      invariant ValidValue(value, stars) <==> ValidValue(value[i..], stars)
    {
      var rest := value[i..];
      assert rest[1..] == value[i + 1..];
      if value[i] == '\\' {
        if !HexEscape(rest) {
          return false;
        }
        assert rest[3..] == value[i + 3..];
        i := i + 2;
      } else if value[i] == '\0' || value[i] == '(' || value[i] == ')' || (value[i] == '*' && !stars) {
        return false;
      }
      i := i + 1;
    }
    return true;
  }

  // --- The parser's cursor --------------------------------------------------------------

  /** Children read so far, in front of what is still to be read. */
  function Prepend(children: seq<Node>, more: Option<(seq<Node>, string)>): Option<(seq<Node>, string)> {
    if more.None? then None else Some((children + more.value.0, more.value.1))
  }

  lemma PrependNext(children: seq<Node>, s: string, depth: nat, decode: Decoder)
    requires s != "" && s[0] == '('
    ensures var first := LdapFilter.ParseItem(s, depth + 1, decode);
            Prepend(children, ParseMany(s, depth, decode))
              == if first.None? then None
                 else Prepend(children + [first.value.0], ParseMany(SkipGaps(first.value.1), depth, decode))
  {
    hide LdapFilter.ParseItem, SkipGaps;
    var first := LdapFilter.ParseItem(s, depth + 1, decode);
    if first.Some? && ParseMany(SkipGaps(first.value.1), depth, decode).Some? {
      var more := ParseMany(SkipGaps(first.value.1), depth, decode).value.0;
      assert children + ([first.value.0] + more) == children + [first.value.0] + more;
    }
  }

  lemma PrependNone(more: Option<(seq<Node>, string)>)
    ensures Prepend([], more) == more
  {
    if more.Some? {
      assert [] + more.value.0 == more.value.0;
    }
  }

  lemma PrependEnd(children: seq<Node>, s: string, depth: nat, decode: Decoder)
    requires s == "" || s[0] != '('
    ensures Prepend(children, ParseMany(s, depth, decode)) == Some((children, s))
  {
    assert children + [] == children;
  }

  /** What closes a group. */
  function Grouped(op: char, many: Option<(seq<Node>, string)>): Option<(Node, string)> {
    if many.None? || many.value.0 == [] || many.value.1 == "" || many.value.1[0] != ')' then None
    else Some((Group(if op == '&' then And else Or, many.value.0, false), many.value.1[1..]))
  }

  /** What closes a negation. */
  function Inverted(child: Option<(Node, string)>): Option<(Node, string)> {
    if child.None? then None
    else
      var rest := SkipGaps(child.value.1);
      if rest == "" || rest[0] != ')' then None else Some((Negated(child.value.0), rest[1..]))
  }

  /** A clause, up to the closing parenthesis. */
  function ClauseAt(s: string, decode: Decoder): Option<(Node, string)> {
    var close := IndexOf(s, ')');
    if close < 0 || '(' in s[..close] || ParseClauseItem(s[..close], decode).None? then None
    else Some((ParseClauseItem(s[..close], decode).value, s[close + 1..]))
  }

  lemma ItemCases(s: string, depth: nat, decode: Decoder)
    requires s != "" && s[0] == '(' && depth <= MAX_DEPTH
    ensures var s1 := SkipGaps(s[1..]);
            var item := LdapFilter.ParseItem(s, depth, decode);
            && (s1 == "" ==> item == None)
            && (s1 != "" && (s1[0] == '&' || s1[0] == '|')
                ==> item == Grouped(s1[0], ParseMany(SkipGaps(s1[1..]), depth, decode)))
            && (s1 != "" && s1[0] == '!'
                ==> item == Inverted(LdapFilter.ParseItem(SkipGaps(s1[1..]), depth + 1, decode)))
            && (s1 != "" && s1[0] !in {'&', '|', '!'} ==>
                  item == ClauseAt(s1, decode))
  {
    hide Negated, ParseClauseItem;
  }

  class ParseCursor {
    const text: string
    var position: nat

    constructor (text: string)
      ensures this.text == text && position == 0 && Valid() && Rest() == text
    {
      this.text := text;
      position := 0;
    }

    ghost predicate Valid()
      reads this
    {
      position <= |text|
    }

    function Rest(): string
      reads this
      requires Valid()
    {
      text[position..]
    }

    method SkipFilterWhitespace()
      requires Valid()
      modifies this
      ensures Valid() && Rest() == SkipGaps(old(Rest())) && position >= old(position)
    {
      while position < |text| && IsGap(text[position])
        invariant Valid() && SkipGaps(Rest()) == SkipGaps(old(Rest())) && position >= old(position)
      {
        assert Rest()[1..] == text[position + 1..];
        position := position + 1;
      }
    }

    /** One step of the cursor over the character under it. */
    method Advance()
      requires Valid() && Rest() != ""
      modifies this
      ensures Valid() && Rest() == old(Rest())[1..] && position == old(position) + 1
    {
      assert text[position..][1..] == text[position + 1..];
      position := position + 1;
    }

    method ParseChildren(depth: nat, decode: Decoder) returns (r: Option<seq<Node>>)
      requires Valid() && depth <= MAX_DEPTH
      modifies this
      ensures Valid()
      ensures position >= old(position)
      ensures r.None? <==> ParseMany(old(Rest()), depth, decode).None?
      ensures r.Some? ==> ParseMany(old(Rest()), depth, decode) == Some((r.value, Rest()))
      decreases |text| - position, 1
    {
      var children: seq<Node> := [];
      ghost var all := ParseMany(Rest(), depth, decode);
      PrependNone(all);
      hide ParseMany, LdapFilter.ParseItem, SkipGaps, Prepend;
      while Rest() != "" && Rest()[0] == '('
        invariant Valid() && position >= old(position)
        invariant all == Prepend(children, ParseMany(Rest(), depth, decode))
        decreases |text| - position
      {
        PrependNext(children, Rest(), depth, decode);
        var child := ParseItem(depth + 1, decode);
        if child.None? {
          return None;
        }
        SkipFilterWhitespace();
        children := children + [child.value];
      }
      PrependEnd(children, Rest(), depth, decode);
      return Some(children);
    }

    method ParseClause(decode: Decoder) returns (r: Option<Node>)
      requires Valid()
      modifies this
      ensures Valid() && position >= old(position)
      ensures r.None? <==> ClauseAt(old(Rest()), decode).None?
      ensures r.Some? ==> ClauseAt(old(Rest()), decode) == Some((r.value, Rest()))
    {
      hide ParseClauseItem;
      var close := IndexOf(Rest(), ')');
      if close < 0 || '(' in Rest()[..close] {
        return None;
      }
      var body := Rest()[..close];
      assert text[position..][close + 1..] == text[position + close + 1..];
      position := position + close + 1;
      r := ParseClauseItem(body, decode);
    }

    method ParseGroup(operator: char, depth: nat, decode: Decoder) returns (r: Option<Node>)
      requires Valid() && depth <= MAX_DEPTH
      modifies this
      ensures Valid() && position >= old(position)
      ensures r.None? <==> Grouped(operator, ParseMany(SkipGaps(old(Rest())), depth, decode)).None?
      ensures r.Some? ==> Grouped(operator, ParseMany(SkipGaps(old(Rest())), depth, decode)) == Some((r.value, Rest()))
      decreases |text| - position, 2
    {
      hide ParseMany, SkipGaps;
      SkipFilterWhitespace();
      var children := ParseChildren(depth, decode);
      if children.None? || children.value == [] || Rest() == "" || Rest()[0] != ')' {
        return None;
      }
      Advance();
      r := Some(Group(if operator == '&' then And else Or, children.value, false));
    }

    method ParseNegation(depth: nat, decode: Decoder) returns (r: Option<Node>)
      requires Valid() && depth <= MAX_DEPTH
      modifies this
      ensures Valid() && position >= old(position)
      ensures r.None? <==> Inverted(LdapFilter.ParseItem(SkipGaps(old(Rest())), depth + 1, decode)).None?
      ensures r.Some? ==>
        Inverted(LdapFilter.ParseItem(SkipGaps(old(Rest())), depth + 1, decode)) == Some((r.value, Rest()))
      decreases |text| - position, 2
    {
      hide LdapFilter.ParseItem, SkipGaps, Negated;
      SkipFilterWhitespace();
      var child := ParseItem(depth + 1, decode);
      if child.None? {
        return None;
      }
      SkipFilterWhitespace();
      if Rest() == "" || Rest()[0] != ')' {
        return None;
      }
      Advance();
      r := Some(Negated(child.value));
    }

    method ParseItem(depth: nat, decode: Decoder) returns (r: Option<Node>)
      requires Valid()
      modifies this
      ensures Valid()
      ensures r.None? <==> LdapFilter.ParseItem(old(Rest()), depth, decode).None?
      ensures r.Some? ==> LdapFilter.ParseItem(old(Rest()), depth, decode) == Some((r.value, Rest()))
      ensures position >= old(position) && (r.Some? ==> position > old(position))
      decreases |text| - position, 0
    {
      if depth > MAX_DEPTH || Rest() == "" || Rest()[0] != '(' {
        return None;
      }
      ItemCases(Rest(), depth, decode);
      hide LdapFilter.ParseItem, ParseMany, Grouped, Inverted, ClauseAt, SkipGaps;
      Advance();
      SkipFilterWhitespace();
      if Rest() == "" {
        return None;
      }
      var operator := Rest()[0];
      if operator == '&' || operator == '|' {
        Advance();
        r := ParseGroup(operator, depth, decode);
      } else if operator == '!' {
        Advance();
        r := ParseNegation(depth, decode);
      } else {
        r := ParseClause(decode);
      }
    }
  }

  method ParseFilter(filter: string, decode: Decoder) returns (r: Option<Node>)
    ensures r == ParseFilterStructure(filter, decode)
  {
    var text := Trim(filter);
    if text == "" {
      return None;
    }
    var cursor := new ParseCursor(text);
    r := cursor.ParseItem(0, decode);
    if r.Some? {
      cursor.SkipFilterWhitespace();
      if cursor.position != |text| {
        r := None;
      }
    }
  }

  // --- The validator's position ---------------------------------------------------------

  function Counted(matched: nat, more: Option<(nat, string)>): Option<(nat, string)> {
    if more.None? then None else Some((matched + more.value.0, more.value.1))
  }

  /** Text already passed, in front of the item's remaining text. */
  function Front(passed: string, item: Option<string>): Option<string> {
    if item.None? then None else Some(passed + item.value)
  }

  lemma FrontNothing(item: Option<string>)
    ensures Front("", item) == item
  {
    if item.Some? {
      assert "" + item.value == item.value;
    }
  }

  lemma FrontNext(text: string, start: nat, position: nat)
    requires start <= position < |text| && text[position] != '(' && text[position] != ')'
    ensures Front(text[start..position], SimpleItem(text[position..])) == Front(text[start..position + 1], SimpleItem(text[position + 1..]))
  {
    var more := SimpleItem(text[position + 1..]);
    assert text[position..][1..] == text[position + 1..];
    if more.Some? {
      assert text[start..position] + ([text[position]] + more.value) == text[start..position + 1] + more.value;
    }
  }

  class ValidatorCursor {
    const text: string
    var position: nat

    constructor (text: string)
      ensures this.text == text && position == 0 && Valid() && Rest() == text
    {
      this.text := text;
      position := 0;
    }

    ghost predicate Valid()
      reads this
    {
      position <= |text|
    }

    function Rest(): string
      reads this
      requires Valid()
    {
      text[position..]
    }

    method Advance()
      requires Valid() && Rest() != ""
      modifies this
      ensures Valid() && Rest() == old(Rest())[1..] && position == old(position) + 1
    {
      assert text[position..][1..] == text[position + 1..];
      position := position + 1;
    }

    method ParseChildren(depth: nat) returns (r: Option<nat>)
      requires Valid() && depth <= MAX_DEPTH
      modifies this
      ensures Valid()
      ensures r.None? <==> ValidMany(old(Rest()), depth).None?
      ensures r.Some? ==> ValidMany(old(Rest()), depth) == Some((r.value, Rest()))
      decreases |text| - position, 1
    {
      var matched := 0;
      ghost var all := ValidMany(Rest(), depth);
      while Rest() != "" && Rest()[0] == '('
        invariant Valid() && position >= old(position)
        invariant all == Counted(matched, ValidMany(Rest(), depth))
        decreases |text| - position
      {
        var ok := ParseItem(depth + 1);
        if !ok {
          return None;
        }
        matched := matched + 1;
      }
      return Some(matched);
    }

    /** A simple item ends at the first closing parenthesis, before which none may open. */
    method ParseSimpleItem() returns (ok: bool)
      requires Valid()
      modifies this
      ensures Valid() && position >= old(position)
      ensures ok <==> SimpleItem(old(Rest())).Some? && ValidAssertion(SimpleItem(old(Rest())).value)
      ensures ok ==> Rest() == old(Rest())[|SimpleItem(old(Rest())).value|..]
    {
      hide ValidAssertion;
      var start := position;
      ghost var item := SimpleItem(Rest());
      assert text[start..start] == "";
      FrontNothing(item);
      while position < |text| && text[position] != ')'
        invariant start <= position <= |text|
        invariant item == Front(text[start..position], SimpleItem(Rest()))
      {
        if text[position] == '(' {
          return false;
        }
        FrontNext(text, start, position);
        position := position + 1;
      }
      assert SimpleItem(Rest()) == Some("") && text[start..position] + "" == text[start..position];
      assert text[start..][position - start..] == text[position..];
      ok := ValidAssertion(text[start..position]);
    }

    method ParseItem(depth: nat) returns (ok: bool)
      requires Valid()
      modifies this
      ensures Valid()
      ensures ok <==> ValidItem(old(Rest()), depth).Some?
      ensures ok ==> ValidItem(old(Rest()), depth) == Some(Rest()) && position > old(position)
      decreases |text| - position, 0
    {
      if depth > MAX_DEPTH || Rest() == "" || Rest()[0] != '(' {
        return false;
      }
      Advance();
      var operator := if Rest() == "" then ' ' else Rest()[0];
      if operator == '&' || operator == '|' {
        Advance();
        var matched := ParseChildren(depth);
        if matched.None? || matched.value < 1 {
          return false;
        }
      } else if operator == '!' {
        Advance();
        var child := ParseItem(depth + 1);
        if !child {
          return false;
        }
      } else {
        var item := ParseSimpleItem();
        if !item {
          return false;
        }
      }
      if Rest() == "" || Rest()[0] != ')' {
        return false;
      }
      Advance();
      ok := true;
    }
  }

  method ValidateLdapFilter(filter: string) returns (ok: bool)
    ensures ok <==> ValidateFilter(filter)
  {
    var text := Trim(filter);
    if text == "" {
      return false;
    }
    var cursor := new ValidatorCursor(text);
    ok := cursor.ParseItem(0);
    ok := ok && cursor.position == |text| && text[0] == '(';
  }
}
