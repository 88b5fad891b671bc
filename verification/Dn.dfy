/**
 Distinguished names: frontend/src/lib/dn.ts, with escapeDnValue and buildDn of
 newEntryTemplates.ts and dnPathChain of bookmarks.ts. Each loop of the source is a method,
 proved equal to the function the theorems speak about.
 */
module Dn {
  import opened Wrappers
  import opened Text

  // --- Trimming -------------------------------------------------------------------------

  function TrailingSlashes(s: string): nat {
    if s != "" && s[|s| - 1] == '\\' then 1 + TrailingSlashes(s[..|s| - 1]) else 0
  }

  /** White space at the end, as long as no backslash escapes it. */
  function TrimDnEnd(s: string): string {
    if s != "" && IsSpace(s[|s| - 1]) && TrailingSlashes(s[..|s| - 1]) % 2 == 0 then TrimDnEnd(s[..|s| - 1]) else s
  }

  function TrimDn(s: string): string {
    TrimDnEnd(TrimStart(s))
  }

  method CountSlashes(text: string, end: nat) returns (slashes: nat)
    requires end <= |text|
    ensures slashes == TrailingSlashes(text[..end])
  {
    slashes := 0;
    var index: nat := end;
    while index > 0 && text[index - 1] == '\\'
      invariant index <= end
      invariant TrailingSlashes(text[..end]) == slashes + TrailingSlashes(text[..index])
    {
      assert text[..index][..index - 1] == text[..index - 1];
      slashes, index := slashes + 1, index - 1;
    }
  }

  method TrimToString(value: string) returns (r: string)
    ensures r == TrimDn(value)
  {
    var text := TrimStart(value);
    var end := |text|;
    assert text[..end] == text;
    while end > 0 && IsSpace(text[end - 1])
      invariant end <= |text|
      invariant TrimDnEnd(text) == TrimDnEnd(text[..end])
    {
      var slashes := CountSlashes(text, end - 1);
      assert text[..end][..end - 1] == text[..end - 1];
      if slashes % 2 != 0 {
        break;
      }
      end := end - 1;
    }
    return text[..end];
  }

  // --- Top-level characters -------------------------------------------------------------

  /** The first occurrence outside quotes and escapes; -1 when there is none. */
  function FindTop(s: string, target: char, escaped: bool, quoted: bool): (i: int)
    ensures -1 <= i < |s|
    ensures i >= 0 ==> s[i] == target
    decreases |s|
  {
    if s == "" then -1
    else if !escaped && s[0] != '\\' && s[0] != '"' && !quoted && s[0] == target then 0
    else
      var i := FindTop(s[1..], target, !escaped && s[0] == '\\', if !escaped && s[0] == '"' then !quoted else quoted);
      if i < 0 then -1 else i + 1
  }

  method FindTopLevelChar(text: string, target: char) returns (r: int)
    ensures r == FindTop(text, target, false, false)
  {
    var escaped, quoted := false, false;
    for index := 0 to |text|
      invariant var i := FindTop(text[index..], target, escaped, quoted);
                FindTop(text, target, false, false) == if i < 0 then -1 else index + i
    {
      var c := text[index];
      assert text[index..][1..] == text[index + 1..];
      if escaped {
        escaped := false;
        continue;
      }
      if c == '\\' {
        escaped := true;
        continue;
      }
      if c == '"' {
        quoted := !quoted;
        continue;
      }
      if !quoted && c == target {
        return index;
      }
    }
    return -1;
  }

  function SplitTop(s: string, separator: char): (parts: seq<string>)
    ensures parts != []
    decreases |s|
  {
    var next := FindTop(s, separator, false, false);
    if next < 0 then [s] else [s[..next]] + SplitTop(s[next + 1..], separator)
  }

  lemma SplitOnce(s: string, separator: char)
    ensures var next := FindTop(s, separator, false, false);
            SplitTop(s, separator) == if next < 0 then [s] else [s[..next]] + SplitTop(s[next + 1..], separator)
  {
    hide FindTop;
  }

  lemma SliceOfSlice(text: string, offset: nat, n: nat)
    requires offset + n < |text|
    ensures text[offset..][..n] == text[offset..offset + n] && text[offset..][n + 1..] == text[offset + n + 1..]
  {
  }

  lemma SplitFrom(text: string, offset: nat, separator: char)
    requires offset <= |text| && FindTop(text[offset..], separator, false, false) >= 0
    ensures var next := FindTop(text[offset..], separator, false, false);
            SplitTop(text[offset..], separator)
              == [text[offset..offset + next]] + SplitTop(text[offset + next + 1..], separator)
  {
    hide *;
    SplitOnce(text[offset..], separator);
    SliceOfSlice(text, offset, FindTop(text[offset..], separator, false, false));
  }

  method SplitTopLevel(text: string, separator: char) returns (parts: seq<string>)
    ensures parts == SplitTop(text, separator)
  {
    hide *;
    parts := [];
    var offset := 0;
    ghost var later := SplitTop(text, separator);
    assert text[0..] == text && [] + later == later;
    while offset <= |text|
      invariant offset <= |text| && later == SplitTop(text[offset..], separator)
      invariant SplitTop(text, separator) == parts + later
      decreases |text| - offset
    {
      SplitOnce(text[offset..], separator);
      var next := FindTopLevelChar(text[offset..], separator);
      if next < 0 {
        parts := parts + [text[offset..]];
        break;
      }
      SplitFrom(text, offset, separator);
      var part := text[offset..offset + next];
      offset := offset + next + 1;
      later := SplitTop(text[offset..], separator);
      Assoc(parts, [part], later);
      parts := parts + [part];
    }
  }

  datatype DnSplit = DnSplit(rdn: string, parentDn: string)

  function SplitFirstDnRdn(dn: string): DnSplit {
    var text := TrimDn(dn);
    if text == "" then DnSplit("", "")
    else
      var separator := FindTop(text, ',', false, false);
      if separator < 0 then DnSplit(text, "")
      else DnSplit(TrimDn(text[..separator]), TrimDn(text[separator + 1..]))
  }

  // --- Relative distinguished names -----------------------------------------------------

  predicate IsSpecial(c: char) {
    c in {' ', ',', '+', '"', '\\', '<', '>', ';', '=', '#'}
  }

  predicate ValidEscapes(s: string, quoted: bool)
    decreases |s|
  {
    if s == "" then !quoted
    else if s[0] == '\\' then
      if |s| < 2 then false
      else if IsHex(s[1]) then |s| >= 3 && IsHex(s[2]) && ValidEscapes(s[3..], quoted)
      else IsSpecial(s[1]) && ValidEscapes(s[2..], quoted)
    else s[0] != '\0' && ValidEscapes(s[1..], if s[0] == '"' then !quoted else quoted)
  }

  method HasValidEscapesAndQuotes(text: string) returns (ok: bool)
    ensures ok <==> ValidEscapes(text, false)
  {
    var quoted := false;
    var index := 0;
    assert text[0..] == text;
    while index < |text|
      invariant index <= |text|
      invariant ValidEscapes(text, false) <==> ValidEscapes(text[index..], quoted)
    {
      var c := text[index];
      ghost var rest := text[index..];
      assert rest[1..] == text[index + 1..];
      if c == '\\' {
        index := index + 1;
        if index == |text| {
          return false;
        }
        if IsHex(text[index]) {
          index := index + 1;
          if index == |text| || !IsHex(text[index]) {
            return false;
          }
          assert rest[3..] == text[index + 1..];
        } else if !IsSpecial(text[index]) {
          return false;
        } else {
          assert rest[2..] == text[index + 1..];
        }
      } else if c == '"' {
        quoted := !quoted;
      } else if c == '\0' {
        return false;
      }
      index := index + 1;
    }
    return !quoted;
  }

  /** Escapes undone: runs of hex pairs as UTF-8, any other escaped character as itself. */
  function DecodeEscaped(s: string, bytes: seq<int>, decode: Decoder): string
    decreases |s|
  {
    if s == "" then FlushBytes(bytes, decode)
    else if s[0] != '\\' then FlushBytes(bytes, decode) + [s[0]] + DecodeEscaped(s[1..], [], decode)
    else if HexEscape(s) then DecodeEscaped(s[3..], bytes + [16 * HexValue(s[1]) + HexValue(s[2])], decode)
    else if |s| == 1 then FlushBytes(bytes, decode)
    else FlushBytes(bytes, decode) + [s[1]] + DecodeEscaped(s[2..], [], decode)
  }

  /** What the scan of one character or escape adds, what it leaves pending, how far it moves. */
  datatype Decoding = Decoding(output: string, bytes: seq<int>, length: nat)

  function DecodeNext(s: string, bytes: seq<int>, decode: Decoder): (d: Decoding)
    requires s != ""
    ensures 0 < d.length <= |s|
  {
    if s[0] != '\\' then Decoding(FlushBytes(bytes, decode) + [s[0]], [], 1)
    else if HexEscape(s) then Decoding("", bytes + [16 * HexValue(s[1]) + HexValue(s[2])], 3)
    else if |s| == 1 then Decoding(FlushBytes(bytes, decode), [], 1)
    else Decoding(FlushBytes(bytes, decode) + [s[1]], [], 2)
  }

  lemma DecodeStep(s: string, bytes: seq<int>, decode: Decoder)
    requires s != ""
    ensures var d := DecodeNext(s, bytes, decode);
            DecodeEscaped(s, bytes, decode) == d.output + DecodeEscaped(s[d.length..], d.bytes, decode)
  {
    assert DecodeEscaped("", [], decode) == "";
  }

  method DecodeEscapedValue(text: string, decode: Decoder) returns (output: string)
    ensures output == DecodeEscaped(text, [], decode)
  {
    output := "";
    var escapedBytes: seq<int> := [];
    var index := 0;
    assert text[0..] == text;
    ghost var all := DecodeEscaped(text, [], decode);
    assert "" + all == all;
    while index < |text|
      invariant index <= |text|
      invariant all == output + DecodeEscaped(text[index..], escapedBytes, decode)
    {
      hide DecodeEscaped;
      ghost var d := DecodeNext(text[index..], escapedBytes, decode);
      ghost var before := output;
      DecodeStep(text[index..], escapedBytes, decode);
      assert text[index..][d.length..] == text[index + d.length..];
      Assoc(output, d.output, DecodeEscaped(text[index + d.length..], d.bytes, decode));
      if text[index] != '\\' {
        output := output + (FlushBytes(escapedBytes, decode) + [text[index]]);
        escapedBytes := [];
        index := index + 1;
      } else if HexEscape(text[index..]) {
        escapedBytes := escapedBytes + [16 * HexValue(text[index + 1]) + HexValue(text[index + 2])];
        assert before + "" == before;
        index := index + 3;
      } else if index + 1 < |text| {
        output := output + (FlushBytes(escapedBytes, decode) + [text[index + 1]]);
        escapedBytes := [];
        index := index + 2;
      } else {
        output := output + FlushBytes(escapedBytes, decode);
        escapedBytes := [];
        index := index + 1;
      }
      assert output == before + d.output;
    }
    output := output + FlushBytes(escapedBytes, decode);
  }

  predicate LikelyComponent(component: string) {
    var separator := FindTop(component, '=', false, false);
    && separator > 0
    && IsAttributeType(Trim(component[..separator]))
    && Trim(component[separator + 1..]) != ""
  }

  predicate IsLikelyRdn(value: string) {
    var rdn := TrimDn(value);
    && rdn != "" && ValidEscapes(rdn, false) && FindTop(rdn, ',', false, false) < 0
    && forall i :: 0 <= i < |SplitTop(rdn, '+')| ==> LikelyComponent(TrimDn(SplitTop(rdn, '+')[i]))
  }

  datatype Ava = Ava(attribute: string, value: string)

  /** None where the source throws: values in BER form are not decoded. */
  function ParseComponent(component: string, decode: Decoder): Option<Ava> {
    var separator := FindTop(component, '=', false, false);
    if separator < 0 then None else
    var value := TrimDn(component[separator + 1..]);
    if value != "" && value[0] == '#' then None else
    var inner := if |value| >= 2 && value[0] == '"' && value[|value| - 1] == '"' then value[1..|value| - 1]
                 else if value == "\"" then "" else value;
    Some(Ava(Trim(component[..separator]), DecodeEscaped(inner, [], decode)))
  }

  function ParseComponents(components: seq<string>, decode: Decoder): Option<seq<Ava>> {
    if components == [] then Some([])
    else
      match (ParseComponent(components[0], decode), ParseComponents(components[1..], decode))
      case (Some(first), Some(rest)) => Some([first] + rest)
      case _ => None
  }

  /** None where the source throws. */
  function ParseRdnAttributes(rdn: string, decode: Decoder): Option<seq<Ava>> {
    if IsLikelyRdn(rdn) then ParseComponents(SplitTop(rdn, '+'), decode) else None
  }

  function JoinRdnAndParent(rdn: string, parentDn: string): string {
    var normalizedRdn := TrimDn(rdn);
    var normalizedParent := TrimDn(parentDn);
    if normalizedRdn == "" then ""
    else if normalizedParent == "" then normalizedRdn else normalizedRdn + "," + normalizedParent
  }

  // --- Containment ----------------------------------------------------------------------

  /** replace(/,+$/, '') */
  function StripCommas(s: string): string {
    if s != "" && s[|s| - 1] == ',' then StripCommas(s[..|s| - 1]) else s
  }

  function LowerAll(parts: seq<string>): (r: seq<string>)
    ensures |r| == |parts| && forall i :: 0 <= i < |parts| ==> r[i] == Lower(parts[i])
  {
    if parts == [] then [] else [Lower(parts[0])] + LowerAll(parts[1..])
  }

  predicate DnWithinBase(dn: string, baseDn: string) {
    var child := StripCommas(TrimDn(dn));
    var base := StripCommas(TrimDn(baseDn));
    if base == "" then true
    else if child == "" then false
    else if Lower(child) == Lower(base) then true
    else
      var baseRdns := SplitTop(base, ',');
      var childRdns := SplitTop(child, ',');
      if |childRdns| <= |baseRdns| then false
      else Join(LowerAll(childRdns[|childRdns| - |baseRdns|..]), ",") == Lower(base)
  }

  // --- Building a DN --------------------------------------------------------------------

  function HexDigit(n: int): char
    requires 0 <= n < 16
  {
    if n < 10 then ('0' as int + n) as char else ('a' as int + n - 10) as char
  }

  predicate AlwaysEscaped(c: char) {
    c == '\\' || c == ',' || c == '+' || c == '"' || c == '<' || c == '>' || c == ';'
  }

  function EscapeDnChar(c: char, first: bool, last: bool): string {
    if c == '\0' then "\\00"
    else if AlwaysEscaped(c) then ['\\', c]
    else if c < ' ' then ['\\', HexDigit(c as int / 16), HexDigit(c as int % 16)]
    else if (first || last) && c == ' ' then ['\\', c]
    else if first && c == '#' then ['\\', c]
    else [c]
  }

  /** The escapes of the characters from position i on. */
  function EscapeFrom(value: string, i: nat): string
    requires i <= |value|
    decreases |value| - i
  {
    if i == |value| then "" else EscapeDnChar(value[i], i == 0, i == |value| - 1) + EscapeFrom(value, i + 1)
  }

  method EscapeDnValue(text: string) returns (escaped: string)
    ensures escaped == EscapeFrom(text, 0)
  {
    escaped := "";
    for index := 0 to |text|
      invariant EscapeFrom(text, 0) == escaped + EscapeFrom(text, index)
    {
      escaped := escaped + EscapeDnChar(text[index], index == 0, index == |text| - 1);
    }
  }

  function BuildDn(rdnAttr: string, rdnValue: string, parentDn: string): string {
    var attr := Trim(rdnAttr);
    var value := Trim(rdnValue);
    if attr == "" || value == "" then ""
    else JoinRdnAndParent(attr + "=" + EscapeFrom(value, 0), Trim(parentDn))
  }

  // --- The chain of ancestors -----------------------------------------------------------

  lemma TrimShortens(s: string)
    ensures |TrimStart(s)| <= |s| && |TrimDn(s)| <= |s|
  {
    TrimStartBounds(s);
    TrimEndShortens(TrimStart(s));
  }

  lemma {:induction false} TrimEndShortens(s: string)
    ensures TrimDnEnd(s) <= s
  {
    if s != "" {
      TrimEndShortens(s[..|s| - 1]);
    }
  }

  function ParentDn(dn: string): string {
    SplitFirstDnRdn(dn).parentDn
  }

  lemma ParentIsShorter(dn: string)
    requires dn != ""
    ensures |ParentDn(dn)| < |dn|
  {
    var text := TrimDn(dn);
    TrimShortens(dn);
    var separator := FindTop(text, ',', false, false);
    if separator >= 0 {
      TrimShortens(text[separator + 1..]);
    }
  }

  /** The way up from current to just below base, topmost first; None when it misses base. */
  function Climb(current: string, base: string): Option<seq<string>>
    decreases |current|
  {
    if current == "" then None
    else if Lower(current) == Lower(base) then Some([])
    else
      ParentIsShorter(current);
      match Climb(ParentDn(current), base)
      case None => None
      case Some(above) => Some(above + [current])
  }

  function PathChain(targetDn: string, baseDn: string): seq<string> {
    var base := Trim(baseDn);
    var target := Trim(targetDn);
    if target == "" || base == "" then []
    else if Lower(target) == Lower(base) then [base]
    else if !DnWithinBase(target, base) then []
    else
      match Climb(target, base)
      case None => []
      case Some(ancestors) => [base] + ancestors
  }

  /** The ancestors in front of those the loop has already collected. */
  function Above(climbed: Option<seq<string>>, collected: seq<string>): Option<seq<string>> {
    match climbed case None => None case Some(above) => Some(above + collected)
  }

  function Reverse(s: seq<string>): seq<string> {
    if s == [] then [] else Reverse(s[1..]) + [s[0]]
  }

  lemma {:induction false} ReverseSnoc(s: seq<string>, x: string)
    ensures Reverse(s + [x]) == [x] + Reverse(s)
  {
    if s == [] {
      assert ([] + [x])[1..] == [];
    } else {
      ReverseSnoc(s[1..], x);
      assert (s + [x])[1..] == s[1..] + [x];
    }
  }

  method DnPathChain(targetDn: string, baseDn: string) returns (chain: seq<string>)
    ensures chain == PathChain(targetDn, baseDn)
  {
    var base := Trim(baseDn);
    var target := Trim(targetDn);
    if target == "" || base == "" {
      return [];
    }
    if Lower(target) == Lower(base) {
      return [base];
    }
    if !DnWithinBase(target, base) {
      return [];
    }
    var ancestors: seq<string> := [];
    var current := target;
    AboveNothing(Climb(target, base));
    while current != "" && Lower(current) != Lower(base)
      invariant Climb(target, base) == Above(Climb(current, base), Reverse(ancestors))
      decreases |current|
    {
      ParentIsShorter(current);
      ReverseSnoc(ancestors, current);
      AboveStep(current, base, Reverse(ancestors));
      ancestors := ancestors + [current];
      current := SplitFirstDnRdn(current).parentDn;
    }
    if current == "" {
      return [];
    }
    assert [] + Reverse(ancestors) == Reverse(ancestors);
    chain := [base] + Reverse(ancestors);
  }

  lemma AboveNothing(climbed: Option<seq<string>>)
    ensures Above(climbed, Reverse([])) == climbed
  {
    if climbed.Some? {
      assert climbed.value + [] == climbed.value;
    }
  }

  lemma AboveStep(current: string, base: string, collected: seq<string>)
    requires current != "" && Lower(current) != Lower(base)
    ensures Above(Climb(current, base), collected) == Above(Climb(ParentDn(current), base), [current] + collected)
  {
    ParentIsShorter(current);
    var climbed := Climb(ParentDn(current), base);
    if climbed.Some? {
      assert climbed.value + [current] + collected == climbed.value + ([current] + collected);
    }
  }
}
