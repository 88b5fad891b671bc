/** Characters, trimming and the attribute names shared by the text formats. */
module Text {
  /** White space as String.trim and \s in a u-flagged expression understand it. */
  predicate IsSpace(c: char) {
    '\t' <= c <= '\r' || c == ' ' || c == '\U{00A0}' || c == '\U{1680}' || '\U{2000}' <= c <= '\U{200A}'
    || c == '\U{2028}' || c == '\U{2029}' || c == '\U{202F}' || c == '\U{205F}' || c == '\U{3000}' || c == '\U{FEFF}'
  }

  function TrimStart(s: string): string {
    if s != "" && IsSpace(s[0]) then TrimStart(s[1..]) else s
  }

  function TrimEnd(s: string): string {
    if s != "" && IsSpace(s[|s| - 1]) then TrimEnd(s[..|s| - 1]) else s
  }

  function Trim(s: string): string {
    TrimEnd(TrimStart(s))
  }

  predicate Trimmed(s: string) {
    s != "" ==> !IsSpace(s[0]) && !IsSpace(s[|s| - 1])
  }

  lemma {:induction false} TrimStartBounds(s: string)
    ensures TrimStart(s) != "" ==> !IsSpace(TrimStart(s)[0]) && s[|s| - 1] == TrimStart(s)[|TrimStart(s)| - 1]
    ensures s == "" ==> TrimStart(s) == ""
    ensures |TrimStart(s)| <= |s|
  {
    if s != "" && IsSpace(s[0]) {
      TrimStartBounds(s[1..]);
    }
  }

  lemma {:induction false} TrimEndBounds(s: string)
    ensures TrimEnd(s) != "" ==> s[0] == TrimEnd(s)[0] && !IsSpace(TrimEnd(s)[|TrimEnd(s)| - 1])
    ensures TrimEnd(s) <= s
  {
    if s != "" && IsSpace(s[|s| - 1]) {
      TrimEndBounds(s[..|s| - 1]);
    }
  }

  lemma {:induction false} TrimEndKeepsStart(s: string)
    requires s != "" && !IsSpace(s[0])
    ensures TrimEnd(s) != ""
  {
    if IsSpace(s[|s| - 1]) {
      TrimEndKeepsStart(s[..|s| - 1]);
    }
  }

  lemma TrimTrims(s: string)
    ensures Trimmed(Trim(s))
  {
    TrimStartBounds(s);
    TrimEndBounds(TrimStart(s));
  }

  lemma TrimKeeps(s: string)
    requires Trimmed(s)
    ensures Trim(s) == s
  {
  }

  lemma TrimAgain(s: string)
    ensures Trim(Trim(s)) == Trim(s)
  {
    TrimTrims(s);
    TrimKeeps(Trim(s));
  }

  function LowerChar(c: char): char {
    if 'A' <= c <= 'Z' then (c as int + 32) as char else c
  }

  /** toLowerCase, on ASCII letters. */
  function Lower(s: string): (r: string)
    ensures |r| == |s|
    ensures forall i :: 0 <= i < |s| ==> r[i] == LowerChar(s[i])
  {
    if s == "" then "" else [LowerChar(s[0])] + Lower(s[1..])
  }

  predicate IsDigit(c: char) { '0' <= c <= '9' }

  predicate IsAlpha(c: char) { 'A' <= c <= 'Z' || 'a' <= c <= 'z' }

  predicate IsHex(c: char) { IsDigit(c) || 'a' <= c <= 'f' || 'A' <= c <= 'F' }

  function HexValue(c: char): int
    requires IsHex(c)
  {
    if IsDigit(c) then c as int - '0' as int
    else if 'a' <= c then c as int - 'a' as int + 10
    else c as int - 'A' as int + 10
  }

  function IndexOf(s: string, c: char): (i: int)
    ensures -1 <= i < |s|
    ensures i >= 0 ==> s[i] == c && c !in s[..i]
    ensures i < 0 ==> c !in s
  {
    if s == "" then -1
    else if s[0] == c then 0
    else
      var i := IndexOf(s[1..], c);
      if i < 0 then -1
      else
        assert s[..i + 1] == [s[0]] + s[1..][..i];
        i + 1
  }

  lemma IndexOfAt(a: string, c: char, b: string)
    requires c !in a
    ensures IndexOf(a + [c] + b, c) == |a|
  {
    var s := a + [c] + b;
    assert s[|a|] == c;
    assert forall k :: 0 <= k < |a| ==> s[k] == a[k];
    assert forall i :: |a| < i < |s| ==> s[..i][|a|] == c;
  }

  function Join(parts: seq<string>, sep: string): string {
    if parts == [] then ""
    else if |parts| == 1 then parts[0]
    else parts[0] + sep + Join(parts[1..], sep)
  }

  /** The pieces between the occurrences of a character: always at least one. */
  function Split(s: string, c: char): (parts: seq<string>)
    ensures parts != []
    ensures forall i :: 0 <= i < |parts| ==> c !in parts[i]
  {
    if s == "" then [""]
    else
      var rest := Split(s[1..], c);
      if s[0] == c then [""] + rest else [[s[0]] + rest[0]] + rest[1..]
  }

  lemma Assoc<T>(a: seq<T>, b: seq<T>, c: seq<T>)
    ensures a + (b + c) == a + b + c
  {
  }

  // --- Hex escapes of UTF-8 bytes --------------------------------------------------------

  /** new TextDecoder("utf-8").decode */
  type Decoder = seq<int> -> string

  function Chars(bytes: seq<int>): string
    requires forall i :: 0 <= i < |bytes| ==> 0 <= bytes[i] < 128
  {
    if bytes == [] then "" else [bytes[0] as char] + Chars(bytes[1..])
  }

  /** ASCII bytes decode to themselves. */
  ghost predicate DecodesAscii(decode: Decoder) {
    forall bytes :: (forall i :: 0 <= i < |bytes| ==> 0 <= bytes[i] < 128) ==> decode(bytes) == Chars(bytes)
  }

  predicate HexEscape(s: string) {
    |s| >= 3 && s[0] == '\\' && IsHex(s[1]) && IsHex(s[2])
  }

  function FlushBytes(bytes: seq<int>, decode: Decoder): string {
    if bytes == [] then "" else decode(bytes)
  }

  lemma CharsSnoc(bytes: seq<int>, b: int)
    requires forall i :: 0 <= i < |bytes| ==> 0 <= bytes[i] < 128
    requires 0 <= b < 128
    ensures Chars(bytes + [b]) == Chars(bytes) + [b as char]
  {
    if bytes != [] {
      CharsSnoc(bytes[1..], b);
      assert (bytes + [b])[1..] == bytes[1..] + [b];
    }
  }

  // --- Attribute names ------------------------------------------------------------------

  /** Positions in an attribute description: a name or a dotted OID, then any options. */
  datatype AttrState = Start | Name | Digits | Dot | Oid | OptionStart | Option | Bad

  /** fold: the letters an i-flagged u-flagged expression adds to a-z. */
  predicate IsNameLetter(c: char, fold: bool) {
    IsAlpha(c) || (fold && (c == '\U{017F}' || c == '\U{212A}'))
  }

  function AttrStep(st: AttrState, c: char, options: bool, fold: bool): AttrState {
    match st
    case Start => if IsNameLetter(c, fold) then Name else if IsDigit(c) then Digits else Bad
    case Name =>
      if IsNameLetter(c, fold) || IsDigit(c) || c == '-' then Name
      else if c == ';' && options then OptionStart else Bad
    case Digits => if IsDigit(c) then Digits else if c == '.' then Dot else Bad
    case Dot => if IsDigit(c) then Oid else Bad
    case Oid =>
      if IsDigit(c) then Oid else if c == '.' then Dot
      else if c == ';' && options then OptionStart else Bad
    case OptionStart => if IsAlpha(c) || IsDigit(c) || c == '-' then Option else Bad
    case Option =>
      if IsAlpha(c) || IsDigit(c) || c == '-' then Option else if c == ';' then OptionStart else Bad
    case Bad => Bad
  }

  function AttrRun(st: AttrState, s: string, options: bool, fold: bool): AttrState
    decreases |s|
  {
    if s == "" then st else AttrRun(AttrStep(st, s[0], options, fold), s[1..], options, fold)
  }

  predicate Accepting(st: AttrState) {
    st == Name || st == Oid || st == Option
  }

  /** descr or numericoid with a dot, then `;option` segments. */
  predicate IsAttributeDescription(s: string) {
    Accepting(AttrRun(Start, s, true, false))
  }

  /** descr or numericoid with a dot, no options, matched without regard to case. */
  predicate IsAttributeType(s: string) {
    Accepting(AttrRun(Start, s, false, true))
  }

  predicate IsAttrChar(c: char) {
    IsNameLetter(c, true) || IsDigit(c) || c == '-' || c == ';' || c == '.'
  }

  lemma {:induction false} BadStays(s: string, options: bool, fold: bool)
    ensures AttrRun(Bad, s, options, fold) == Bad
  {
    if s != "" {
      BadStays(s[1..], options, fold);
    }
  }

  lemma {:induction false} AttrChars(st: AttrState, s: string, options: bool, fold: bool)
    requires Accepting(AttrRun(st, s, options, fold))
    ensures forall i :: 0 <= i < |s| ==> IsAttrChar(s[i])
    decreases |s|
  {
    if s != "" {
      if AttrStep(st, s[0], options, fold) == Bad {
        BadStays(s[1..], options, fold);
      }
      AttrChars(AttrStep(st, s[0], options, fold), s[1..], options, fold);
      forall i | 0 <= i < |s| ensures IsAttrChar(s[i]) {
        assert i > 0 ==> s[i] == s[1..][i - 1];
      }
    }
  }

  /** An accepted name is not empty, is trimmed, and has only name characters. */
  lemma AttributeShape(s: string)
    requires IsAttributeDescription(s) || IsAttributeType(s)
    ensures s != "" && Trimmed(s) && forall i :: 0 <= i < |s| ==> IsAttrChar(s[i])
  {
    if IsAttributeDescription(s) {
      AttrChars(Start, s, true, false);
    } else {
      AttrChars(Start, s, false, true);
    }
  }

  /** A letter followed by letters, digits and hyphens is an attribute name. */
  lemma {:induction false} NameIsAttribute(s: string, st: AttrState)
    requires st == Name || (st == Start && s != "" && IsAlpha(s[0]))
    requires forall i :: 0 <= i < |s| ==> IsAlpha(s[i]) || IsDigit(s[i]) || s[i] == '-'
    ensures AttrRun(st, s, true, false) == Name
    decreases |s|
  {
    if s != "" {
      NameIsAttribute(s[1..], Name);
    }
  }
}
