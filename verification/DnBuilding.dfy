/** Building a DN and taking it apart again: newEntryTemplates.ts against dn.ts. */
module DnBuilding {
  import opened Wrappers
  import opened Text
  import opened Dn
  import opened DnTheorems

  // --- Trimming -------------------------------------------------------------------------

  predicate EscapedEnd(s: string)
    requires s != ""
  {
    TrailingSlashes(s[..|s| - 1]) % 2 != 0
  }

  /** Nothing that trimming would take away. */
  predicate DnTrimmed(s: string) {
    s != "" ==> !IsSpace(s[0]) && (IsSpace(s[|s| - 1]) ==> EscapedEnd(s))
  }

  lemma TrimDnKeeps(s: string)
    requires DnTrimmed(s)
    ensures TrimDn(s) == s
  {
  }

  lemma {:induction false} TrimDnEndShape(s: string)
    ensures TrimDnEnd(s) != "" ==> TrimDnEnd(s)[0] == s[0]
    ensures TrimDnEnd(s) != "" ==>
      var r := TrimDnEnd(s); IsSpace(r[|r| - 1]) ==> EscapedEnd(r)
    ensures TrimEnd(TrimDnEnd(s)) == TrimEnd(s)
    ensures s == "" ==> TrimDnEnd(s) == ""
  {
    if s != "" && IsSpace(s[|s| - 1]) && !EscapedEnd(s) {
      TrimDnEndShape(s[..|s| - 1]);
    }
  }

  lemma TrimDnTrims(s: string)
    ensures DnTrimmed(TrimDn(s)) && TrimDn(TrimDn(s)) == TrimDn(s)
  {
    TrimStartBounds(s);
    TrimDnEndShape(TrimStart(s));
    TrimDnKeeps(TrimDn(s));
  }

  /** String.trim and the DN's own trimming agree exactly when the DN does not end in white space. */
  lemma TrimsAgree(s: string)
    ensures Trim(s) == TrimDn(s) <==> TrimDn(s) == "" || !IsSpace(TrimDn(s)[|TrimDn(s)| - 1])
  {
    TrimDnEndShape(TrimStart(s));
    TrimEndBounds(TrimStart(s));
  }

  lemma {:induction false} SlashesAfterComma(a: string, b: string)
    ensures TrailingSlashes(a + "," + b) == TrailingSlashes(b)
  {
    var s := a + "," + b;
    if b == "" {
      assert s[|s| - 1] == ',';
    } else {
      assert s[|s| - 1] == b[|b| - 1];
      if b[|b| - 1] == '\\' {
        SlashesAfterComma(a, b[..|b| - 1]);
        assert s[..|s| - 1] == a + "," + b[..|b| - 1];
      }
    }
  }

  lemma JoinedTrimmed(a: string, b: string)
    requires a != "" && b != "" && DnTrimmed(a) && DnTrimmed(b)
    ensures DnTrimmed(a + "," + b)
  {
    var s := a + "," + b;
    assert s[0] == a[0] && s[|s| - 1] == b[|b| - 1];
    SlashesAfterComma(a, b[..|b| - 1]);
    assert s[..|s| - 1] == a + "," + b[..|b| - 1];
  }

  // --- Splitting what was joined --------------------------------------------------------

  /** A backslash and the character after it leave the scan where it was. */
  lemma ScanEscape(s: string, quoted: bool)
    requires |s| >= 2 && s[0] == '\\'
    ensures Scan(s, Mode(false, quoted)) == Scan(s[2..], Mode(false, quoted))
  {
    assert Scan(s, Mode(false, quoted)) == Scan(s[1..], Mode(true, quoted));
    assert s[1..][1..] == s[2..];
  }

  lemma ScanPlain(s: string, quoted: bool)
    requires s != "" && s[0] != '\\'
    ensures Scan(s, Mode(false, quoted)) == Scan(s[1..], Mode(false, if s[0] == '"' then !quoted else quoted))
  {
  }

  /** Balanced quotes and whole escapes leave the scan fresh. */
  lemma {:induction false} ValidScan(s: string, quoted: bool)
    requires ValidEscapes(s, quoted)
    ensures Scan(s, Mode(false, quoted)) == FRESH
    decreases |s|
  {
    if s != "" {
      hide Scan;
      if s[0] != '\\' {
        ScanPlain(s, quoted);
        ValidScan(s[1..], if s[0] == '"' then !quoted else quoted);
      } else if IsHex(s[1]) {
        ScanEscape(s, quoted);
        ScanPlain(s[2..], quoted);
        assert s[2..][1..] == s[3..];
        ValidScan(s[3..], quoted);
      } else {
        ScanEscape(s, quoted);
        ValidScan(s[2..], quoted);
      }
    }
  }

  /** A DN joined from a well-formed RDN and any parent splits back into the two. */
  lemma JoinedDnSplits(rdn: string, parentDn: string)
    requires IsLikelyRdn(rdn)
    ensures SplitFirstDnRdn(JoinRdnAndParent(rdn, parentDn)) == DnSplit(TrimDn(rdn), TrimDn(parentDn))
  {
    var r, p := TrimDn(rdn), TrimDn(parentDn);
    assert r != "" && ValidEscapes(r, false) && Top(r, ',', FRESH) < 0;
    assert JoinRdnAndParent(rdn, parentDn) == if p == "" then r else r + "," + p;
    hide *;
    TrimDnTrims(rdn);
    TrimDnTrims(parentDn);
    ValidScan(r, false);
    if p == "" {
      SplitsAlone(r);
    } else {
      JoinedTrimmed(r, p);
      TrimDnKeeps(r + "," + p);
      SplitAfter(r, p, ',');
      assert r + "," + p == r + ([','] + p);
      SplitsBoth(r, p);
    }
  }

  lemma SplitsAlone(r: string)
    requires r != "" && TrimDn(r) == r && Top(r, ',', FRESH) < 0
    ensures SplitFirstDnRdn(r) == DnSplit(r, "")
  {
    hide TrimDn, FindTop;
  }

  lemma SplitsBoth(r: string, p: string)
    requires TrimDn(r + "," + p) == r + "," + p && Top(r + "," + p, ',', FRESH) == |r|
    requires TrimDn(r) == r && TrimDn(p) == p
    ensures SplitFirstDnRdn(r + "," + p) == DnSplit(r, p)
  {
    hide TrimDn, FindTop;
    var s := r + "," + p;
    assert s[..|r|] == r && s[|r| + 1..] == p;
  }

  // --- Escaped values -------------------------------------------------------------------

  /** An escaped character: itself, behind a backslash, or a backslash and its two hex digits. */
  lemma EscapeShape(c: char, first: bool, last: bool)
    ensures var e := EscapeDnChar(c, first, last);
            || (e == [c] && c !in {'\\', '"', ',', '+', '\0'} && (first ==> c != '#'))
            || (e == ['\\', c] && IsSpecial(c) && !IsHex(c))
            || (|e| == 3 && HexEscape(e) && 16 * HexValue(e[1]) + HexValue(e[2]) == c as int < 128)
  {
  }

  lemma {:induction false} EscapedIsValid(v: string, i: nat)
    requires i <= |v|
    ensures ValidEscapes(EscapeFrom(v, i), false)
    decreases |v| - i
  {
    if i < |v| {
      var e, more := EscapeDnChar(v[i], i == 0, i == |v| - 1), EscapeFrom(v, i + 1);
      EscapeShape(v[i], i == 0, i == |v| - 1);
      EscapedIsValid(v, i + 1);
      hide EscapeDnChar, HexValue;
      var s := e + more;
      assert |e| == 1 ==> s[1..] == more;
      assert |e| == 2 ==> s[2..] == more;
      assert |e| == 3 ==> s[3..] == more;
    }
  }

  // The string production of section 3 of RFC 4514.

  /** Characters that may stand in a value as they are. */
  predicate StringChar(c: char) {
    c !in {'\0', '"', '+', ',', ';', '<', '>', '\\'}
  }

  /** What a backslash may stand in front of, hex digits apart. */
  predicate Escapable(c: char) {
    c in {'"', '+', ',', ';', '<', '>', ' ', '#', '=', '\\'}
  }

  /** A value, or from its second character on the rest of one: pairs, and characters as they are, the
      first of them no space or number sign and the last no space. */
  predicate DnString(s: string, first: bool)
    decreases |s|
  {
    if s == "" then true
    else if s[0] == '\\' then
      if |s| >= 2 && Escapable(s[1]) then DnString(s[2..], false) else HexEscape(s) && DnString(s[3..], false)
    else StringChar(s[0]) && (first ==> s[0] != ' ' && s[0] != '#') && (|s| == 1 ==> s[0] != ' ') && DnString(s[1..], false)
  }

  lemma DnStringStep(e: string, more: string, c: char, first: bool, last: bool)
    requires e == EscapeDnChar(c, first, last) && (last <==> more == "") && DnString(more, false)
    ensures DnString(e + more, first)
  {
    var s := e + more;
    assert |e| == 1 ==> s[1..] == more;
    assert |e| == 2 ==> s[2..] == more;
    assert |e| == 3 ==> s[3..] == more;
  }

  /** An escaped value is a value of RFC 4514: none of its special characters is left as it is. */
  lemma {:induction false} EscapedIsDnString(v: string, i: nat)
    requires i <= |v|
    ensures DnString(EscapeFrom(v, i), i == 0) && (EscapeFrom(v, i) == "" <==> i == |v|)
    decreases |v| - i
  {
    if i < |v| {
      EscapedIsDnString(v, i + 1);
      EscapeFirst(v, i);
      DnStringStep(EscapeDnChar(v[i], i == 0, i == |v| - 1), EscapeFrom(v, i + 1), v[i], i == 0, i == |v| - 1);
    }
  }

  lemma {:induction false} EscapedHasNoTop(v: string, i: nat, target: char)
    requires i <= |v| && Separator(target)
    ensures Top(EscapeFrom(v, i), target, FRESH) < 0
    decreases |v| - i
  {
    if i < |v| {
      var e, more := EscapeDnChar(v[i], i == 0, i == |v| - 1), EscapeFrom(v, i + 1);
      EscapeShape(v[i], i == 0, i == |v| - 1);
      EscapedHasNoTop(v, i + 1, target);
      hide EscapeDnChar, HexValue, EscapeFrom;
      ValidUnit(e, target);
      TopSplit(e, more, target, FRESH);
      assert EscapeFrom(v, i) == e + more by {
        EscapeFirst(v, i);
      }
    }
  }

  lemma EscapeFirst(v: string, i: nat)
    requires i < |v|
    ensures EscapeFrom(v, i) == EscapeDnChar(v[i], i == 0, i == |v| - 1) + EscapeFrom(v, i + 1)
  {
  }

  /** One escaped character is passed over whole by the scan. */
  lemma ValidUnit(e: string, target: char)
    requires Separator(target)
    requires (|e| == 1 && e[0] !in {'\\', '"', ',', '+', '\0'}) || (|e| == 2 && e[0] == '\\') || (|e| == 3 && HexEscape(e))
    ensures Top(e, target, FRESH) < 0 && Scan(e, FRESH) == FRESH
  {
    TopStep(e, target, FRESH);
    if |e| == 1 {
      ScanPlain(e, false);
    } else {
      ScanEscape(e, false);
      TopStep(e[1..], target, Mode(true, false));
      assert e[1..][1..] == e[2..];
      if |e| == 3 {
        TopStep(e[2..], target, FRESH);
        ScanPlain(e[2..], false);
      }
    }
  }

  lemma DecodeHex(e: string, more: string, bytes: seq<int>, decode: Decoder)
    requires |e| == 3 && HexEscape(e)
    ensures DecodeEscaped(e + more, bytes, decode) == DecodeEscaped(more, bytes + [16 * HexValue(e[1]) + HexValue(e[2])], decode)
  {
    hide HexValue;
    assert (e + more)[3..] == more;
  }

  lemma DecodeOther(e: string, more: string, bytes: seq<int>, decode: Decoder)
    requires (|e| == 1 && e[0] != '\\') || (|e| == 2 && e[0] == '\\' && !IsHex(e[1]))
    ensures DecodeEscaped(e + more, bytes, decode)
      == FlushBytes(bytes, decode) + [e[|e| - 1]] + DecodeEscaped(more, [], decode)
  {
    assert |e| == 1 ==> (e + more)[1..] == more;
    assert |e| == 2 ==> (e + more)[2..] == more && !HexEscape(e + more);
  }

  lemma DecodeEnd(bytes: seq<int>, decode: Decoder)
    requires DecodesAscii(decode) && forall k :: 0 <= k < |bytes| ==> 0 <= bytes[k] < 128
    ensures DecodeEscaped("", bytes, decode) == FlushBytes(bytes, decode) == Chars(bytes) && Chars([]) == ""
  {
  }

  lemma DecodeUnitHex(e: string, c: char, more: string, tail: string, bytes: seq<int>, decode: Decoder)
    requires |e| == 3 && HexEscape(e) && 16 * HexValue(e[1]) + HexValue(e[2]) == c as int < 128
    requires forall k :: 0 <= k < |bytes| ==> 0 <= bytes[k] < 128
    requires DecodeEscaped(more, bytes + [c as int], decode) == Chars(bytes + [c as int]) + tail
    ensures DecodeEscaped(e + more, bytes, decode) == Chars(bytes) + ([c] + tail)
  {
    hide *;
    DecodeHex(e, more, bytes, decode);
    CharsSnoc(bytes, c as int);
    Assoc(Chars(bytes), [c], tail);
  }

  lemma DecodeUnitOther(e: string, c: char, more: string, tail: string, bytes: seq<int>, decode: Decoder)
    requires (e == [c] && c != '\\') || (e == ['\\', c] && !IsHex(c))
    requires forall k :: 0 <= k < |bytes| ==> 0 <= bytes[k] < 128
    requires FlushBytes(bytes, decode) == Chars(bytes) && DecodeEscaped(more, [], decode) == tail
    ensures DecodeEscaped(e + more, bytes, decode) == Chars(bytes) + ([c] + tail)
  {
    hide *;
    DecodeOther(e, more, bytes, decode);
    Assoc(Chars(bytes), [c], tail);
  }

  lemma SuffixCons(v: string, i: nat)
    requires i < |v|
    ensures v[i..] == [v[i]] + v[i + 1..]
  {
  }

  /** Decoding undoes escaping, also where hex pairs run together. */
  lemma {:induction false} DecodesEscaped(v: string, i: nat, bytes: seq<int>, decode: Decoder)
    requires i <= |v| && DecodesAscii(decode) && forall k :: 0 <= k < |bytes| ==> 0 <= bytes[k] < 128
    ensures DecodeEscaped(EscapeFrom(v, i), bytes, decode) == Chars(bytes) + v[i..]
    decreases |v| - i
  {
    hide *;
    DecodeEnd(bytes, decode);
    if i == |v| {
      EscapeNothing(v);
      assert Chars(bytes) + v[i..] == Chars(bytes);
    } else {
      var c := v[i];
      var e, more := EscapeDnChar(c, i == 0, i == |v| - 1), EscapeFrom(v, i + 1);
      EscapeShape(c, i == 0, i == |v| - 1);
      EscapeFirst(v, i);
      SuffixCons(v, i);
      if |e| == 3 {
        DecodesEscaped(v, i + 1, bytes + [c as int], decode);
        DecodeUnitHex(e, c, more, v[i + 1..], bytes, decode);
      } else {
        DecodesEscaped(v, i + 1, [], decode);
        assert "" + v[i + 1..] == v[i + 1..];
        DecodeUnitOther(e, c, more, v[i + 1..], bytes, decode);
      }
    }
  }

  lemma EscapeNothing(v: string)
    ensures EscapeFrom(v, |v|) == ""
  {
  }

  /** The escaped form of a trimmed value starts and ends with characters trimming keeps. */
  lemma EscapedEnds(v: string)
    requires v != "" && Trimmed(v)
    ensures var e := EscapeFrom(v, 0);
            e != "" && Trimmed(e) && e[0] != '#' && e[0] != '"'
  {
    EscapeFirst(v, 0);
    EscapeShape(v[0], true, |v| == 1);
    EscapedLast(v, 0);
  }

  lemma LastIsNoSpace(c: char, first: bool)
    requires !IsSpace(c)
    ensures var e := EscapeDnChar(c, first, true); e != "" && !IsSpace(e[|e| - 1])
  {
  }

  lemma EscapeEnd(v: string)
    ensures EscapeFrom(v, |v|) == ""
  {
  }

  lemma {:induction false} EscapedLast(v: string, i: nat)
    requires i < |v| && !IsSpace(v[|v| - 1])
    ensures EscapeFrom(v, i) != "" && !IsSpace(EscapeFrom(v, i)[|EscapeFrom(v, i)| - 1])
    decreases |v| - i
  {
    hide *;
    EscapeFirst(v, i);
    if i == |v| - 1 {
      LastIsNoSpace(v[i], i == 0);
      EscapeEnd(v);
    } else {
      EscapedLast(v, i + 1);
    }
  }

  // --- The round trip -------------------------------------------------------------------

  predicate Ordinary(s: string) {
    forall i :: 0 <= i < |s| ==> s[i] !in {'\\', '"', '\0', ',', '+'}
  }

  lemma {:induction false} OrdinaryFront(a: string, s: string)
    requires Ordinary(a)
    ensures ValidEscapes(a + s, false) == ValidEscapes(s, false)
    ensures forall target :: Separator(target) ==> Top(a, target, FRESH) < 0
    ensures Scan(a, FRESH) == FRESH
  {
    if a == "" {
      assert a + s == s;
    } else {
      assert (a + s)[1..] == a[1..] + s && (a + s)[0] == a[0];
      OrdinaryFront(a[1..], s);
      assert Next(FRESH, a[0]) == FRESH;
      forall target | Separator(target) ensures Top(a, target, FRESH) < 0 {
        TopStep(a, target, FRESH);
      }
    }
  }

  lemma {:induction false} NoEquals(a: string)
    requires Ordinary(a) && '=' !in a
    ensures Top(a, '=', FRESH) < 0 && Scan(a, FRESH) == FRESH
  {
    if a != "" {
      NoEquals(a[1..]);
      assert Next(FRESH, a[0]) == FRESH && a[0] in a;
      TopStep(a, '=', FRESH);
    }
  }

  lemma EqualsAt(attr: string, e: string)
    requires Ordinary(attr) && '=' !in attr
    ensures Top(attr + "=" + e, '=', FRESH) == |attr|
    ensures (attr + "=" + e)[..|attr|] == attr && (attr + "=" + e)[|attr| + 1..] == e
  {
    NoEquals(attr);
    assert attr + "=" + e == attr + ("=" + e);
    TopSplit(attr, "=" + e, '=', FRESH);
    TopStep("=" + e, '=', FRESH);
  }

  lemma AttributeIsOrdinary(attr: string)
    requires IsAttributeType(attr)
    ensures attr != "" && Trimmed(attr) && Ordinary(attr) && '=' !in attr && Ordinary(attr + "=")
  {
    AttributeShape(attr);
    hide IsAttributeType;
    assert !IsAttrChar('=');
  }

  /** attr=escaped value: one component, well-formed, with its equals sign where it should be. */
  lemma BuiltShape(attr: string, v: string)
    requires IsAttributeType(attr) && v != "" && Trimmed(v)
    ensures var e := EscapeFrom(v, 0);
            var rdn := attr + "=" + e;
            && rdn != "" && Trimmed(rdn) && ValidEscapes(rdn, false)
            && Top(rdn, ',', FRESH) < 0 && Top(rdn, '+', FRESH) < 0
            && Top(rdn, '=', FRESH) == |attr| && rdn[..|attr|] == attr && rdn[|attr| + 1..] == e
  {
    var e := EscapeFrom(v, 0);
    AttributeIsOrdinary(attr);
    EscapedEnds(v);
    EscapedIsValid(v, 0);
    EscapedHasNoTop(v, 0, ',');
    EscapedHasNoTop(v, 0, '+');
    hide IsAttributeType, EscapeFrom, ValidEscapes, FindTop, Scan, Ordinary;
    OrdinaryFront(attr + "=", e);
    TopSplit(attr + "=", e, ',', FRESH);
    TopSplit(attr + "=", e, '+', FRESH);
    EqualsAt(attr, e);
    var rdn := attr + "=" + e;
    assert rdn[0] == attr[0] && rdn[|rdn| - 1] == e[|e| - 1];
  }

  lemma TrimmedKept(s: string)
    requires s != "" && Trimmed(s)
    ensures Trim(s) == s && TrimDn(s) == s
  {
    TrimKeeps(s);
    TrimDnKeeps(s);
  }

  lemma BuiltIsLikely(attr: string, v: string)
    requires IsAttributeType(attr) && v != "" && Trimmed(v)
    ensures IsLikelyRdn(attr + "=" + EscapeFrom(v, 0))
  {
    var e := EscapeFrom(v, 0);
    var rdn := attr + "=" + e;
    BuiltShape(attr, v);
    EscapedEnds(v);
    AttributeIsOrdinary(attr);
    hide IsAttributeType, EscapeFrom, ValidEscapes, FindTop, TrimDn, Trim, SplitTop, Trimmed;
    TrimmedKept(rdn);
    TrimmedKept(attr);
    TrimmedKept(e);
    SplitOnce(rdn, '+');
  }

  lemma ParsesComponent(rdn: string, attr: string, e: string, decode: Decoder)
    requires Top(rdn, '=', FRESH) == |attr| && rdn[..|attr|] == attr && rdn[|attr| + 1..] == e
    requires Trim(attr) == attr && TrimDn(e) == e && e != "" && e[0] != '#' && e[0] != '"'
    ensures ParseComponent(rdn, decode) == Some(Ava(attr, DecodeEscaped(e, [], decode)))
  {
    hide FindTop, Trim, TrimDn, DecodeEscaped;
  }

  lemma ParsesAlone(rdn: string, ava: Ava, decode: Decoder)
    requires IsLikelyRdn(rdn) && SplitTop(rdn, '+') == [rdn] && ParseComponent(rdn, decode) == Some(ava)
    ensures ParseRdnAttributes(rdn, decode) == Some([ava])
  {
    hide IsLikelyRdn, SplitTop, ParseComponent;
    assert [rdn][1..] == [];
    assert ParseComponents([rdn][1..], decode) == Some([]);
    assert [ava] + [] == [ava];
  }

  lemma BuiltParses(attr: string, v: string, decode: Decoder)
    requires IsAttributeType(attr) && v != "" && Trimmed(v) && DecodesAscii(decode)
    ensures ParseRdnAttributes(attr + "=" + EscapeFrom(v, 0), decode) == Some([Ava(attr, v)])
  {
    var e := EscapeFrom(v, 0);
    var rdn := attr + "=" + e;
    assert Chars([]) == "";
    hide *;
    BuiltIsLikely(attr, v);
    BuiltShape(attr, v);
    EscapedEnds(v);
    AttributeIsOrdinary(attr);
    DecodesEscaped(v, 0, [], decode);
    assert "" + v[0..] == v;
    TrimmedKept(attr);
    TrimmedKept(e);
    SplitOnce(rdn, '+');
    ParsesComponent(rdn, attr, e, decode);
    ParsesAlone(rdn, Ava(attr, v), decode);
  }

  /** buildDn undone: its RDN is well formed and decodes to exactly the attribute and the value,
      and the DN splits into that RDN and the parent as String.trim leaves it. */
  lemma BuildDnRoundTrip(rdnAttr: string, rdnValue: string, parentDn: string, decode: Decoder)
    requires IsAttributeType(Trim(rdnAttr)) && Trim(rdnValue) != "" && DecodesAscii(decode)
    ensures var split := SplitFirstDnRdn(BuildDn(rdnAttr, rdnValue, parentDn));
            && IsLikelyRdn(split.rdn)
            && ParseRdnAttributes(split.rdn, decode) == Some([Ava(Trim(rdnAttr), Trim(rdnValue))])
            && split.parentDn == Trim(parentDn)
  {
    var attr, v, p := Trim(rdnAttr), Trim(rdnValue), Trim(parentDn);
    TrimTrims(rdnValue);
    TrimTrims(parentDn);
    AttributeIsOrdinary(attr);
    BuiltIsLikely(attr, v);
    BuiltParses(attr, v, decode);
    BuiltShape(attr, v);
    var rdn := attr + "=" + EscapeFrom(v, 0);
    assert BuildDn(rdnAttr, rdnValue, parentDn) == JoinRdnAndParent(rdn, p);
    assert TrimDn("") == "";
    hide *;
    JoinedDnSplits(rdn, p);
    TrimmedKept(rdn);
    if p != "" {
      TrimmedKept(p);
    }
  }

  /** The parent survives building and splitting exactly when it does not end in an escaped space. */
  lemma ParentSurvives(rdnAttr: string, rdnValue: string, parentDn: string, decode: Decoder)
    requires IsAttributeType(Trim(rdnAttr)) && Trim(rdnValue) != "" && DecodesAscii(decode)
    ensures SplitFirstDnRdn(BuildDn(rdnAttr, rdnValue, parentDn)).parentDn == TrimDn(parentDn)
      <==> TrimDn(parentDn) == "" || !IsSpace(TrimDn(parentDn)[|TrimDn(parentDn)| - 1])
  {
    BuildDnRoundTrip(rdnAttr, rdnValue, parentDn, decode);
    TrimsAgree(parentDn);
  }

  lemma CnIsType()
    ensures IsAttributeType("cn") && Trim("cn") == "cn" && Trim("a") == "a"
  {
    assert AttrRun(Start, "cn", false, true) == AttrRun(Name, "n", false, true) == AttrRun(Name, "", false, true);
    TrimKeeps("cn");
    TrimKeeps("a");
  }

  lemma EscapedSpaceTrims()
    ensures Trim("ou=b\\ ") == "ou=b\\" && TrimDn("ou=b\\ ") == "ou=b\\ "
  {
    var p := "ou=b\\ ";
    assert TrimStart(p) == p && p[..5] == "ou=b\\" && p[..5][..4] == "ou=b";
    assert TrimEnd(p) == TrimEnd(p[..5]) == p[..5];
    assert TrailingSlashes("ou=b") == 0 && TrailingSlashes(p[..5]) == 1;
  }

  /** Under the parent ou=b\ (with an escaped space at its end) the parent loses that space. */
  lemma EscapedSpaceIsCut(decode: Decoder)
    requires DecodesAscii(decode)
    ensures SplitFirstDnRdn(BuildDn("cn", "a", "ou=b\\ ")).parentDn == "ou=b\\" != TrimDn("ou=b\\ ")
  {
    hide *;
    CnIsType();
    EscapedSpaceTrims();
    BuildDnRoundTrip("cn", "a", "ou=b\\ ", decode);
    assert |"ou=b\\"| != |"ou=b\\ "|;
  }
}
