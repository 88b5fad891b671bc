/**
 Reading RDNs as they come from a directory: parseRdnAttributes of frontend/src/lib/dn.ts on quoted values
 and on RDNs of several parts.
 */
module DnRdn {
  import opened Wrappers
  import opened Text
  import opened Dn
  import opened DnTheorems
  import opened DnBuilding

  // --- Quoted values ----------------------------------------------------------------------

  /** Text that needs no escape between quotes. */
  predicate Quotable(v: string) {
    forall i :: 0 <= i < |v| ==> v[i] !in {'\\', '"', '\0'}
  }

  function Quoted(v: string): string {
    "\"" + v + "\""
  }

  lemma {:induction false} InsideQuotes(v: string, target: char)
    requires Quotable(v) && Separator(target)
    ensures ValidEscapes(v + "\"", true) && Top(v + "\"", target, Mode(false, true)) < 0
  {
    var s := v + "\"";
    TopStep(s, target, Mode(false, true));
    if v == "" {
      assert s == "\"" && s[1..] == "";
    } else {
      assert s[0] == v[0] && s[1..] == v[1..] + "\"";
      InsideQuotes(v[1..], target);
    }
  }

  lemma QuotedShape(v: string, target: char)
    requires Quotable(v) && Separator(target)
    ensures ValidEscapes(Quoted(v), false) && Top(Quoted(v), target, FRESH) < 0
    ensures Quoted(v) != "" && Trimmed(Quoted(v)) && |Quoted(v)| >= 2
    ensures Quoted(v)[0] == '"' && Quoted(v)[|Quoted(v)| - 1] == '"' && Quoted(v)[1..|Quoted(v)| - 1] == v
  {
    var q := Quoted(v);
    assert q[0] == '"' && q[1..] == v + "\"";
    InsideQuotes(v, target);
    TopStep(q, target, FRESH);
  }

  lemma {:induction false} PlainDecodes(v: string, decode: Decoder)
    requires Quotable(v)
    ensures DecodeEscaped(v, [], decode) == v
  {
    if v != "" {
      PlainDecodes(v[1..], decode);
      assert v == [v[0]] + v[1..];
    }
  }

  lemma QuotedRdnShape(attr: string, v: string)
    requires IsAttributeType(attr) && Quotable(v)
    ensures var rdn := attr + "=" + Quoted(v);
            && rdn != "" && Trimmed(rdn) && ValidEscapes(rdn, false)
            && Top(rdn, ',', FRESH) < 0 && Top(rdn, '+', FRESH) < 0
            && Top(rdn, '=', FRESH) == |attr| && rdn[..|attr|] == attr && rdn[|attr| + 1..] == Quoted(v)
  {
    var q := Quoted(v);
    AttributeIsOrdinary(attr);
    QuotedShape(v, ',');
    QuotedShape(v, '+');
    hide IsAttributeType, Quoted, ValidEscapes, FindTop, Scan, Ordinary;
    OrdinaryFront(attr + "=", q);
    TopSplit(attr + "=", q, ',', FRESH);
    TopSplit(attr + "=", q, '+', FRESH);
    EqualsAt(attr, q);
    var rdn := attr + "=" + q;
    assert rdn[0] == attr[0] && rdn[|rdn| - 1] == q[|q| - 1];
  }

  lemma QuotedIsLikely(attr: string, v: string)
    requires IsAttributeType(attr) && Quotable(v)
    ensures IsLikelyRdn(attr + "=" + Quoted(v)) && SplitTop(attr + "=" + Quoted(v), '+') == [attr + "=" + Quoted(v)]
  {
    var rdn := attr + "=" + Quoted(v);
    QuotedRdnShape(attr, v);
    QuotedShape(v, ',');
    AttributeIsOrdinary(attr);
    hide IsAttributeType, Quoted, ValidEscapes, FindTop, TrimDn, Trim, SplitTop, Trimmed;
    TrimmedKept(rdn);
    TrimmedKept(attr);
    TrimmedKept(Quoted(v));
    SplitOnce(rdn, '+');
  }

  lemma ParsesQuoted(rdn: string, attr: string, v: string, decode: Decoder)
    requires Top(rdn, '=', FRESH) == |attr| && rdn[..|attr|] == attr && rdn[|attr| + 1..] == Quoted(v)
    requires Trim(attr) == attr && TrimDn(Quoted(v)) == Quoted(v) && DecodeEscaped(v, [], decode) == v
    ensures ParseComponent(rdn, decode) == Some(Ava(attr, v))
  {
    hide FindTop, Trim, TrimDn, DecodeEscaped;
    assert Quoted(v)[1..|Quoted(v)| - 1] == v;
  }

  /** Between quotes a value is read as it stands, commas, plus signs and equals signs included. */
  lemma QuotedValueIsRead(attr: string, v: string, decode: Decoder)
    requires IsAttributeType(attr) && Quotable(v)
    ensures ParseRdnAttributes(attr + "=" + Quoted(v), decode) == Some([Ava(attr, v)])
  {
    hide *;
    var rdn := attr + "=" + Quoted(v);
    QuotedIsLikely(attr, v);
    QuotedRdnShape(attr, v);
    QuotedShape(v, ',');
    AttributeIsOrdinary(attr);
    TrimmedKept(attr);
    TrimmedKept(Quoted(v));
    PlainDecodes(v, decode);
    ParsesQuoted(rdn, attr, v, decode);
    ParsesAlone(rdn, Ava(attr, v), decode);
  }

  // --- Several parts ----------------------------------------------------------------------

  lemma {:induction false} ValidThen(a: string, b: string, quoted: bool)
    requires ValidEscapes(a, quoted)
    ensures ValidEscapes(a + b, quoted) == ValidEscapes(b, false)
    decreases |a|
  {
    var s := a + b;
    if a == "" {
      assert s == b;
    } else if a[0] == '\\' {
      var n := if IsHex(a[1]) then 3 else 2;
      assert s[0] == a[0] && s[1] == a[1] && s[n..] == a[n..] + b && (n == 3 ==> s[2] == a[2]);
      ValidThen(a[n..], b, quoted);
    } else {
      assert s[0] == a[0] && s[1..] == a[1..] + b;
      ValidThen(a[1..], b, if a[0] == '"' then !quoted else quoted);
    }
  }

  /** Parts are split off one side after the other. */
  lemma {:induction false} SplitBoth(a: string, b: string)
    requires Scan(a, FRESH) == FRESH
    ensures SplitTop(a + ("+" + b), '+') == SplitTop(a, '+') + SplitTop(b, '+')
    decreases |a|
  {
    var next := Top(a, '+', FRESH);
    SplitOnce(a, '+');
    hide SplitTop, FindTop, Scan;
    if next < 0 {
      SplitAfter(a, b, '+');
    } else {
      TopFront(a, '+', FRESH);
      var part, later := a[..next], a[next + 1..];
      assert a == part + (['+'] + later);
      ScanOver(part, later);
      SplitBoth(later, b);
      assert a + ("+" + b) == part + (['+'] + (later + ("+" + b)));
      SplitAfter(part, later + ("+" + b), '+');
      Assoc([part], SplitTop(later, '+'), SplitTop(b, '+'));
    }
  }

  lemma {:induction false} ScanSplit(a: string, b: string, m: Mode)
    ensures Scan(a + b, m) == Scan(b, Scan(a, m))
    decreases |a|
  {
    if a == "" {
      assert a + b == b;
    } else {
      assert (a + b)[0] == a[0] && (a + b)[1..] == a[1..] + b;
      ScanSplit(a[1..], b, Next(m, a[0]));
    }
  }

  lemma ScanOver(part: string, later: string)
    requires Scan(part, FRESH) == FRESH
    ensures Scan(part + (['+'] + later), FRESH) == Scan(later, FRESH)
  {
    ScanSplit(part, ['+'] + later, FRESH);
    assert (['+'] + later)[1..] == later && Next(FRESH, '+') == FRESH;
  }

  lemma {:induction false} ComponentsJoin(a: seq<string>, b: seq<string>, decode: Decoder)
    ensures ParseComponents(a + b, decode)
      == if ParseComponents(a, decode).Some? && ParseComponents(b, decode).Some?
         then Some(ParseComponents(a, decode).value + ParseComponents(b, decode).value) else None
  {
    hide ParseComponent;
    if a == [] {
      assert a + b == b;
      match ParseComponents(b, decode) {
        case None =>
        case Some(r) => assert [] + r == r;
      }
    } else {
      ComponentsJoin(a[1..], b, decode);
      assert (a + b)[0] == a[0] && (a + b)[1..] == a[1..] + b;
      match (ParseComponent(a[0], decode), ParseComponents(a[1..], decode), ParseComponents(b, decode)) {
        case (Some(first), Some(x), Some(y)) => Assoc([first], x, y);
        case _ =>
      }
    }
  }

  lemma BothTrimmed(a: string, b: string)
    requires a != "" && b != "" && Trimmed(a) && Trimmed(b)
    ensures Trimmed(a + ("+" + b)) && a + ("+" + b) != ""
  {
    var s := a + ("+" + b);
    assert s[0] == a[0] && s[|s| - 1] == b[|b| - 1];
  }

  lemma LikelyParts(rdn: string)
    requires rdn != "" && Trimmed(rdn)
    ensures IsLikelyRdn(rdn) ==> ValidEscapes(rdn, false) && Top(rdn, ',', FRESH) < 0
    ensures IsLikelyRdn(rdn) ==> forall i :: 0 <= i < |SplitTop(rdn, '+')| ==> LikelyComponent(TrimDn(SplitTop(rdn, '+')[i]))
  {
    TrimmedKept(rdn);
    hide TrimDn, ValidEscapes, SplitTop, FindTop, Trimmed, LikelyComponent;
  }

  lemma PartsAreLikely(rdn: string)
    requires rdn != "" && Trimmed(rdn) && ValidEscapes(rdn, false) && Top(rdn, ',', FRESH) < 0
    requires forall i :: 0 <= i < |SplitTop(rdn, '+')| ==> LikelyComponent(TrimDn(SplitTop(rdn, '+')[i]))
    ensures IsLikelyRdn(rdn)
  {
    TrimmedKept(rdn);
    hide TrimDn, ValidEscapes, SplitTop, FindTop, Trimmed, LikelyComponent;
  }

  lemma BothLikely(a: string, b: string)
    requires a != "" && b != "" && Trimmed(a) && Trimmed(b) && IsLikelyRdn(a) && IsLikelyRdn(b)
    ensures IsLikelyRdn(a + ("+" + b)) && SplitTop(a + ("+" + b), '+') == SplitTop(a, '+') + SplitTop(b, '+')
  {
    var s := a + ("+" + b);
    hide IsLikelyRdn, ValidEscapes, SplitTop, LikelyComponent, FindTop, Scan, TrimDn, Trimmed;
    BothTrimmed(a, b);
    LikelyParts(a);
    LikelyParts(b);
    ValidIsFresh(a);
    SplitBoth(a, b);
    ValidThen(a, "+" + b, false);
    PlusIsValid(b);
    TopSplit(a, "+" + b, ',', FRESH);
    PlusIsNoComma(b);
    forall i | 0 <= i < |SplitTop(s, '+')| ensures LikelyComponent(TrimDn(SplitTop(s, '+')[i])) {
      var n := |SplitTop(a, '+')|;
      assert SplitTop(s, '+')[i] == if i < n then SplitTop(a, '+')[i] else SplitTop(b, '+')[i - n];
    }
    PartsAreLikely(s);
  }

  lemma ValidIsFresh(a: string)
    requires ValidEscapes(a, false)
    ensures Scan(a, FRESH) == FRESH
  {
    ValidScan(a, false);
  }

  lemma PlusIsValid(b: string)
    ensures ValidEscapes("+" + b, false) == ValidEscapes(b, false)
  {
    assert ("+" + b)[1..] == b;
  }

  lemma PlusIsNoComma(b: string)
    ensures Top("+" + b, ',', FRESH) < 0 <==> Top(b, ',', FRESH) < 0
  {
    assert ("+" + b)[1..] == b;
    TopStep("+" + b, ',', FRESH);
  }

  /** An RDN of several parts is read as the parts one after the other. */
  lemma PartsAreReadInTurn(a: string, b: string, decode: Decoder)
    requires a != "" && b != "" && Trimmed(a) && Trimmed(b) && IsLikelyRdn(a) && IsLikelyRdn(b)
    ensures ParseRdnAttributes(a + ("+" + b), decode)
      == if ParseRdnAttributes(a, decode).Some? && ParseRdnAttributes(b, decode).Some?
         then Some(ParseRdnAttributes(a, decode).value + ParseRdnAttributes(b, decode).value) else None
  {
    BothLikely(a, b);
    hide IsLikelyRdn, SplitTop, ParseComponents, Trimmed;
    ComponentsJoin(SplitTop(a, '+'), SplitTop(b, '+'), decode);
  }
}
