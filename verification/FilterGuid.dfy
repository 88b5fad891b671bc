/**
 The objectGUID of Active Directory in a filter: a UUID as it is printed, turned into the sixteen octets
 the directory stores. buildGuidFilterValue of ldapFilter.ts.
 */
module FilterGuid {
  import opened Wrappers
  import opened Text
  import opened LdapFilter
  import opened FilterItems
  import opened FilterConformance
  import opened FilterSearch
  import Rfc = FilterRfc

  /** The octet written at this place. */
  function Octet(s: string, i: nat): int
    requires i + 1 < |s| && IsHex(s[i]) && IsHex(s[i + 1])
  {
    16 * HexValue(s[i]) + HexValue(s[i + 1])
  }

  /** The first three groups of a UUID from their last octet to their first, the other two as they stand. */
  function GuidOctets(s: string): (r: seq<int>)
    requires IsGuid(s)
    ensures |r| == 16
  {
    [Octet(s, 6), Octet(s, 4), Octet(s, 2), Octet(s, 0), Octet(s, 11), Octet(s, 9), Octet(s, 16), Octet(s, 14),
     Octet(s, 19), Octet(s, 21), Octet(s, 24), Octet(s, 26), Octet(s, 28), Octet(s, 30), Octet(s, 32), Octet(s, 34)]
  }

  lemma {:induction false} HexDigitsSplit(a: string, b: string)
    ensures HexDigits(a + b) == HexDigits(a) + HexDigits(b)
  {
    hide LowerChar;
    if a == "" {
      assert a + b == b;
    } else {
      HexDigitsSplit(a[1..], b);
      assert (a + b)[1..] == a[1..] + b && (a + b)[0] == a[0];
      if a[0] != '-' {
        Assoc([LowerChar(a[0])], HexDigits(a[1..]), HexDigits(b));
      }
    }
  }

  lemma {:induction false} PlainDigits(s: string)
    requires '-' !in s
    ensures HexDigits(s) == Lower(s)
  {
    if s != "" {
      PlainDigits(s[1..]);
      assert s[0] in s && '-' !in s[1..];
      assert Lower(s) == [LowerChar(s[0])] + Lower(s[1..]);
    }
  }

  /** A group of digits and the hyphen behind it. */
  lemma GroupDigits(s: string, from: nat, to: nat)
    requires from <= to < |s| && s[to] == '-' && forall i :: from <= i < to ==> IsHex(s[i])
    ensures HexDigits(s[from..]) == Lower(s[from..to]) + HexDigits(s[to + 1..])
  {
    hide IsHex, HexDigits, Lower;
    assert s[from..] == s[from..to] + s[to..];
    HexDigitsSplit(s[from..to], s[to..]);
    assert '-' !in s[from..to] by {
      NoHyphen(s[from..to]);
    }
    PlainDigits(s[from..to]);
    HyphenFirst(s[to..]);
    assert s[to..][1..] == s[to + 1..];
  }

  lemma NoHyphen(s: string)
    requires forall i :: 0 <= i < |s| ==> IsHex(s[i])
    ensures '-' !in s
  {
  }

  lemma HyphenFirst(s: string)
    requires s != "" && s[0] == '-'
    ensures HexDigits(s) == HexDigits(s[1..])
  {
  }

  lemma LastDigits(s: string, from: nat)
    requires from <= |s| && forall i :: from <= i < |s| ==> IsHex(s[i])
    ensures HexDigits(s[from..]) == Lower(s[from..])
  {
    NoHyphen(s[from..]);
    PlainDigits(s[from..]);
  }

  /** Where a digit stands in the printed form. */
  function Place(j: nat): nat {
    j + (if j >= 8 then 1 else 0) + (if j >= 12 then 1 else 0) + (if j >= 16 then 1 else 0) + if j >= 20 then 1 else 0
  }

  lemma FiveParts(a: string, b: string, c: string, d: string, e: string, j: nat)
    requires |a| == 8 && |b| == 4 && |c| == 4 && |d| == 4 && |e| == 12 && j < 32
    ensures (a + (b + (c + (d + e))))[j]
         == if j < 8 then a[j] else if j < 12 then b[j - 8] else if j < 16 then c[j - 12] else if j < 20 then d[j - 16] else e[j - 20]
  {
  }

  /** The groups of a UUID. */
  predicate Groups(s: string) {
    |s| == 36 && s[8] == '-' && s[13] == '-' && s[18] == '-' && s[23] == '-'
    && forall i :: 0 <= i < 36 && i != 8 && i != 13 && i != 18 && i != 23 ==> IsHex(s[i])
  }

  lemma GuidGroups(s: string)
    requires IsGuid(s)
    ensures Groups(s)
  {
  }

  lemma DigitsJoined(s: string)
    requires Groups(s)
    ensures HexDigits(s) == Lower(s[0..8]) + (Lower(s[9..13]) + (Lower(s[14..18]) + (Lower(s[19..23]) + Lower(s[24..]))))
  {
    hide HexDigits, IsHex, Lower;
    GroupDigits(s, 0, 8);
    GroupDigits(s, 9, 13);
    GroupDigits(s, 14, 18);
    GroupDigits(s, 19, 23);
    LastDigits(s, 24);
    assert s[0..] == s;
  }

  lemma GuidDigits(s: string)
    requires IsGuid(s)
    ensures |HexDigits(s)| == 32 && forall j :: 0 <= j < 32 ==> HexDigits(s)[j] == LowerChar(s[Place(j)])
  {
    hide IsGuid, HexDigits, IsHex, LowerChar, Lower;
    GuidGroups(s);
    DigitsJoined(s);
    hide Groups;
    var a, b, c, d, e := Lower(s[0..8]), Lower(s[9..13]), Lower(s[14..18]), Lower(s[19..23]), Lower(s[24..]);
    forall j | 0 <= j < 32 ensures HexDigits(s)[j] == LowerChar(s[Place(j)]) {
      FiveParts(a, b, c, d, e, j);
    }
  }

  lemma OctetOfDigits(s: string, k: nat)
    requires IsGuid(s) && k < 16
    ensures var hex := HexDigits(s); var p := Place(2 * k);
            && |hex| == 32 && p + 1 < |s| && IsHex(s[p]) && IsHex(s[p + 1]) && IsHex(hex[2 * k]) && IsHex(hex[2 * k + 1])
            && Octet(hex, 2 * k) == Octet(s, p)
  {
    GuidDigits(s);
    hide HexDigits;
    assert Place(2 * k + 1) == Place(2 * k) + 1;
  }

  // --- The bytes as a value of the grammar ------------------------------------------------

  predicate Digits(hex: string) {
    |hex| == 32 && forall i :: 0 <= i < 32 ==> IsHex(hex[i])
  }

  predicate Order(order: seq<nat>) {
    forall i :: 0 <= i < |order| ==> order[i] < 16
  }

  function GuidCode(hex: string, order: seq<nat>): Rfc.Coded
    requires Digits(hex) && Order(order)
  {
    if order == [] then [] else [Rfc.Escaped(hex[2 * order[0]], hex[2 * order[0] + 1])] + GuidCode(hex, order[1..])
  }

  function OctetsAt(hex: string, order: seq<nat>): (r: seq<int>)
    requires Digits(hex) && Order(order)
    ensures |r| == |order| && forall i :: 0 <= i < |order| ==> r[i] == Octet(hex, 2 * order[i])
  {
    if order == [] then [] else [Octet(hex, 2 * order[0])] + OctetsAt(hex, order[1..])
  }

  lemma {:induction false} GuidCodeShows(hex: string, order: seq<nat>)
    requires Digits(hex) && Order(order)
    ensures Rfc.CodedOk(GuidCode(hex, order)) && Rfc.Show(GuidCode(hex, order)) == GuidBytes(hex, order)
  {
    if order != [] {
      var rest := GuidCode(hex, order[1..]);
      GuidCodeShows(hex, order[1..]);
      var pair := hex[2 * order[0]..2 * order[0] + 2];
      assert pair == [hex[2 * order[0]], hex[2 * order[0] + 1]];
      assert GuidCode(hex, order)[1..] == rest;
      assert ['\\', hex[2 * order[0]], hex[2 * order[0] + 1]] == "\\" + pair;
    }
  }

  lemma ValueOfEscape(hi: char, lo: char, rest: Rfc.Coded, run: seq<int>, decode: Decoder)
    requires IsHex(hi) && IsHex(lo) && Rfc.CodedOk(rest)
    ensures Rfc.CodedOk([Rfc.Escaped(hi, lo)] + rest)
    ensures Rfc.Value([Rfc.Escaped(hi, lo)] + rest, run, decode) == Rfc.Value(rest,
      run + [16 * HexValue(hi) + HexValue(lo)], decode)
  {
    var v := [Rfc.Escaped(hi, lo)] + rest;
    assert v[1..] == rest && Rfc.UnitOk(v[0]);
  }

  lemma {:induction false} GuidCodeMeans(hex: string, order: seq<nat>, run: seq<int>, decode: Decoder)
    requires Digits(hex) && Order(order)
    ensures Rfc.CodedOk(GuidCode(hex, order))
    ensures Rfc.Value(GuidCode(hex, order), run, decode) == FlushBytes(run + OctetsAt(hex, order), decode)
    decreases |order|
  {
    hide Rfc.Value, IsHex, HexValue, FlushBytes;
    if order == [] {
      assert run + [] == run;
      NoValue(run, decode);
    } else {
      var o := Octet(hex, 2 * order[0]);
      GuidCodeMeans(hex, order[1..], run + [o], decode);
      ValueOfEscape(hex[2 * order[0]], hex[2 * order[0] + 1], GuidCode(hex, order[1..]), run, decode);
      assert run + [o] + OctetsAt(hex, order[1..]) == run + ([o] + OctetsAt(hex, order[1..]));
    }
  }

  lemma NoValue(run: seq<int>, decode: Decoder)
    ensures Rfc.CodedOk([]) && Rfc.Value([], run, decode) == FlushBytes(run, decode)
  {
  }

  lemma OctetPlace(s: string, i: nat)
    requires IsGuid(s) && i < 16
    ensures var p := Place(2 * GUID_ORDER[i]); p + 1 < |s| && IsHex(s[p]) && IsHex(s[p + 1]) && GuidOctets(s)[i] == Octet(s, p)
  {
    hide Octet, IsHex, IsGuid;
    OctetOfDigits(s, GUID_ORDER[i]);
  }

  lemma GuidHasDigits(s: string)
    requires IsGuid(s)
    ensures Digits(HexDigits(s)) && Order(GUID_ORDER)
  {
    hide IsGuid, HexDigits, Place;
    GuidDigits(s);
    forall i | 0 <= i < 32 ensures IsHex(HexDigits(s)[i]) {
      OctetOfDigits(s, i / 2);
      assert i == 2 * (i / 2) || i == 2 * (i / 2) + 1;
    }
  }

  lemma GuidOctetsAre(s: string)
    requires IsGuid(s)
    ensures Digits(HexDigits(s)) && Order(GUID_ORDER) && OctetsAt(HexDigits(s), GUID_ORDER) == GuidOctets(s)
  {
    hide IsGuid, HexDigits, Place, Octet, OctetsAt, GuidOctets, Digits, IsHex;
    GuidHasDigits(s);
    forall i | 0 <= i < 16 ensures OctetsAt(HexDigits(s), GUID_ORDER)[i] == GuidOctets(s)[i] {
      OctetOfDigits(s, GUID_ORDER[i]);
      OctetPlace(s, i);
    }
  }

  lemma GuidFilterIs(attribute: string, value: string)
    requires GuidEquality(attribute, value)
    ensures EqualityFilter(attribute, value) == "(" + ("objectGUID" + "=" + GuidBytes(HexDigits(Trim(value)), GUID_ORDER)) + ")"
    ensures IsGuid(Trim(value))
  {
    assert SafeAttribute(attribute) != "";
    hide IsAttributeDescription, HexDigits, GuidBytes, IsHex, Trim, Lower, EscapeFilterValue;
  }

  lemma SimpleSelects(attr: string, v: Rfc.Coded, rules: Rfc.Rules, decode: Decoder)
    requires IsAttributeDescription(attr) && Rfc.CodedOk(v)
    ensures Rfc.Derivable(attr + "=" + Rfc.Show(v))
    ensures ItemHolds(attr + "=" + Rfc.Show(v), rules, decode) <==> rules.equal(attr, Rfc.Value(v, [], decode))
  {
    var a := Rfc.Simple(attr, Rfc.Equal, v);
    assert Rfc.ShowItem(a) == attr + "=" + Rfc.Show(v);
    hide IsAttributeDescription, Rfc.CodedOk, Rfc.Value, Rfc.Show, ItemHolds;
    ItemSelects(a, rules, decode);
  }

  lemma SomeOctets(run: seq<int>, decode: Decoder)
    requires |run| == 16
    ensures FlushBytes([] + run, decode) == decode(run)
  {
    assert [] + run == run;
  }

  /** A UUID searched for under objectGUID, in any case and with blanks around it, is compared as the
      sixteen octets the directory stores. */
  lemma GuidSelects(attribute: string, value: string, rules: Rfc.Rules, decode: Decoder)
    requires GuidEquality(attribute, value)
    ensures IsGuid(Trim(value))
    ensures ItemFor(EqualityFilter(attribute, value), rules.equal("objectGUID", decode(GuidOctets(Trim(value)))), rules, decode)
  {
    hide *;
    GuidFilterIs(attribute, value);
    var s := Trim(value);
    GuidOctetsAre(s);
    var v := GuidCode(HexDigits(s), GUID_ORDER);
    GuidCodeShows(HexDigits(s), GUID_ORDER);
    GuidCodeMeans(HexDigits(s), GUID_ORDER, [], decode);
    SomeOctets(GuidOctets(s), decode);
    ObjectGuidIsAttribute();
    SimpleSelects("objectGUID", v, rules, decode);
    ItemIsFor("objectGUID", Rfc.Show(v), EqualityFilter(attribute, value), rules.equal("objectGUID",
      decode(GuidOctets(s))), rules, decode);
  }
}
