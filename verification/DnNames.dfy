/**
 The names a directory has, and how far the text that dnWithinBase compares tells them apart:
 canonicalRDN and dnWithinBase of backend/internal/ldapconn/policy.go. An RDN is a multiset of
 attribute types and values, up to case; canonicalRDN writes it without escaping anything.
 */
module DnNames {
  import opened Wrappers
  import opened Text
  import opened DnPolicy

  type Pair = (string, string)

  /** The name of an entry, most specific RDN first. */
  type Name = seq<multiset<Pair>>

  function Fold(a: Ava): Pair {
    (Lower(Trim(a.kind)), Lower(Trim(a.value)))
  }

  function Real(r: Rdn): multiset<Pair> {
    if r == [] then multiset{} else multiset{Fold(r[0])} + Real(r[1..])
  }

  function RealName(dn: seq<Rdn>): (n: Name)
    ensures |n| == |dn| && forall i :: 0 <= i < |dn| ==> n[i] == Real(dn[i])
  {
    if dn == [] then [] else [Real(dn[0])] + RealName(dn[1..])
  }

  /** A descriptor or numeric OID (section 1.4 of RFC 4512), in lower case. */
  predicate IsType(s: string) {
    s != "" && forall i :: 0 <= i < |s| ==> ('a' <= s[i] <= 'z') || IsDigit(s[i]) || s[i] == '-' || s[i] == '.'
  }

  predicate Typed(r: Rdn) {
    forall i :: 0 <= i < |r| ==> IsType(Fold(r[i]).0)
  }

  predicate TypedName(dn: seq<Rdn>) {
    forall i :: 0 <= i < |dn| ==> Typed(dn[i])
  }

  // --- Parts ----------------------------------------------------------------------------

  predicate IsLower(s: string) {
    forall i :: 0 <= i < |s| ==> !('A' <= s[i] <= 'Z')
  }

  /** A value as folding leaves it. */
  predicate Tidy(v: string) {
    Trimmed(v) && IsLower(v)
  }

  /** The text of one type and value. */
  predicate IsPart(s: string) {
    var e := IndexOf(s, '=');
    e >= 0 && IsType(s[..e]) && Tidy(s[e + 1..])
  }

  function Show(p: Pair): string {
    p.0 + "=" + p.1
  }

  lemma LowerKeeps(s: string)
    requires IsLower(s)
    ensures Lower(s) == s
  {
  }

  lemma TidyStays(v: string)
    requires Tidy(v)
    ensures Lower(Trim(v)) == v
  {
    TrimKeeps(v);
    LowerKeeps(v);
  }

  lemma FoldTidies(s: string)
    ensures Tidy(Lower(Trim(s)))
  {
    TrimTrims(s);
    var t, l := Trim(s), Lower(Trim(s));
    hide Trim, Lower;
    assert forall i :: 0 <= i < |l| ==> l[i] == LowerChar(t[i]);
  }

  lemma TypeStays(k: string)
    requires IsType(k)
    ensures Lower(Trim(k)) == k
  {
    TidyStays(k);
  }

  lemma ShowIsPart(p: Pair)
    requires IsType(p.0) && Tidy(p.1)
    ensures IsPart(Show(p)) && IndexOf(Show(p), '=') == |p.0|
  {
    IndexOfAt(p.0, '=', p.1);
    assert Show(p) == p.0 + ['='] + p.1;
    assert Show(p)[..|p.0|] == p.0 && Show(p)[|p.0| + 1..] == p.1;
    hide IndexOf, Tidy;
  }

  /** With a proper type in front, a part can be read back. */
  lemma ShowOnce(p: Pair, q: Pair)
    requires IsType(p.0) && IsType(q.0) && Show(p) == Show(q)
    ensures p == q
  {
    IndexOfAt(p.0, '=', p.1);
    IndexOfAt(q.0, '=', q.1);
    assert Show(p) == p.0 + ['='] + p.1 && Show(q) == q.0 + ['='] + q.1;
    assert Show(p)[..|p.0|] == p.0 && Show(q)[..|q.0|] == q.0;
    assert Show(p)[|p.0| + 1..] == p.1 && Show(q)[|q.0| + 1..] == q.1;
    hide IndexOf;
  }

  predicate Parts(q: seq<string>) {
    forall i :: 0 <= i < |q| ==> IsPart(q[i])
  }

  lemma FoldedParts(r: Rdn)
    requires Typed(r)
    ensures Parts(FoldAvas(r))
  {
    forall i | 0 <= i < |r| ensures IsPart(FoldAvas(r)[i]) {
      FoldTidies(r[i].value);
      ShowIsPart(Fold(r[i]));
      assert FoldAvas(r)[i] == Show(Fold(r[i]));
    }
  }

  /** An RDN with these parts. */
  function ReadParts(q: seq<string>): (r: Rdn)
    requires Parts(q)
    ensures |r| == |q|
  {
    if q == [] then []
    else
      [ReadPart(q[0])] + ReadParts(q[1..])
  }

  function ReadPart(s: string): Ava
    requires IsPart(s)
  {
    var e := IndexOf(s, '=');
    Ava(s[..e], s[e + 1..])
  }

  lemma PartRead(s: string)
    requires IsPart(s)
    ensures FoldAva(ReadPart(s)) == s && IsType(Fold(ReadPart(s)).0)
  {
    var e := IndexOf(s, '=');
    TypeStays(s[..e]);
    TidyStays(s[e + 1..]);
    assert s == s[..e] + "=" + s[e + 1..];
    hide Trim, Lower, IndexOf, IsType, Tidy;
  }

  lemma {:induction false} PartsRead(q: seq<string>)
    requires Parts(q)
    ensures FoldAvas(ReadParts(q)) == q && Typed(ReadParts(q))
  {
    if q == [] {
      assert FoldAvas([]) == [];
    } else {
      hide *;
      TailParts(q);
      PartsRead(q[1..]);
      ReadCons(q);
      PartRead(q[0]);
      FoldedCons(ReadPart(q[0]), ReadParts(q[1..]));
      assert q == [q[0]] + q[1..];
    }
  }

  lemma TailParts(p: seq<string>)
    requires Parts(p) && p != []
    ensures Parts(p[1..]) && IsPart(p[0])
  {
    hide IsPart;
  }

  lemma ReadCons(q: seq<string>)
    requires Parts(q) && q != []
    ensures IsPart(q[0]) && Parts(q[1..]) && ReadParts(q) == [ReadPart(q[0])] + ReadParts(q[1..])
  {
    hide IsPart;
  }

  lemma FoldedCons(a: Ava, rest: Rdn)
    ensures FoldAvas([a] + rest) == [FoldAva(a)] + FoldAvas(rest)
    ensures Typed([a] + rest) <==> IsType(Fold(a).0) && Typed(rest)
  {
    var r := [a] + rest;
    assert r[1..] == rest && r[0] == a && forall i :: 0 <= i < |rest| ==> r[i + 1] == rest[i];
    hide FoldAva, Fold, IsType;
  }

  // --- Counting parts -------------------------------------------------------------------

  lemma {:induction false} RealCount(r: Rdn, p: Pair)
    requires Typed(r) && IsType(p.0)
    ensures Real(r)[p] == multiset(FoldAvas(r))[Show(p)]
  {
    if r != [] {
      RealCount(r[1..], p);
      assert FoldAvas(r) == [FoldAva(r[0])] + FoldAvas(r[1..]);
      if Show(Fold(r[0])) == Show(p) {
        ShowOnce(Fold(r[0]), p);
      }
      hide Fold, Show, IsType;
    }
  }

  lemma {:induction false} RealMember(r: Rdn, p: Pair)
    ensures p in Real(r) <==> exists i :: 0 <= i < |r| && Fold(r[i]) == p
  {
    if r != [] {
      RealMember(r[1..], p);
      assert p in Real(r) <==> p == Fold(r[0]) || p in Real(r[1..]);
      hide Fold, Real;
      if i :| 0 <= i < |r[1..]| && Fold(r[1..][i]) == p {
        assert Fold(r[i + 1]) == p;
      }
      if i :| 0 < i < |r| && Fold(r[i]) == p {
        assert r[1..][i - 1] == r[i];
      }
    }
  }

  /** Two RDNs are one exactly when their sorted parts agree. */
  lemma RealByParts(x: Rdn, y: Rdn)
    requires Typed(x) && Typed(y)
    ensures Real(x) == Real(y) <==> Sort(FoldAvas(x)) == Sort(FoldAvas(y))
  {
    SortSorts(FoldAvas(x));
    SortSorts(FoldAvas(y));
    if Real(x) == Real(y) {
      SameParts(x, y);
      SortedIsUnique(Sort(FoldAvas(x)), Sort(FoldAvas(y)));
    }
    if Sort(FoldAvas(x)) == Sort(FoldAvas(y)) {
      SameCounts(x, y);
    }
  }

  lemma SameCounts(x: Rdn, y: Rdn)
    requires Typed(x) && Typed(y) && multiset(FoldAvas(x)) == multiset(FoldAvas(y))
    ensures Real(x) == Real(y)
  {
    hide Real, FoldAvas, Fold, Show;
    forall p ensures Real(x)[p] == Real(y)[p] {
      if IsType(p.0) {
        RealCount(x, p);
        RealCount(y, p);
      } else {
        RealMember(x, p);
        RealMember(y, p);
      }
    }
  }

  lemma SameParts(x: Rdn, y: Rdn)
    requires Typed(x) && Typed(y) && Real(x) == Real(y)
    ensures multiset(FoldAvas(x)) == multiset(FoldAvas(y))
  {
    hide *;
    forall s ensures multiset(FoldAvas(x))[s] == multiset(FoldAvas(y))[s] {
      if s in FoldAvas(x) {
        CountedAlike(x, y, s);
      } else if s in FoldAvas(y) {
        CountedAlike(y, x, s);
      }
    }
  }

  lemma CountedAlike(x: Rdn, y: Rdn, s: string)
    requires Typed(x) && Typed(y) && Real(x) == Real(y) && s in FoldAvas(x)
    ensures multiset(FoldAvas(x))[s] == multiset(FoldAvas(y))[s]
  {
    var i :| 0 <= i < |x| && FoldAvas(x)[i] == s;
    assert s == Show(Fold(x[i]));
    RealCount(x, Fold(x[i]));
    RealCount(y, Fold(x[i]));
  }

  // --- Reading a compared text in more than one way --------------------------------------

  lemma JoinMore(a: string, rest: seq<string>)
    requires rest != []
    ensures Join([a] + rest, "+") == a + "+" + Join(rest, "+")
  {
    assert ([a] + rest)[1..] == rest;
  }

  lemma {:induction false} IndexOfFirst(a: string, c: char, b: string)
    requires IndexOf(a, c) >= 0
    ensures IndexOf(a + b, c) == IndexOf(a, c)
  {
    if a[0] != c {
      IndexOfFirst(a[1..], c, b);
      assert (a + b)[1..] == a[1..] + b;
    }
  }

  lemma TidyJoined(v: string, b: string)
    requires Tidy(v) && IsLower(b) && b != "" && !IsSpace(b[|b| - 1])
    ensures Tidy(v + "+" + b)
  {
    var all := v + "+" + b;
    assert all[|all| - 1] == b[|b| - 1] && all[0] == if v == "" then '+' else v[0];
  }

  lemma PartEnds(s: string)
    requires IsPart(s)
    ensures s != "" && IsLower(s) && !IsSpace(s[|s| - 1])
  {
    var e := IndexOf(s, '=');
    assert s == s[..e] + ['='] + s[e + 1..];
    hide IndexOf;
    forall i | 0 <= i < |s| ensures !('A' <= s[i] <= 'Z') {
      if i < e {
        assert s[i] == s[..e][i];
      } else if i > e {
        assert s[i] == s[e + 1..][i - e - 1];
      }
    }
    if e < |s| - 1 {
      assert s[|s| - 1] == s[e + 1..][|s| - e - 2];
    }
  }

  /** Two parts with a plus sign between them are one part. */
  lemma PartsMerge(a: string, b: string)
    requires IsPart(a) && IsPart(b)
    ensures IsPart(a + "+" + b)
  {
    var e := IndexOf(a, '=');
    var all := a + "+" + b;
    PartEnds(b);
    assert all == a + ("+" + b);
    IndexOfFirst(a, '=', "+" + b);
    TidyJoined(a[e + 1..], b);
    assert all[..e] == a[..e] && all[e + 1..] == a[e + 1..] + "+" + b;
    hide IndexOf, Tidy, IsType;
  }

  lemma {:induction false} JoinedIsPart(q: seq<string>)
    requires q != [] && Parts(q)
    ensures IsPart(Join(q, "+"))
  {
    if |q| > 1 {
      JoinedIsPart(q[1..]);
      assert q == [q[0]] + q[1..];
      hide IsPart, Join;
      JoinMore(q[0], q[1..]);
      PartsMerge(q[0], Join(q[1..], "+"));
    } else {
      assert q == [q[0]];
    }
  }

  /** The text of a part falls into two parts in order. */
  predicate Splits(s: string, i: nat) {
    i < |s| && s[i] == '+' && IsPart(s[..i]) && IsPart(s[i + 1..]) && AtMost(s[..i], s[i + 1..])
  }

  predicate Cuttable(s: string) {
    exists i :: 0 <= i < |s| && Splits(s, i)
  }

  /** An RDN of one type and value, whose text does not fall into two parts. */
  predicate Alone(r: Rdn) {
    r == [] || (|r| == 1 && !Cuttable(FoldAva(r[0])))
  }

  lemma {:induction false} AtMostLonger(a: string, b: string, c: string)
    requires AtMost(a, b)
    ensures AtMost(a, b + c)
  {
    if a != "" && a[0] == b[0] {
      AtMostLonger(a[1..], b[1..], c);
      assert (b + c)[1..] == b[1..] + c;
    }
  }

  lemma FirstSplits(q: seq<string>)
    requires |q| > 1 && Parts(q) && Sorted(q)
    ensures Cuttable(Join(q, "+"))
  {
    assert AtMost(q[0], q[1]) && q == [q[0]] + q[1..] && q[1..][0] == q[1];
    hide *;
    var rest := q[1..];
    var tail := Join(rest, "+");
    TailParts(q);
    JoinMore(q[0], rest);
    JoinedIsPart(rest);
    FirstOf(rest);
    assert tail == q[1] + tail[|q[1]|..];
    AtMostLonger(q[0], q[1], tail[|q[1]|..]);
    MergedSplits(q[0], tail);
  }

  lemma MergedSplits(a: string, b: string)
    requires IsPart(a) && IsPart(b) && AtMost(a, b)
    ensures Cuttable(a + "+" + b)
  {
    hide IsPart, AtMost;
    var all := a + "+" + b;
    assert all[..|a|] == a && all[|a| + 1..] == b && all[|a|] == '+';
    assert Splits(all, |a|);
  }

  /** A text that does not split can only be read as a single part. */
  lemma OneReading(s: string, q: seq<string>)
    requires !Cuttable(s) && Parts(q) && Sorted(q) && Join(q, "+") == s && s != ""
    ensures q == [s]
  {
    hide IsPart, Cuttable, AtMost;
    if |q| > 1 {
      FirstSplits(q);
    }
  }

  lemma NoReading(q: seq<string>)
    requires Parts(q) && Join(q, "+") == ""
    ensures q == []
  {
    if q != [] {
      JoinedIsPart(q);
      PartEnds("");
      hide Join, IsPart;
    }
  }

  lemma PartsOf(r: Rdn) returns (q: seq<string>)
    requires Typed(r)
    ensures q == Sort(FoldAvas(r)) && Parts(q) && Sorted(q) && |q| == |r| && CanonicalRdn(r) == Join(q, "+")
    ensures |r| == 1 ==> q == [FoldAva(r[0])]
  {
    q := Sort(FoldAvas(r));
    SortSorts(FoldAvas(r));
    FoldedParts(r);
    assert |multiset(q)| == |multiset(FoldAvas(r))|;
    SortKeepsParts(FoldAvas(r), q);
    if |r| == 1 {
      assert FoldAvas(r) == [FoldAva(r[0])];
    }
  }

  lemma SortKeepsParts(parts: seq<string>, q: seq<string>)
    requires Parts(parts) && multiset(parts) == multiset(q)
    ensures Parts(q)
  {
    hide IsPart;
    forall i | 0 <= i < |q| ensures IsPart(q[i]) {
      assert q[i] in multiset(parts);
    }
  }

  /** The other RDN with the same text. */
  lemma Double(x: Rdn) returns (y: Rdn)
    requires Typed(x) && !Alone(x)
    ensures Typed(y) && CanonicalRdn(y) == CanonicalRdn(x) && Real(y) != Real(x)
  {
    hide *;
    var p := PartsOf(x);
    var q := OtherReading(x, p);
    y := Reading(q);
    RealByParts(x, y);
  }

  lemma OtherReading(x: Rdn, p: seq<string>) returns (q: seq<string>)
    requires !Alone(x) && |p| == |x| && Parts(p) && (|x| == 1 ==> p == [FoldAva(x[0])])
    ensures Parts(q) && Sorted(q) && q != p && Join(q, "+") == Join(p, "+")
  {
    hide IsPart, AtMost, FoldAva;
    if |x| > 1 {
      JoinedIsPart(p);
      q := [Join(p, "+")];
    } else {
      var s := p[0];
      var i :| 0 <= i < |s| && Splits(s, i);
      q := [s[..i], s[i + 1..]];
      assert q == [s[..i]] + [s[i + 1..]];
      JoinMore(s[..i], [s[i + 1..]]);
      assert s == s[..i] + "+" + s[i + 1..];
    }
  }

  /** An RDN read from sorted parts. */
  lemma Reading(q: seq<string>) returns (y: Rdn)
    requires Parts(q) && Sorted(q)
    ensures Typed(y) && Sort(FoldAvas(y)) == q && CanonicalRdn(y) == Join(q, "+")
  {
    hide *;
    y := ReadParts(q);
    PartsRead(q);
    SortSorts(q);
    SortedIsUnique(Sort(q), q);
    CanonicalIsJoin(y);
  }

  lemma CanonicalIsJoin(r: Rdn)
    ensures CanonicalRdn(r) == Join(Sort(FoldAvas(r)), "+")
  {
  }

  lemma AloneIsTold(x: Rdn, y: Rdn)
    requires Typed(x) && Typed(y) && Alone(x) && CanonicalRdn(x) == CanonicalRdn(y)
    ensures Real(x) == Real(y)
  {
    hide Real, Sort, FoldAvas, Join, IsPart, AtMost, CanonicalRdn, Cuttable, FoldAva;
    var p := PartsOf(x);
    var q := PartsOf(y);
    if x == [] {
      EmptyJoin(p);
      NoReading(q);
    } else {
      SingleJoin(p[0]);
      PartEnds(p[0]);
      OneReading(p[0], q);
    }
    RealByParts(x, y);
  }

  lemma EmptyJoin(p: seq<string>)
    requires p == []
    ensures Join(p, "+") == ""
  {
  }

  lemma SingleJoin(s: string)
    ensures Join([s], "+") == s
  {
  }

  /** The compared text tells an RDN from all others exactly when it stands alone: one type, and a
      value that holds no plus sign behind which a second part could begin. Every RDN of two or
      more types shares its text with another. */
  lemma TextTellsRdn(x: Rdn)
    requires Typed(x)
    ensures (forall y :: Typed(y) && CanonicalRdn(y) == CanonicalRdn(x) ==> Real(y) == Real(x)) <==> Alone(x)
  {
    hide Typed, CanonicalRdn, Real, Alone;
    if Alone(x) {
      forall y | Typed(y) && CanonicalRdn(y) == CanonicalRdn(x) ensures Real(y) == Real(x) {
        AloneIsTold(x, y);
      }
    } else {
      var y := Double(x);
    }
  }

  /** One RDN has one text. */
  lemma RealGivesText(x: Rdn, y: Rdn)
    requires Typed(x) && Typed(y) && Real(x) == Real(y)
    ensures CanonicalRdn(x) == CanonicalRdn(y)
  {
    SameParts(x, y);
    CanonicalIgnoresOrder(x, y);
  }

  // --- Both sides in order ----------------------------------------------------------------

  /** No equals sign behind a plus sign. */
  predicate InOrder(s: string) {
    forall i, j :: 0 <= i < j < |s| && s[i] == '+' ==> s[j] != '='
  }

  /** No value holds a plus sign with an equals sign somewhere behind it. */
  predicate Settled(r: Rdn) {
    forall i :: 0 <= i < |r| ==> InOrder(FoldAva(r[i]))
  }

  predicate AllInOrder(q: seq<string>) {
    forall i :: 0 <= i < |q| ==> InOrder(q[i])
  }

  /** A part ends where the text ends or the next part begins, no later than any other reading. */
  lemma NotLonger(a: string, b: string, rest: string, all: string)
    requires IsPart(rest) && b < a
    requires all == b + "+" + rest && a <= all && (|a| < |all| ==> all[|a|] == '+')
    ensures !InOrder(a)
  {
    var e := IndexOf(rest, '=');
    var at := |b| + 1 + e;
    forall i | |b| < i <= at ensures all[i] != '+' {
      var k := i - |b| - 1;
      assert all[i] == rest[k];
      assert k < e ==> rest[..e][k] == rest[k];
    }
    assert at < |a|;
    assert a[at] == all[at] == rest[e] && a[|b|] == all[|b|] == '+';
  }

  lemma {:induction false} OneOrderedReading(p: seq<string>, q: seq<string>)
    requires Parts(p) && Parts(q) && AllInOrder(p) && AllInOrder(q) && Join(p, "+") == Join(q, "+")
    ensures p == q
  {
    if p == [] {
      NoReading(q);
    } else if q == [] {
      NoReading(p);
    } else {
      var s := Join(p, "+");
      FirstOf(p);
      FirstOf(q);
      SameFirst(p, q);
      assert p == [p[0]] + p[1..] && q == [q[0]] + q[1..];
      assert AllInOrder(p[1..]) && AllInOrder(q[1..]) && Parts(p[1..]) && Parts(q[1..]);
      hide Join, IsPart, InOrder;
      if |p| > 1 && |q| > 1 {
        JoinMore(p[0], p[1..]);
        JoinMore(q[0], q[1..]);
        assert Join(p[1..], "+") == s[|p[0]| + 1..] == Join(q[1..], "+");
        OneOrderedReading(p[1..], q[1..]);
      }
    }
  }

  /** Where the first part stands in the text. */
  lemma FirstOf(p: seq<string>)
    requires p != [] && Parts(p)
    ensures p[0] <= Join(p, "+")
    ensures |p| == 1 ==> Join(p, "+") == p[0]
    ensures |p| > 1 ==> Parts(p[1..]) && Join(p, "+") == p[0] + "+" + Join(p[1..], "+") && IsPart(Join(p[1..], "+"))
  {
    hide *;
    assert p == [p[0]] + p[1..];
    if |p| == 1 {
      assert p == [p[0]];
      SingleJoin(p[0]);
    } else {
      TailParts(p);
      JoinMore(p[0], p[1..]);
      JoinedIsPart(p[1..]);
      PrefixOf(p[0], "+", Join(p[1..], "+"));
    }
  }

  lemma PrefixOf(a: string, b: string, c: string)
    ensures a <= a + b + c
  {
    assert a + b + c == a + (b + c);
  }

  lemma SameFirst(p: seq<string>, q: seq<string>)
    requires p != [] && q != [] && Parts(p) && Parts(q) && AllInOrder(p) && AllInOrder(q)
    requires Join(p, "+") == Join(q, "+")
    ensures p[0] == q[0] && (|p| == 1 <==> |q| == 1)
  {
    FirstOf(p);
    FirstOf(q);
    var s := Join(p, "+");
    hide Join, IsPart, InOrder;
    if |p[0]| < |q[0]| {
      assert p[0] < q[0];
      NotLonger(q[0], p[0], Join(p[1..], "+"), s);
    }
    if |q[0]| < |p[0]| {
      assert q[0] < p[0];
      NotLonger(p[0], q[0], Join(q[1..], "+"), s);
    }
  }

  lemma SettledTold(x: Rdn, y: Rdn)
    requires Typed(x) && Typed(y) && Settled(x) && Settled(y) && CanonicalRdn(x) == CanonicalRdn(y)
    ensures Real(x) == Real(y)
  {
    var p := PartsOf(x);
    var q := PartsOf(y);
    SettledParts(x);
    SettledParts(y);
    hide Real, Sort, FoldAvas, Join, IsPart, AtMost, CanonicalRdn, InOrder;
    OneOrderedReading(p, q);
    RealByParts(x, y);
  }

  lemma SettledParts(r: Rdn)
    requires Settled(r)
    ensures AllInOrder(Sort(FoldAvas(r)))
  {
    var q := Sort(FoldAvas(r));
    SortSorts(FoldAvas(r));
    hide InOrder, Sort;
    forall i | 0 <= i < |q| ensures InOrder(q[i]) {
      assert q[i] in multiset(FoldAvas(r));
      var k :| 0 <= k < |r| && FoldAvas(r)[k] == q[i];
    }
  }

  // --- Containment ----------------------------------------------------------------------

  /** What dnWithinBase decides on two parsed DNs, and what it is meant to decide. */
  predicate TextWithin(d: seq<Rdn>, b: seq<Rdn>) {
    Under(Canonical(b), Canonical(d))
  }

  predicate Within(d: seq<Rdn>, b: seq<Rdn>) {
    Under(RealName(b), RealName(d))
  }

  lemma UnderBy<T>(b: seq<T>, n: seq<T>)
    ensures Under(b, n) <==> |b| <= |n| && forall i :: 0 <= i < |b| ==> n[|n| - |b| + i] == b[i]
  {
    if |b| <= |n| {
      var tail := n[|n| - |b|..];
      assert forall i :: 0 <= i < |b| ==> tail[i] == n[|n| - |b| + i];
    }
  }

  lemma TextWithinBy(d: seq<Rdn>, b: seq<Rdn>)
    ensures TextWithin(d, b)
      <==> |b| <= |d| && forall i :: 0 <= i < |b| ==> CanonicalRdn(d[|d| - |b| + i]) == CanonicalRdn(b[i])
  {
    UnderBy(Canonical(b), Canonical(d));
    hide CanonicalRdn, Canonical, Under;
  }

  lemma WithinBy(d: seq<Rdn>, b: seq<Rdn>)
    ensures Within(d, b) <==> |b| <= |d| && forall i :: 0 <= i < |b| ==> Real(d[|d| - |b| + i]) == Real(b[i])
  {
    UnderBy(RealName(b), RealName(d));
    hide Real, RealName, Under;
  }

  /** The texts of these two RDNs can be trusted. */
  predicate Told(x: Rdn, y: Rdn) {
    Alone(x) || Alone(y) || (Settled(x) && Settled(y))
  }

  predicate AllTold(d: seq<Rdn>, b: seq<Rdn>) {
    TypedName(d) && TypedName(b)
    && (|b| <= |d| ==> forall i :: 0 <= i < |b| ==> Told(d[|d| - |b| + i], b[i]))
  }

  lemma ToldTexts(x: Rdn, y: Rdn)
    requires Typed(x) && Typed(y) && Told(x, y)
    ensures CanonicalRdn(x) == CanonicalRdn(y) <==> Real(x) == Real(y)
  {
    hide Real, CanonicalRdn, Alone, Settled, Typed;
    if Real(x) == Real(y) {
      RealGivesText(x, y);
    }
    if CanonicalRdn(x) == CanonicalRdn(y) {
      if Alone(x) {
        AloneIsTold(x, y);
      } else if Alone(y) {
        AloneIsTold(y, x);
      } else {
        SettledTold(x, y);
      }
    }
  }

  /** Nothing inside a base is ever refused for its text. */
  lemma WithinIsSeen(d: seq<Rdn>, b: seq<Rdn>)
    requires TypedName(d) && TypedName(b) && Within(d, b)
    ensures TextWithin(d, b)
  {
    hide Real, CanonicalRdn, Typed, TextWithin, Within;
    WithinBy(d, b);
    TextWithinBy(d, b);
    forall i | 0 <= i < |b| ensures CanonicalRdn(d[|d| - |b| + i]) == CanonicalRdn(b[i]) {
      RealGivesText(d[|d| - |b| + i], b[i]);
    }
  }

  /** On these DNs the comparison of texts decides containment. */
  lemma TextDecides(d: seq<Rdn>, b: seq<Rdn>)
    requires AllTold(d, b)
    ensures TextWithin(d, b) <==> Within(d, b)
  {
    hide Real, CanonicalRdn, Typed, TextWithin, Within, Told;
    WithinBy(d, b);
    TextWithinBy(d, b);
    if |b| <= |d| {
      forall i | 0 <= i < |b|
        ensures CanonicalRdn(d[|d| - |b| + i]) == CanonicalRdn(b[i]) <==> Real(d[|d| - |b| + i]) == Real(b[i])
      {
        ToldTexts(d[|d| - |b| + i], b[i]);
      }
    }
  }

  predicate AllAlone(dn: seq<Rdn>) {
    forall i :: 0 <= i < |dn| ==> Alone(dn[i])
  }

  /** A DN with an RDN that does not stand alone, and its double: each seems to be within the other. */
  lemma DoubleName(b: seq<Rdn>) returns (d: seq<Rdn>)
    requires TypedName(b) && !AllAlone(b)
    ensures TypedName(d) && TextWithin(d, b) && TextWithin(b, d) && !Within(d, b) && !Within(b, d)
  {
    hide Real, CanonicalRdn, Alone, Typed, TextWithin, Within;
    var i :| 0 <= i < |b| && !Alone(b[i]);
    var y := Double(b[i]);
    d := b[i := y];
    WithinBy(d, b);
    WithinBy(b, d);
    TextWithinBy(d, b);
    TextWithinBy(b, d);
    assert d[|d| - |b| + i] == y && b[|b| - |d| + i] == b[i];
  }

  /** A base admits the entries below it and no others exactly when each of its RDNs stands alone:
      one type, and no value with a second part behind a plus sign. */
  lemma BaseIsExact(b: seq<Rdn>)
    requires TypedName(b)
    ensures (forall d :: TypedName(d) ==> (TextWithin(d, b) <==> Within(d, b))) <==> AllAlone(b)
  {
    hide TypedName, TextWithin, Within, AllAlone;
    if AllAlone(b) {
      forall d | TypedName(d) ensures TextWithin(d, b) <==> Within(d, b) {
        AloneTold(d, b);
        TextDecides(d, b);
      }
    } else {
      var d := DoubleName(b);
    }
  }

  lemma AloneTold(d: seq<Rdn>, b: seq<Rdn>)
    requires TypedName(d) && TypedName(b) && (AllAlone(b) || AllAlone(d))
    ensures AllTold(d, b)
  {
    hide Alone, Typed, Settled;
  }

  /** A DN is judged rightly against every base under the same condition. */
  lemma DnIsExact(d: seq<Rdn>)
    requires TypedName(d)
    ensures (forall b :: TypedName(b) ==> (TextWithin(d, b) <==> Within(d, b))) <==> AllAlone(d)
  {
    hide TypedName, TextWithin, Within, AllAlone;
    if AllAlone(d) {
      forall b | TypedName(b) ensures TextWithin(d, b) <==> Within(d, b) {
        AloneTold(d, b);
        TextDecides(d, b);
      }
    } else {
      var b := DoubleName(d);
    }
  }

  // --- The write gate -------------------------------------------------------------------

  /** An entry the profile lets its user change: no list, an empty base, or a base above it. */
  predicate NameAllowed(p: Profile, n: Name, parse: Parser) {
    !p.readOnly
    && (WriteBases(p) == []
        || exists i :: 0 <= i < |WriteBases(p)| && BaseAllows(WriteBases(p)[i], n, parse))
  }

  predicate BaseAllows(base: string, n: Name, parse: Parser) {
    Trim(base) == "" || (parse(Trim(base)).Some? && Under(RealName(parse(Trim(base)).value), n))
  }

  /** The texts of this DN and of each base of the profile can be trusted. */
  predicate GateTold(p: Profile, d: seq<Rdn>, parse: Parser) {
    forall i :: 0 <= i < |WriteBases(p)| ==> BaseTold(WriteBases(p)[i], d, parse)
  }

  predicate BaseTold(base: string, d: seq<Rdn>, parse: Parser) {
    Trim(base) != "" && parse(Trim(base)).Some? ==> AllTold(d, parse(Trim(base)).value)
  }

  lemma BaseDecides(base: string, dn: string, d: seq<Rdn>, parse: Parser)
    requires parse(Trim(dn)) == Some(d) && BaseTold(base, d, parse)
    ensures WithinBase(dn, base, parse) == Some(true) <==> BaseAllows(base, RealName(d), parse)
  {
    hide Trim, AllTold, Canonical, RealName, Under;
    if Trim(base) != "" && parse(Trim(base)).Some? {
      TextDecides(d, parse(Trim(base)).value);
    }
  }

  /** Where the texts can be trusted the gate opens exactly for the names the profile allows. */
  lemma GateDecides(p: Profile, dn: string, d: seq<Rdn>, parse: Parser)
    requires parse(Trim(dn)) == Some(d) && Trim(dn) != "" && GateTold(p, d, parse)
    ensures WriteAllowed(p, dn, parse) <==> NameAllowed(p, RealName(d), parse)
  {
    hide Trim, WithinBase, BaseAllows, BaseTold, RealName;
    var bases := WriteBases(p);
    forall i | 0 <= i < |bases|
      ensures WithinBase(dn, bases[i], parse) == Some(true) <==> BaseAllows(bases[i], RealName(d), parse)
    {
      BaseDecides(bases[i], dn, d, parse);
    }
    assert WithinAnyBase(dn, bases, parse)
      <==> exists i :: 0 <= i < |bases| && BaseAllows(bases[i], RealName(d), parse);
  }

  /** What lies below an allowed name is allowed. */
  lemma AllowedBelow(p: Profile, dn: string, d: seq<Rdn>, n: Name, parse: Parser)
    requires WriteAllowed(p, dn, parse) && parse(Trim(dn)) == Some(d) && GateTold(p, d, parse)
    requires Under(RealName(d), n)
    ensures NameAllowed(p, n, parse)
  {
    GateDecides(p, dn, d, parse);
    hide Trim, RealName, Under, GateTold, WriteAllowed;
    if WriteBases(p) != [] {
      var i :| 0 <= i < |WriteBases(p)| && BaseAllows(WriteBases(p)[i], RealName(d), parse);
      var base := WriteBases(p)[i];
      if Trim(base) != "" {
        UnderTransitive(RealName(parse(Trim(base)).value), RealName(d), n);
      }
      assert BaseAllows(base, n, parse);
    }
  }

  /** An escaped plus sign: the gate of a base with two types in an RDN opens for an entry outside it. */
  lemma EscapedPlusPasses(parse: Parser)
    requires parse("cn=a+sn=b") == Some([[Ava("cn", "a"), Ava("sn", "b")]])
    requires parse("cn=a\\+sn\\=b") == Some([[Ava("cn", "a+sn=b")]])
    ensures var p := Profile(false, [], ["cn=a+sn=b"]);
            && WriteAllowed(p, "cn=a\\+sn\\=b", parse)
            && !NameAllowed(p, RealName([[Ava("cn", "a+sn=b")]]), parse)
  {
    var x, y := [Ava("cn", "a+sn=b")], [Ava("cn", "a"), Ava("sn", "b")];
    SampleTrims();
    hide *;
    SampleTexts(x, y);
    SampleNames(x, y);
    NotRealWithin(x, y);
    OneBase("cn=a\\+sn\\=b", "cn=a+sn=b", [x], [y], parse);
  }

  lemma SampleTrims()
    ensures Trim("cn=a\\+sn\\=b") == "cn=a\\+sn\\=b" && Trim("cn=a+sn=b") == "cn=a+sn=b"
  {
    hide Trim;
    TrimKeeps("cn=a\\+sn\\=b");
    TrimKeeps("cn=a+sn=b");
  }

  lemma NotRealWithin(x: Rdn, y: Rdn)
    requires CanonicalRdn(x) == CanonicalRdn(y) && Real(x) != Real(y)
    ensures TextWithin([x], [y]) && !Within([x], [y])
  {
    hide CanonicalRdn, Real, TextWithin, Within;
    TextWithinBy([x], [y]);
    WithinBy([x], [y]);
    assert [x][0] == x && [y][0] == y;
  }

  lemma OneBase(dn: string, base: string, d: seq<Rdn>, b: seq<Rdn>, parse: Parser)
    requires Trim(dn) == dn != "" && Trim(base) == base != "" && parse(dn) == Some(d) && parse(base) == Some(b)
    ensures var p := Profile(false, [], [base]);
            && (WriteAllowed(p, dn, parse) <==> TextWithin(d, b))
            && (NameAllowed(p, RealName(d), parse) <==> Within(d, b))
  {
    var p := Profile(false, [], [base]);
    assert WriteBases(p) == [base];
    hide Trim, Canonical, RealName, Under;
    assert WithinBase(dn, WriteBases(p)[0], parse) == Some(TextWithin(d, b));
    assert BaseAllows(WriteBases(p)[0], RealName(d), parse) <==> Within(d, b);
  }

  lemma SampleTexts(x: Rdn, y: Rdn)
    requires x == [Ava("cn", "a+sn=b")] && y == [Ava("cn", "a"), Ava("sn", "b")]
    ensures CanonicalRdn(x) == CanonicalRdn(y)
  {
    assert AtMost("cn=a", "sn=b") by {
      assert "cn=a"[0] < "sn=b"[0];
    }
    assert "cn=a" + "+" + "sn=b" == "cn=a+sn=b";
    hide *;
    SampleFolds();
    FoldedOne(x[0]);
    FoldedTwo(y[0], y[1]);
    SplitText(x, y, "cn=a", "sn=b");
  }

  lemma FoldedOne(a: Ava)
    ensures FoldAvas([a]) == [FoldAva(a)]
  {
    assert [a][1..] == [];
  }

  lemma FoldedTwo(a: Ava, b: Ava)
    ensures FoldAvas([a, b]) == [FoldAva(a), FoldAva(b)]
  {
    assert [a, b][1..] == [b];
  }

  /** A part that holds two in order has the text of the two. */
  lemma SplitText(x: Rdn, y: Rdn, s: string, t: string)
    requires FoldAvas(x) == [s + "+" + t] && FoldAvas(y) == [s, t] && AtMost(s, t)
    ensures CanonicalRdn(x) == CanonicalRdn(y)
  {
    SortedStays(s, t);
    SortedStays(s + "+" + t, "");
    hide FoldAvas, AtMost, Sort;
    JoinMore(s, [t]);
    assert [s] + [t] == [s, t];
  }

  lemma SortedStays(s: string, t: string)
    ensures AtMost(s, t) ==> Sort([s, t]) == [s, t]
    ensures Sort([s]) == [s]
  {
    hide AtMost;
    assert [s, t][1..] == [t] && [t][1..] == [] && [s][1..] == [];
    assert Sort([t]) == Insert(t, []) == [t];
    assert Sort([s]) == Insert(s, []) == [s];
    assert Sort([s, t]) == Insert(s, [t]);
  }

  lemma FoldedAs(k: string, v: string, s: string)
    requires Tidy(k) && Tidy(v) && s == k + "=" + v
    ensures FoldAva(Ava(k, v)) == s && Fold(Ava(k, v)) == (k, v)
  {
    TidyStays(k);
    TidyStays(v);
    hide Trim, Lower, Tidy;
  }

  lemma SampleFolds()
    ensures FoldAva(Ava("cn", "a+sn=b")) == "cn=a+sn=b" && FoldAva(Ava("cn", "a")) == "cn=a"
    ensures FoldAva(Ava("sn", "b")) == "sn=b"
  {
    hide FoldAva, Fold;
    FoldedAs("cn", "a+sn=b", "cn=a+sn=b");
    FoldedAs("cn", "a", "cn=a");
    FoldedAs("sn", "b", "sn=b");
  }

  lemma SampleNames(x: Rdn, y: Rdn)
    requires |x| == 1 && |y| == 2
    ensures Real(x) != Real(y)
  {
    RealSize(x);
    RealSize(y);
    hide Real;
  }

  lemma {:induction false} RealSize(r: Rdn)
    ensures |Real(r)| == |r|
  {
    if r != [] {
      RealSize(r[1..]);
    }
  }
}
