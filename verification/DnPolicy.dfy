/** The write policy of a connection profile: backend/internal/ldapconn/policy.go. */
module DnPolicy {
  import opened Wrappers
  import opened Text

  // --- Canonical names ------------------------------------------------------------------

  datatype Ava = Ava(kind: string, value: string)

  /** One relative distinguished name, as the LDAP library parses it. */
  type Rdn = seq<Ava>

  /** ldap.ParseDN: the RDNs of a DN, most specific first; None for a syntax error. */
  type Parser = string -> Option<seq<Rdn>>

  function FoldAva(a: Ava): string {
    Lower(Trim(a.kind)) + "=" + Lower(Trim(a.value))
  }

  function FoldAvas(r: Rdn): (s: seq<string>)
    ensures |s| == |r| && forall i :: 0 <= i < |r| ==> s[i] == FoldAva(r[i])
  {
    if r == [] then [] else [FoldAva(r[0])] + FoldAvas(r[1..])
  }

  predicate AtMost(a: string, b: string) {
    a == "" || (b != "" && (a[0] < b[0] || (a[0] == b[0] && AtMost(a[1..], b[1..]))))
  }

  lemma AtMostTotal(a: string, b: string)
    ensures AtMost(a, b) || AtMost(b, a)
  {
  }

  lemma {:induction false} AtMostAntisymmetric(a: string, b: string)
    requires AtMost(a, b) && AtMost(b, a)
    ensures a == b
  {
    if a != "" {
      AtMostAntisymmetric(a[1..], b[1..]);
      assert a == [a[0]] + a[1..] && b == [b[0]] + b[1..];
    }
  }

  lemma {:induction false} AtMostTransitive(a: string, b: string, c: string)
    requires AtMost(a, b) && AtMost(b, c)
    ensures AtMost(a, c)
  {
    if a != "" && a[0] == b[0] == c[0] {
      AtMostTransitive(a[1..], b[1..], c[1..]);
    }
  }

  predicate Sorted(s: seq<string>) {
    forall i, j :: 0 <= i < j < |s| ==> AtMost(s[i], s[j])
  }

  function Insert(x: string, s: seq<string>): seq<string> {
    if s == [] || AtMost(x, s[0]) then [x] + s else [s[0]] + Insert(x, s[1..])
  }

  /** sort.Strings */
  function Sort(s: seq<string>): seq<string> {
    if s == [] then [] else Insert(s[0], Sort(s[1..]))
  }

  lemma {:induction false} InsertSorts(x: string, s: seq<string>)
    requires Sorted(s)
    ensures Sorted(Insert(x, s)) && multiset(Insert(x, s)) == multiset{x} + multiset(s)
  {
    if s == [] {
    } else if AtMost(x, s[0]) {
      forall i | 0 < i < |s| ensures AtMost(x, s[i]) {
        AtMostTransitive(x, s[0], s[i]);
      }
    } else {
      AtMostTotal(x, s[0]);
      InsertSorts(x, s[1..]);
      assert s == [s[0]] + s[1..];
      var rest := Insert(x, s[1..]);
      forall y | y in rest ensures AtMost(s[0], y) {
        assert y in multiset(rest);
        assert y == x || y in s[1..];
      }
    }
  }

  lemma {:induction false} SortSorts(s: seq<string>)
    ensures Sorted(Sort(s)) && multiset(Sort(s)) == multiset(s)
  {
    if s != [] {
      SortSorts(s[1..]);
      InsertSorts(s[0], Sort(s[1..]));
      assert s == [s[0]] + s[1..];
    }
  }

  lemma SameHeads(a: seq<string>, b: seq<string>)
    requires Sorted(a) && Sorted(b) && multiset(a) == multiset(b) && a != []
    ensures b != [] && a[0] == b[0]
  {
    hide AtMost, Sorted;
    assert a[0] in multiset(b);
    assert b != [];
    assert b[0] in multiset(a);
    AtMostLeast(a, b[0]);
    AtMostLeast(b, a[0]);
    AtMostAntisymmetric(a[0], b[0]);
  }

  lemma TailMultiset(s: seq<string>)
    requires s != []
    ensures multiset(s[1..]) == multiset(s) - multiset{s[0]}
  {
    assert s == [s[0]] + s[1..];
  }

  lemma TailSorted(s: seq<string>)
    requires Sorted(s) && s != []
    ensures Sorted(s[1..])
  {
    hide AtMost;
  }

  lemma {:induction false} SortedIsUnique(a: seq<string>, b: seq<string>)
    requires Sorted(a) && Sorted(b) && multiset(a) == multiset(b)
    ensures a == b
  {
    if a == [] {
      assert |multiset(b)| == 0;
    } else {
      hide *;
      SameHeads(a, b);
      TailMultiset(a);
      TailMultiset(b);
      TailSorted(a);
      TailSorted(b);
      SortedIsUnique(a[1..], b[1..]);
      assert a == [a[0]] + a[1..] && b == [b[0]] + b[1..];
    }
  }

  lemma AtMostLeast(s: seq<string>, x: string)
    requires Sorted(s) && x in s
    ensures AtMost(s[0], x)
  {
    var i :| 0 <= i < |s| && s[i] == x;
    if i == 0 {
      AtMostTotal(x, x);
    }
  }

  function CanonicalRdn(r: Rdn): string {
    Join(Sort(FoldAvas(r)), "+")
  }

  method BuildCanonicalRdn(r: Rdn) returns (s: string)
    ensures s == CanonicalRdn(r)
  {
    hide FoldAvas, Sort, Lower, Trim, Join;
    var parts: seq<string> := [];
    for i := 0 to |r|
      invariant |parts| == i && forall k :: 0 <= k < i ==> parts[k] == FoldAvas(r)[k]
    {
      var part := Lower(Trim(r[i].kind)) + "=" + Lower(Trim(r[i].value));
      assert part == FoldAva(r[i]);
      parts := parts + [part];
    }
    assert parts == FoldAvas(r);
    s := Join(Sort(parts), "+");
  }

  /** The canonical form of an RDN does not depend on the order of its parts or on letter case. */
  lemma CanonicalIgnoresOrder(r: Rdn, r': Rdn)
    requires multiset(FoldAvas(r)) == multiset(FoldAvas(r'))
    ensures CanonicalRdn(r) == CanonicalRdn(r')
  {
    SortSorts(FoldAvas(r));
    SortSorts(FoldAvas(r'));
    SortedIsUnique(Sort(FoldAvas(r)), Sort(FoldAvas(r')));
  }

  /** The compared text of each RDN. */
  function Canonical(dn: seq<Rdn>): (n: seq<string>)
    ensures |n| == |dn| && forall i :: 0 <= i < |dn| ==> n[i] == CanonicalRdn(dn[i])
  {
    if dn == [] then [] else [CanonicalRdn(dn[0])] + Canonical(dn[1..])
  }

  // --- Containment ----------------------------------------------------------------------

  /** n is base or lies below it. */
  predicate Under<T(==)>(base: seq<T>, n: seq<T>) {
    |base| <= |n| && n[|n| - |base|..] == base
  }

  lemma UnderTransitive<T>(a: seq<T>, b: seq<T>, c: seq<T>)
    requires Under(a, b) && Under(b, c)
    ensures Under(a, c)
  {
    assert c[|c| - |b|..][|b| - |a|..] == c[|c| - |a|..];
  }

  lemma UnderReflexive<T>(n: seq<T>)
    ensures Under(n, n)
  {
    assert n[0..] == n;
  }

  /** None where the source returns an error. */
  function WithinBase(dn: string, base: string, parse: Parser): Option<bool> {
    if Trim(base) == "" then Some(true)
    else
      match (parse(Trim(dn)), parse(Trim(base)))
      case (Some(d), Some(b)) => Some(Under(Canonical(b), Canonical(d)))
      case _ => None
  }

  /** RDN by RDN from the right, as the source compares. */
  method DnWithinBase(rawDn: string, rawBase: string, parse: Parser) returns (r: Option<bool>)
    ensures r == WithinBase(rawDn, rawBase, parse)
  {
    hide Trim, Canonical, CanonicalRdn;
    var dn, base := Trim(rawDn), Trim(rawBase);
    if base == "" {
      return Some(true);
    }
    var parsedDn, parsedBase := parse(dn), parse(base);
    if parsedDn.None? || parsedBase.None? {
      return None;
    }
    var d, b := parsedDn.value, parsedBase.value;
    if |d| < |b| {
      return Some(false);
    }
    var offset := |d| - |b|;
    assert |Canonical(d)| == |d| && |Canonical(b)| == |b|;
    for i := 0 to |b|
      invariant forall k :: 0 <= k < i ==> Canonical(d)[offset + k] == Canonical(b)[k]
    {
      var x := BuildCanonicalRdn(d[offset + i]);
      var y := BuildCanonicalRdn(b[i]);
      if x != y {
        assert Canonical(d)[offset..][i] != Canonical(b)[i];
        return Some(false);
      }
    }
    return Some(true);
  }

  predicate WithinAnyBase(dn: string, bases: seq<string>, parse: Parser) {
    exists i :: 0 <= i < |bases| && WithinBase(dn, bases[i], parse) == Some(true)
  }

  method DnWithinAnyBase(dn: string, bases: seq<string>, parse: Parser) returns (ok: bool)
    ensures ok <==> WithinAnyBase(dn, bases, parse)
  {
    hide WithinBase;
    for i := 0 to |bases|
      invariant forall k :: 0 <= k < i ==> WithinBase(dn, bases[k], parse) != Some(true)
    {
      var within := DnWithinBase(dn, bases[i], parse);
      if within == Some(true) {
        return true;
      }
    }
    return false;
  }

  // --- The write gate -------------------------------------------------------------------

  datatype Profile = Profile(readOnly: bool, allowedBaseDns: seq<string>, allowedWriteBaseDns: seq<string>)

  /** The write list; where it is empty the read list stands in for it. */
  function WriteBases(p: Profile): seq<string> {
    if p.allowedWriteBaseDns == [] then p.allowedBaseDns else p.allowedWriteBaseDns
  }

  /** ensureLDAPWriteAllowed for a request that names no attributes. */
  predicate WriteAllowed(p: Profile, dn: string, parse: Parser) {
    !p.readOnly && Trim(dn) != "" && (WriteBases(p) == [] || WithinAnyBase(dn, WriteBases(p), parse))
  }

  method EnsureWriteAllowed(p: Profile, dn: string, parse: Parser) returns (ok: bool)
    ensures ok <==> WriteAllowed(p, dn, parse)
  {
    if p.readOnly || Trim(dn) == "" {
      return false;
    }
    var writeBases := p.allowedWriteBaseDns;
    if |writeBases| == 0 {
      writeBases := p.allowedBaseDns;
    }
    if |writeBases| > 0 {
      ok := DnWithinAnyBase(dn, writeBases, parse);
    } else {
      ok := true;
    }
  }
}
