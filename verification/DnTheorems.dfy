/** Splitting, joining, containment and building of distinguished names. */
module DnTheorems {
  import opened Text
  import opened Dn

  // --- Scanning -------------------------------------------------------------------------

  /** Where the scan for a top-level character stands after a text. */
  datatype Mode = Mode(escaped: bool, quoted: bool)

  const FRESH := Mode(false, false)

  function Next(m: Mode, c: char): Mode {
    Mode(!m.escaped && c == '\\', if !m.escaped && c == '"' then !m.quoted else m.quoted)
  }

  function Scan(s: string, m: Mode): Mode
    decreases |s|
  {
    if s == "" then m else Scan(s[1..], Next(m, s[0]))
  }

  function Top(s: string, target: char, m: Mode): int {
    FindTop(s, target, m.escaped, m.quoted)
  }

  lemma TopStep(s: string, target: char, m: Mode)
    requires s != ""
    ensures Top(s, target, m)
      == if m == FRESH && s[0] == target && target != '\\' && target != '"' then 0
         else if Top(s[1..], target, Next(m, s[0])) < 0 then -1 else Top(s[1..], target, Next(m, s[0])) + 1
  {
  }

  /** The scan of a text goes on where the scan of its front stops. */
  lemma {:induction false} TopSplit(a: string, b: string, target: char, m: Mode)
    ensures Top(a, target, m) >= 0 ==> Top(a + b, target, m) == Top(a, target, m)
    ensures Top(a, target, m) < 0 ==>
      var i := Top(b, target, Scan(a, m));
      Top(a + b, target, m) == if i < 0 then -1 else |a| + i
    decreases |a|
  {
    if a == "" {
      assert a + b == b;
    } else {
      assert (a + b)[1..] == a[1..] + b && (a + b)[0] == a[0];
      TopSplit(a[1..], b, target, Next(m, a[0]));
      TopStep(a, target, m);
      TopStep(a + b, target, m);
      hide FindTop, Next;
    }
  }

  /** Before the first top-level character there is none, and the scan is fresh there. */
  lemma {:induction false} TopFront(s: string, target: char, m: Mode)
    requires target != '\\' && target != '"' && Top(s, target, m) >= 0
    ensures var i := Top(s, target, m);
            Top(s[..i], target, m) < 0 && Scan(s[..i], m) == FRESH && s[i] == target
            && s == s[..i] + [target] + s[i + 1..]
    decreases |s|
  {
    var i := Top(s, target, m);
    TopStep(s, target, m);
    if i > 0 {
      TopFront(s[1..], target, Next(m, s[0]));
      var front := s[..i];
      assert front[1..] == s[1..][..i - 1] && front[0] == s[0];
      TopStep(front, target, m);
    }
  }

  // --- Splitting and joining ------------------------------------------------------------

  predicate Separator(c: char) {
    c == ',' || c == '+'
  }

  /** No part holds the separator at top level, and the scan is fresh wherever one follows. */
  predicate Parts(parts: seq<string>, separator: char) {
    parts != []
    && (forall i :: 0 <= i < |parts| ==> Top(parts[i], separator, FRESH) < 0)
    && (forall i :: 0 <= i < |parts| - 1 ==> Scan(parts[i], FRESH) == FRESH)
  }

  lemma JoinCons(part: string, rest: seq<string>, separator: char)
    requires rest != []
    ensures Join([part] + rest, [separator]) == part + ([separator] + Join(rest, [separator]))
  {
    assert ([part] + rest)[1..] == rest;
  }

  lemma PartsCons(part: string, rest: seq<string>, separator: char)
    requires rest != []
    ensures Parts([part] + rest, separator)
      <==> Top(part, separator, FRESH) < 0 && Scan(part, FRESH) == FRESH && Parts(rest, separator)
  {
    hide FindTop, Scan;
    var all := [part] + rest;
    assert all[0] == part && forall i :: 0 <= i < |rest| ==> all[i + 1] == rest[i];
    if Parts(all, separator) {
      assert forall i :: 0 <= i < |rest| ==> rest[i] == all[i + 1];
    }
  }

  lemma PartsOne(part: string, separator: char)
    ensures Parts([part], separator) <==> Top(part, separator, FRESH) < 0
  {
    hide FindTop, Scan;
    assert [part][0] == part;
  }

  /** Splitting loses nothing, and what it yields cannot be split further. */
  lemma {:induction false} SplitJoins(s: string, separator: char)
    requires Separator(separator)
    ensures Join(SplitTop(s, separator), [separator]) == s && Parts(SplitTop(s, separator), separator)
    decreases |s|
  {
    var next := Top(s, separator, FRESH);
    SplitOnce(s, separator);
    hide SplitTop, FindTop, Scan, Parts;
    if next < 0 {
      PartsOne(s, separator);
    } else {
      TopFront(s, separator, FRESH);
      SplitJoins(s[next + 1..], separator);
      var rest := SplitTop(s[next + 1..], separator);
      JoinCons(s[..next], rest, separator);
      PartsCons(s[..next], rest, separator);
    }
  }

  lemma SplitAfter(part: string, later: string, separator: char)
    requires Separator(separator) && Top(part, separator, FRESH) < 0 && Scan(part, FRESH) == FRESH
    ensures SplitTop(part + ([separator] + later), separator) == [part] + SplitTop(later, separator)
    ensures Top(part + ([separator] + later), separator, FRESH) == |part|
  {
    hide SplitTop, FindTop, Scan;
    var s := part + ([separator] + later);
    TopSplit(part, [separator] + later, separator, FRESH);
    TopStep([separator] + later, separator, FRESH);
    SplitOnce(s, separator);
    assert s[..|part|] == part && s[|part| + 1..] == later;
  }

  /** Joining such parts and splitting again gives them back. */
  lemma {:induction false} JoinSplits(parts: seq<string>, separator: char)
    requires Separator(separator) && Parts(parts, separator)
    ensures SplitTop(Join(parts, [separator]), separator) == parts
  {
    if |parts| == 1 {
      assert parts == [parts[0]];
    } else {
      var part, rest := parts[0], parts[1..];
      assert parts == [part] + rest;
      hide *;
      PartsCons(part, rest, separator);
      JoinCons(part, rest, separator);
      JoinSplits(rest, separator);
      SplitAfter(part, Join(rest, [separator]), separator);
    }
  }

  // --- Letter case ----------------------------------------------------------------------

  lemma LowerTail(s: string)
    requires s != ""
    ensures Lower(s)[1..] == Lower(s[1..])
  {
  }

  lemma {:induction false} LowerTop(s: string, target: char, m: Mode)
    requires Separator(target)
    ensures Top(Lower(s), target, m) == Top(s, target, m)
    decreases |s|
  {
    if s != "" {
      LowerTail(s);
      LowerTop(s[1..], target, Next(m, s[0]));
      TopStep(s, target, m);
      TopStep(Lower(s), target, m);
      assert Next(m, LowerChar(s[0])) == Next(m, s[0]) && (LowerChar(s[0]) == target <==> s[0] == target);
      hide FindTop, Next;
    }
  }

  lemma LowerSlice(s: string, i: nat, j: nat)
    requires i <= j <= |s|
    ensures Lower(s)[i..j] == Lower(s[i..j])
  {
    hide *;
    var a, b := Lower(s)[i..j], Lower(s[i..j]);
    forall k | 0 <= k < j - i ensures a[k] == b[k] {
      assert s[i..j][k] == s[i + k];
    }
  }

  /** Lower-casing commutes with splitting. */
  lemma {:induction false} LowerParts(s: string, separator: char)
    requires Separator(separator)
    ensures SplitTop(Lower(s), separator) == LowerAll(SplitTop(s, separator))
    decreases |s|
  {
    var next := Top(s, separator, FRESH);
    LowerTop(s, separator, FRESH);
    SplitOnce(s, separator);
    SplitOnce(Lower(s), separator);
    if next < 0 {
      assert [s][1..] == [];
    } else {
      LowerParts(s[next + 1..], separator);
      LowerSlice(s, 0, next);
      LowerSlice(s, next + 1, |s|);
      hide SplitTop, FindTop, Lower;
      assert Lower(s)[..next] == Lower(s[..next]) && Lower(s)[next + 1..] == Lower(s[next + 1..]);
      assert ([s[..next]] + SplitTop(s[next + 1..], separator))[1..] == SplitTop(s[next + 1..], separator);
    }
  }

  // --- Containment ----------------------------------------------------------------------

  /** The compared form: trimmed, without trailing commas, in lower case. */
  function Norm(dn: string): string {
    Lower(StripCommas(TrimDn(dn)))
  }

  predicate Suffix(b: seq<string>, c: seq<string>) {
    |b| <= |c| && c[|c| - |b|..] == b
  }

  function Rdns(s: string): (r: seq<string>)
    ensures r != []
  {
    SplitTop(s, ',')
  }

  lemma SuffixParts(parts: seq<string>, n: nat)
    requires Parts(parts, ',') && n < |parts|
    ensures Parts(parts[n..], ',')
  {
    hide FindTop, Scan;
  }

  lemma SameRdns(a: string, b: string)
    ensures a == b <==> Rdns(a) == Rdns(b)
  {
    SplitJoins(a, ',');
    SplitJoins(b, ',');
  }

  lemma LowerSuffix(parts: seq<string>, n: nat)
    requires n <= |parts|
    ensures LowerAll(parts[n..]) == LowerAll(parts)[n..]
  {
  }

  /** Comparing a joined suffix of a DN with a base compares their lists of RDNs. */
  lemma JoinedSuffix(child: string, base: string)
    requires |Rdns(child)| > |Rdns(base)|
    ensures Join(LowerAll(Rdns(child)[|Rdns(child)| - |Rdns(base)|..]), ",") == Lower(base)
      <==> Suffix(Rdns(Lower(base)), Rdns(Lower(child)))
  {
    var n := |Rdns(child)| - |Rdns(base)|;
    LowerParts(child, ',');
    LowerParts(base, ',');
    LowerSuffix(Rdns(child), n);
    var suffix := Rdns(Lower(child))[n..];
    SplitJoins(Lower(child), ',');
    SplitJoins(Lower(base), ',');
    SuffixParts(Rdns(Lower(child)), n);
    JoinSplits(suffix, ',');
    hide SplitTop, Join, LowerAll, Parts, Lower;
    assert |Rdns(Lower(base))| == |Rdns(base)| && |Rdns(Lower(child))| == |Rdns(child)|;
  }

  lemma WithinCases(dn: string, baseDn: string)
    ensures var child, base := StripCommas(TrimDn(dn)), StripCommas(TrimDn(baseDn));
            DnWithinBase(dn, baseDn) == (
              if base == "" then true
              else if child == "" then false
              else if Lower(child) == Lower(base) then true
              else |Rdns(child)| > |Rdns(base)|
                   && Join(LowerAll(Rdns(child)[|Rdns(child)| - |Rdns(base)|..]), ",") == Lower(base))
  {
    hide SplitTop, Join, LowerAll, StripCommas, TrimDn, Lower;
  }

  lemma SuffixOfEqualLength(b: seq<string>, c: seq<string>)
    ensures |b| == |c| ==> (Suffix(b, c) <==> b == c)
    ensures |b| > |c| ==> !Suffix(b, c)
  {
    if |b| == |c| {
      assert c[0..] == c;
    }
  }

  lemma LowerRdns(s: string)
    ensures |Rdns(Lower(s))| == |Rdns(s)| && (Lower(s) == "" <==> s == "")
  {
    LowerParts(s, ',');
  }

  lemma NormIs(dn: string)
    ensures Norm(dn) == Lower(StripCommas(TrimDn(dn)))
  {
    hide StripCommas, TrimDn, Lower;
  }

  /** Containment is: the base's list of RDNs is a suffix of the child's, up to case. */
  lemma WithinIsSuffix(dn: string, baseDn: string)
    ensures DnWithinBase(dn, baseDn)
      <==> Norm(baseDn) == "" || (Norm(dn) != "" && Suffix(Rdns(Norm(baseDn)), Rdns(Norm(dn))))
  {
    hide *;
    var child, base := StripCommas(TrimDn(dn)), StripCommas(TrimDn(baseDn));
    NormIs(dn);
    NormIs(baseDn);
    WithinCases(dn, baseDn);
    LowerRdns(child);
    LowerRdns(base);
    SameRdns(Lower(child), Lower(base));
    SuffixOfEqualLength(Rdns(Lower(base)), Rdns(Lower(child)));
    if |Rdns(child)| > |Rdns(base)| {
      JoinedSuffix(child, base);
    }
  }

  lemma WithinReflexive(dn: string, dn': string)
    requires Norm(dn) == Norm(dn')
    ensures DnWithinBase(dn, dn')
  {
    WithinIsSuffix(dn, dn');
    var rdns := Rdns(Norm(dn));
    assert rdns[0..] == rdns;
    hide Norm, DnWithinBase;
  }

  lemma WithinTransitive(a: string, b: string, c: string)
    requires DnWithinBase(a, b) && DnWithinBase(b, c)
    ensures DnWithinBase(a, c)
  {
    WithinIsSuffix(a, b);
    WithinIsSuffix(b, c);
    WithinIsSuffix(a, c);
    hide Norm, DnWithinBase, SplitTop;
    if Norm(c) != "" {
      var x, y, z := Rdns(Norm(a)), Rdns(Norm(b)), Rdns(Norm(c));
      assert x[|x| - |y|..][|y| - |z|..] == x[|x| - |z|..];
    }
  }

  /** The commas cut off the end may include an escaped one: what is compared is then no DN, and
      containment cannot tell the two apart. */
  lemma EscapedCommaIsStripped()
    ensures ValidEscapes("cn=a\\,", false) && !ValidEscapes("cn=a\\", false)
    ensures DnWithinBase("cn=a\\,", "cn=a\\") && DnWithinBase("cn=a\\", "cn=a\\,")
  {
    var dn, cut := "cn=a\\,", "cn=a\\";
    assert dn[..|dn| - 1] == cut && TrimDn(dn) == dn && TrimDn(cut) == cut;
    assert StripCommas(dn) == StripCommas(cut) == cut;
    assert dn[4..] == "\\," && cut[4..] == "\\";
    EscapesFrom(dn);
    EscapesFrom(cut);
    hide TrimDn, StripCommas, DnWithinBase, ValidEscapes;
    WithinReflexive(dn, cut);
    WithinReflexive(cut, dn);
  }

  lemma EscapesFrom(s: string)
    requires |s| > 4 && forall i :: 0 <= i < 4 ==> s[i] != '\\' && s[i] != '"' && s[i] != '\0'
    ensures ValidEscapes(s, false) == ValidEscapes(s[4..], false)
  {
    assert ValidEscapes(s, false) == ValidEscapes(s[1..], false);
    assert s[1..][1..] == s[2..] && ValidEscapes(s[1..], false) == ValidEscapes(s[2..], false);
    assert s[2..][1..] == s[3..] && ValidEscapes(s[2..], false) == ValidEscapes(s[3..], false);
    assert s[3..][1..] == s[4..] && ValidEscapes(s[3..], false) == ValidEscapes(s[4..], false);
  }
}
