/** The chain of ancestors from a base to a target: dnPathChain of bookmarks.ts. */
module DnChain {
  import opened Wrappers
  import opened Text
  import opened Dn
  import opened DnTheorems
  import DnBuilding

  /** A DN without white space around its separators and without a comma at its end. */
  predicate Tidy(dn: string) {
    dn != "" && !IsSpace(dn[|dn| - 1]) && dn[|dn| - 1] != ','
    && forall i :: 0 <= i < |Rdns(dn)| ==> StartsTidy(Rdns(dn)[i])
  }

  predicate StartsTidy(rdn: string) {
    rdn != "" ==> !IsSpace(rdn[0])
  }

  lemma TidyTrim(dn: string)
    requires Tidy(dn)
    ensures TrimDn(dn) == dn && Trim(dn) == dn && StripCommas(dn) == dn
  {
    SplitOnce(dn, ',');
    assert StartsTidy(Rdns(dn)[0]);
    hide SplitTop;
    var next := Top(dn, ',', FRESH);
    if next > 0 {
      assert dn[..next][0] == dn[0];
    }
    assert !IsSpace(dn[0]);
    hide FindTop;
    TrimKeeps(dn);
    DnBuilding.TrimDnKeeps(dn);
  }

  /** The parent of a tidy DN is what follows its first RDN. */
  lemma TidyParent(dn: string)
    requires Tidy(dn)
    ensures |Rdns(dn)| == 1 ==> ParentDn(dn) == ""
    ensures |Rdns(dn)| > 1 ==> Tidy(ParentDn(dn)) && Rdns(ParentDn(dn)) == Rdns(dn)[1..] && |ParentDn(dn)| < |dn|
  {
    var next := Top(dn, ',', FRESH);
    SplitOnce(dn, ',');
    TidyTrim(dn);
    if next >= 0 {
      TailIsTidy(dn, next);
      TidyTrim(dn[next + 1..]);
    }
    hide SplitTop, FindTop, TrimDn, Tidy, Trim, StripCommas;
  }

  lemma TailIsTidy(dn: string, next: nat)
    requires Tidy(dn) && next == Top(dn, ',', FRESH)
    ensures Tidy(dn[next + 1..]) && Rdns(dn) == [dn[..next]] + Rdns(dn[next + 1..])
  {
    SplitOnce(dn, ',');
    hide SplitTop, FindTop;
    var rest := dn[next + 1..];
    assert next != |dn| - 1;
    assert rest[|rest| - 1] == dn[|dn| - 1];
    forall i | 0 <= i < |Rdns(rest)| ensures StartsTidy(Rdns(rest)[i]) {
      assert Rdns(dn)[i + 1] == Rdns(rest)[i];
    }
  }

  lemma TidyNorm(dn: string)
    requires Tidy(dn)
    ensures Norm(dn) == Lower(dn) && Lower(dn) != ""
  {
    TidyTrim(dn);
    hide TrimDn, StripCommas;
  }

  /** Each element's parent is the one before it; the first one's parent is the base, up to case. */
  predicate Linked(base: string, ancestors: seq<string>) {
    (ancestors != [] ==> Lower(ParentDn(ancestors[0])) == Lower(base))
    && forall i :: 0 < i < |ancestors| ==> ParentDn(ancestors[i]) == ancestors[i - 1]
  }

  lemma SuffixStep(b: seq<string>, c: seq<string>)
    requires b != [] && c != [] && b != c
    ensures Suffix(b, c) <==> |c| > 1 && Suffix(b, c[1..])
  {
    if |c| > 1 && |b| <= |c| - 1 {
      assert c[1..][|c| - 1 - |b|..] == c[|c| - |b|..];
    }
    if |b| == |c| {
      assert c[0..] == c;
    }
  }

  lemma LinkedSnoc(base: string, above: seq<string>, current: string)
    requires Linked(base, above)
    requires if above == [] then Lower(ParentDn(current)) == Lower(base) else ParentDn(current) == above[|above| - 1]
    ensures Linked(base, above + [current])
  {
    hide ParentDn, Lower;
    var all := above + [current];
    assert all[|above|] == current && forall i :: 0 <= i < |above| ==> all[i] == above[i];
  }

  lemma ClimbStep(current: string, base: string)
    requires current != "" && Lower(current) != Lower(base)
    ensures |ParentDn(current)| < |current|
    ensures var up := Climb(ParentDn(current), base);
            Climb(current, base) == if up.None? then None else Some(up.value + [current])
  {
    ParentIsShorter(current);
    hide ParentDn;
  }

  lemma ClimbDone(current: string, base: string)
    ensures current == "" ==> Climb(current, base) == None
    ensures current != "" && Lower(current) == Lower(base) ==> Climb(current, base) == Some([])
  {
  }

  /** The climb arrives exactly when the base's RDNs are a suffix of the current DN's, and then
      has one element per extra RDN. */
  lemma {:induction false} ClimbArrives(current: string, base: string)
    requires Tidy(current) && Tidy(base)
    ensures Climb(current, base).Some? <==> Suffix(Rdns(Lower(base)), Rdns(Lower(current)))
    ensures Climb(current, base).Some? ==>
      var r := Climb(current, base).value;
      && Linked(base, r) && |r| == |Rdns(current)| - |Rdns(base)|
      && (if r == [] then Lower(current) == Lower(base) else r[|r| - 1] == current)
    decreases |current|
  {
    assert current != "" && base != "";
    assert Linked(base, []);
    ClimbDone(current, base);
    ClimbDone("", base);
    hide *;
    LowerRdns(current);
    LowerRdns(base);
    SameRdns(Lower(base), Lower(current));
    SuffixOfEqualLength(Rdns(Lower(base)), Rdns(Lower(current)));
    if Lower(current) != Lower(base) {
      SuffixStep(Rdns(Lower(base)), Rdns(Lower(current)));
      ClimbStep(current, base);
      TidyParent(current);
      if |Rdns(current)| > 1 {
        var parent := ParentDn(current);
        ClimbArrives(parent, base);
        LowerTailRdns(current, parent);
        var up := Climb(parent, base);
        if up.Some? {
          LinkedSnoc(base, up.value, current);
        }
      }
    }
  }

  lemma LowerTailRdns(current: string, parent: string)
    requires |Rdns(current)| > 1 && Rdns(parent) == Rdns(current)[1..]
    ensures Rdns(Lower(parent)) == Rdns(Lower(current))[1..]
  {
    LowerParts(current, ',');
    LowerParts(parent, ',');
    LowerSuffix(Rdns(current), 1);
    hide SplitTop, Lower;
  }

  lemma ChainCases(target: string, base: string)
    requires Tidy(target) && Tidy(base)
    ensures PathChain(target, base) == (
              if Lower(target) == Lower(base) then [base]
              else if !DnWithinBase(target, base) || Climb(target, base).None? then []
              else [base] + Climb(target, base).value)
  {
    TidyTrim(target);
    TidyTrim(base);
    assert target != "" && base != "";
    hide Trim, Climb, DnWithinBase, Tidy, TrimDn;
  }

  /** From the base to the target, with one element per extra RDN, parent before child. */
  predicate LeadsTo(chain: seq<string>, target: string, base: string) {
    && chain != [] && chain[0] == base && Lower(chain[|chain| - 1]) == Lower(target)
    && |chain| == |Rdns(target)| - |Rdns(base)| + 1
    && forall i :: 0 < i < |chain| ==> Lower(ParentDn(chain[i])) == Lower(chain[i - 1])
  }

  lemma FromBase(target: string, base: string, ancestors: seq<string>)
    requires Linked(base, ancestors) && |ancestors| == |Rdns(target)| - |Rdns(base)|
    requires if ancestors == [] then Lower(target) == Lower(base) else ancestors[|ancestors| - 1] == target
    ensures LeadsTo([base] + ancestors, target, base)
  {
    hide ParentDn, Lower, SplitTop;
    var chain := [base] + ancestors;
    forall i | 0 < i < |chain| ensures Lower(ParentDn(chain[i])) == Lower(chain[i - 1]) {
      assert chain[i] == ancestors[i - 1] && (i > 1 ==> chain[i - 1] == ancestors[i - 2]);
    }
  }

  /** Tidy DNs are never empty once normalised, so containment is the suffix alone. */
  lemma TidyWithin(target: string, base: string)
    requires Tidy(target) && Tidy(base)
    ensures DnWithinBase(target, base) <==> Suffix(Rdns(Lower(base)), Rdns(Lower(target)))
  {
    TidyNorm(target);
    TidyNorm(base);
    hide *;
    WithinIsSuffix(target, base);
  }

  /** The chain is there exactly when the target lies within the base, and then leads to it. */
  lemma ChainReachesBase(target: string, base: string)
    requires Tidy(target) && Tidy(base)
    ensures PathChain(target, base) != [] <==> DnWithinBase(target, base)
    ensures PathChain(target, base) != [] ==> LeadsTo(PathChain(target, base), target, base)
  {
    assert target != "" && base != "";
    hide *;
    ChainCases(target, base);
    TidyWithin(target, base);
    ClimbArrives(target, base);
    if Climb(target, base).Some? {
      FromBase(target, base, Climb(target, base).value);
      if Lower(target) == Lower(base) {
        ClimbDone(target, base);
        assert [base] + [] == [base];
      }
    }
    if Lower(target) == Lower(base) {
      ClimbDone(target, base);
    }
  }

  // --- Trailing commas ------------------------------------------------------------------

  function Commas(n: nat): (s: string)
    ensures |s| == n && forall i :: 0 <= i < n ==> s[i] == ','
  {
    if n == 0 then "" else "," + Commas(n - 1)
  }

  predicate AllCommas(s: string) {
    forall i :: 0 <= i < |s| ==> s[i] == ','
  }

  lemma {:induction false} CommasStripped(s: string, n: nat)
    requires s != "" && s[|s| - 1] != ','
    ensures StripCommas(s + Commas(n)) == s
  {
    var text := s + Commas(n);
    if n == 0 {
      assert text == s;
    } else {
      CommasStripped(s, n - 1);
      assert text[|text| - 1] == ',' && text[..|text| - 1] == s + Commas(n - 1) by {
        hide Commas;
        assert forall i :: 0 <= i < n - 1 ==> Commas(n)[i] == Commas(n - 1)[i];
      }
    }
  }

  lemma TidyStarts(dn: string)
    requires Tidy(dn)
    ensures !IsSpace(dn[0])
  {
    SplitOnce(dn, ',');
    assert StartsTidy(Rdns(dn)[0]);
    var next := Top(dn, ',', FRESH);
    assert next > 0 ==> dn[..next][0] == dn[0];
  }

  /** Commas behind a tidy DN are not trimmed, but do not count for containment. */
  lemma CommasTrimmed(dn: string, n: nat)
    requires Tidy(dn)
    ensures Trim(dn + Commas(n)) == dn + Commas(n) == TrimDn(dn + Commas(n))
    ensures StripCommas(TrimDn(dn + Commas(n))) == dn
  {
    TidyStarts(dn);
    var text := dn + Commas(n);
    assert text[0] == dn[0] && text[|text| - 1] == if n == 0 then dn[|dn| - 1] else ',';
    TrimKeeps(text);
    DnBuilding.TrimDnKeeps(text);
    CommasStripped(dn, n);
    hide Tidy, TrimDn, Trim, StripCommas, Commas;
  }

  lemma CommasWithin(target: string, base: string, m: nat, n: nat)
    requires Tidy(target) && Tidy(base)
    ensures DnWithinBase(target + Commas(m), base + Commas(n)) == DnWithinBase(target, base)
  {
    hide *;
    CommasTrimmed(target, m);
    CommasTrimmed(base, n);
    CommasTrimmed(target, 0);
    CommasTrimmed(base, 0);
    assert Commas(0) == "" && target + "" == target && base + "" == base;
    WithinCases(target + Commas(m), base + Commas(n));
    WithinCases(target, base);
  }

  lemma TidyEnds(dn: string)
    requires Tidy(dn)
    ensures dn != "" && dn[|dn| - 1] != ','
  {
  }

  /** Up to case, two tidy DNs with commas behind them are equal only if both parts are. */
  lemma CommasEqual(a: string, b: string, m: nat, n: nat)
    requires Tidy(a) && Tidy(b)
    ensures Lower(a + Commas(m)) == Lower(b + Commas(n)) <==> Lower(a) == Lower(b) && m == n
  {
    hide Tidy, Lower, Commas;
    TidyEnds(a);
    TidyEnds(b);
    var x, y := Lower(a + Commas(m)), Lower(b + Commas(n));
    assert forall i :: 0 <= i < |a| ==> x[i] == Lower(a)[i];
    assert forall i :: 0 <= i < |b| ==> y[i] == Lower(b)[i];
    assert forall i :: |a| <= i < |x| ==> x[i] == ',';
    assert forall i :: |b| <= i < |y| ==> y[i] == ',';
    assert x[|a| - 1] != ',' && y[|b| - 1] != ',';
    if Lower(a) == Lower(b) && m == n {
      assert x == y;
    }
    if x == y {
      assert |a| == |b|;
      assert forall i :: 0 <= i < |a| ==> Lower(a)[i] == x[i] == Lower(b)[i];
    }
  }

  lemma AllCommasTrimmed(s: string)
    requires AllCommas(s)
    ensures TrimDn(s) == s
  {
    if s != "" {
      assert s[0] == ',' && s[|s| - 1] == ',';
      DnBuilding.TrimDnKeeps(s);
    }
  }

  /** Where the first separator stands once there are commas behind the DN. */
  lemma CommasTop(current: string, m: nat)
    ensures var next, at := Top(current, ',', FRESH), Top(current + Commas(m), ',', FRESH);
            && next < |current| && at < |current| + m
            && (if next >= 0 then at == next else at < 0 || at >= |current|)
  {
    TopSplit(current, Commas(m), ',', FRESH);
    hide FindTop, Scan, Commas;
  }

  /** Commas behind a DN stay behind its parents. */
  lemma CommasParent(current: string, m: nat)
    requires Tidy(current)
    ensures |Rdns(current)| == 1 ==> AllCommas(ParentDn(current + Commas(m)))
    ensures |Rdns(current)| > 1 ==> ParentDn(current + Commas(m)) == ParentDn(current) + Commas(m)
  {
    hide *;
    RdnsCount(current);
    CommasTop(current, m);
    if Top(current, ',', FRESH) >= 0 {
      CommasBelow(current, m);
    } else {
      CommasAlone(current, m);
    }
  }

  lemma CommasBelow(current: string, m: nat)
    requires Tidy(current) && Top(current, ',', FRESH) >= 0
    ensures ParentDn(current + Commas(m)) == ParentDn(current) + Commas(m)
  {
    hide *;
    var next := Top(current, ',', FRESH);
    CommasTop(current, m);
    CommasTrimmed(current, m);
    TidyTrim(current);
    ParentAt(current + Commas(m));
    ParentAt(current);
    TailIsTidy(current, next);
    TidyTrim(current[next + 1..]);
    CommasTrimmed(current[next + 1..], m);
    assert (current + Commas(m))[next + 1..] == current[next + 1..] + Commas(m);
  }

  lemma CommasAlone(current: string, m: nat)
    requires Tidy(current) && Top(current, ',', FRESH) < 0
    ensures AllCommas(ParentDn(current + Commas(m)))
  {
    hide *;
    CommasTop(current, m);
    CommasTrimmed(current, m);
    ParentAt(current + Commas(m));
    var at := Top(current + Commas(m), ',', FRESH);
    if at >= 0 {
      CommasTail(current, m, at + 1);
    } else {
      NoCommas();
    }
  }

  lemma ParentAt(text: string)
    requires TrimDn(text) == text
    ensures var next := Top(text, ',', FRESH);
            ParentDn(text) == if next < 0 then "" else TrimDn(text[next + 1..])
  {
    hide TrimDn;
  }

  lemma RdnsCount(s: string)
    ensures |Rdns(s)| == 1 <==> Top(s, ',', FRESH) < 0
  {
    SplitOnce(s, ',');
    hide FindTop, SplitTop;
  }

  lemma CommasTail(current: string, m: nat, from: nat)
    requires |current| <= from <= |current| + m
    ensures AllCommas(TrimDn((current + Commas(m))[from..]))
  {
    AllCommasTrimmed((current + Commas(m))[from..]);
  }

  lemma NoCommas()
    ensures AllCommas("")
  {
  }

  lemma {:induction false} CommasNeverArrive(s: string, base: string)
    requires AllCommas(s) && !AllCommas(base)
    ensures Climb(s, base) == None
    decreases |s|
  {
    ClimbDone(s, base);
    if s != "" {
      hide Climb;
      assert Lower(s) != Lower(base) by {
        var i :| 0 <= i < |base| && base[i] != ',';
        assert |base| == |s| ==> Lower(base)[i] != Lower(s)[i];
      }
      ClimbStep(s, base);
      AllCommasTrimmed(s);
      AllCommasTrimmed(s[1..]);
      assert ParentDn(s) == s[1..];
      CommasNeverArrive(s[1..], base);
    }
  }

  lemma {:induction false} CommasClimb(current: string, base: string, m: nat, n: nat)
    requires Tidy(current) && Tidy(base)
    ensures Climb(current + Commas(m), base + Commas(n)).Some? <==> Climb(current, base).Some? && m == n
    decreases |current|
  {
    var text, end := current + Commas(m), base + Commas(n);
    assert current != "" && base != "";
    assert !AllCommas(end) by {
      assert end[|base| - 1] == base[|base| - 1];
    }
    hide *;
    CommasEqual(current, base, m, n);
    ClimbDone(text, end);
    ClimbDone(current, base);
    ClimbDone("", base);
    if Lower(current) != Lower(base) {
      ClimbStep(current, base);
    }
    if Lower(text) != Lower(end) {
      ClimbStep(text, end);
      CommasParent(current, m);
      TidyParent(current);
      if |Rdns(current)| > 1 {
        CommasClimb(ParentDn(current), base, m, n);
      } else {
        CommasNeverArrive(ParentDn(text), end);
      }
    }
  }

  lemma CommasCases(target: string, base: string)
    requires target != "" && base != "" && Trim(target) == target && Trim(base) == base
    ensures PathChain(target, base) != []
      <==> Lower(target) == Lower(base) || (DnWithinBase(target, base) && Climb(target, base).Some?)
  {
    hide Trim, Climb, DnWithinBase, Lower;
  }

  /** With commas behind them the containment of two tidy DNs is what it was without, but the chain
      is there exactly when there are as many behind the target as behind the base: the branch
      meant never to be taken is taken for every other pair. */
  lemma ChainNeedsEqualCommas(target: string, base: string, m: nat, n: nat)
    requires Tidy(target) && Tidy(base)
    ensures DnWithinBase(target + Commas(m), base + Commas(n)) <==> DnWithinBase(target, base)
    ensures PathChain(target + Commas(m), base + Commas(n)) != [] <==> DnWithinBase(target, base) && m == n
  {
    assert target != "" && base != "";
    hide *;
    CommasTrimmed(target, m);
    CommasTrimmed(base, n);
    CommasWithin(target, base, m, n);
    CommasCases(target + Commas(m), base + Commas(n));
    CommasEqual(target, base, m, n);
    CommasClimb(target, base, m, n);
    ClimbArrives(target, base);
    TidyWithin(target, base);
    if Lower(target) == Lower(base) {
      ClimbDone(target, base);
    }
  }

  /** A comma behind the target, or one behind the base, and there is no chain. */
  lemma TrailingCommaBreaksChain()
    ensures DnWithinBase("a=b,c=d,", "c=d") && PathChain("a=b,c=d,", "c=d") == []
    ensures DnWithinBase("a=b,c=d", "c=d,") && PathChain("a=b,c=d", "c=d,") == []
    ensures PathChain("a=b,c=d,", "c=d,") != []
  {
    TidySamples();
    assert "a=b,c=d" + "," == "a=b,c=d," && "c=d" + "," == "c=d,";
    assert "a=b,c=d" + "" == "a=b,c=d" && "c=d" + "" == "c=d";
    assert Commas(0) == "" && Commas(1) == ",";
    hide *;
    ChainNeedsEqualCommas("a=b,c=d", "c=d", 1, 0);
    ChainNeedsEqualCommas("a=b,c=d", "c=d", 0, 1);
    ChainNeedsEqualCommas("a=b,c=d", "c=d", 1, 1);
  }

  lemma TidySamples()
    ensures Tidy("a=b,c=d") && Tidy("c=d") && DnWithinBase("a=b,c=d", "c=d")
  {
    assert Separator(',');
    hide *;
    SampleParts();
    SampleJoins();
    JoinSplits(["a=b", "c=d"], ',');
    JoinSplits(["c=d"], ',');
    SampleRdns();
    SamplesAreTidy();
    TidyWithin("a=b,c=d", "c=d");
    SampleLower();
  }

  lemma SampleRdns()
    ensures Rdns("a=b,c=d") == SplitTop("a=b,c=d", ',') && Rdns("c=d") == SplitTop("c=d", ',')
  {
    hide SplitTop;
  }

  lemma SampleLower()
    ensures Lower("a=b,c=d") == "a=b,c=d" && Lower("c=d") == "c=d"
  {
    hide Lower;
    LowerOfLower("a=b,c=d");
    LowerOfLower("c=d");
  }

  lemma SampleJoins()
    ensures Join(["c=d"], ",") == "c=d" && Join(["a=b", "c=d"], ",") == "a=b,c=d"
  {
    assert ["a=b", "c=d"][1..] == ["c=d"];
  }

  lemma SampleParts()
    ensures Parts(["a=b", "c=d"], ',') && Parts(["c=d"], ',')
  {
    hide FindTop, Scan;
    PlainScan("a=b");
    PlainScan("c=d");
  }

  lemma SamplesAreTidy()
    requires Rdns("a=b,c=d") == ["a=b", "c=d"] && Rdns("c=d") == ["c=d"]
    ensures Tidy("a=b,c=d") && Tidy("c=d")
    ensures Suffix(Rdns("c=d"), Rdns("a=b,c=d"))
  {
    hide SplitTop;
    assert ["a=b", "c=d"][1..] == ["c=d"];
  }

  predicate Plain(s: string) {
    forall i :: 0 <= i < |s| ==> s[i] != '\\' && s[i] != '"' && s[i] != ','
  }

  lemma {:induction false} PlainScan(s: string)
    requires Plain(s)
    ensures Top(s, ',', FRESH) < 0 && Scan(s, FRESH) == FRESH
  {
    if s != "" {
      TopStep(s, ',', FRESH);
      PlainScan(s[1..]);
    }
  }

  lemma LowerOfLower(s: string)
    requires forall i :: 0 <= i < |s| ==> !('A' <= s[i] <= 'Z')
    ensures Lower(s) == s
  {
  }
}
