/** The prefixes of the directory tree's search box: parseTreeKeywordPrefix of ldapFilter.ts. */
module FilterKeyword {
  import opened Wrappers
  import opened Text
  import opened LdapFilter

  predicate AllSpace(s: string) {
    forall i :: 0 <= i < |s| ==> IsSpace(s[i])
  }

  lemma {:induction false} StartOver(gap: string, s: string)
    requires AllSpace(gap)
    ensures TrimStart(gap + s) == TrimStart(s)
  {
    if gap == "" {
      assert gap + s == s;
    } else {
      StartOver(gap[1..], s);
      assert (gap + s)[1..] == gap[1..] + s;
    }
  }

  lemma {:induction false} StartBefore(s: string, rest: string)
    requires TrimStart(s) != ""
    ensures TrimStart(s + rest) == TrimStart(s) + rest
  {
    if s != "" && IsSpace(s[0]) {
      StartBefore(s[1..], rest);
      assert (s + rest)[1..] == s[1..] + rest;
    }
  }

  lemma {:induction false} EndBehind(s: string, rest: string)
    requires s != "" ==> !IsSpace(s[|s| - 1])
    ensures TrimEnd(s + rest) == s + TrimEnd(rest)
  {
    if rest == "" {
      assert s + rest == s;
    } else {
      assert (s + rest)[|s + rest| - 1] == rest[|rest| - 1];
      if IsSpace(rest[|rest| - 1]) {
        EndBehind(s, rest[..|rest| - 1]);
        assert (s + rest)[..|s + rest| - 1] == s + rest[..|rest| - 1];
      }
    }
  }

  lemma {:induction false} EndCut(s: string) returns (gap: string)
    ensures s == TrimEnd(s) + gap && AllSpace(gap)
  {
    gap := "";
    if s != "" && IsSpace(s[|s| - 1]) {
      gap := EndCut(s[..|s| - 1]);
      gap := gap + [s[|s| - 1]];
    }
  }

  lemma {:induction false} OnlySpace(s: string)
    requires TrimStart(s) == ""
    ensures AllSpace(s)
  {
    if s != "" {
      OnlySpace(s[1..]);
      assert forall i :: 0 < i < |s| ==> s[i] == s[1..][i - 1];
    }
  }

  /** The two ends may be trimmed in either order. */
  lemma TrimCommutes(s: string)
    ensures TrimStart(TrimEnd(s)) == Trim(s)
  {
    var e := TrimEnd(s);
    var gap := EndCut(s);
    TrimEndBounds(s);
    if TrimStart(e) == "" {
      OnlySpace(e);
      assert s == gap;
      StartOver(gap, "");
      assert gap + "" == gap;
    } else {
      StartBefore(e, gap);
      TrimStartBounds(e);
      EndBehind(TrimStart(e), gap);
      EndOfSpace(gap);
    }
  }

  lemma {:induction false} EndOfSpace(gap: string)
    requires AllSpace(gap)
    ensures TrimEnd(gap) == ""
  {
    if gap != "" {
      EndOfSpace(gap[..|gap| - 1]);
    }
  }

  // --- Prefixes -------------------------------------------------------------------------

  predicate IsNameChar(c: char) {
    IsAlpha(c) || IsDigit(c) || c == '-'
  }

  predicate IsName(s: string) {
    s != "" && IsAlpha(s[0]) && forall i :: 0 <= i < |s| ==> IsNameChar(s[i])
  }

  predicate NoLineEnd(s: string) {
    forall i :: 0 <= i < |s| ==> !IsLineEnd(s[i])
  }

  predicate Known(attribute: string) {
    attribute == "objectclass" || attribute in TREE_FILTER_ATTRIBUTES
  }

  lemma {:induction false} NameEnds(name: string, rest: string, i: nat)
    requires IsName(name) && i <= |name| && (rest != "" ==> !IsNameChar(rest[0]))
    ensures NameTail(name + rest, i) == |name|
    decreases |name| - i
  {
    if i < |name| {
      NameEnds(name, rest, i + 1);
    }
  }

  lemma NameMeasured(name: string, rest: string)
    requires IsName(name) && (rest != "" ==> !IsNameChar(rest[0]))
    ensures NameLength(name + rest) == |name|
  {
    NameEnds(name, rest, 1);
  }

  /** name=value, or name:value, as it is typed: with blanks wherever one likes. */
  function Typed(before: string, name: string, gap: string, sign: char, value: string): string {
    before + (name + (gap + ([sign] + value)))
  }

  lemma TypedTrimmed(before: string, name: string, gap: string, sign: char, value: string)
    requires AllSpace(before) && IsName(name) && !IsSpace(sign)
    ensures Trim(Typed(before, name, gap, sign, value)) == name + (gap + ([sign] + TrimEnd(value)))
  {
    var rest := name + (gap + ([sign] + value));
    assert TrimStart(rest) == rest by {
      assert rest[0] == name[0] && !IsSpace(name[0]);
    }
    var front := name + (gap + [sign]);
    assert rest == front + value && front[|front| - 1] == sign;
    assert front + TrimEnd(value) == name + (gap + ([sign] + TrimEnd(value)));
    hide TrimStart, TrimEnd, IsSpace, IsName, AllSpace;
    StartOver(before, rest);
    EndBehind(front, value);
  }

  lemma SignFollows(name: string, gap: string, sign: char, value: string)
    requires IsName(name) && AllSpace(gap) && (sign == '=' || sign == ':')
    ensures var text := name + (gap + ([sign] + value));
            NameLength(text) == |name| && text[..|name|] == name && TrimStart(text[|name|..]) == [sign] + value
  {
    var rest := gap + ([sign] + value);
    NameMeasured(name, rest);
    StartOver(gap, [sign] + value);
    assert (name + rest)[|name|..] == rest;
  }

  /** Exactly the names whose lower-case form is in the list are recognised, on one line. */
  lemma PrefixRecognised(before: string, name: string, gap: string, sign: char, value: string)
    requires AllSpace(before) && IsName(name) && AllSpace(gap) && (sign == '=' || sign == ':')
    ensures var parsed := ParseTreeKeywordPrefix(Typed(before, name, gap, sign, value));
            && (parsed.Some? <==> Known(Lower(name)) && NoLineEnd(Trim(value)))
            && (parsed.Some? ==> parsed.value == (Lower(name), Trim(value)))
  {
    TypedTrimmed(before, name, gap, sign, value);
    SignFollows(name, gap, sign, TrimEnd(value));
    TrimCommutes(value);
    TrimAgain(value);
    assert ([sign] + TrimEnd(value))[1..] == TrimEnd(value);
    hide Trim, TrimStart, TrimEnd, Lower, NameLength, Typed;
  }

  lemma {:induction false} LowerFolds(s: string)
    ensures Lower(Lower(s)) == Lower(s)
  {
  }

  /** A name is lower-case to begin with or never comes out of the folding. */
  lemma RecognisedIsLower(keyword: string)
    requires ParseTreeKeywordPrefix(keyword).Some?
    ensures Lower(ParseTreeKeywordPrefix(keyword).value.0) == ParseTreeKeywordPrefix(keyword).value.0
  {
    var text := Trim(keyword);
    LowerFolds(text[..NameLength(text)]);
  }

  lemma ListedIsKnown(a: string)
    requires a in TREE_FILTER_ATTRIBUTES
    ensures Known(a)
  {
    hide TREE_FILTER_ATTRIBUTES;
  }

  lemma ListedAreNames(a: string)
    requires a in TREE_FILTER_ATTRIBUTES
    ensures IsName(a)
  {
  }

  /** An attribute of the list can be selected, by its own name or by any other keyword, exactly
      when the list spells it in lower case: the name typed is folded and then looked up exactly. */
  lemma SelectableWhenLower(a: string, value: string)
    requires a in TREE_FILTER_ATTRIBUTES && NoLineEnd(Trim(value))
    ensures ParseTreeKeywordPrefix(a + "=" + value) == (if Lower(a) == a then Some((a, Trim(value))) else None)
    ensures Lower(a) != a ==>
      forall k :: ParseTreeKeywordPrefix(k).Some? ==> ParseTreeKeywordPrefix(k).value.0 != a
  {
    hide IsName, Known, Lower, ParseTreeKeywordPrefix, Trim, NoLineEnd;
    assert Known(a) by {
      hide *;
      ListedIsKnown(a);
    }
    ListedAreNames(a);
    PrefixRecognised("", a, "", '=', value);
    assert Typed("", a, "", '=', value) == a + "=" + value;
    if Lower(a) != a {
      forall k | ParseTreeKeywordPrefix(k).Some? ensures ParseTreeKeywordPrefix(k).value.0 != a {
        RecognisedIsLower(k);
      }
      MixedCase(a);
    }
  }

  predicate IsLower(s: string) {
    forall i :: 0 <= i < |s| ==> !('A' <= s[i] <= 'Z')
  }

  lemma LowerStays(s: string)
    ensures IsLower(s) <==> Lower(s) == s
  {
    if !IsLower(s) {
      var i :| 0 <= i < |s| && 'A' <= s[i] <= 'Z';
      assert Lower(s)[i] != s[i];
    }
  }

  lemma LowerOf(s: string, folded: string)
    requires |s| == |folded| && forall i :: 0 <= i < |s| ==> folded[i] == LowerChar(s[i])
    ensures Lower(s) == folded
  {
  }

  lemma MixedNames()
    ensures Lower("givenName") == "givenname" && Lower("displayName") == "displayname"
    ensures Lower("sAMAccountName") == "samaccountname"
  {
    hide Lower;
    LowerOf("givenName", "givenname");
    LowerOf("displayName", "displayname");
    LowerOf("sAMAccountName", "samaccountname");
  }

  lemma NotInMixedCase(a: string)
    requires a in TREE_FILTER_ATTRIBUTES && a != "givenName" && a != "displayName" && a != "sAMAccountName"
    ensures IsLower(a)
  {
  }

  lemma MixedNotKnown()
    ensures !Known("givenname") && !Known("displayname") && !Known("samaccountname")
  {
    assert "givenname"[0] == 'g' && "displayname"[2] == 's' && |"samaccountname"| == 14;
    forall i | 0 <= i < |TREE_FILTER_ATTRIBUTES|
      ensures TREE_FILTER_ATTRIBUTES[i] != "givenname" && TREE_FILTER_ATTRIBUTES[i] != "displayname"
      ensures TREE_FILTER_ATTRIBUTES[i] != "samaccountname"
    {
      assert "givenName"[5] == 'N' && "displayName"[7] == 'N' && "sAMAccountName"[1] == 'A';
    }
  }

  /** The names in mixed case, none of which is in the list again in lower case. */
  lemma MixedCase(a: string)
    requires a in TREE_FILTER_ATTRIBUTES && Lower(a) != a
    ensures !Known(Lower(a))
  {
    hide Lower, IsLower, Known;
    LowerStays(a);
    MixedNames();
    MixedNotKnown();
    if a != "givenName" && a != "displayName" && a != "sAMAccountName" {
      NotInMixedCase(a);
    }
  }

  lemma GivenNameListed()
    ensures "givenName" in TREE_FILTER_ATTRIBUTES && Lower("givenName") != "givenName"
  {
    assert TREE_FILTER_ATTRIBUTES[6] == "givenName";
    assert Lower("givenName")[5] == LowerChar('N');
  }

  lemma AliTrimmed()
    ensures Trim("ali") == "ali"
  {
    assert Trimmed("ali");
    TrimKeeps("ali");
  }

  /** The documented prefix of a listed attribute is not recognised. */
  lemma MixedCasePrefixUnknown()
    ensures "givenName" in TREE_FILTER_ATTRIBUTES && ParseTreeKeywordPrefix("givenName=ali") == None
  {
    assert NoLineEnd("ali");
    assert "givenName" + "=" + "ali" == "givenName=ali";
    hide *;
    AliTrimmed();
    GivenNameListed();
    SelectableWhenLower("givenName", "ali");
  }
}
