/**
 Which texts are attribute descriptions: the expression that frontend/src/lib/ldapFilter.ts and ldif.ts
 match, told by splitting at semicolons and dots.
 */
module AttributeNames {
  import opened Text

  predicate IsKeyChar(c: char) {
    IsAlpha(c) || IsDigit(c) || c == '-'
  }

  predicate KeyChars(s: string) {
    forall i :: 0 <= i < |s| ==> IsKeyChar(s[i])
  }

  predicate Digital(s: string) {
    forall i :: 0 <= i < |s| ==> IsDigit(s[i])
  }

  /** A letter, then letters, digits and hyphens: descr of section 1.4 of RFC 4512. */
  predicate Descr(s: string) {
    s != "" && IsAlpha(s[0]) && KeyChars(s)
  }

  predicate Arcs(parts: seq<string>) {
    forall i :: 0 <= i < |parts| ==> parts[i] != "" && Digital(parts[i])
  }

  /** At least two numbers with dots between them. The grammar of the standard has no leading zeros. */
  predicate DottedOid(s: string) {
    |Split(s, '.')| >= 2 && Arcs(Split(s, '.'))
  }

  predicate Options(parts: seq<string>) {
    forall i :: 0 <= i < |parts| ==> parts[i] != "" && KeyChars(parts[i])
  }

  /** A name or an OID, and behind semicolons any number of options. */
  predicate Described(s: string) {
    var parts := Split(s, ';');
    (Descr(parts[0]) || DottedOid(parts[0])) && Options(parts[1..])
  }

  /** What may follow once the expression has come this far. */
  predicate MayFollow(st: AttrState, s: string) {
    var parts := Split(s, ';');
    var arcs := Split(parts[0], '.');
    match st
    case Start => Described(s)
    case Name => KeyChars(parts[0]) && Options(parts[1..])
    case Digits => |arcs| >= 2 && Digital(arcs[0]) && Arcs(arcs[1..]) && Options(parts[1..])
    case Dot => Arcs(arcs) && Options(parts[1..])
    case Oid => Digital(arcs[0]) && Arcs(arcs[1..]) && Options(parts[1..])
    case OptionStart => Options(parts)
    case Option => KeyChars(parts[0]) && Options(parts[1..])
    case Bad => false
  }

  lemma SplitStep(s: string, c: char)
    requires s != ""
    ensures var rest := Split(s[1..], c);
            if s[0] == c then Split(s, c)[0] == "" && Split(s, c)[1..] == rest
            else Split(s, c)[0] == [s[0]] + rest[0] && Split(s, c)[1..] == rest[1..] && |Split(s, c)| == |rest|
  {
  }

  lemma HeadKey(c: char, s: string)
    ensures KeyChars([c] + s) <==> IsKeyChar(c) && KeyChars(s)
  {
    assert ([c] + s)[0] == c && forall i :: 0 < i < |[c] + s| ==> ([c] + s)[i] == s[i - 1];
    assert forall i :: 0 <= i < |s| ==> s[i] == ([c] + s)[i + 1];
  }

  lemma HeadDigit(c: char, s: string)
    ensures Digital([c] + s) <==> IsDigit(c) && Digital(s)
  {
    assert ([c] + s)[0] == c && forall i :: 0 < i < |[c] + s| ==> ([c] + s)[i] == s[i - 1];
    assert forall i :: 0 <= i < |s| ==> s[i] == ([c] + s)[i + 1];
  }

  lemma OptionsHead(parts: seq<string>)
    requires parts != []
    ensures Options(parts) <==> parts[0] != "" && KeyChars(parts[0]) && Options(parts[1..])
  {
    assert forall i :: 0 < i < |parts| ==> parts[i] == parts[1..][i - 1];
  }

  lemma ArcsHead(parts: seq<string>)
    requires parts != []
    ensures Arcs(parts) <==> parts[0] != "" && Digital(parts[0]) && Arcs(parts[1..])
  {
    assert forall i :: 0 < i < |parts| ==> parts[i] == parts[1..][i - 1];
  }

  /** One character more in front. */
  lemma FollowStep(st: AttrState, s: string)
    requires s != ""
    ensures MayFollow(st, s) <==> MayFollow(AttrStep(st, s[0], true, false), s[1..])
  {
    var parts, rest := Split(s, ';'), Split(s[1..], ';');
    SplitStep(s, ';');
    OptionsHead(parts);
    OptionsHead(rest);
    HeadKey(s[0], rest[0]);
    var arcs, more := Split(parts[0], '.'), Split(rest[0], '.');
    ArcsHead(arcs);
    ArcsHead(more);
    if s[0] != ';' {
      assert parts[0][1..] == rest[0] && parts[0][0] == s[0];
      SplitStep(parts[0], '.');
      HeadDigit(s[0], more[0]);
    }
    hide Text.Split, KeyChars, Digital, Arcs, Options;
  }

  lemma NothingFollows(st: AttrState)
    ensures MayFollow(st, "") <==> Accepting(st)
  {
    assert Split("", ';') == [""] && Split("", '.') == [""];
  }

  lemma {:induction false} RunMeans(st: AttrState, s: string)
    ensures Accepting(AttrRun(st, s, true, false)) <==> MayFollow(st, s)
    decreases |s|
  {
    hide MayFollow, Accepting, AttrStep;
    if s == "" {
      NothingFollows(st);
    } else {
      FollowStep(st, s);
      RunMeans(AttrStep(st, s[0], true, false), s[1..]);
    }
  }

  /** The expression matches the descriptions, and nothing else. */
  lemma DescriptionIsDescribed(s: string)
    ensures IsAttributeDescription(s) <==> Described(s)
  {
    RunMeans(Start, s);
    hide AttrRun, Described;
  }
}
