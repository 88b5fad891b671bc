/**
 What the scans of frontend/src/lib/dn.ts find, said without their state: which characters of a text
 stand outside quotes and escapes, which texts have valid escapes, and what an escaped value means.
 */
module DnScan {
  import opened Wrappers
  import opened Text
  import opened Dn

  // --- Top-level characters ---------------------------------------------------------------

  /** An odd number of backslashes stands in front of it. */
  predicate Escaped(s: string, i: nat)
    requires i <= |s|
  {
    TrailingSlashes(s[..i]) % 2 == 1
  }

  /** How many quotes stand before i, those with a backslash in front left out. */
  function QuotesBefore(s: string, i: nat): nat
    requires i <= |s|
  {
    if i == 0 then 0 else QuotesBefore(s, i - 1) + if s[i - 1] == '"' && !Escaped(s, i - 1) then 1 else 0
  }

  /** Outside quotes and escapes. */
  predicate TopLevel(s: string, i: nat)
    requires i <= |s|
  {
    !Escaped(s, i) && QuotesBefore(s, i) % 2 == 0
  }

  lemma EscapedNext(s: string, i: nat)
    requires i < |s|
    ensures Escaped(s, i + 1) <==> s[i] == '\\' && !Escaped(s, i)
  {
    assert s[..i + 1][..i] == s[..i] && s[..i + 1][i] == s[i];
  }

  lemma QuotesNext(s: string, i: nat)
    requires i < |s|
    ensures QuotesBefore(s, i + 1) == QuotesBefore(s, i) + if s[i] == '"' && !Escaped(s, i) then 1 else 0
  {
  }

  lemma FindStep(s: string, i: nat, target: char, escaped: bool, quoted: bool)
    requires i < |s|
    ensures FindTop(s[i..], target, escaped, quoted)
      == if !escaped && s[i] != '\\' && s[i] != '"' && !quoted && s[i] == target then 0
         else
           var r := FindTop(s[i + 1..], target, !escaped && s[i] == '\\', if !escaped && s[i] == '"' then !quoted else quoted);
           if r < 0 then -1 else r + 1
  {
    assert s[i..][0] == s[i] && s[i..][1..] == s[i + 1..];
  }

  /** Where the scan that starts at i with this state finds the character. */
  predicate Found(s: string, i: nat, target: char, r: int)
    requires i <= |s|
  {
    if r < 0 then forall k :: i <= k < |s| ==> !(s[k] == target && TopLevel(s, k))
    else i + r < |s| && s[i + r] == target && TopLevel(s, i + r)
         && forall k :: i <= k < i + r ==> !(s[k] == target && TopLevel(s, k))
  }

  lemma FoundHere(s: string, i: nat, target: char, r: int)
    requires i < |s| && Found(s, i + 1, target, r) && r >= -1
    ensures Found(s, i, target, if s[i] == target && TopLevel(s, i) then 0 else if r < 0 then -1 else r + 1)
  {
    hide TopLevel;
  }

  lemma StateNext(s: string, i: nat)
    requires i < |s|
    ensures var quoted := QuotesBefore(s, i) % 2 == 1;
            && (Escaped(s, i + 1) <==> !Escaped(s, i) && s[i] == '\\')
            && (QuotesBefore(s, i + 1) % 2 == 1 <==> if !Escaped(s, i) && s[i] == '"' then !quoted else quoted)
            && (TopLevel(s, i) <==> !Escaped(s, i) && !quoted)
  {
    EscapedNext(s, i);
    QuotesNext(s, i);
    hide Escaped, QuotesBefore;
  }

  lemma {:induction false} FindsFrom(s: string, i: nat, target: char)
    requires i <= |s| && target != '\\' && target != '"'
    ensures Found(s, i, target, FindTop(s[i..], target, Escaped(s, i), QuotesBefore(s, i) % 2 == 1))
    decreases |s| - i
  {
    if i == |s| {
      assert s[i..] == "";
    } else {
      hide Escaped, FindTop, QuotesBefore, TopLevel, Found;
      var escaped, quoted := Escaped(s, i), QuotesBefore(s, i) % 2 == 1;
      StateNext(s, i);
      FindStep(s, i, target, escaped, quoted);
      FindsFrom(s, i + 1, target);
      FoundHere(s, i, target, FindTop(s[i + 1..], target, Escaped(s, i + 1), QuotesBefore(s, i + 1) % 2 == 1));
    }
  }

  /** The scan finds the first such character that stands outside quotes and escapes. */
  lemma FindsTopLevel(s: string, target: char)
    requires target != '\\' && target != '"'
    ensures Found(s, 0, target, FindTop(s, target, false, false))
  {
    FindsFrom(s, 0, target);
    assert s[0..] == s && s[..0] == "";
    hide FindTop, TopLevel;
  }

  // --- Escapes ----------------------------------------------------------------------------

  /** A character as it is, one behind a backslash, or an octet behind one. */
  datatype Piece = Plain(c: char) | Pair(c: char) | Octet(hi: char, lo: char)

  predicate PieceOk(p: Piece) {
    match p
    case Plain(c) => c != '\\' && c != '\0'
    case Pair(c) => IsSpecial(c)
    case Octet(hi, lo) => IsHex(hi) && IsHex(lo)
  }

  predicate PiecesOk(ps: seq<Piece>) {
    forall i :: 0 <= i < |ps| ==> PieceOk(ps[i])
  }

  function ShowPiece(p: Piece): string {
    match p
    case Plain(c) => [c]
    case Pair(c) => ['\\', c]
    case Octet(hi, lo) => ['\\', hi, lo]
  }

  function ShowPieces(ps: seq<Piece>): string {
    if ps == [] then "" else ShowPiece(ps[0]) + ShowPieces(ps[1..])
  }

  /** Quotes that are not escaped. */
  function QuotesIn(ps: seq<Piece>): nat {
    if ps == [] then 0 else (if ps[0] == Plain('"') then 1 else 0) + QuotesIn(ps[1..])
  }

  /** The text is made of such pieces, its quotes in pairs. */
  ghost predicate WellEscaped(s: string, quoted: bool) {
    exists ps :: PiecesOk(ps) && ShowPieces(ps) == s && (QuotesIn(ps) % 2 == 1 <==> quoted)
  }

  lemma {:induction false} PiecesAreValid(ps: seq<Piece>, quoted: bool)
    requires PiecesOk(ps) && (QuotesIn(ps) % 2 == 1 <==> quoted)
    ensures ValidEscapes(ShowPieces(ps), quoted)
    decreases |ps|
  {
    if ps != [] {
      var s, more := ShowPieces(ps), ShowPieces(ps[1..]);
      var e := ShowPiece(ps[0]);
      assert s == e + more && s[0] == e[0] && PieceOk(ps[0]) && s[|e|..] == more;
      assert |e| >= 2 ==> s[1] == e[1];
      assert |e| == 3 ==> s[2] == e[2];
      PiecesAreValid(ps[1..], if ps[0] == Plain('"') then !quoted else quoted);
      SpecialIsNoHex();
    }
  }

  lemma SpecialIsNoHex()
    ensures forall c :: IsSpecial(c) ==> !IsHex(c)
  {
  }

  lemma {:induction false} ValidHasPieces(s: string, quoted: bool) returns (ps: seq<Piece>)
    requires ValidEscapes(s, quoted)
    ensures PiecesOk(ps) && ShowPieces(ps) == s && (QuotesIn(ps) % 2 == 1 <==> quoted)
    decreases |s|
  {
    if s == "" {
      ps := [];
    } else {
      var p := FirstPiece(s, quoted);
      var n := |ShowPiece(p)|;
      hide ValidEscapes, ShowPiece, PieceOk;
      var more := ValidHasPieces(s[n..], if s[0] == '"' then !quoted else quoted);
      ps := [p] + more;
      assert ps[1..] == more;
    }
  }

  lemma FirstPiece(s: string, quoted: bool) returns (p: Piece)
    requires ValidEscapes(s, quoted) && s != ""
    ensures PieceOk(p) && 0 < |ShowPiece(p)| <= |s| && s == ShowPiece(p) + s[|ShowPiece(p)|..]
    ensures ValidEscapes(s[|ShowPiece(p)|..], if s[0] == '"' then !quoted else quoted) && (p == Plain('"') <==> s[0] == '"')
  {
    p := if s[0] != '\\' then Plain(s[0]) else if IsHex(s[1]) then Octet(s[1], s[2]) else Pair(s[1]);
    hide IsHex, IsSpecial;
  }

  /** Valid is what is made of characters, escaped special characters and octets, with paired quotes. */
  lemma ValidIsWellEscaped(s: string)
    ensures ValidEscapes(s, false) <==> WellEscaped(s, false)
  {
    hide ValidEscapes;
    if ValidEscapes(s, false) {
      var ps := ValidHasPieces(s, false);
    }
    if WellEscaped(s, false) {
      var ps :| PiecesOk(ps) && ShowPieces(ps) == s && (QuotesIn(ps) % 2 == 1 <==> false);
      PiecesAreValid(ps, false);
    }
  }

  /** Characters, escaped or not, stand for themselves; octets in a row are decoded together. */
  function Meaning(ps: seq<Piece>, run: seq<int>, decode: Decoder): string
    requires PiecesOk(ps)
    decreases |ps|
  {
    if ps == [] then FlushBytes(run, decode)
    else
      match ps[0]
      case Octet(hi, lo) => Meaning(ps[1..], run + [16 * HexValue(hi) + HexValue(lo)], decode)
      case _ => FlushBytes(run, decode) + [ps[0].c] + Meaning(ps[1..], [], decode)
  }

  /** Decoding gives a well-escaped text the meaning of its pieces. */
  lemma {:induction false} DecodesPieces(ps: seq<Piece>, run: seq<int>, decode: Decoder)
    requires PiecesOk(ps)
    ensures DecodeEscaped(ShowPieces(ps), run, decode) == Meaning(ps, run, decode)
    decreases |ps|
  {
    if ps != [] {
      var s, more := ShowPieces(ps), ShowPieces(ps[1..]);
      var e := ShowPiece(ps[0]);
      assert s == e + more && s[0] == e[0] && PieceOk(ps[0]) && s[|e|..] == more;
      assert |e| >= 2 ==> s[1] == e[1];
      assert |e| == 3 ==> s[2] == e[2];
      SpecialIsNoHex();
      hide ShowPieces, IsHex, IsSpecial, FlushBytes;
      match ps[0] {
        case Octet(hi, lo) => DecodesPieces(ps[1..], run + [16 * HexValue(hi) + HexValue(lo)], decode);
        case _ => DecodesPieces(ps[1..], [], decode);
      }
    }
  }
}
