/**
 * MIME types: the TypeScript normalizer and validator (packages/common/src/constants.ts) and the Go ones
 * that the contract generator emits (apps/server/scripts/generate-contract.ts).
 */
module Mime {
  import opened Js
  import opened Text

  const ALLOWED_TYPES: seq<string> :=
    ["image/jpeg", "image/jpg", "image/png", "image/webp", "image/gif", "video/mp4", "video/webm"]

  predicate Ascii(s: string) { forall i :: 0 <= i < |s| ==> s[i] < '\U{80}' }

  function Canonical(s: string): string {
    if s == "image/jpg" then "image/jpeg" else s
  }

  /** Lower-case, cut at the semicolon, trim. */
  function NormalizeMimeType(mimeType: string): string {
    Canonical(Trim(IsSpace, Split(Lower(mimeType), ';')[0]))
  }

  predicate IsValidMimeType(types: seq<string>, mimeType: string) {
    NormalizeMimeType(mimeType) in types
  }

  /* ---------- The emitted Go code ---------- */

  /** What `strings.Cut` leaves before the separator. */
  function Cut(s: string, separator: char): string {
    if s == [] || s[0] == separator then [] else [s[0]] + Cut(s[1..], separator)
  }

  /** `unicode.IsSpace` */
  predicate IsGoSpace(c: char) {
    '\U{9}' <= c <= '\U{D}' || c == ' ' || c == '\U{85}' || c == '\U{A0}' || c == '\U{1680}'
    || '\U{2000}' <= c <= '\U{200A}' || c == '\U{2028}' || c == '\U{2029}' || c == '\U{202F}'
    || c == '\U{205F}' || c == '\U{3000}'
  }

  /** Cut at the semicolon, trim, lower-case. */
  function GoNormalized(value: string): string {
    Canonical(Lower(Trim(IsGoSpace, Cut(value, ';'))))
  }

  method NormalizeMIME(value: string) returns (normalized: string)
    ensures normalized == GoNormalized(value)
    ensures Ascii(value) ==> normalized == NormalizeMimeType(value)
  {
    normalized := Cut(value, ';');
    normalized := Lower(Trim(IsGoSpace, normalized));
    if normalized == "image/jpg" {
      normalized := "image/jpeg";
    }
    if Ascii(value) {
      NormalizersAgree(value);
    }
  }

  /** `[...new Set(values)]`: first occurrences, in order. */
  function Deduplicated<T(==)>(values: seq<T>): seq<T> {
    if values == [] then []
    else
      var n := |values| - 1;
      var rest := Deduplicated(values[..n]);
      if values[n] in rest then rest else rest + [values[n]]
  }

  /** Nothing is lost and nothing is there twice. */
  lemma {:induction false} DeduplicatedIsSet<T>(values: seq<T>)
    ensures forall v :: v in Deduplicated(values) <==> v in values
    ensures forall i, j :: 0 <= i < j < |Deduplicated(values)| ==> Deduplicated(values)[i] != Deduplicated(values)[j]
  {
    if values != [] {
      var n := |values| - 1;
      DeduplicatedIsSet(values[..n]);
      assert values == values[..n] + [values[n]];
    }
  }

  function NormalizeAll(types: seq<string>): (r: seq<string>)
    ensures |r| == |types| && forall i :: 0 <= i < |types| ==> r[i] == NormalizeMimeType(types[i])
  {
    seq(|types|, i requires 0 <= i < |types| => NormalizeMimeType(types[i]))
  }

  /** The cases that the generator writes into the Go switch. */
  function CaseList(types: seq<string>): seq<string> {
    Deduplicated(NormalizeAll(types))
  }

  predicate IsAllowedMIME(types: seq<string>, value: string) {
    GoNormalized(value) in CaseList(types)
  }

  /* ---------- Agreement ---------- */

  lemma {:induction false} FirstPieceIsCut(s: string, separator: char)
    ensures Split(s, separator)[0] == Cut(s, separator)
  {
    if s != [] {
      FirstPieceIsCut(s[1..], separator);
    }
  }

  lemma {:induction false} CutOfLower(s: string)
    ensures Cut(Lower(s), ';') == Lower(Cut(s, ';'))
  {
    if s != [] {
      assert Lower(s)[1..] == Lower(s[1..]);
      CutOfLower(s[1..]);
      if s[0] != ';' {
        assert Lower([s[0]] + Cut(s[1..], ';')) == [LowerChar(s[0])] + Lower(Cut(s[1..], ';'));
      }
    }
  }

  lemma {:induction false} CutIsPlain(s: string)
    ensures ';' !in Cut(s, ';') && Cut(s, ';') <= s
  {
    if s != [] && s[0] != ';' {
      CutIsPlain(s[1..]);
    }
  }

  lemma {:induction false} CutFixed(s: string)
    requires ';' !in s
    ensures Cut(s, ';') == s
  {
    if s != [] {
      CutFixed(s[1..]);
    }
  }

  /** Lower-casing and trimming commute when lower-casing neither makes nor removes white space. */
  lemma {:induction false} TrimStartOfLower(space: char -> bool, s: string)
    requires forall c :: space(LowerChar(c)) == space(c)
    ensures TrimStart(space, Lower(s)) == Lower(TrimStart(space, s))
  {
    if s != [] && space(s[0]) {
      assert Lower(s)[0] == LowerChar(s[0]);
      assert Lower(s)[1..] == Lower(s[1..]);
      TrimStartOfLower(space, s[1..]);
    } else if s != [] {
      assert Lower(s)[0] == LowerChar(s[0]);
    }
  }

  lemma LowerInit(s: string)
    requires s != []
    ensures Lower(s)[..|s| - 1] == Lower(s[..|s| - 1]) && Lower(s)[|s| - 1] == LowerChar(s[|s| - 1])
  {
  }

  lemma {:induction false} TrimEndOfLower(space: char -> bool, s: string)
    requires forall c :: space(LowerChar(c)) == space(c)
    ensures TrimEnd(space, Lower(s)) == Lower(TrimEnd(space, s))
  {
    hide LowerChar;
    if s != [] {
      LowerInit(s);
      if space(s[|s| - 1]) {
        TrimEndOfLower(space, s[..|s| - 1]);
      }
    }
  }

  /** On ASCII the two notions of white space trim alike. */
  lemma {:induction false} TrimStartAgrees(s: string)
    requires Ascii(s)
    ensures TrimStart(IsSpace, s) == TrimStart(IsGoSpace, s) && Ascii(TrimStart(IsSpace, s))
  {
    if s != [] {
      assert IsSpace(s[0]) == IsGoSpace(s[0]);
      if IsSpace(s[0]) {
        TrimStartAgrees(s[1..]);
      }
    }
  }

  lemma {:induction false} TrimEndAgrees(s: string)
    requires Ascii(s)
    ensures TrimEnd(IsSpace, s) == TrimEnd(IsGoSpace, s)
  {
    if s != [] {
      var n := |s| - 1;
      assert IsSpace(s[n]) == IsGoSpace(s[n]);
      if IsSpace(s[n]) {
        TrimEndAgrees(s[..n]);
      }
    }
  }

  /** The order of the TypeScript normalizer's steps does not matter. */
  lemma LowerLast(s: string)
    ensures NormalizeMimeType(s) == Canonical(Lower(Trim(IsSpace, Cut(s, ';'))))
  {
    hide LowerChar, Lower, TrimStart, TrimEnd, Cut, Canonical;
    var piece := Cut(s, ';');
    FirstPieceIsCut(Lower(s), ';');
    CutOfLower(s);
    LowerKeepsSpace();
    TrimStartOfLower(IsSpace, piece);
    TrimEndOfLower(IsSpace, TrimStart(IsSpace, piece));
  }

  /** On every ASCII string the two normalizers give the same result, although they work in different orders. */
  lemma NormalizersAgree(s: string)
    requires Ascii(s)
    ensures NormalizeMimeType(s) == GoNormalized(s)
  {
    hide NormalizeMimeType, LowerChar, Lower, TrimStart, TrimEnd, Cut, Canonical;
    LowerLast(s);
    CutIsPlain(s);
    TrimStartAgrees(Cut(s, ';'));
    TrimEndAgrees(TrimStart(IsSpace, Cut(s, ';')));
  }

  lemma LowerKeepsSpace()
    ensures forall c :: IsSpace(LowerChar(c)) == IsSpace(c)
  {
  }

  /** A lower-case string without a semicolon and without white space at its ends is only canonicalized. */
  lemma NormalizeFixed(s: string)
    requires Lower(s) == s && ';' !in s
    requires s == [] || (!IsSpace(s[0]) && !IsSpace(s[|s| - 1]))
    ensures NormalizeMimeType(s) == Canonical(s)
  {
    FirstPieceIsCut(s, ';');
    CutFixed(s);
    TrimFixed(IsSpace, s);
  }

  /** Every result is such a string. */
  lemma NormalizedIsPlain(s: string)
    ensures
      var r := NormalizeMimeType(s);
      && Lower(r) == r && ';' !in r && Canonical(r) == r
      && (r == [] || (!IsSpace(r[0]) && !IsSpace(r[|r| - 1])))
  {
    hide NormalizeMimeType, Cut, TrimStart, TrimEnd, IsSpace;
    var trimmed := Trim(IsSpace, Cut(s, ';'));
    LowerLast(s);
    CutIsPlain(s);
    TrimKeepsOut(IsSpace, Cut(s, ';'), ';');
    LowerKeepsSpace();
    assert Lower(Lower(trimmed)) == Lower(trimmed);
    JpegIsPlain();
  }

  lemma JpegIsPlain()
    ensures Lower("image/jpeg") == "image/jpeg" && !IsSpace('i') && !IsSpace('g')
  {
  }

  lemma {:induction false} TrimStartKeepsOut(space: char -> bool, s: string, c: char)
    requires c !in s
    ensures c !in TrimStart(space, s)
  {
    if s != [] && space(s[0]) {
      TrimStartKeepsOut(space, s[1..], c);
    }
  }

  lemma TrimKeepsOut(space: char -> bool, s: string, c: char)
    requires c !in s
    ensures c !in Trim(space, s)
  {
    TrimStartKeepsOut(space, s, c);
  }

  /** The emitted normalizer's results have the same shape, by its own notion of white space. */
  lemma GoNormalizedIsPlain(s: string)
    ensures
      var r := GoNormalized(s);
      && Lower(r) == r && ';' !in r && Canonical(r) == r
      && (r == [] || (!IsGoSpace(r[0]) && !IsGoSpace(r[|r| - 1])))
  {
    hide Cut, TrimStart, TrimEnd, IsGoSpace;
    var trimmed := Trim(IsGoSpace, Cut(s, ';'));
    CutIsPlain(s);
    TrimKeepsOut(IsGoSpace, Cut(s, ';'), ';');
    LowerKeepsGoSpace();
    assert Lower(Lower(trimmed)) == Lower(trimmed);
    JpegIsPlain();
  }

  lemma LowerKeepsGoSpace()
    ensures forall c :: IsGoSpace(LowerChar(c)) == IsGoSpace(c)
    ensures !IsGoSpace('i') && !IsGoSpace('g')
  {
  }

  /** Normalizing twice is normalizing once, on both sides and for every string. */
  lemma NormalizeIdempotent(s: string)
    ensures NormalizeMimeType(NormalizeMimeType(s)) == NormalizeMimeType(s)
    ensures GoNormalized(GoNormalized(s)) == GoNormalized(s)
  {
    hide NormalizeMimeType, Cut, TrimStart, TrimEnd, IsGoSpace, IsSpace;
    NormalizedIsPlain(s);
    NormalizeFixed(NormalizeMimeType(s));
    GoNormalizedIsPlain(s);
    CutFixed(GoNormalized(s));
    TrimFixed(IsGoSpace, GoNormalized(s));
  }

  /**
   * The validator and the emitted switch accept the same ASCII strings exactly when the list of allowed
   * types contains the normal form of each of its members.
   */
  lemma SwitchAgreesExactly(types: seq<string>)
    requires forall i :: 0 <= i < |types| ==> Ascii(types[i])
    ensures (forall s :: Ascii(s) ==> (IsValidMimeType(types, s) <==> IsAllowedMIME(types, s)))
       <==> (forall i :: 0 <= i < |types| ==> NormalizeMimeType(types[i]) in types)
  {
    hide NormalizeMimeType, GoNormalized;
    DeduplicatedIsSet(NormalizeAll(types));
    if forall i :: 0 <= i < |types| ==> NormalizeMimeType(types[i]) in types {
      forall s | Ascii(s) ensures IsValidMimeType(types, s) <==> IsAllowedMIME(types, s) {
        NormalizersAgree(s);
        NormalizeIdempotent(s);
        if NormalizeMimeType(s) in types {
          var i :| 0 <= i < |types| && types[i] == NormalizeMimeType(s);
          assert NormalizeAll(types)[i] == NormalizeMimeType(s);
        }
        if NormalizeMimeType(s) in NormalizeAll(types) {
          var i :| 0 <= i < |types| && NormalizeAll(types)[i] == NormalizeMimeType(s);
        }
      }
    }
    if forall s :: Ascii(s) ==> (IsValidMimeType(types, s) <==> IsAllowedMIME(types, s)) {
      forall i | 0 <= i < |types| ensures NormalizeMimeType(types[i]) in types {
        NormalizersAgree(types[i]);
        assert NormalizeAll(types)[i] == NormalizeMimeType(types[i]);
        assert IsAllowedMIME(types, types[i]);
      }
    }
  }

  predicate Plain(s: string) {
    forall i :: 0 <= i < |s| ==> 'a' <= s[i] <= 'z' || '0' <= s[i] <= '9' || s[i] == '/'
  }

  lemma PlainIsFixed(s: string)
    requires Plain(s)
    ensures NormalizeMimeType(s) == Canonical(s) && Ascii(s)
  {
    assert Lower(s) == s;
    NormalizeFixed(s);
  }

  /**
   * The list in use has that property, so both sides accept the same types; the switch has six cases, all
   * different.
   */
  lemma SharedContract(s: string)
    requires Ascii(s)
    ensures IsValidMimeType(ALLOWED_TYPES, s) <==> IsAllowedMIME(ALLOWED_TYPES, s)
    ensures CaseList(ALLOWED_TYPES) == ["image/jpeg", "image/png", "image/webp", "image/gif", "video/mp4", "video/webm"]
  {
    hide NormalizeMimeType, GoNormalized, Deduplicated, Ascii;
    AllowedAreFixed();
    SwitchAgreesExactly(ALLOWED_TYPES);
    assert NormalizeAll(ALLOWED_TYPES)
        == ["image/jpeg", "image/jpeg", "image/png", "image/webp", "image/gif", "video/mp4", "video/webm"];
    DeduplicateSeven("image/jpeg", "image/png", "image/webp", "image/gif", "video/mp4", "video/webm");
  }

  lemma AllowedAreFixed()
    ensures forall i :: 0 <= i < |ALLOWED_TYPES| ==>
      Ascii(ALLOWED_TYPES[i]) && NormalizeMimeType(ALLOWED_TYPES[i]) == Canonical(ALLOWED_TYPES[i])
  {
    hide NormalizeMimeType, Ascii, Canonical;
    PlainIsFixed("image/jpeg");
    PlainIsFixed("image/jpg");
    PlainIsFixed("image/png");
    PlainIsFixed("image/webp");
    PlainIsFixed("image/gif");
    PlainIsFixed("video/mp4");
    PlainIsFixed("video/webm");
  }

  lemma DeduplicateSnoc<T>(values: seq<T>, v: T)
    ensures Deduplicated(values + [v]) == if v in values then Deduplicated(values) else Deduplicated(values) + [v]
  {
    assert (values + [v])[..|values|] == values;
    DeduplicatedIsSet(values);
  }

  lemma DeduplicateFour<T>(a: T, b: T, c: T)
    requires a != b && a != c && b != c
    ensures Deduplicated([a, a, b, c]) == [a, b, c]
  {
    DeduplicateSnoc([], a);
    assert Deduplicated<T>([]) == [];
    hide Deduplicated;
    DeduplicateSnoc([a], a);
    DeduplicateSnoc([a, a], b);
    DeduplicateSnoc([a, a, b], c);
    assert [] + [a] == [a] && [a] + [a] == [a, a] && [a, a] + [b] == [a, a, b] && [a, a, b] + [c] == [a, a, b, c];
  }

  lemma DeduplicateSeven<T>(a: T, b: T, c: T, d: T, e: T, f: T)
    requires a != b && a != c && a != d && a != e && a != f && b != c && b != d && b != e && b != f
    requires c != d && c != e && c != f && d != e && d != f && e != f
    ensures Deduplicated([a, a, b, c, d, e, f]) == [a, b, c, d, e, f]
  {
    hide Deduplicated;
    DeduplicateFour(a, b, c);
    DeduplicateSnoc([a, a, b, c], d);
    DeduplicateSnoc([a, a, b, c, d], e);
    DeduplicateSnoc([a, a, b, c, d, e], f);
    assert [a, a, b, c] + [d] == [a, a, b, c, d] && [a, a, b, c, d] + [e] == [a, a, b, c, d, e];
    assert [a, a, b, c, d, e] + [f] == [a, a, b, c, d, e, f];
  }

  /* ---------- What is accepted, said of the string itself ---------- */

  /** The result has no ASCII capital, on either side. */
  lemma NoCapitals(s: string)
    ensures forall i :: 0 <= i < |NormalizeMimeType(s)| ==> !('A' <= NormalizeMimeType(s)[i] <= 'Z')
    ensures forall i :: 0 <= i < |GoNormalized(s)| ==> !('A' <= GoNormalized(s)[i] <= 'Z')
  {
    hide NormalizeMimeType, GoNormalized;
    NormalizedIsPlain(s);
    LowerExactly(NormalizeMimeType(s), NormalizeMimeType(s));
    GoNormalizedIsPlain(s);
    LowerExactly(GoNormalized(s), GoNormalized(s));
  }

  /** The case of ASCII letters never matters. */
  lemma CaseIgnored(a: string, b: string)
    requires SameLetters(a, b)
    ensures NormalizeMimeType(a) == NormalizeMimeType(b)
  {
    hide TrimStart, TrimEnd, Split, Lower, Canonical;
    LowerExactly(a, b);
  }

  /** Both languages trim the same characters but two, and the six of ASCII. */
  lemma WhiteSpaceExactly(c: char)
    ensures IsSpace(c) != IsGoSpace(c) <==> c == '\U{85}' || c == '\U{FEFF}'
    ensures c < '\U{80}' ==> (IsSpace(c) <==> c in " \t\n\r" || c == '\U{B}' || c == '\U{C}')
  {
  }

  /** `s` is `t` but for the case of letters, surrounding white space, and parameters after a semicolon. */
  ghost predicate Spells(s: string, t: string) {
    exists before, name, after, rest ::
      && s == before + name + after + rest
      && AllSpace(IsSpace, before) && AllSpace(IsSpace, after) && (rest == "" || rest[0] == ';')
      && SameLetters(name, t)
  }

  lemma {:induction false} CutRest(s: string) returns (rest: string)
    ensures s == Cut(s, ';') + rest && (rest == "" || rest[0] == ';')
  {
    if s == "" || s[0] == ';' {
      rest := s;
    } else {
      rest := CutRest(s[1..]);
      assert s == [s[0]] + s[1..];
    }
  }

  lemma {:induction false} CutBefore(piece: string, rest: string)
    requires ';' !in piece && (rest == "" || rest[0] == ';')
    ensures Cut(piece + rest, ';') == piece
  {
    if piece == "" {
      assert piece + rest == rest;
    } else {
      CutBefore(piece[1..], rest);
      assert (piece + rest)[1..] == piece[1..] + rest;
    }
  }

  lemma SpaceIsNoSemicolon(s: string)
    requires AllSpace(IsSpace, s)
    ensures ';' !in s
  {
  }

  /** A lower-case type name: letters, digits and a slash. */
  lemma PlainEnds(t: string, name: string)
    requires Plain(t) && t != "" && SameLetters(name, t)
    ensures Lower(name) == t && ';' !in name
    ensures name != "" && !IsSpace(name[0]) && !IsSpace(name[|name| - 1])
  {
    LowerExactly(name, t);
    assert Lower(t) == t;
  }

  /** The steps of the normalizer before the alias arrive at a plain `t` exactly for the strings that spell it. */
  lemma SpellsExactly(s: string, t: string)
    requires Plain(t) && t != ""
    ensures Lower(Trim(IsSpace, Cut(s, ';'))) == t <==> Spells(s, t)
  {
    if Lower(Trim(IsSpace, Cut(s, ';'))) == t {
      var rest := CutRest(s);
      var before, after := TrimCutsSpace(IsSpace, Cut(s, ';'));
      var name := Trim(IsSpace, Cut(s, ';'));
      hide Cut, Trim, Lower, IsSpace, LowerChar;
      assert Lower(t) == t by { LowerTwice(name); }
      LowerExactly(name, t);
      assert s == before + name + after + rest;
    }
    if Spells(s, t) {
      SpelledGoes(s, t);
    }
  }

  lemma LowerTwice(s: string)
    ensures Lower(Lower(s)) == Lower(s)
  {
  }

  lemma SpelledGoes(s: string, t: string)
    requires Plain(t) && t != "" && Spells(s, t)
    ensures Lower(Trim(IsSpace, Cut(s, ';'))) == t
  {
    hide Cut, TrimStart, TrimEnd, Trim, Lower, IsSpace, Plain, SameLetters;
    var before, name, after, rest :|
      && s == before + name + after + rest
      && AllSpace(IsSpace, before) && AllSpace(IsSpace, after) && (rest == "" || rest[0] == ';')
      && SameLetters(name, t);
    PlainEnds(t, name);
    SpaceIsNoSemicolon(before);
    SpaceIsNoSemicolon(after);
    CutBefore(before + name + after, rest);
    TrimPadding(IsSpace, before, name, after);
    TrimFixed(IsSpace, name);
  }

  /**
   * The validator accepts exactly the strings that spell one of the seven types, in any case, with white space
   * around and parameters behind.
   */
  lemma ValidExactly(s: string)
    ensures
      var types := ["image/jpeg", "image/jpg", "image/png", "image/webp", "image/gif", "video/mp4", "video/webm"];
      IsValidMimeType(ALLOWED_TYPES, s) <==> exists t :: t in types && Spells(s, t)
  {
    hide NormalizeMimeType, Cut, TrimStart, TrimEnd, Trim, Lower, Spells;
    var essence := Lower(Trim(IsSpace, Cut(s, ';')));
    LowerLast(s);
    assert Canonical(essence) in ALLOWED_TYPES <==> essence in ALLOWED_TYPES by { AliasesStay(essence); }
    forall t | t in ALLOWED_TYPES ensures essence == t <==> Spells(s, t) {
      AllowedIsPlain(t);
      SpellsExactly(s, t);
    }
  }

  lemma AliasesStay(essence: string)
    ensures Canonical(essence) in ALLOWED_TYPES <==> essence in ALLOWED_TYPES
  {
  }

  lemma AllowedIsPlain(t: string)
    requires t in ALLOWED_TYPES
    ensures Plain(t) && t != ""
  {
  }
}
