/** The case-insensitive key comparators of bencode/fold.go against Unicode simple folding. */
module Fold {
  import opened Bytes

  const RUNESELF: int := 0x80
  const RUNEERROR: int := 0xFFFD
  const KELVIN: int := 0x212A
  const LONGS: int := 0x017F

  predicate IsTail(data: bytes, i: nat) {
    i < |data| && 0x80 <= data[i] <= 0xBF
  }

  function Tail(data: bytes, i: nat): nat
    requires IsTail(data, i)
  {
    data[i] - 0x80
  }

  // The second byte of a sequence of three or four, within the range its first byte allows.
  predicate SecondOk(data: bytes) {
    IsTail(data, 1) &&
    (data[0] == 0xE0 ==> data[1] >= 0xA0) && (data[0] == 0xED ==> data[1] <= 0x9F) &&
    (data[0] == 0xF0 ==> data[1] >= 0x90) && (data[0] == 0xF4 ==> data[1] <= 0x8F)
  }

  /** `utf8.DecodeRune`: the first rune and its width; any invalid byte is U+FFFD of width 1. */
  function DecodeRune(data: bytes): (r: (int, nat))
    requires data != []
    ensures 0 < r.1 <= |data|
    ensures data[0] < RUNESELF ==> r == (data[0], 1)
    ensures data[0] >= RUNESELF ==> r.0 >= RUNESELF
  {
    var b: int := data[0];
    if b < 0x80 then (b, 1)
    else if 0xC2 <= b <= 0xDF && IsTail(data, 1) then
      ((b - 0xC0) * 64 + Tail(data, 1), 2)
    else if 0xE0 <= b <= 0xEF && SecondOk(data) && IsTail(data, 2) then
      ((b - 0xE0) * 4096 + Tail(data, 1) * 64 + Tail(data, 2), 3)
    else if 0xF0 <= b <= 0xF4 && SecondOk(data) && IsTail(data, 2) && IsTail(data, 3) then
      ((b - 0xF0) * 262144 + Tail(data, 1) * 4096 + Tail(data, 2) * 64 + Tail(data, 3), 4)
    else (RUNEERROR, 1)
  }

  predicate IsScalar(r: int) {
    0 <= r <= 0x10FFFF && !(0xD800 <= r <= 0xDFFF)
  }

  function EncodeRune(r: int): bytes
    requires 0 <= r <= 0x10FFFF
  {
    if r < 0x80 then [r]
    else if r < 0x800 then [0xC0 + r / 64, 0x80 + r % 64]
    else if r < 0x10000 then [0xE0 + r / 4096, 0x80 + r / 64 % 64, 0x80 + r % 64]
    else [0xF0 + r / 262144, 0x80 + r / 4096 % 64, 0x80 + r / 64 % 64, 0x80 + r % 64]
  }

  /** Decoding undoes UTF-8 encoding, whatever follows. */
  lemma DecodeEncoded(r: int, rest: bytes)
    requires IsScalar(r)
    ensures DecodeRune(EncodeRune(r) + rest) == (r, |EncodeRune(r)|)
  {
    SixBits(r);
    hide DecodeRune;
    if r >= 0x10000 {
      FourBytes(r / 262144, r / 4096 % 64, r / 64 % 64, r % 64, rest);
    } else if r >= 0x800 {
      ThreeBytes(r / 4096, r / 64 % 64, r % 64, rest);
    } else if r >= 0x80 {
      TwoBytes(r / 64, r % 64, rest);
    } else {
      OneByte(r, rest);
    }
  }

  lemma OneByte(a: nat, rest: bytes)
    requires a < 128
    ensures DecodeRune([a] + rest) == (a, 1)
  {
  }

  lemma TwoBytes(a: nat, b: nat, rest: bytes)
    requires 2 <= a < 32 && b < 64
    ensures DecodeRune([0xC0 + a, 0x80 + b] + rest) == (a * 64 + b, 2)
  {
  }

  lemma SixBits(r: nat)
    ensures r == r / 64 * 64 + r % 64
    ensures r / 64 == r / 4096 * 64 + r / 64 % 64
    ensures r / 4096 == r / 262144 * 64 + r / 4096 % 64
  {
  }

  lemma ThreeBytes(a: nat, b: nat, c: nat, rest: bytes)
    requires a < 16 && b < 64 && c < 64 && (a == 0 ==> b >= 32) && (a == 13 ==> b < 32)
    ensures DecodeRune([0xE0 + a, 0x80 + b, 0x80 + c] + rest) == (a * 4096 + b * 64 + c, 3)
  {
  }

  lemma FourBytes(a: nat, b: nat, c: nat, d: nat, rest: bytes)
    requires a < 5 && b < 64 && c < 64 && d < 64 && (a == 0 ==> b >= 16) && (a == 4 ==> b < 16)
    ensures DecodeRune([0xF0 + a, 0x80 + b, 0x80 + c, 0x80 + d] + rest) ==
            (a * 262144 + b * 4096 + c * 64 + d, 4)
  {
  }

  lemma TwoEncoded(a: nat, b: nat)
    requires 2 <= a < 32 && b < 64
    ensures IsScalar(a * 64 + b) && EncodeRune(a * 64 + b) == [0xC0 + a, 0x80 + b]
  {
  }

  lemma ThreeEncoded(a: nat, b: nat, c: nat)
    requires a < 16 && b < 64 && c < 64 && (a == 0 ==> b >= 32) && (a == 13 ==> b < 32)
    ensures var r := a * 4096 + b * 64 + c; IsScalar(r) && EncodeRune(r) == [0xE0 + a, 0x80 + b, 0x80 + c]
  {
    var r := a * 4096 + b * 64 + c;
    assert r / 64 == a * 64 + b && r / 4096 == a;
  }

  lemma LowSix(m: nat, c: nat)
    requires c < 64
    ensures (m * 64 + c) / 64 == m && (m * 64 + c) % 64 == c
  {
  }

  lemma FourEncoded(a: nat, b: nat, c: nat, d: nat)
    requires a < 5 && b < 64 && c < 64 && d < 64 && (a == 0 ==> b >= 16) && (a == 4 ==> b < 16)
    ensures var r := a * 262144 + b * 4096 + c * 64 + d;
      IsScalar(r) && EncodeRune(r) == [0xF0 + a, 0x80 + b, 0x80 + c, 0x80 + d]
  {
    LowSix(a, b);
    LowSix(a * 64 + b, c);
    LowSix(a * 4096 + b * 64 + c, d);
    SixBits(a * 262144 + b * 4096 + c * 64 + d);
  }

  /** What is decoded is a scalar value whose UTF-8 encoding is there, or U+FFFD for one byte. */
  lemma Decoded(data: bytes)
    requires data != []
    ensures var (r, n) := DecodeRune(data);
      (IsScalar(r) && EncodeRune(r) == data[..n]) || (r, n) == (0xFFFD, 1)
  {
    hide IsScalar, EncodeRune;
    var (r, n) := DecodeRune(data);
    if n == 1 {
      assert data[..1] == [data[0]];
      if data[0] < 0x80 {
        OneEncoded(data[0]);
      }
    } else if n == 2 {
      TwoEncoded(data[0] - 0xC0, Tail(data, 1));
    } else if n == 3 {
      ThreeEncoded(data[0] - 0xE0, Tail(data, 1), Tail(data, 2));
    } else {
      FourEncoded(data[0] - 0xF0, Tail(data, 1), Tail(data, 2), Tail(data, 3));
    }
  }

  lemma OneEncoded(a: byte)
    requires a < 0x80
    ensures IsScalar(a) && EncodeRune(a) == [a]
  {
  }

  /** On any bytes: the scalar value whose encoding the bytes begin with, or U+FFFD of width 1 if there is none. */
  lemma DecodeExactly(data: bytes)
    requires data != []
    ensures var (r, n) := DecodeRune(data);
      if exists q :: IsScalar(q) && EncodeRune(q) <= data then
        IsScalar(r) && EncodeRune(r) <= data && n == |EncodeRune(r)|
      else (r, n) == (0xFFFD, 1)
  {
    hide DecodeRune, EncodeRune;
    Decoded(data);
    if q :| IsScalar(q) && EncodeRune(q) <= data {
      DecodeEncoded(q, data[|EncodeRune(q)|..]);
      assert EncodeRune(q) + data[|EncodeRune(q)|..] == data;
    }
  }

  /** The examples of section 7 of RFC 3629: a letter, `≢`, `Α`, `한`, and a character past U+FFFF. */
  lemma EncodeExamples()
    ensures EncodeRune(0x41) == [0x41] && EncodeRune(0x2262) == [0xE2, 0x89, 0xA2]
    ensures EncodeRune(0x0391) == [0xCE, 0x91] && EncodeRune(0xD55C) == [0xED, 0x95, 0x9C]
    ensures EncodeRune(0x233B4) == [0xF0, 0xA3, 0x8E, 0xB4]
  {
  }

  function Runes(data: bytes): seq<int>
    decreases |data|
  {
    if data == [] then []
    else
      var (r, n) := DecodeRune(data);
      [r] + Runes(data[n..])
  }

  predicate IsLetter(r: int) {
    0x41 <= r <= 0x5A || 0x61 <= r <= 0x7A
  }

  /** Simple folding where the first rune is ASCII: letters have two cases, and `k` and `s` a third form. */
  predicate AsciiFold(a: int, b: int) {
    || a == b
    || (IsLetter(a) && IsLetter(b) && (a == b + 32 || b == a + 32))
    || (a in {0x4B, 0x6B} && b == KELVIN)
    || (a in {0x53, 0x73} && b == LONGS)
  }

  /** What is asked of the Unicode tables: on ASCII runes they are `AsciiFold`. */
  ghost predicate AgreesOnAscii(fold: (int, int) -> bool) {
    forall a, b | 0 <= a < RUNESELF :: fold(a, b) <==> AsciiFold(a, b)
  }

  /** `bytes.EqualFold`: the same number of runes, and equal under folding one by one. */
  ghost predicate EqualFold(fold: (int, int) -> bool, s: bytes, t: bytes) {
    var rs, rt := Runes(s), Runes(t);
    |rs| == |rt| && forall i | 0 <= i < |rs| :: fold(rs[i], rt[i])
  }

  predicate AllAscii(s: bytes) {
    forall i | 0 <= i < |s| :: s[i] < RUNESELF
  }

  predicate IsSpecial(b: byte) {
    b in {0x4B, 0x6B, 0x53, 0x73}
  }

  predicate NoSpecials(s: bytes) {
    forall i | 0 <= i < |s| :: !IsSpecial(s[i])
  }

  predicate AllLetters(s: bytes) {
    forall i | 0 <= i < |s| :: IsLetter(s[i])
  }

  // b & caseMask: bit 5 cleared.
  function Upper(b: byte): byte {
    if b / 32 % 2 == 1 then b - 32 else b
  }

  lemma UpperFolds(a: byte, b: byte)
    requires !IsSpecial(a) && a < RUNESELF
    ensures AsciiFold(a, b) <==> a == b || (IsLetter(a) && Upper(a) == Upper(b))
  {
  }

  /** The text of ASCII `s` against runes, from the left. */
  predicate Folds(s: bytes, rt: seq<int>) {
    if s == [] then rt == []
    else rt != [] && AsciiFold(s[0], rt[0]) && Folds(s[1..], rt[1..])
  }

  lemma {:induction false} FoldsPairwise(s: bytes, rt: seq<int>)
    ensures Folds(s, rt) <==> |s| == |rt| && forall i | 0 <= i < |s| :: AsciiFold(s[i], rt[i])
  {
    if s != [] && rt != [] {
      FoldsPairwise(s[1..], rt[1..]);
      assert forall i | 1 <= i < |s| && |s| == |rt| :: s[i] == s[1..][i - 1] && rt[i] == rt[1..][i - 1];
    }
  }

  lemma {:induction false} AsciiRunes(s: bytes)
    requires AllAscii(s)
    ensures |Runes(s)| == |s| && forall i | 0 <= i < |s| :: Runes(s)[i] == s[i]
  {
    if s != [] {
      AsciiRunes(s[1..]);
    }
  }

  // For ASCII keys, EqualFold is decided by AsciiFold alone.
  lemma AsciiEqualFoldIs(fold: (int, int) -> bool, s: bytes, t: bytes)
    requires AgreesOnAscii(fold) && AllAscii(s)
    ensures EqualFold(fold, s, t) <==> Folds(s, Runes(t))
  {
    AsciiRunes(s);
    FoldsPairwise(s, Runes(t));
  }

  // Without special letters the other text must be ASCII too, and may be compared byte by byte.
  lemma {:induction false} Bytewise(s: bytes, t: bytes)
    requires AllAscii(s) && NoSpecials(s)
    ensures Folds(s, Runes(t)) <==> |s| == |t| && forall i | 0 <= i < |s| :: AsciiFold(s[i], t[i])
  {
    if s != [] && t != [] {
      var (r, n) := DecodeRune(t);
      assert Runes(t)[1..] == Runes(t[n..]);
      if t[0] < RUNESELF {
        Bytewise(s[1..], t[1..]);
        assert forall i | 1 <= i < |s| && |s| == |t| :: s[i] == s[1..][i - 1] && t[i] == t[1..][i - 1];
      }
    }
  }

  lemma OneRune(c: byte, t: bytes)
    requires c < RUNESELF
    ensures Folds([c], Runes(t)) <==> t != [] && AsciiFold(c, DecodeRune(t).0) && DecodeRune(t).1 == |t|
  {
    if t != [] {
      var (r, n) := DecodeRune(t);
      assert Runes(t) == [r] + Runes(t[n..]);
      assert Runes(t)[1..] == Runes(t[n..]) && [c][1..] == [];
      assert n < |t| ==> Runes(t[n..]) != [];
    }
  }

  lemma RuneIs(t: bytes, q: int)
    requires t != [] && IsScalar(q) && q != 0xFFFD
    ensures DecodeRune(t) == (q, |t|) <==> t == EncodeRune(q)
  {
    hide DecodeRune, EncodeRune;
    Decoded(t);
    DecodeEncoded(q, []);
    assert EncodeRune(q) + [] == EncodeRune(q) && t[..|t|] == t;
  }

  lemma SpecialRunes()
    ensures EncodeRune(0x212A) == [0xE2, 0x84, 0xAA] && EncodeRune(0x017F) == [0xC5, 0xBF]
  {
  }

  /**
   * Exactly which bytes match a key of one ASCII byte: itself, its other case if it is a letter, and for `k` and `s`
   * the Kelvin sign and the long s in UTF-8.
   */
  lemma SingleKey(fold: (int, int) -> bool, c: byte, t: bytes)
    requires AgreesOnAscii(fold) && c < 128
    ensures EqualFold(fold, [c], t) <==>
            || t == [c]
            || (65 <= c <= 90 && t == [c + 32])
            || (97 <= c <= 122 && t == [c - 32])
            || (c in {75, 107} && t == [0xE2, 0x84, 0xAA])
            || (c in {83, 115} && t == [0xC5, 0xBF])
  {
    hide Folds, Runes, EqualFold, AgreesOnAscii, DecodeRune, EncodeRune;
    AsciiEqualFoldIs(fold, [c], t);
    OneRune(c, t);
    SpecialRunes();
    if t != [] {
      RuneIs(t, 0x212A);
      RuneIs(t, 0x017F);
      AsciiRuneIs(t);
    }
  }

  // A whole text that is one ASCII rune is one byte.
  lemma AsciiRuneIs(t: bytes)
    requires t != []
    ensures DecodeRune(t).1 == |t| && DecodeRune(t).0 < 128 <==> |t| == 1 && t[0] < 128
    ensures |t| == 1 && t[0] < 128 ==> DecodeRune(t).0 == t[0]
    ensures DecodeRune(t).0 >= 0
  {
  }

  datatype Comparator = General | Right | Ascii | SimpleLetter

  /** `foldFunc` chooses the most special comparator whose demands on the key are met. */
  method FoldFunc(s: bytes) returns (f: Comparator)
    ensures f == General <==> !AllAscii(s)
    ensures f == Right <==> AllAscii(s) && !NoSpecials(s)
    ensures f == SimpleLetter <==> AllAscii(s) && NoSpecials(s) && AllLetters(s)
  {
    var nonLetter, special := false, false;
    var i := 0;
    while i < |s|
      invariant 0 <= i <= |s| && AllAscii(s[..i])
      invariant !nonLetter <==> AllLetters(s[..i])
      invariant !special <==> NoSpecials(s[..i])
    {
      var b := s[i];
      if b >= RUNESELF {
        return General;
      }
      var upper := Upper(b);
      assert s[..i + 1] == s[..i] + [b];
      if upper < 0x41 || upper > 0x5A {
        nonLetter := true;
      } else if upper == 0x4B || upper == 0x53 {
        special := true;
      }
      i := i + 1;
    }
    assert s[..i] == s;
    if special {
      return Right;
    }
    if nonLetter {
      return Ascii;
    }
    return SimpleLetter;
  }

  /** `equalFoldRight` */
  method EqualFoldRight(s: bytes, t: bytes) returns (r: bool)
    requires AllAscii(s)
    ensures r <==> Folds(s, Runes(t))
  {
    var i, t' := 0, t;
    while i < |s|
      invariant 0 <= i <= |s|
      invariant Folds(s[i..], Runes(t')) <==> Folds(s, Runes(t))
    {
      var sb := s[i];
      assert s[i..][1..] == s[i + 1..];
      if |t'| == 0 {
        return false;
      }
      var tb := t'[0];
      assert Runes(t')[0] == DecodeRune(t').0 && Runes(t')[1..] == Runes(t'[DecodeRune(t').1..]);
      if tb < RUNESELF {
        if sb != tb {
          var sbUpper := Upper(sb);
          if 0x41 <= sbUpper <= 0x5A {
            if sbUpper != Upper(tb) {
              return false;
            }
          } else {
            return false;
          }
        }
        t' := t'[1..];
      } else {
        var (tr, size) := DecodeRune(t');
        if sb == 0x73 || sb == 0x53 {
          if tr != LONGS {
            return false;
          }
        } else if sb == 0x6B || sb == 0x4B {
          if tr != KELVIN {
            return false;
          }
        } else {
          return false;
        }
        t' := t'[size..];
      }
      i := i + 1;
    }
    if |t'| > 0 {
      return false;
    }
    return true;
  }

  /** `asciiEqualFold` */
  method AsciiEqualFold(s: bytes, t: bytes) returns (r: bool)
    requires AllAscii(s) && NoSpecials(s)
    ensures r <==> Folds(s, Runes(t))
  {
    Bytewise(s, t);
    if |s| != |t| {
      return false;
    }
    var i := 0;
    while i < |s|
      invariant 0 <= i <= |s| && forall j | 0 <= j < i :: AsciiFold(s[j], t[j])
    {
      var sb, tb := s[i], t[i];
      UpperFolds(sb, tb);
      if sb != tb {
        if (0x61 <= sb <= 0x7A) || (0x41 <= sb <= 0x5A) {
          if Upper(sb) != Upper(tb) {
            return false;
          }
        } else {
          return false;
        }
      }
      i := i + 1;
    }
    return true;
  }

  /** `simpleLetterEqualFold` */
  method SimpleLetterEqualFold(s: bytes, t: bytes) returns (r: bool)
    requires AllLetters(s) && NoSpecials(s)
    ensures r <==> Folds(s, Runes(t))
  {
    Bytewise(s, t);
    if |s| != |t| {
      return false;
    }
    var i := 0;
    while i < |s|
      invariant 0 <= i <= |s| && forall j | 0 <= j < i :: AsciiFold(s[j], t[j])
    {
      UpperFolds(s[i], t[i]);
      hide AsciiFold, Upper;
      if Upper(s[i]) != Upper(t[i]) {
        return false;
      }
      i := i + 1;
    }
    return true;
  }

  // The library's comparison, rune by rune.
  method GeneralEqualFold(fold: (int, int) -> bool, s: bytes, t: bytes) returns (r: bool)
    ensures r <==> EqualFold(fold, s, t)
  {
    var rs, rt := Runes(s), Runes(t);
    if |rs| != |rt| {
      return false;
    }
    var i := 0;
    while i < |rs|
      invariant 0 <= i <= |rs| && forall j | 0 <= j < i :: fold(rs[j], rt[j])
    {
      if !fold(rs[i], rt[i]) {
        return false;
      }
      i := i + 1;
    }
    return true;
  }

  /** The comparator chosen for a key decides Unicode folding against any bytes, valid UTF-8 or not. */
  method MatchKey(fold: (int, int) -> bool, s: bytes, t: bytes) returns (r: bool)
    requires AgreesOnAscii(fold)
    ensures r <==> EqualFold(fold, s, t)
  {
    var f := FoldFunc(s);
    if f != General {
      AsciiEqualFoldIs(fold, s, t);
    }
    match f
    case General => r := GeneralEqualFold(fold, s, t);
    case Right => r := EqualFoldRight(s, t);
    case Ascii => r := AsciiEqualFold(s, t);
    case SimpleLetter => r := SimpleLetterEqualFold(s, t);
  }
}
