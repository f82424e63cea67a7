// String literals as section 7 of RFC 8259 has them: unescaped characters, eight escapes of two
// characters, and \u with four hexadecimal digits of either case, twice for a surrogate pair. What the
// decoder makes of any body, and what the escaper writes, in these terms.
module StringGrammar {
  import opened Bytes
  import opened Utf8
  import opened JsonStrings

  // "0123456789abcdef" and "0123456789ABCDEF"
  const LOWER_HEX: bytes := [48, 49, 50, 51, 52, 53, 54, 55, 56, 57, 97, 98, 99, 100, 101, 102]
  const UPPER_HEX: bytes := [48, 49, 50, 51, 52, 53, 54, 55, 56, 57, 65, 66, 67, 68, 69, 70]

  // " \ / b f n r t and what they stand for.
  const SHORT_ESCAPES: map<byte, byte> :=
    map[34 := 34, 92 := 92, 47 := 47, 98 := 8, 102 := 12, 110 := 10, 114 := 13, 116 := 9]

  predicate HexDigitIs(c: byte, n: nat) { n < 16 && (c == LOWER_HEX[n] || c == UPPER_HEX[n]) }

  // Four digits, of either case each, that spell `x`.
  predicate Spells(digits: bytes, x: nat) {
    && |digits| == 4 && HexDigitIs(digits[0], x / 4096) && HexDigitIs(digits[1], x / 256 % 16)
    && HexDigitIs(digits[2], x / 16 % 16) && HexDigitIs(digits[3], x % 16)
  }

  // ---------------------------------------------------------------- digits and short escapes

  // Exactly the sixteen digits of either case have a value, each its own.
  lemma HexValueIs(c: byte, n: nat)
    ensures HexValue(c) == Some(n) <==> HexDigitIs(c, n)
  {
    if n < 16 {
      LowerDigit(n);
      UpperDigit(n);
    }
  }

  lemma LowerDigit(n: nat)
    requires n < 16
    ensures LOWER_HEX[n] == if n < 10 then 48 + n else 97 + (n - 10)
  {
  }

  lemma UpperDigit(n: nat)
    requires n < 16
    ensures UPPER_HEX[n] == if n < 10 then 48 + n else 65 + (n - 10)
  {
  }

  lemma PositionalValue(x0: nat, x1: nat, x2: nat, x3: nat)
    requires x0 < 16 && x1 < 16 && x2 < 16 && x3 < 16
    ensures var x := x0 * 4096 + x1 * 256 + x2 * 16 + x3;
            x / 4096 == x0 && x / 256 % 16 == x1 && x / 16 % 16 == x2 && x % 16 == x3
  {
    var x := x0 * 4096 + x1 * 256 + x2 * 16 + x3;
    assert x / 16 == x0 * 256 + x1 * 16 + x2;
    assert x / 256 == x0 * 16 + x1;
  }

  // Four digits of either case decode to the number they spell, and nothing else decodes.
  lemma DigitsDecode(digits: bytes, rest: bytes, x: nat)
    requires |digits| == 4
    ensures DecodeEscapeSequence(digits + rest) == Unit(x, 4) <==> Spells(digits, x)
    ensures DecodeEscapeSequence(digits + rest) == BadUnit(HexDigitExpected) <==> !exists y :: Spells(digits, y)
  {
    hide HexDigitIs, HexValue, Spells, DecodeEscapeSequence;
    SequenceValue(digits, rest);
    var v0, v1, v2, v3 := HexValue(digits[0]), HexValue(digits[1]), HexValue(digits[2]), HexValue(digits[3]);
    if v0.Some? && v1.Some? && v2.Some? && v3.Some? {
      var y := v0.value * 4096 + v1.value * 256 + v2.value * 16 + v3.value;
      PositionalValue(v0.value, v1.value, v2.value, v3.value);
      AllDigits(digits, y);
      SpelledOnce(digits, x, y);
    } else {
      NoDigits(digits);
    }
  }

  lemma SequenceValue(digits: bytes, rest: bytes)
    requires |digits| == 4
    ensures var v0, v1, v2, v3 := HexValue(digits[0]), HexValue(digits[1]), HexValue(digits[2]), HexValue(digits[3]);
            DecodeEscapeSequence(digits + rest)
            == if v0.Some? && v1.Some? && v2.Some? && v3.Some?
               then Unit(v0.value * 4096 + v1.value * 256 + v2.value * 16 + v3.value, 4) else BadUnit(HexDigitExpected)
  {
    var b := digits + rest;
    hide HexValue, HexPrefix;
    assert b[0] == digits[0] && b[1] == digits[1] && b[2] == digits[2] && b[3] == digits[3];
    PrefixValue(b);
  }

  lemma PrefixValue(b: bytes)
    requires |b| >= 4
    ensures var v0, v1, v2, v3 := HexValue(b[0]), HexValue(b[1]), HexValue(b[2]), HexValue(b[3]);
            HexPrefix(b, 4) == if v0.Some? && v1.Some? && v2.Some? && v3.Some?
                               then Some(v0.value * 4096 + v1.value * 256 + v2.value * 16 + v3.value) else None
  {
    hide HexValue;
    var v0, v1, v2 := HexValue(b[0]), HexValue(b[1]), HexValue(b[2]);
    assert HexPrefix(b, 1) == v0;
    assert HexPrefix(b, 2) == if v0.Some? && v1.Some? then Some(v0.value * 16 + v1.value) else None;
    assert HexPrefix(b, 3) == if v0.Some? && v1.Some? && v2.Some?
                              then Some(v0.value * 256 + v1.value * 16 + v2.value) else None;
  }

  lemma AllDigits(digits: bytes, x: nat)
    requires |digits| == 4
    requires HexValue(digits[0]) == Some(x / 4096) && HexValue(digits[1]) == Some(x / 256 % 16)
    requires HexValue(digits[2]) == Some(x / 16 % 16) && HexValue(digits[3]) == Some(x % 16)
    ensures Spells(digits, x)
  {
    HexValueIs(digits[0], x / 4096);
    HexValueIs(digits[1], x / 256 % 16);
    HexValueIs(digits[2], x / 16 % 16);
    HexValueIs(digits[3], x % 16);
  }

  lemma SpelledOnce(digits: bytes, x: nat, y: nat)
    requires Spells(digits, y)
    ensures Spells(digits, x) ==> x == y
  {
    if Spells(digits, x) {
      HexValueIs(digits[0], x / 4096);
      HexValueIs(digits[0], y / 4096);
      HexValueIs(digits[1], x / 256 % 16);
      HexValueIs(digits[1], y / 256 % 16);
      HexValueIs(digits[2], x / 16 % 16);
      HexValueIs(digits[2], y / 16 % 16);
      HexValueIs(digits[3], x % 16);
      HexValueIs(digits[3], y % 16);
      HexDigitsOf(x);
      HexDigitsOf(y);
    }
  }

  lemma NoDigits(digits: bytes)
    requires |digits| == 4
    requires !(HexValue(digits[0]).Some? && HexValue(digits[1]).Some? && HexValue(digits[2]).Some? && HexValue(digits[3]).Some?)
    ensures forall x :: !Spells(digits, x)
  {
    forall x: nat | Spells(digits, x) ensures false {
      HexValueIs(digits[0], x / 4096);
      HexValueIs(digits[1], x / 256 % 16);
      HexValueIs(digits[2], x / 16 % 16);
      HexValueIs(digits[3], x % 16);
    }
  }

  lemma ShortEscapesAre(e: byte)
    ensures SimpleEscape(e) == if e in SHORT_ESCAPES then Some(SHORT_ESCAPES[e]) else None
  {
  }

  // ---------------------------------------------------------------- characters

  // A code point below the surrogates or above them is one escape; a high surrogate takes a second
  // one with it, of which the decoder uses ten bits, whatever it spells.
  datatype Char =
    | Plain(c: byte)
    | Short(letter: byte)
    | Code(digits: bytes, x: nat)
    | Pair(digits: bytes, x: nat, digits': bytes, x': nat)

  predicate IsHigh(x: nat) { 0xD800 <= x <= 0xDBFF }

  predicate CharOk(ch: Char) {
    match ch
    case Plain(c) => c != 34 && c != 92
    case Short(letter) => letter in SHORT_ESCAPES
    case Code(digits, x) => Spells(digits, x) && !IsHigh(x)
    case Pair(digits, x, digits', x') => Spells(digits, x) && IsHigh(x) && Spells(digits', x')
  }

  function Spelling(ch: Char): bytes {
    match ch
    case Plain(c) => [c]
    case Short(letter) => [92, letter]
    case Code(digits, _) => [92, 117] + digits
    case Pair(digits, _, digits', _) => [92, 117] + digits + [92, 117] + digits'
  }

  function Meaning(ch: Char): bytes {
    match ch
    case Plain(c) => [c]
    case Short(letter) => if letter in SHORT_ESCAPES then [SHORT_ESCAPES[letter]] else []
    case Code(_, x) => CodePointToUtf8(x)
    case Pair(_, x, _, x') =>
      if IsHigh(x) then CodePointToUtf8(0x10000 + (x - 0xD800) * 1024 + x' % 1024) else []
  }

  function SpellAll(chs: seq<Char>): bytes {
    if chs == [] then [] else Spelling(chs[0]) + SpellAll(chs[1..])
  }

  function MeanAll(chs: seq<Char>): bytes {
    if chs == [] then [] else Meaning(chs[0]) + MeanAll(chs[1..])
  }

  lemma CodeDecodes(digits: bytes, x: nat, rest: bytes)
    requires Spells(digits, x)
    ensures var b := [92, 117] + digits + rest;
            b[2..] == digits + rest && DecodeEscapeSequence(b[2..]) == Unit(x, 4)
  {
    DigitsDecode(digits, rest, x);
    assert ([92, 117] + digits + rest)[2..] == digits + rest;
  }

  lemma PairDecodes(digits: bytes, x: nat, digits': bytes, x': nat, rest: bytes)
    requires Spells(digits, x) && IsHigh(x) && Spells(digits', x')
    ensures DecodeCodePoint(digits + ([92, 117] + digits' + rest)) == Unit(0x10000 + (x - 0xD800) * 1024 + x' % 1024, 10)
  {
    var more := [92, 117] + digits' + rest;
    var b := digits + more;
    DigitsDecode(digits, more, x);
    CodeDecodes(digits', x', rest);
    assert |digits| == |digits'| == 4;
    assert b[4] == more[0] == 92 && b[5] == more[1] == 117 && b[6..] == more[2..];
    HighBits(x);
    hide DecodeEscapeSequence, Spells;
  }

  // A character at the front of a body is decoded to what it means, whatever follows.
  lemma CharDecodes(ch: Char, rest: bytes)
    requires CharOk(ch)
    ensures DecodeFront(Spelling(ch) + rest) == Took(Meaning(ch), |Spelling(ch)|)
  {
    hide DecodeEscapeSequence, DecodeCodePoint, HexDigitIs, CodePointToUtf8, SimpleEscape;
    match ch
    case Plain(_) =>
    case Short(letter) => ShortEscapesAre(letter);
    case Code(digits, x) => CodeAtFront(digits, x, rest);
    case Pair(digits, x, digits', x') => PairAtFront(digits, x, digits', x', rest);
  }

  lemma CodeAtFront(digits: bytes, x: nat, rest: bytes)
    requires Spells(digits, x) && !IsHigh(x)
    ensures DecodeFront([92, 117] + digits + rest) == Took(CodePointToUtf8(x), 6)
  {
    CodeDecodes(digits, x, rest);
    ShortEscapesAre(117);
    hide DecodeEscapeSequence, CodePointToUtf8, SimpleEscape;
  }

  lemma PairAtFront(digits: bytes, x: nat, digits': bytes, x': nat, rest: bytes)
    requires Spells(digits, x) && IsHigh(x) && Spells(digits', x')
    ensures DecodeFront([92, 117] + digits + [92, 117] + digits' + rest)
            == Took(CodePointToUtf8(0x10000 + (x - 0xD800) * 1024 + x' % 1024), 12)
  {
    var b := [92, 117] + digits + [92, 117] + digits' + rest;
    PairDecodes(digits, x, digits', x', rest);
    ShortEscapesAre(117);
    hide DecodeCodePoint, CodePointToUtf8, SimpleEscape, HexDigitIs;
    assert b[2..] == digits + ([92, 117] + digits' + rest);
  }

  lemma HighBits(x: nat)
    requires IsHigh(x)
    ensures x % 1024 == x - 0xD800
  {
  }

  // ---------------------------------------------------------------- bodies

  lemma {:induction false} CharsDecode(chs: seq<Char>, rest: bytes)
    requires forall ch :: ch in chs ==> CharOk(ch)
    ensures DecodeBody(SpellAll(chs) + rest) == Prepend(MeanAll(chs), |SpellAll(chs)|, DecodeBody(rest))
  {
    hide DecodeFront, Spelling, Meaning, CharOk;
    if chs == [] {
      assert SpellAll(chs) + rest == rest && MeanAll(chs) == [];
      PrependNothing(DecodeBody(rest));
    } else {
      var more := SpellAll(chs[1..]) + rest;
      assert SpellAll(chs) + rest == Spelling(chs[0]) + more;
      CharDecodes(chs[0], more);
      assert (Spelling(chs[0]) + more)[|Spelling(chs[0])|..] == more;
      CharsDecode(chs[1..], rest);
      PrependTwice(Meaning(chs[0]), |Spelling(chs[0])|, MeanAll(chs[1..]), |SpellAll(chs[1..])|, DecodeBody(rest));
      SpellingIsSomething(chs[0]);
    }
  }

  lemma SpellingIsSomething(ch: Char)
    ensures Spelling(ch) != []
  {
  }

  lemma PrependNothing(r: DecodeResult)
    ensures Prepend([], 0, r) == r
  {
  }

  lemma PrependTwice(a: bytes, m: nat, b: bytes, n: nat, r: DecodeResult)
    ensures Prepend(a, m, Prepend(b, n, r)) == Prepend(a + b, m + n, r)
  {
  }

  // What is wrong at the front of what is left of a body.
  ghost predicate BadFront(b: bytes, e: StringError) {
    && b != [] && b[0] == 92
    && match e
       case EmptyEscape => |b| == 1
       case BadEscape => |b| > 1 && b[1] != 117 && b[1] !in SHORT_ESCAPES
       case FourDigitsExpected => 1 < |b| < 6 && b[1] == 117
       case HexDigitExpected =>
         && |b| >= 6 && b[1] == 117
         && (NotHex(b[2..6]) || (StartsHigh(b) && |b| >= 12 && b[6] == 92 && b[7] == 117 && NotHex(b[8..12])))
       case SixCharactersExpected => |b| < 12 && StartsHigh(b)
       case SecondHalfExpected => |b| >= 12 && StartsHigh(b) && !(b[6] == 92 && b[7] == 117)
  }

  // Not four hexadecimal digits.
  ghost predicate NotHex(digits: bytes) { !exists x :: Spells(digits, x) }

  // A \u escape of a high surrogate.
  ghost predicate StartsHigh(b: bytes) {
    |b| >= 6 && b[0] == 92 && b[1] == 117 && exists x :: IsHigh(x) && Spells(b[2..6], x)
  }

  lemma BadFrontFails(b: bytes, e: StringError)
    requires BadFront(b, e)
    ensures DecodeBody(b) == Failed(e)
  {
    hide CodePointToUtf8;
    if e.BadEscape? {
      ShortEscapesAre(b[1]);
    } else if |b| > 1 {
      ShortEscapesAre(117);
      BadCodeFails(b, e);
    }
  }

  lemma BadCodeFails(b: bytes, e: StringError)
    requires BadFront(b, e) && |b| > 1 && b[1] == 117 && !e.BadEscape?
    ensures DecodeCodePoint(b[2..]) == BadUnit(e)
  {
    if |b| >= 6 {
      var digits := b[2..6];
      assert b[2..] == digits + b[6..];
      if x :| Spells(digits, x) {
        DigitsDecode(digits, b[6..], x);
        if y :| IsHigh(y) && Spells(digits, y) {
          SpelledOnce(digits, x, y);
        }
        if |b| >= 12 && e.HexDigitExpected? {
          assert b[2..][6..] == b[8..12] + b[12..];
          DigitsDecode(b[8..12], b[12..], 0);
        }
      } else {
        DigitsDecode(digits, b[6..], 0);
      }
    }
    hide DecodeEscapeSequence, Spells;
  }

  // Every body is a sequence of characters, up to its end, a quote or something that is none.
  ghost predicate Ends(tail: bytes) { tail == [] || tail[0] == 34 || exists e :: BadFront(tail, e) }

  lemma FrontAnalysed(b: bytes) returns (ch: Option<Char>)
    requires b != [] && b[0] != 34
    ensures match ch
            case Some(c) => CharOk(c) && |Spelling(c)| <= |b| && Spelling(c) == b[..|Spelling(c)|]
            case None => exists e :: BadFront(b, e)
  {
    if b[0] != 92 {
      return Some(Plain(b[0]));
    }
    if |b| == 1 {
      assert BadFront(b, EmptyEscape);
      return None;
    }
    if b[1] in SHORT_ESCAPES {
      return Some(Short(b[1]));
    }
    if b[1] != 117 {
      assert BadFront(b, BadEscape);
      return None;
    }
    ch := CodeAnalysed(b);
  }

  lemma CodeAnalysed(b: bytes) returns (ch: Option<Char>)
    requires |b| > 1 && b[0] == 92 && b[1] == 117
    ensures match ch
            case Some(c) => CharOk(c) && |Spelling(c)| <= |b| && Spelling(c) == b[..|Spelling(c)|]
            case None => exists e :: BadFront(b, e)
  {
    hide HexDigitIs;
    if |b| < 6 {
      assert BadFront(b, FourDigitsExpected);
      return None;
    }
    if NotHex(b[2..6]) {
      assert BadFront(b, HexDigitExpected);
      return None;
    }
    var x :| Spells(b[2..6], x);
    if !IsHigh(x) {
      assert [92, 117] + b[2..6] == b[..6];
      return Some(Code(b[2..6], x));
    }
    if |b| < 12 {
      assert BadFront(b, SixCharactersExpected);
      return None;
    }
    if !(b[6] == 92 && b[7] == 117) {
      assert BadFront(b, SecondHalfExpected);
      return None;
    }
    if NotHex(b[8..12]) {
      assert BadFront(b, HexDigitExpected);
      return None;
    }
    var x' :| Spells(b[8..12], x');
    assert [92, 117] + b[2..6] + [92, 117] + b[8..12] == b[..12];
    return Some(Pair(b[2..6], x, b[8..12], x'));
  }

  lemma SpellOneMore(ch: Char, chs: seq<Char>, tail: bytes)
    ensures SpellAll([ch] + chs) + tail == Spelling(ch) + (SpellAll(chs) + tail)
  {
    assert ([ch] + chs)[1..] == chs;
  }

  lemma {:induction false} BodyAnalysed(b: bytes) returns (chs: seq<Char>, tail: bytes)
    ensures (forall ch :: ch in chs ==> CharOk(ch)) && SpellAll(chs) + tail == b && Ends(tail)
    decreases |b|
  {
    if b == [] || b[0] == 34 {
      return [], b;
    }
    hide CharOk, BadFront, Spelling, MeanAll;
    var ch := FrontAnalysed(b);
    if ch.None? {
      return [], b;
    }
    var n := |Spelling(ch.value)|;
    SpellingIsSomething(ch.value);
    chs, tail := BodyAnalysed(b[n..]);
    chs := [ch.value] + chs;
    SpellOneMore(ch.value, chs[1..], tail);
    assert chs == [ch.value] + chs[1..];
    assert b == b[..n] + b[n..];
  }

  // What the decoder makes of any body: the meaning of its characters up to its end or its first
  // quote, or the error that describes the first place where there is no character.
  lemma DecodesTheGrammar(b: bytes) returns (chs: seq<Char>, tail: bytes)
    ensures (forall ch :: ch in chs ==> CharOk(ch)) && SpellAll(chs) + tail == b
    ensures tail == [] ==> DecodeBody(b) == Text(MeanAll(chs), |b|)
    ensures tail != [] && tail[0] == 34 ==> DecodeBody(b) == Text(MeanAll(chs), |SpellAll(chs)| + 1)
    ensures tail != [] && tail[0] != 34 ==> exists e :: BadFront(tail, e) && DecodeBody(b) == Failed(e)
  {
    chs, tail := BodyAnalysed(b);
    CharsDecode(chs, tail);
    hide CharOk, MeanAll, SpellAll, BadFront;
    if tail != [] && tail[0] != 34 {
      var e :| BadFront(tail, e);
      BadFrontFails(tail, e);
    }
    assert MeanAll(chs) + [] == MeanAll(chs);
  }

  // ---------------------------------------------------------------- what the escaper writes

  // Short escapes for the seven characters that have one by themselves, four lower-case digits for
  // other control characters and, unless bytes are passed through, for everything outside ASCII.
  predicate LowerCase(digits: bytes) { forall i :: 0 <= i < |digits| ==> digits[i] in LOWER_HEX }

  predicate HasShortEscape(c: byte) { c == 34 || c == 92 || c == 8 || c == 12 || c == 10 || c == 13 || c == 9 }

  predicate Written(ch: Char, s: bytes, emitUTF8: bool)
    requires s != []
  {
    var c := s[0];
    CharOk(ch) &&
    if HasShortEscape(c) then ch.Short? && ch.letter != 47 && SHORT_ESCAPES[ch.letter] == c
    else if 0x20 <= c < 0x80 || (emitUTF8 && c >= 0x80) then ch == Plain(c)
    else
      var cp: nat := if c < 0x20 then c else Utf8ToCodepoint(s).cp;
      if cp < 0x10000 then ch.Code? && LowerCase(ch.digits) && ch.x == cp
      else
        && ch.Pair? && LowerCase(ch.digits) && LowerCase(ch.digits')
        && 0xDC00 <= ch.x' <= 0xDFFF && (cp <= 0x10FFFF ==> cp == 0x10000 + (ch.x - 0xD800) * 1024 + (ch.x' - 0xDC00))
  }

  lemma HexIsLower(x: nat)
    requires x < 0x10000
    ensures LowerCase(Hex16(x)) && Spells(Hex16(x), x)
  {
    HexDigitIsLower(x / 4096);
    HexDigitIsLower(x / 256 % 16);
    HexDigitIsLower(x / 16 % 16);
    HexDigitIsLower(x % 16);
    hide HexDigit, HexDigitIs;
  }

  lemma HexDigitIsLower(n: nat)
    requires n < 16
    ensures HexDigit(n) in LOWER_HEX && HexDigitIs(HexDigit(n), n)
  {
    LowerDigit(n);
    assert HexDigit(n) == LOWER_HEX[n];
  }

  // The escaper writes one character of the grammar at a time, and which one.
  lemma EscapesTheGrammar(s: bytes, emitUTF8: bool) returns (ch: Char)
    requires s != []
    ensures Written(ch, s, emitUTF8) && EscapeFront(s, emitUTF8).text == Spelling(ch)
    ensures EscapeFront(s, emitUTF8).used == if s[0] < 0x80 || emitUTF8 then 1 else Utf8ToCodepoint(s).used
  {
    var c := s[0];
    if HasShortEscape(c) {
      ch := Short(ShortEscape(c).value);
    } else if 0x20 <= c < 0x80 || (emitUTF8 && c >= 0x80) {
      ch := Plain(c);
    } else {
      ch := CodeWritten(s, emitUTF8);
    }
  }

  lemma CodeWritten(s: bytes, emitUTF8: bool) returns (ch: Char)
    requires s != [] && !HasShortEscape(s[0]) && (s[0] < 0x20 || (!emitUTF8 && s[0] >= 0x80))
    ensures Written(ch, s, emitUTF8) && EscapeFront(s, emitUTF8).text == Spelling(ch)
    ensures EscapeFront(s, emitUTF8).used == if s[0] < 0x80 then 1 else Utf8ToCodepoint(s).used
  {
    var cp: nat := if s[0] < 0x20 then s[0] else Utf8ToCodepoint(s).cp;
    hide Hex16, HexDigitIs, LowerCase, Utf8ToCodepoint;
    if cp < 0x10000 {
      HexIsLower(cp);
      ch := Code(Hex16(cp), cp);
    } else {
      ch := PairWritten(cp);
    }
  }

  lemma PairWritten(cp: nat) returns (ch: Char)
    requires cp >= 0x10000
    ensures ch.Pair? && CharOk(ch) && LowerCase(ch.digits) && LowerCase(ch.digits') && 0xDC00 <= ch.x' <= 0xDFFF
    ensures cp <= 0x10FFFF ==> cp == 0x10000 + (ch.x - 0xD800) * 1024 + (ch.x' - 0xDC00)
    ensures EscapeCodepoint(cp) == Spelling(ch)
  {
    hide Hex16, HexDigitIs, LowerCase;
    var x, x' := 0xD800 + (cp - 0x10000) / 1024 % 1024, 0xDC00 + (cp - 0x10000) % 1024;
    HexIsLower(x);
    HexIsLower(x');
    if cp <= 0x10FFFF {
      TwentyBits(cp);
    }
    ch := Pair(Hex16(x), x, Hex16(x'), x');
    assert [92, 117] + Hex16(x) + [92, 117] + Hex16(x') == UnicodeEscape(x) + UnicodeEscape(x');
  }

  lemma TwentyBits(cp: nat)
    requires 0x10000 <= cp <= 0x10FFFF
    ensures (cp - 0x10000) / 1024 % 1024 == (cp - 0x10000) / 1024
    ensures cp == 0x10000 + (cp - 0x10000) / 1024 * 1024 + (cp - 0x10000) % 1024
  {
  }
}
