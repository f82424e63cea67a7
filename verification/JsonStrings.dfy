// The string escaper of the writers, the string decoder of the reader, and the laws that tie them
// together. Strings are byte sequences; `s[n..]` plays the part of the advancing pointer.
module JsonStrings {
  import opened Bytes
  import opened Utf8

  // ---------------------------------------------------------------- escaping

  function HexDigit(n: nat): byte
    requires n < 16
  {
    if n < 10 then ZERO + n else LOWER_A + n - 10
  }

  function Hex16(x: nat): (r: bytes)
    requires x < 0x10000
    ensures |r| == 4
  {
    [HexDigit(x / 4096), HexDigit(x / 256 % 16), HexDigit(x / 16 % 16), HexDigit(x % 16)]
  }

  function UnicodeEscape(x: nat): (r: bytes)
    requires x < 0x10000
    ensures |r| == 6
  {
    [BACKSLASH, LOWER_U] + Hex16(x)
  }

  function ShortEscape(b: byte): Option<byte> {
    if b == QUOTE then Some(QUOTE)
    else if b == BACKSLASH then Some(BACKSLASH)
    else if b == BACKSPACE then Some(LOWER_B)
    else if b == FORMFEED then Some(LOWER_F)
    else if b == LF then Some(LOWER_N)
    else if b == CR then Some(LOWER_R)
    else if b == TAB then Some(LOWER_T)
    else None
  }

  function EscapeCodepoint(cp: nat): bytes {
    if cp < 0x20 then UnicodeEscape(cp)
    else if cp < 0x80 then [cp]
    else if cp < 0x10000 then UnicodeEscape(cp)
    else
      UnicodeEscape(0xD800 + (cp - 0x10000) / 1024 % 1024) + UnicodeEscape(0xDC00 + (cp - 0x10000) % 1024)
  }

  // One turn of the escaper's loop: the text it appends and how far its pointer moves.
  datatype Piece = Piece(text: bytes, used: nat)

  function EscapeFront(s: bytes, emitUTF8: bool): (p: Piece)
    requires s != []
    ensures 1 <= p.used <= |s|
  {
    match ShortEscape(s[0])
    case Some(letter) => Piece([BACKSLASH, letter], 1)
    case None =>
      if emitUTF8 then Piece(if s[0] < 0x20 then UnicodeEscape(s[0]) else [s[0]], 1)
      else var d := Utf8ToCodepoint(s); Piece(EscapeCodepoint(d.cp), d.used)
  }

  function EscapeBody(s: bytes, emitUTF8: bool): bytes {
    if s == [] then [] else
    var p := EscapeFront(s, emitUTF8);
    p.text + EscapeBody(s[p.used..], emitUTF8)
  }

  function Quoted(s: bytes, emitUTF8: bool): bytes {
    [QUOTE] + EscapeBody(s, emitUTF8) + [QUOTE]
  }

  predicate RequiresEscaping(c: byte) { c == BACKSLASH || c == QUOTE || c < 0x20 || c > 0x7F }

  predicate AnyRequiresEscaping(s: bytes) { exists i :: 0 <= i < |s| && RequiresEscaping(s[i]) }

  lemma PlainFront(s: bytes, emitUTF8: bool)
    requires s != [] && !RequiresEscaping(s[0])
    ensures EscapeFront(s, emitUTF8) == Piece([s[0]], 1)
  {
  }

  // Text that needs no escaping is its own escaped form: the early exit of the escaper agrees
  // with its loop.
  lemma {:induction false} PlainTextIsUntouched(s: bytes, emitUTF8: bool)
    requires !AnyRequiresEscaping(s)
    ensures EscapeBody(s, emitUTF8) == s
  {
    if s != [] {
      PlainFront(s, emitUTF8);
      PlainTextIsUntouched(s[1..], emitUTF8);
      assert s == [s[0]] + s[1..];
    }
  }

  // What the loop has still to append when its pointer stands at `c`.
  function Remaining(value: bytes, c: nat, emitUTF8: bool): bytes
    requires c <= |value|
  {
    EscapeBody(value[c..], emitUTF8)
  }

  lemma EscapeStep(value: bytes, c: nat, emitUTF8: bool, done: bytes)
    requires c < |value|
    ensures var p := EscapeFront(value[c..], emitUTF8);
            c + p.used <= |value|
            && done + Remaining(value, c, emitUTF8) == (done + p.text) + Remaining(value, c + p.used, emitUTF8)
  {
    var p := EscapeFront(value[c..], emitUTF8);
    assert value[c..][p.used..] == value[c + p.used..];
  }

  // The default branch and the named escapes of the escaper's switch.
  method AppendEscaped(result: bytes, value: bytes, c: nat, emitUTF8: bool) returns (result': bytes, c': nat)
    requires c < |value|
    ensures var p := EscapeFront(value[c..], emitUTF8); result' == result + p.text && c' == c + p.used
  {
    var short := ShortEscape(value[c]);
    if short.Some? {
      result', c' := result + [BACKSLASH, short.value], c + 1;
    } else if emitUTF8 {
      result', c' := result + (if value[c] < 0x20 then UnicodeEscape(value[c]) else [value[c]]), c + 1;
    } else {
      var d := Utf8ToCodepoint(value[c..]);
      result', c' := result + EscapeCodepoint(d.cp), c + d.used;
    }
  }

  method ValueToQuotedStringN(value: bytes, emitUTF8: bool) returns (result: bytes)
    ensures result == Quoted(value, emitUTF8)
  {
    if !AnyRequiresEscaping(value) {
      PlainTextIsUntouched(value, emitUTF8);
      result := [QUOTE] + value + [QUOTE];
    } else {
      result := EscapeEach(value, emitUTF8);
    }
  }

  // The escaper's loop, for text that needs it.
  method EscapeEach(value: bytes, emitUTF8: bool) returns (result: bytes)
    ensures result == Quoted(value, emitUTF8)
  {
    result := [QUOTE];
    var c := 0;
    assert value[0..] == value;
    while c != |value|
      invariant c <= |value|
      invariant result + Remaining(value, c, emitUTF8) == [QUOTE] + Remaining(value, 0, emitUTF8)
      decreases |value| - c
    {
      EscapeStep(value, c, emitUTF8, result);
      result, c := AppendEscaped(result, value, c, emitUTF8);
    }
    assert Remaining(value, c, emitUTF8) == [];
    result := result + [QUOTE];
  }

  // ---------------------------------------------------------------- decoding

  datatype StringError =
    | EmptyEscape | BadEscape | FourDigitsExpected | HexDigitExpected
    | SixCharactersExpected | SecondHalfExpected

  function HexValue(c: byte): (r: Option<nat>)
    ensures r.Some? ==> r.value < 16
  {
    if ZERO <= c <= NINE then Some(c - ZERO)
    else if LOWER_A <= c <= LOWER_F then Some(c - LOWER_A + 10)
    else if UPPER_A <= c <= UPPER_F then Some(c - UPPER_A + 10)
    else None
  }

  // The number spelled by the first `n` characters, or None at the first that is not hexadecimal.
  function HexPrefix(b: bytes, n: nat): (r: Option<nat>)
    requires n <= |b| && n <= 4
    ensures r.Some? && n == 4 ==> r.value < 0x10000
    ensures r.Some? && n == 3 ==> r.value < 0x1000
    ensures r.Some? && n == 2 ==> r.value < 0x100
    ensures r.Some? && n == 1 ==> r.value < 0x10
  {
    if n == 0 then Some(0) else
    match HexPrefix(b, n - 1)
    case None => None
    case Some(high) => match HexValue(b[n - 1])
      case None => None
      case Some(low) => Some(high * 16 + low)
  }

  datatype Unicode = Unit(value: nat, used: nat) | BadUnit(error: StringError)

  function DecodeEscapeSequence(b: bytes): (r: Unicode)
    ensures r.Unit? ==> r.value < 0x10000 && r.used == 4 <= |b|
  {
    if |b| < 4 then BadUnit(FourDigitsExpected) else
    match HexPrefix(b, 4)
    case Some(value) => Unit(value, 4)
    case None => BadUnit(HexDigitExpected)
  }

  function DecodeCodePoint(b: bytes): (r: Unicode)
    ensures r.Unit? ==> r.used <= |b| && r.value <= 0x10FFFF
  {
    var first := DecodeEscapeSequence(b);
    if first.BadUnit? || !(0xD800 <= first.value <= 0xDBFF) then first
    else if |b| < 10 then BadUnit(SixCharactersExpected)
    else if b[4] == BACKSLASH && b[5] == LOWER_U then
      var second := DecodeEscapeSequence(b[6..]);
      if second.BadUnit? then second
      else Unit(0x10000 + (first.value % 1024) * 1024 + second.value % 1024, 10)
    else BadUnit(SecondHalfExpected)
  }

  function SimpleEscape(e: byte): Option<byte> {
    if e == QUOTE || e == SLASH || e == BACKSLASH then Some(e)
    else if e == LOWER_B then Some(BACKSPACE)
    else if e == LOWER_F then Some(FORMFEED)
    else if e == LOWER_N then Some(LF)
    else if e == LOWER_R then Some(CR)
    else if e == LOWER_T then Some(TAB)
    else None
  }

  // One turn of the decoder's loop.
  datatype Front = Stop | Took(text: bytes, used: nat) | Bad(error: StringError)

  function DecodeFront(b: bytes): (r: Front)
    requires b != []
    ensures r.Took? ==> 1 <= r.used <= |b|
  {
    if b[0] == QUOTE then Stop
    else if b[0] != BACKSLASH then Took([b[0]], 1)
    else if |b| == 1 then Bad(EmptyEscape)
    else match SimpleEscape(b[1])
      case Some(c) => Took([c], 2)
      case None =>
        if b[1] != LOWER_U then Bad(BadEscape) else
        match DecodeCodePoint(b[2..])
        case Unit(cp, n) => Took(CodePointToUtf8(cp), 2 + n)
        case BadUnit(e) => Bad(e)
  }

  // `used` is how much of the body the decoder looked at before it returned.
  datatype DecodeResult = Text(text: bytes, used: nat) | Failed(error: StringError)

  function DecodeBody(b: bytes): (r: DecodeResult)
    ensures r.Text? ==> r.used <= |b|
  {
    if b == [] then Text([], 0) else
    match DecodeFront(b)
    case Stop => Text([], 1)
    case Bad(e) => Failed(e)
    case Took(t, n) => Prepend(t, n, DecodeBody(b[n..]))
  }

  function Prepend(t: bytes, n: nat, r: DecodeResult): DecodeResult {
    match r
    case Text(t', n') => Text(t + t', n + n')
    case Failed(_) => r
  }

  // ---------------------------------------------------------------- laws

  // The code point a reader recovers: a surrogate pair carries twenty bits.
  function Carried(cp: nat): nat {
    if cp < 0x10000 then cp else 0x10000 + (cp - 0x10000) % 0x100000
  }

  // What a string turns into when it is written without emitUTF8 and read back.
  function Sanitize(s: bytes): bytes {
    if s == [] then [] else
    var d := Utf8ToCodepoint(s);
    CodePointToUtf8(Carried(d.cp)) + Sanitize(s[d.used..])
  }

  function Reread(s: bytes, emitUTF8: bool): bytes {
    if emitUTF8 then s else Sanitize(s)
  }

  // The part of it that the first turn of the escaper accounts for.
  function RereadFront(s: bytes, emitUTF8: bool): bytes
    requires s != []
  {
    if emitUTF8 then [s[0]] else CodePointToUtf8(Carried(Utf8ToCodepoint(s).cp))
  }

  lemma RereadStep(s: bytes, emitUTF8: bool)
    requires s != []
    ensures Reread(s, emitUTF8)
            == RereadFront(s, emitUTF8) + Reread(s[EscapeFront(s, emitUTF8).used..], emitUTF8)
  {
  }

  lemma HexPrefixOfDigits(b: bytes, x0: nat, x1: nat, x2: nat, x3: nat)
    requires |b| >= 4 && x0 < 16 && x1 < 16 && x2 < 16 && x3 < 16
    requires b[..4] == [HexDigit(x0), HexDigit(x1), HexDigit(x2), HexDigit(x3)]
    ensures HexPrefix(b, 4) == Some(((x0 * 16 + x1) * 16 + x2) * 16 + x3)
  {
    assert b[0] == b[..4][0] && b[1] == b[..4][1] && b[2] == b[..4][2] && b[3] == b[..4][3];
    assert HexPrefix(b, 1) == Some(x0);
    assert HexPrefix(b, 2) == Some(x0 * 16 + x1);
  }

  lemma HexDigitsOf(x: nat)
    requires x < 0x10000
    ensures ((x / 4096 * 16 + x / 256 % 16) * 16 + x / 16 % 16) * 16 + x % 16 == x
  {
    assert x / 16 == x / 256 * 16 + x / 16 % 16;
    assert x / 256 == x / 4096 * 16 + x / 256 % 16;
  }

  lemma HexRoundTrip(x: nat, rest: bytes)
    requires x < 0x10000
    ensures DecodeEscapeSequence(Hex16(x) + rest) == Unit(x, 4)
  {
    HexDigitsOf(x);
    HexPrefixOfDigits(Hex16(x) + rest, x / 4096, x / 256 % 16, x / 16 % 16, x % 16);
  }

  lemma DecodeUnicodeEscape(x: nat, rest: bytes)
    requires x < 0x10000 && !(0xD800 <= x <= 0xDBFF)
    ensures DecodeFront(UnicodeEscape(x) + rest) == Took(CodePointToUtf8(x), 6)
  {
    var b := UnicodeEscape(x) + rest;
    assert b[0] == BACKSLASH && b[1] == LOWER_U;
    assert b[2..] == Hex16(x) + rest;
    HexRoundTrip(x, rest);
  }

  lemma DecodeSurrogateHalves(b: bytes, hi: nat, lo: nat)
    requires hi < 1024 && lo < 1024 && |b| >= 10
    requires DecodeEscapeSequence(b) == Unit(0xD800 + hi, 4)
    requires b[4] == BACKSLASH && b[5] == LOWER_U
    requires DecodeEscapeSequence(b[6..]) == Unit(0xDC00 + lo, 4)
    ensures DecodeCodePoint(b) == Unit(0x10000 + hi * 1024 + lo, 10)
  {
    assert (0xD800 + hi) % 1024 == hi && (0xDC00 + lo) % 1024 == lo;
  }

  lemma DecodeSurrogatePair(hi: nat, lo: nat, rest: bytes)
    requires hi < 1024 && lo < 1024
    ensures DecodeFront(UnicodeEscape(0xD800 + hi) + UnicodeEscape(0xDC00 + lo) + rest)
            == Took(CodePointToUtf8(0x10000 + hi * 1024 + lo), 12)
  {
    var first, second := UnicodeEscape(0xD800 + hi), UnicodeEscape(0xDC00 + lo);
    var b := (first + second + rest)[2..];
    assert b == Hex16(0xD800 + hi) + (second + rest);
    HexRoundTrip(0xD800 + hi, second + rest);
    assert b[6..] == Hex16(0xDC00 + lo) + rest;
    HexRoundTrip(0xDC00 + lo, rest);
    DecodeSurrogateHalves(b, hi, lo);
  }

  lemma CarriedBits(cp: nat)
    requires cp >= 0x10000
    ensures var v := cp - 0x10000; 0x10000 + (v / 1024 % 1024) * 1024 + v % 1024 == Carried(cp)
    ensures cp <= 0x10FFFF ==> Carried(cp) == cp
  {
    var v := cp - 0x10000;
    assert v == (v / 1024) * 1024 + v % 1024;
    assert v / 1024 == (v / 1048576) * 1024 + v / 1024 % 1024;
  }

  lemma DecodeEscapedCodepoint(cp: nat, rest: bytes)
    requires !IsSurrogate(cp) && cp != QUOTE && cp != BACKSLASH
    ensures DecodeFront(EscapeCodepoint(cp) + rest)
            == Took(CodePointToUtf8(Carried(cp)), |EscapeCodepoint(cp)|)
  {
    if cp < 0x20 || 0x80 <= cp < 0x10000 {
      DecodeUnicodeEscape(cp, rest);
    } else if cp < 0x80 {
      assert ([cp] + rest)[0] == cp;
    } else {
      CarriedBits(cp);
      DecodeSurrogatePair((cp - 0x10000) / 1024 % 1024, (cp - 0x10000) % 1024, rest);
    }
  }

  lemma DecodeFrontOfEscaped(s: bytes, emitUTF8: bool, rest: bytes)
    requires s != []
    ensures var p := EscapeFront(s, emitUTF8);
            DecodeFront(p.text + rest)
            == Took(RereadFront(s, emitUTF8), |p.text|)
  {
    var p := EscapeFront(s, emitUTF8);
    if ShortEscape(s[0]).Some? {
      assert (p.text + rest)[0] == BACKSLASH && (p.text + rest)[1] == ShortEscape(s[0]).value;
    } else if emitUTF8 {
      if s[0] < 0x20 {
        DecodeUnicodeEscape(s[0], rest);
      }
    } else {
      DecodeEscapedCodepoint(Utf8ToCodepoint(s).cp, rest);
    }
  }

  lemma DecodeStep(s: bytes, emitUTF8: bool, rest: bytes)
    requires s != []
    ensures var p := EscapeFront(s, emitUTF8);
            DecodeBody(p.text + rest) == Prepend(RereadFront(s, emitUTF8), |p.text|, DecodeBody(rest))
  {
    var p := EscapeFront(s, emitUTF8);
    DecodeFrontOfEscaped(s, emitUTF8, rest);
    assert (p.text + rest)[|p.text|..] == rest;
  }

  // Every byte string survives: decoding the escaped body never fails, reads all of it, and gives
  // the string itself (emitUTF8) or its sanitized form.
  lemma {:induction false} EscapeThenDecode(s: bytes, emitUTF8: bool)
    ensures DecodeBody(EscapeBody(s, emitUTF8))
            == Text(Reread(s, emitUTF8), |EscapeBody(s, emitUTF8)|)
  {
    if s != [] {
      var rest := s[EscapeFront(s, emitUTF8).used..];
      EscapeThenDecode(rest, emitUTF8);
      DecodeStep(s, emitUTF8, EscapeBody(rest, emitUTF8));
      RereadStep(s, emitUTF8);
    }
  }

  lemma CarriedIsScalar(s: bytes)
    requires s != []
    ensures IsScalar(Carried(Utf8ToCodepoint(s).cp))
  {
  }

  lemma {:induction false} SanitizeIsWellFormed(s: bytes)
    ensures WellFormed(Sanitize(s))
  {
    if s != [] {
      var d := Utf8ToCodepoint(s);
      CarriedIsScalar(s);
      SanitizeIsWellFormed(s[d.used..]);
      WellFormedAppendChar(Carried(d.cp), Sanitize(s[d.used..]));
    }
  }

  lemma FirstCharacter(s: bytes) returns (head: bytes, rest: bytes)
    requires s != [] && WellFormed(s)
    ensures s == head + rest && |rest| < |s| && WellFormed(rest)
    ensures Sanitize(s) == head + Sanitize(rest)
  {
    var n := CharLength(s);
    head, rest := s[..n], s[n..];
    DecodeEncodeChar(s);
    var cp := Utf8ToCodepoint(s).cp;
    if cp >= 0x10000 {
      CarriedBits(cp);
    }
  }

  lemma {:induction false} SanitizeKeepsWellFormed(s: bytes)
    requires WellFormed(s)
    ensures Sanitize(s) == s
    decreases |s|
  {
    if s != [] {
      var head, rest := FirstCharacter(s);
      SanitizeKeepsWellFormed(rest);
    }
  }

  // Writing and reading without emitUTF8 is total, lands in well-formed UTF-8, changes nothing
  // that already is well-formed UTF-8, and a second trip changes nothing at all.
  lemma TotalEscaping(s: bytes)
    ensures DecodeBody(EscapeBody(s, false)) == Text(Sanitize(s), |EscapeBody(s, false)|)
    ensures WellFormed(Sanitize(s))
    ensures Sanitize(s) == s <==> WellFormed(s)
    ensures Sanitize(Sanitize(s)) == Sanitize(s)
  {
    EscapeThenDecode(s, false);
    SanitizeIsWellFormed(s);
    if WellFormed(s) {
      SanitizeKeepsWellFormed(s);
    }
    SanitizeKeepsWellFormed(Sanitize(s));
  }

  // The escaper's output is pure ASCII without control characters when emitUTF8 is off.
  predicate Printable(s: bytes) { forall i :: 0 <= i < |s| ==> 0x20 <= s[i] <= 0x7F }

  lemma EscapeCodepointPrintable(cp: nat)
    ensures Printable(EscapeCodepoint(cp))
  {
  }

  lemma {:induction false} EscapedIsPrintable(s: bytes)
    ensures Printable(Quoted(s, false))
  {
    EscapedBodyIsPrintable(s);
  }

  lemma {:induction false} EscapedBodyIsPrintable(s: bytes)
    ensures Printable(EscapeBody(s, false))
  {
    if s != [] {
      var p := EscapeFront(s, false);
      EscapeCodepointPrintable(Utf8ToCodepoint(s).cp);
      EscapedBodyIsPrintable(s[p.used..]);
    }
  }

  // ---------------------------------------------------------------- the shape of a string token

  // No quote ends the body early and no backslash dangles at its end, read the way the tokenizer
  // reads it: a backslash takes the next character with it.
  predicate Closed(b: bytes) {
    if b == [] then true
    else if b[0] == BACKSLASH then |b| >= 2 && Closed(b[2..])
    else b[0] != QUOTE && Closed(b[1..])
  }

  lemma {:induction false} PlainThenClosed(a: bytes, b: bytes)
    requires forall i :: 0 <= i < |a| ==> a[i] != QUOTE && a[i] != BACKSLASH
    requires Closed(b)
    ensures Closed(a + b)
  {
    if a == [] {
      assert a + b == b;
    } else {
      PlainThenClosed(a[1..], b);
      assert (a + b)[1..] == a[1..] + b;
    }
  }

  lemma UnicodeEscapeThenClosed(x: nat, b: bytes)
    requires x < 0x10000 && Closed(b)
    ensures Closed(UnicodeEscape(x) + b)
  {
    PlainThenClosed(Hex16(x), b);
    assert (UnicodeEscape(x) + b)[2..] == Hex16(x) + b;
  }

  lemma EscapedFrontThenClosed(s: bytes, emitUTF8: bool, b: bytes)
    requires s != [] && Closed(b)
    ensures Closed(EscapeFront(s, emitUTF8).text + b)
  {
    var t := EscapeFront(s, emitUTF8).text;
    if ShortEscape(s[0]).Some? {
      assert (t + b)[2..] == b;
    } else if |t| == 1 {
      assert (t + b)[1..] == b;
    } else if |t| == 6 {
      UnicodeEscapeThenClosed(if emitUTF8 then s[0] else Utf8ToCodepoint(s).cp, b);
    } else {
      var v := Utf8ToCodepoint(s).cp - 0x10000;
      var second := UnicodeEscape(0xDC00 + v % 1024);
      UnicodeEscapeThenClosed(0xDC00 + v % 1024, b);
      UnicodeEscapeThenClosed(0xD800 + v / 1024 % 1024, second + b);
      assert t + b == UnicodeEscape(0xD800 + v / 1024 % 1024) + (second + b);
    }
  }

  lemma {:induction false} EscapedIsClosed(s: bytes, emitUTF8: bool)
    ensures Closed(EscapeBody(s, emitUTF8))
  {
    if s != [] {
      var p := EscapeFront(s, emitUTF8);
      EscapedIsClosed(s[p.used..], emitUTF8);
      EscapedFrontThenClosed(s, emitUTF8, EscapeBody(s[p.used..], emitUTF8));
    }
  }

  lemma {:induction false} ClosedSkipsHex(b: bytes, n: nat)
    requires n <= |b| && n <= 4 && Closed(b) && HexPrefix(b, n).Some?
    ensures Closed(b[n..])
  {
    if n == 0 {
      assert b[0..] == b;
    } else {
      ClosedSkipsHex(b, n - 1);
      assert b[n - 1..][0] == b[n - 1];
      assert b[n - 1..][1..] == b[n..];
    }
  }

  lemma ClosedSkipsCodePoint(b: bytes)
    requires Closed(b) && DecodeCodePoint(b).Unit?
    ensures Closed(b[DecodeCodePoint(b).used..])
  {
    ClosedSkipsHex(b, 4);
    if DecodeCodePoint(b).used != 4 {
      assert b[4..][2..] == b[6..];
      ClosedSkipsHex(b[6..], 4);
      assert b[6..][4..] == b[10..];
    }
  }

  lemma CodePointErrors(b: bytes)
    ensures DecodeCodePoint(b).BadUnit? ==> DecodeCodePoint(b).error != EmptyEscape
  {
  }

  // On a body the tokenizer delimited, the decoder's early exit at a quote and its empty-escape
  // error never fire: it fails for another reason or reads through the last byte.
  lemma {:induction false} ClosedBodyIsReadThrough(b: bytes)
    requires Closed(b)
    ensures match DecodeBody(b)
            case Text(_, used) => used == |b|
            case Failed(e) => e != EmptyEscape
  {
    if b != [] {
      CodePointErrors(b[if |b| >= 2 then 2 else 0..]);
      match DecodeFront(b)
      case Stop =>
      case Bad(e) =>
      case Took(t, n) =>
        if b[0] == BACKSLASH && n > 2 {
          ClosedSkipsCodePoint(b[2..]);
          assert b[2..][n - 2..] == b[n..];
        }
        ClosedBodyIsReadThrough(b[n..]);
    }
  }
}
