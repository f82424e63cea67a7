// The loops of decodeString, decodeUnicodeCodePoint and decodeUnicodeEscapeSequence, proved
// against the decoding functions of JsonStrings.
module StringDecoder {
  import opened Bytes
  import opened Utf8
  import opened JsonStrings

  method DecodeUnicodeEscapeSequence(b: bytes, start: nat) returns (r: Unicode)
    requires start <= |b|
    ensures r == DecodeEscapeSequence(b[start..])
  {
    if |b| - start < 4 {
      return BadUnit(FourDigitsExpected);
    }
    ghost var s := b[start..];
    var unicode := 0;
    var index := 0;
    while index < 4
      invariant index <= 4
      invariant HexPrefix(s, index) == Some(unicode)
    {
      var c := b[start + index];
      assert c == s[index];
      unicode := unicode * 16;
      if c >= ZERO && c <= NINE {
        unicode := unicode + (c - ZERO);
      } else if c >= LOWER_A && c <= LOWER_F {
        unicode := unicode + (c - LOWER_A + 10);
      } else if c >= UPPER_A && c <= UPPER_F {
        unicode := unicode + (c - UPPER_A + 10);
      } else {
        BadDigit(s, index);
        return BadUnit(HexDigitExpected);
      }
      index := index + 1;
    }
    r := Unit(unicode, 4);
  }

  lemma {:induction false} BadDigit(s: bytes, n: nat)
    requires n < 4 <= |s| && HexValue(s[n]) == None
    ensures HexPrefix(s, 4) == None
  {
    assert HexPrefix(s, n + 1) == None;
    NoneStays(s, n + 1, 4);
  }

  lemma {:induction false} NoneStays(s: bytes, m: nat, n: nat)
    requires m <= n <= 4 <= |s| && HexPrefix(s, m) == None
    ensures HexPrefix(s, n) == None
  {
    if m < n {
      NoneStays(s, m, n - 1);
    }
  }

  method DecodeUnicodeCodePoint(b: bytes, start: nat) returns (r: Unicode)
    requires start <= |b|
    ensures r == DecodeCodePoint(b[start..])
  {
    ghost var s := b[start..];
    r := DecodeUnicodeEscapeSequence(b, start);
    if r.Unit? && 0xD800 <= r.value <= 0xDBFF {
      var current := start + 4;
      if |b| - current < 6 {
        return BadUnit(SixCharactersExpected);
      }
      if b[current] == BACKSLASH && b[current + 1] == LOWER_U {
        assert s[4] == b[current] && s[5] == b[current + 1];
        assert s[6..] == b[current + 2..];
        var second := DecodeUnicodeEscapeSequence(b, current + 2);
        if second.Unit? {
          r := Unit(0x10000 + (r.value % 1024) * 1024 + second.value % 1024, 10);
        } else {
          r := second;
        }
      } else {
        r := BadUnit(SecondHalfExpected);
      }
    }
  }

  // What the whole loop yields when `decoded` has been collected from the first `current` bytes.
  function DecodedFrom(b: bytes, current: nat, decoded: bytes): DecodeResult
    requires current <= |b|
  {
    Prepend(decoded, current, DecodeBody(b[current..]))
  }

  lemma PrependTwice(t: bytes, n: nat, t': bytes, n': nat, r: DecodeResult)
    ensures Prepend(t, n, Prepend(t', n', r)) == Prepend(t + t', n + n', r)
  {
    match r
    case Failed(_) =>
    case Text(rest, _) => assert t + (t' + rest) == t + t' + rest;
  }

  lemma Advance(b: bytes, current: nat, decoded: bytes, text: bytes, used: nat)
    requires current < |b| && DecodeFront(b[current..]) == Took(text, used)
    ensures current + used <= |b|
    ensures DecodedFrom(b, current, decoded) == DecodedFrom(b, current + used, decoded + text)
  {
    assert b[current..][used..] == b[current + used..];
    PrependTwice(decoded, current, text, used, DecodeBody(b[current + used..]));
  }

  lemma Finish(b: bytes, current: nat, decoded: bytes)
    requires current < |b| && !DecodeFront(b[current..]).Took?
    ensures DecodedFrom(b, current, decoded)
            == match DecodeFront(b[current..])
               case Stop => Text(decoded, current + 1)
               case Bad(error) => Failed(error)
  {
    assert decoded + [] == decoded;
  }

  lemma Ends(b: bytes, decoded: bytes)
    ensures DecodedFrom(b, 0, []) == DecodeBody(b)
    ensures DecodedFrom(b, |b|, decoded) == Text(decoded, |b|)
  {
    assert b[0..] == b && b[|b|..] == [];
  }

  // One turn of the switch in decodeString.
  method DecodeOne(b: bytes, start: nat) returns (r: Front)
    requires start < |b|
    ensures r == DecodeFront(b[start..])
  {
    var c := b[start];
    var current := start + 1;
    if c == QUOTE {
      r := Stop;
    } else if c == BACKSLASH {
      if current == |b| {
        return Bad(EmptyEscape);
      }
      var escape := b[current];
      assert escape == b[start..][1];
      var simple := SimpleEscape(escape);
      if simple.Some? {
        r := Took([simple.value], 2);
      } else if escape == LOWER_U {
        assert b[start..][2..] == b[current + 1..];
        var unicode := DecodeUnicodeCodePoint(b, current + 1);
        if unicode.Unit? {
          r := Took(CodePointToUtf8(unicode.value), 2 + unicode.used);
        } else {
          r := Bad(unicode.error);
        }
      } else {
        r := Bad(BadEscape);
      }
    } else {
      r := Took([c], 1);
    }
  }

  method DecodeString(b: bytes) returns (r: DecodeResult)
    ensures r == DecodeBody(b)
  {
    var decoded: bytes := [];
    var current := 0;
    Ends(b, decoded);
    while current != |b|
      invariant current <= |b|
      invariant DecodedFrom(b, current, decoded) == DecodeBody(b)
      decreases |b| - current
    {
      var front := DecodeOne(b, current);
      match front {
        case Stop =>
          Finish(b, current, decoded);
          return Text(decoded, current + 1);
        case Bad(error) =>
          Finish(b, current, decoded);
          return Failed(error);
        case Took(text, used) =>
          Advance(b, current, decoded, text, used);
          decoded := decoded + text;
          current := current + used;
      }
    }
    Ends(b, decoded);
    r := Text(decoded, current);
  }
}
