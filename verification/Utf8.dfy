// UTF-8 as the codec sees it: the encoder, the deliberately forgiving decoder, and the octet
// grammar of section 4 of RFC 3629 against which both are measured. Masks and shifts of the code
// are written as `%`, `/` and `*`; an `|` of disjoint bit fields is a sum.
module Utf8 {
  import opened Bytes

  const REPLACEMENT_CHARACTER: nat := 0xFFFD

  predicate IsSurrogate(cp: nat) { 0xD800 <= cp <= 0xDFFF }

  predicate IsScalar(cp: nat) { cp <= 0x10FFFF && !IsSurrogate(cp) }

  function CodePointToUtf8(cp: nat): (r: bytes)
    ensures |r| <= 4
  {
    if cp <= 0x7F then [cp]
    else if cp <= 0x7FF then [0xC0 + (cp / 64) % 32, 0x80 + cp % 64]
    else if cp <= 0xFFFF then [0xE0 + (cp / 4096) % 16, 0x80 + (cp / 64) % 64, 0x80 + cp % 64]
    else if cp <= 0x10FFFF then
      [0xF0 + (cp / 262144) % 8, 0x80 + (cp / 4096) % 64, 0x80 + (cp / 64) % 64, 0x80 + cp % 64]
    else []
  }

  // What the decoder reads at the front of a non-empty string: a code point, and how many bytes
  // the caller's loop steps over. Continuation bytes are not checked, and a lead byte whose
  // sequence runs past the end costs a single byte.
  datatype Decoded = Decoded(cp: nat, used: nat)

  function Utf8ToCodepoint(s: bytes): (r: Decoded)
    requires s != []
    ensures 1 <= r.used <= |s|
    ensures r.used <= 4
    ensures !IsSurrogate(r.cp)
    ensures r.cp < 0x200000
    ensures s[0] < 0x80 <==> r.cp < 0x80
    ensures s[0] < 0x80 ==> r == Decoded(s[0], 1)
  {
    var b := s[0];
    if b < 0x80 then Decoded(b, 1)
    else if b < 0xE0 then
      if |s| < 2 then Decoded(REPLACEMENT_CHARACTER, 1) else
      var hi: int, lo: int := b % 32, s[1] % 64;
      var cp := hi * 64 + lo;
      Decoded(if cp < 0x80 then REPLACEMENT_CHARACTER else cp, 2)
    else if b < 0xF0 then
      if |s| < 3 then Decoded(REPLACEMENT_CHARACTER, 1) else
      var hi: int, mid: int, lo: int := b % 16, s[1] % 64, s[2] % 64;
      var cp := hi * 4096 + mid * 64 + lo;
      Decoded(if IsSurrogate(cp) || cp < 0x800 then REPLACEMENT_CHARACTER else cp, 3)
    else if b < 0xF8 then
      if |s| < 4 then Decoded(REPLACEMENT_CHARACTER, 1) else
      var top: int, hi: int, mid: int, lo: int := b % 8, s[1] % 64, s[2] % 64, s[3] % 64;
      var cp := top * 262144 + hi * 4096 + mid * 64 + lo;
      Decoded(if cp < 0x10000 then REPLACEMENT_CHARACTER else cp, 4)
    else Decoded(REPLACEMENT_CHARACTER, 1)
  }

  predicate Tail(b: byte) { 0x80 <= b <= 0xBF }

  // The length of the UTF8-char production at the front of `s`, or 0 when there is none
  // (section 4 of RFC 3629).
  function CharLength(s: bytes): (n: nat)
    ensures n <= |s|
  {
    if |s| >= 1 && s[0] <= 0x7F then 1
    else if |s| >= 2 && 0xC2 <= s[0] <= 0xDF && Tail(s[1]) then 2
    else if |s| >= 3 && LeadsThree(s[0], s[1]) && Tail(s[2]) then 3
    else if |s| >= 4 && LeadsFour(s[0], s[1]) && Tail(s[2]) && Tail(s[3]) then 4
    else 0
  }

  predicate LeadsThree(a: byte, b: byte) {
    || (a == 0xE0 && 0xA0 <= b <= 0xBF)
    || (0xE1 <= a <= 0xEC && Tail(b))
    || (a == 0xED && 0x80 <= b <= 0x9F)
    || (0xEE <= a <= 0xEF && Tail(b))
  }

  predicate LeadsFour(a: byte, b: byte) {
    || (a == 0xF0 && 0x90 <= b <= 0xBF)
    || (0xF1 <= a <= 0xF3 && Tail(b))
    || (a == 0xF4 && 0x80 <= b <= 0x8F)
  }

  predicate WellFormed(s: bytes) {
    s == [] || (CharLength(s) > 0 && WellFormed(s[CharLength(s)..]))
  }

  lemma ThreeLead(cp: nat)
    requires 0x800 <= cp <= 0xFFFF && !IsSurrogate(cp)
    ensures LeadsThree(0xE0 + (cp / 4096) % 16, 0x80 + (cp / 64) % 64)
  {
    var top, mid := cp / 4096, cp / 64 % 64;
    assert cp / 64 == top * 64 + mid;
  }

  lemma FourLead(cp: nat)
    requires 0x10000 <= cp <= 0x10FFFF
    ensures LeadsFour(0xF0 + (cp / 262144) % 8, 0x80 + (cp / 4096) % 64)
  {
    var top, mid := cp / 262144, cp / 4096 % 64;
    assert cp / 4096 == top * 64 + mid;
  }

  lemma EncodedLength(cp: nat)
    requires IsScalar(cp)
    ensures CharLength(CodePointToUtf8(cp)) == |CodePointToUtf8(cp)| > 0
  {
    if 0x800 <= cp <= 0xFFFF {
      ThreeLead(cp);
    } else if 0x10000 <= cp {
      FourLead(cp);
    }
  }

  lemma CharLengthIsLocal(s: bytes, rest: bytes)
    requires CharLength(s) == |s| > 0
    ensures CharLength(s + rest) == |s|
  {
    assert forall i :: 0 <= i < |s| ==> (s + rest)[i] == s[i];
  }

  // The encoder produces exactly one UTF8-char for a scalar value, whatever follows it.
  lemma EncodedIsOneChar(cp: nat, rest: bytes)
    requires IsScalar(cp)
    ensures CharLength(CodePointToUtf8(cp) + rest) == |CodePointToUtf8(cp)| > 0
  {
    EncodedLength(cp);
    CharLengthIsLocal(CodePointToUtf8(cp), rest);
  }

  lemma Digits64(top: nat, hi: nat, mid: nat, lo: nat)
    requires hi < 64 && mid < 64 && lo < 64
    ensures var cp := top * 262144 + hi * 4096 + mid * 64 + lo;
            cp / 262144 == top && (cp / 4096) % 64 == hi && (cp / 64) % 64 == mid && cp % 64 == lo
            && cp / 64 == top * 4096 + hi * 64 + mid && cp / 4096 == top * 64 + hi
  {
    var cp := top * 262144 + hi * 4096 + mid * 64 + lo;
    assert cp / 64 == top * 4096 + hi * 64 + mid;
    assert cp / 4096 == top * 64 + hi;
  }

  // Decoding a well-formed character and encoding the code point again gives the same octets,
  // and the code point is a scalar value.
  lemma DecodeEncodeChar(s: bytes)
    requires CharLength(s) > 0
    ensures Utf8ToCodepoint(s).used == CharLength(s)
    ensures IsScalar(Utf8ToCodepoint(s).cp)
    ensures CodePointToUtf8(Utf8ToCodepoint(s).cp) == s[..CharLength(s)]
  {
    match CharLength(s)
    case 1 =>
    case 2 => DecodeEncodeTwo(s);
    case 3 => DecodeEncodeThree(s);
    case _ => DecodeEncodeFour(s);
  }

  lemma DecodeEncodeTwo(s: bytes)
    requires CharLength(s) == 2
    ensures Utf8ToCodepoint(s).used == 2 && IsScalar(Utf8ToCodepoint(s).cp)
    ensures CodePointToUtf8(Utf8ToCodepoint(s).cp) == s[..2]
  {
    Digits64(0, 0, s[0] % 32, s[1] % 64);
  }

  lemma DecodeEncodeThree(s: bytes)
    requires CharLength(s) == 3
    ensures Utf8ToCodepoint(s).used == 3 && IsScalar(Utf8ToCodepoint(s).cp)
    ensures CodePointToUtf8(Utf8ToCodepoint(s).cp) == s[..3]
  {
    var hi: nat, mid: nat, lo: nat := s[0] % 16, s[1] % 64, s[2] % 64;
    Digits64(0, hi, mid, lo);
    assert Utf8ToCodepoint(s).cp == hi * 4096 + mid * 64 + lo;
  }

  lemma DecodeEncodeFour(s: bytes)
    requires CharLength(s) == 4
    ensures Utf8ToCodepoint(s).used == 4 && IsScalar(Utf8ToCodepoint(s).cp)
    ensures CodePointToUtf8(Utf8ToCodepoint(s).cp) == s[..4]
  {
    var top: nat, hi: nat, mid: nat, lo: nat := s[0] % 8, s[1] % 64, s[2] % 64, s[3] % 64;
    Digits64(top, hi, mid, lo);
    var cp := top * 262144 + hi * 4096 + mid * 64 + lo;
    assert Utf8ToCodepoint(s).cp == cp;
    assert 0xFFFF < cp <= 0x10FFFF && IsScalar(cp) && Utf8ToCodepoint(s).used == 4;
    hide Utf8ToCodepoint;
    assert CodePointToUtf8(cp) == [0xF0 + top, 0x80 + hi, 0x80 + mid, 0x80 + lo];
    assert s[0] == 0xF0 + top && s[1] == 0x80 + hi && s[2] == 0x80 + mid && s[3] == 0x80 + lo;
  }

  lemma {:induction false} WellFormedAppendChar(cp: nat, rest: bytes)
    requires IsScalar(cp) && WellFormed(rest)
    ensures WellFormed(CodePointToUtf8(cp) + rest)
  {
    var e := CodePointToUtf8(cp);
    EncodedIsOneChar(cp, rest);
    assert (e + rest)[|e|..] == rest;
  }

  // How many octets the lead octet announces, as the decoder reads it: stray continuation octets
  // announce two, and the last eight octets nothing.
  function Announced(lead: byte): nat {
    if lead < 0x80 then 1 else if lead < 0xE0 then 2 else if lead < 0xF0 then 3 else if lead < 0xF8 then 4 else 0
  }

  // Characters cut short, overlong forms and encoded surrogates read as U+FFFD: a character cut short
  // costs one octet, the others all that were announced.
  lemma MalformedIsReplaced(s: bytes)
    requires s != []
    ensures Announced(s[0]) == 0 || |s| < Announced(s[0]) ==> Utf8ToCodepoint(s) == Decoded(0xFFFD, 1)
    ensures 0 < Announced(s[0]) <= |s| ==> Utf8ToCodepoint(s).used == Announced(s[0])
    ensures |s| >= 2 && 0xC0 <= s[0] <= 0xC1 ==> Utf8ToCodepoint(s) == Decoded(0xFFFD, 2)
    ensures |s| >= 3 && s[0] == 0xE0 && 0x80 <= s[1] < 0xA0 ==> Utf8ToCodepoint(s) == Decoded(0xFFFD, 3)
    ensures |s| >= 3 && s[0] == 0xED && 0xA0 <= s[1] <= 0xBF ==> Utf8ToCodepoint(s) == Decoded(0xFFFD, 3)
    ensures |s| >= 4 && s[0] == 0xF0 && 0x80 <= s[1] < 0x90 ==> Utf8ToCodepoint(s) == Decoded(0xFFFD, 4)
  {
  }
}
