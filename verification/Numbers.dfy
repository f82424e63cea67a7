// Integers as text: the backwards digit printer of the writers and the overflow-checked digit
// reader of the reader, both measured against the mathematical value of a digit string.
module Numbers {
  import opened Bytes

  newtype uint64 = x: int | 0 <= x < 0x1_0000_0000_0000_0000
  newtype int64 = x: int | -0x8000_0000_0000_0000 <= x < 0x8000_0000_0000_0000

  const MAX_INT: int := 0x7FFF_FFFF_FFFF_FFFF
  const MIN_INT: int := -0x8000_0000_0000_0000
  const MAX_UINT: int := 0xFFFF_FFFF_FFFF_FFFF

  // ---------------------------------------------------------------- printing

  function Digit(n: nat): byte
    requires n < 10
  {
    ZERO + n
  }

  // The decimal numeral of `n`, without leading zeros.
  function Decimal(n: nat): (r: bytes)
    ensures r != []
  {
    if n < 10 then [Digit(n)] else Decimal(n / 10) + [Digit(n % 10)]
  }

  function DecimalInt(x: int): bytes {
    if x < 0 then [MINUS] + Decimal(-x) else Decimal(x)
  }

  function Pow10(k: nat): nat { if k == 0 then 1 else 10 * Pow10(k - 1) }

  lemma {:induction false} DecimalLength(n: nat, k: nat)
    requires k > 0 && n < Pow10(k)
    ensures |Decimal(n)| <= k
  {
    if n >= 10 {
      assert Pow10(k) == 10 * Pow10(k - 1);
      DecimalLength(n / 10, k - 1);
    }
  }

  lemma UInt64HasTwentyDigits(n: nat)
    requires n <= MAX_UINT
    ensures |Decimal(n)| <= 20
  {
    assert Pow10(5) == 100000;
    assert Pow10(10) == 10000000000;
    assert Pow10(15) == 1000000000000000;
    assert Pow10(20) == 100000000000000000000;
    DecimalLength(n, 20);
  }

  lemma {:induction false} DecimalIsDigits(n: nat)
    ensures AllDigits(Decimal(n))
  {
    if n >= 10 {
      DecimalIsDigits(n / 10);
    }
  }

  lemma {:induction false} NoLeadingZero(n: nat)
    ensures n > 0 ==> Decimal(n)[0] != 48
  {
    if n >= 10 {
      NoLeadingZero(n / 10);
    }
  }

  const UINT_TO_STRING_BUFFER_SIZE: nat := 25 // three characters for each of eight bytes, and a NUL

  // Writes a NUL and then, backwards, the digits; returns where the numeral starts.
  method UIntToString(value: uint64, buffer: array<byte>, end: nat) returns (current: nat)
    requires 22 <= end <= buffer.Length
    modifies buffer
    ensures current == end - 1 - |Decimal(value as int)|
    ensures 1 <= current
    ensures buffer[current..end] == Decimal(value as int) + [NUL]
  {
    UInt64HasTwentyDigits(value as int);
    current := end - 1;
    buffer[current] := NUL;
    var rest: uint64 := value;
    ghost var numeral := Decimal(value as int);
    current := current - 1;
    buffer[current] := Digit((rest % 10) as int);
    rest := rest / 10;
    assert buffer[current..end] == [Digit(value as int % 10), NUL];
    while rest != 0
      invariant 1 <= current < end
      invariant if rest == 0 then current == end - 1 - |numeral| && buffer[current..end] == numeral + [NUL]
                else |Decimal(rest as int)| == current - (end - 1 - |numeral|)
                     && Decimal(rest as int) + buffer[current..end] == numeral + [NUL]
      decreases rest
    {
      ghost var before := buffer[current..end];
      current := current - 1;
      buffer[current] := Digit((rest % 10) as int);
      assert buffer[current..end] == [Digit(rest as int % 10)] + before;
      rest := rest / 10;
    }
  }

  // The characters a C string holds before its terminator.
  function CString(s: bytes): bytes {
    if s == [] || s[0] == NUL then [] else [s[0]] + CString(s[1..])
  }

  lemma {:induction false} CStringStopsAtNul(text: bytes, rest: bytes)
    requires forall i :: 0 <= i < |text| ==> text[i] != NUL
    ensures CString(text + [NUL] + rest) == text
  {
    var s := text + [NUL] + rest;
    if text == [] {
      assert s[0] == NUL;
    } else {
      CStringStopsAtNul(text[1..], rest);
      assert s[1..] == text[1..] + [NUL] + rest;
      assert text == [text[0]] + text[1..];
    }
  }

  lemma NumeralAsCString(x: int)
    ensures CString(DecimalInt(x) + [NUL]) == DecimalInt(x)
  {
    DecimalIsDigits(if x < 0 then -x else x);
    CStringStopsAtNul(DecimalInt(x), []);
    assert DecimalInt(x) + [NUL] + [] == DecimalInt(x) + [NUL];
  }

  method LargestUIntToString(value: uint64) returns (text: bytes)
    ensures text == DecimalInt(value as int)
  {
    var buffer := new byte[UINT_TO_STRING_BUFFER_SIZE];
    var current := UIntToString(value, buffer, UINT_TO_STRING_BUFFER_SIZE);
    assert buffer[current..] == buffer[current..25];
    NumeralAsCString(value as int);
    text := CString(buffer[current..]);
  }

  method LargestIntToString(value: int64) returns (text: bytes)
    ensures text == DecimalInt(value as int)
  {
    var buffer := new byte[UINT_TO_STRING_BUFFER_SIZE];
    var magnitude: uint64;
    if value == -0x8000_0000_0000_0000 {
      magnitude := 0x7FFF_FFFF_FFFF_FFFF + 1;
    } else if value < 0 {
      magnitude := (-value) as uint64;
    } else {
      magnitude := value as uint64;
    }
    var current := UIntToString(magnitude, buffer, UINT_TO_STRING_BUFFER_SIZE);
    assert buffer[current..] == buffer[current..25];
    if value < 0 {
      current := PutMinus(buffer, current);
      assert buffer[current..] == DecimalInt(value as int) + [NUL];
    }
    NumeralAsCString(value as int);
    text := CString(buffer[current..]);
  }

  method PutMinus(buffer: array<byte>, end: nat) returns (current: nat)
    requires 1 <= end <= buffer.Length
    modifies buffer
    ensures current == end - 1
    ensures buffer[current..] == [MINUS] + old(buffer[end..])
  {
    current := end - 1;
    buffer[current] := MINUS;
  }

  // ---------------------------------------------------------------- reading

  // The number a string of digits spells; the empty string spells zero.
  function DigitsValue(s: bytes): nat
    requires AllDigits(s)
  {
    if s == [] then 0 else DigitsValue(s[..|s| - 1]) * 10 + (s[|s| - 1] - ZERO)
  }

  // The mathematical value of an integer token: an optional minus sign, then digits only.
  function IntegerValue(text: bytes): Option<int> {
    if text != [] && text[0] == MINUS then
      if AllDigits(text[1..]) then Some(0 - DigitsValue(text[1..])) else None
    else
      if AllDigits(text) then Some(DigitsValue(text)) else None
  }

  // What the reader makes of a number token: a signed or an unsigned 64-bit integer, or nothing,
  // in which case the token goes to the floating-point decoder.
  datatype Decoded = Signed(i: int64) | Unsigned(u: uint64) | NotAnInteger

  function DecodeInteger(text: bytes): Decoded {
    match IntegerValue(text)
    case None => NotAnInteger
    case Some(x) =>
      if MIN_INT <= x <= MAX_INT then Signed(x as int64)
      else if MAX_INT < x <= MAX_UINT then Unsigned(x as uint64)
      else NotAnInteger
  }

  lemma {:induction false} PrefixIsNoGreater(s: bytes, n: nat)
    requires AllDigits(s) && n <= |s|
    ensures DigitsValue(s[..n]) <= DigitsValue(s)
    ensures n < |s| ==> DigitsValue(s[..n]) * 10 <= DigitsValue(s)
    ensures n + 1 < |s| ==> DigitsValue(s[..n]) * 100 <= DigitsValue(s)
  {
    if n == |s| {
      assert s[..n] == s;
    } else {
      var t := s[..|s| - 1];
      PrefixIsNoGreater(t, n);
      assert t[..n] == s[..n];
    }
  }

  // The thresholds for a magnitude of at most `limit`: its tenth and its last digit.
  function Limit(negative: bool): nat { if negative then -MIN_INT else MAX_UINT }

  // The digit loop. Every operation on `value` is one on 64-bit unsigned integers.
  method DecodeMagnitude(digits: bytes, negative: bool) returns (ok: bool, value: uint64)
    ensures ok <==> AllDigits(digits) && DigitsValue(digits) <= Limit(negative)
    ensures ok ==> value as int == DigitsValue(digits)
  {
    var threshold: uint64 := if negative then 922337203685477580 else 1844674407370955161;
    var maxLastDigit: uint64 := if negative then 8 else 5;
    value := 0;
    var current := 0;
    assert digits[..0] == [];
    while current < |digits|
      invariant current <= |digits|
      invariant AllDigits(digits[..current])
      invariant value as int == DigitsValue(digits[..current]) <= Limit(negative)
    {
      var c := digits[current];
      current := current + 1;
      if c < ZERO || c > NINE {
        return false, value;
      }
      assert AllDigits(digits[..current]) by {
        assert forall i :: 0 <= i < current - 1 ==> digits[..current][i] == digits[..current - 1][i];
      }
      AppendDigit(digits, current);
      var digit: uint64 := (c - ZERO) as uint64;
      if value >= threshold {
        if value > threshold || current != |digits| || digit > maxLastDigit {
          TooLarge(digits, current, negative);
          return false, value;
        }
      }
      value := value * 10 + digit;
    }
    assert digits[..current] == digits;
    ok := true;
  }

  lemma AppendDigit(digits: bytes, current: nat)
    requires 0 < current <= |digits| && AllDigits(digits[..current])
    ensures AllDigits(digits[..current - 1])
    ensures DigitsValue(digits[..current])
            == DigitsValue(digits[..current - 1]) * 10 + (digits[current - 1] - ZERO)
  {
    assert digits[..current][..current - 1] == digits[..current - 1];
  }

  // Once the magnitude read so far has reached a tenth of the limit, any further step that the
  // loop declines would pass the limit.
  lemma TooLarge(digits: bytes, current: nat, negative: bool)
    requires 0 < current <= |digits|
    requires AllDigits(digits[..current]) && AllDigits(digits[..current - 1])
    requires var v := DigitsValue(digits[..current - 1]);
             var t := Limit(negative) / 10;
             v > t || (v == t && (current != |digits| || digits[current - 1] - ZERO > Limit(negative) % 10))
    ensures AllDigits(digits) ==> DigitsValue(digits) > Limit(negative)
  {
    if AllDigits(digits) {
      PrefixIsNoGreater(digits, current - 1);
      if current == |digits| {
        assert digits[..current] == digits;
        AppendDigit(digits, current);
      }
    }
  }

  // The whole of decodeNumber up to its fall-back: exact on every integer that fits.
  method DecodeNumber(text: bytes) returns (r: Decoded)
    ensures r == DecodeInteger(text)
  {
    var isNegative := text != [] && text[0] == MINUS;
    var digits := if isNegative then text[1..] else text;
    var ok, value := DecodeMagnitude(digits, isNegative);
    if !ok {
      r := NotAnInteger;
    } else if isNegative {
      var lastDigit: uint64 := value % 10;
      r := Signed(-((value / 10) as int64) * 10 - lastDigit as int64);
    } else if value <= 0x7FFF_FFFF_FFFF_FFFF {
      r := Signed(value as int64);
    } else {
      r := Unsigned(value);
    }
  }

  lemma {:induction false} DecimalValue(n: nat)
    ensures AllDigits(Decimal(n)) && DigitsValue(Decimal(n)) == n
  {
    DecimalIsDigits(n);
    if n >= 10 {
      DecimalValue(n / 10);
      var d := Decimal(n);
      assert d[..|d| - 1] == Decimal(n / 10);
    } else {
      assert Decimal(n)[..0] == [];
    }
  }

  // Printing and reading a number is the identity on every 64-bit integer, signed or unsigned;
  // an unsigned number that fits a signed one comes back signed.
  lemma IntegerRoundTrip(x: int)
    requires MIN_INT <= x <= MAX_UINT
    ensures IntegerValue(DecimalInt(x)) == Some(x)
    ensures DecodeInteger(DecimalInt(x)) == if x <= MAX_INT then Signed(x as int64) else Unsigned(x as uint64)
  {
    DecimalValue(if x < 0 then -x else x);
    if x >= 0 {
      DecimalIsDigits(x);
      assert IsDigit(DecimalInt(x)[0]);
    } else {
      assert DecimalInt(x)[1..] == Decimal(-x);
    }
  }
}
