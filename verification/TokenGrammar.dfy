// The longer tokens by their text: numbers, comments, words and strings, and how far each goes. The
// characters are given as numbers.
module TokenGrammar {
  import opened Bytes
  import opened Layout
  import opened Scanner

  // ---------------------------------------------------------------- numbers

  // Digits; then a point and digits; then e or E, a sign and digits: each part may be missing, and
  // so may the digits behind a sign, a point or an e.
  datatype Numeral = Numeral(sign: bytes, whole: bytes, fraction: bytes, exponent: bytes)

  predicate Digits(s: bytes) { forall i :: 0 <= i < |s| ==> 48 <= s[i] <= 57 }

  predicate IsSign(s: bytes) { s == [] || s == [43] || s == [45] }

  predicate NumeralOk(n: Numeral) { IsSign(n.sign) && (n.sign == [] ==> n.whole != []) && UnsignedOk(n) }

  predicate UnsignedOk(n: Numeral) {
    && Digits(n.whole)
    && (n.fraction != [] ==> n.fraction[0] == 46 && Digits(n.fraction[1..]))
    && (n.exponent != [] ==>
          && (n.exponent[0] == 101 || n.exponent[0] == 69)
          && Digits(n.exponent[if |n.exponent| > 1 && IsSign([n.exponent[1]]) then 2 else 1..]))
  }

  function Text(n: Numeral): bytes { n.sign + n.whole + n.fraction + n.exponent }

  // What may not follow, for otherwise the number goes on.
  predicate Stops(n: Numeral, c: byte) { UnsignedStops(n, c) && (Text(n) == n.sign ==> c != 73) }

  predicate UnsignedStops(n: Numeral, c: byte) {
    && !(48 <= c <= 57)
    && (n.exponent == [] ==> c != 101 && c != 69 && (n.fraction == [] ==> c != 46))
    && (|n.exponent| == 1 ==> c != 43 && c != 45)
  }

  lemma StandsThen(d: bytes, p: nat, a: bytes, b: bytes)
    requires At(d, p, a + b)
    ensures At(d, p, a) && At(d, p + |a|, b)
  {
    SliceOfSlice(d, p, p + |a + b|, 0, |a|);
    SliceOfSlice(d, p, p + |a + b|, |a|, |a + b|);
    assert (a + b)[0..|a|] == a && (a + b)[|a|..|a + b|] == b;
  }

  lemma StandsAt(d: bytes, p: nat, s: bytes, i: nat)
    requires At(d, p, s) && i < |s|
    ensures d[p + i] == s[i] && At(d, p + i, s[i..])
  {
    assert d[p..p + |s|][i] == s[i];
    SliceOfSlice(d, p, p + |s|, i, |s|);
    assert s[i..|s|] == s[i..];
  }

  lemma DigitsSkipped(d: bytes, p: nat, s: bytes)
    requires At(d, p, s) && Digits(s) && (p + |s| == |d| || !(48 <= d[p + |s|] <= 57))
    ensures SkipDigits(d, p) == p + |s|
  {
    SkipAllDigits(d, p, |s|);
  }

  // Where the fraction and the exponent end.
  lemma FractionSkipped(d: bytes, p: nat, n: Numeral)
    requires UnsignedOk(n) && At(d, p, n.fraction)
    requires var q := p + |n.fraction|; q == |d| || (!(48 <= d[q] <= 57) && (n.fraction == [] ==> d[q] != 46))
    ensures FractionEnd(d, p) == p + |n.fraction|
  {
    if n.fraction != [] {
      StandsAt(d, p, n.fraction, 0);
      if |n.fraction| > 1 {
        StandsAt(d, p, n.fraction, 1);
      }
      DigitsSkipped(d, p + 1, n.fraction[1..]);
    }
  }

  lemma ExponentSkipped(d: bytes, p: nat, n: Numeral)
    requires UnsignedOk(n) && At(d, p, n.exponent)
    requires var q := p + |n.exponent|; q == |d| || UnsignedStops(n, d[q])
    ensures ExponentEnd(d, p) == p + |n.exponent|
  {
    if n.exponent != [] {
      StandsAt(d, p, n.exponent, 0);
      ExponentDigits(d, p, n);
      hide SkipDigits, At, Digits;
    }
  }

  lemma ExponentDigits(d: bytes, p: nat, n: Numeral)
    requires UnsignedOk(n) && n.exponent != [] && At(d, p, n.exponent)
    requires var q := p + |n.exponent|; q == |d| || UnsignedStops(n, d[q])
    ensures var signed := p + 1 < |d| && (d[p + 1] == 43 || d[p + 1] == 45);
            (signed ==> |n.exponent| > 1) && SkipDigits(d, if signed then p + 2 else p + 1) == p + |n.exponent|
  {
    if |n.exponent| > 1 {
      StandsAt(d, p, n.exponent, 1);
      if IsSign([n.exponent[1]]) && |n.exponent| > 2 {
        StandsAt(d, p, n.exponent, 2);
      }
      var k := if IsSign([n.exponent[1]]) then 2 else 1;
      DigitsSkipped(d, p + k, n.exponent[k..]);
    }
  }

  // The parts of a numeral behind its sign, one after the other from `p` to `q`.
  predicate Parts(d: bytes, p: nat, n: Numeral, q: nat) {
    && At(d, p, n.whole) && At(d, p + |n.whole|, n.fraction) && At(d, p + |n.whole| + |n.fraction|, n.exponent)
    && q == p + |n.whole| + |n.fraction| + |n.exponent|
  }

  lemma TailSkipped(d: bytes, p: nat, n: Numeral, q: nat)
    requires UnsignedOk(n) && Parts(d, p, n, q) && (q == |d| || UnsignedStops(n, d[q]))
    ensures p <= |d| && NumberEnd(d, p) == q
  {
    hide At, UnsignedOk, UnsignedStops, Parts, NumberEnd, SkipDigits, FractionEnd, ExponentEnd;
    PartsFit(d, p, n, q);
    WholePart(d, p, n, q);
    FractionPart(d, p, n, q);
    ExponentPart(d, p, n, q);
    EndsThere(d, p, p + |n.whole|, p + |n.whole| + |n.fraction|);
  }

  lemma EndsThere(d: bytes, p: nat, b: nat, c: nat)
    requires p <= |d| && SkipDigits(d, p) == b && FractionEnd(d, b) == c
    ensures NumberEnd(d, p) == ExponentEnd(d, c)
  {
    hide SkipDigits, FractionEnd, ExponentEnd;
  }

  lemma WholePart(d: bytes, p: nat, n: Numeral, q: nat)
    requires UnsignedOk(n) && Parts(d, p, n, q) && (q == |d| || UnsignedStops(n, d[q]))
    ensures p <= |d| && SkipDigits(d, p) == p + |n.whole|
  {
    FirstOf(d, p + |n.whole|, n);
    DigitsSkipped(d, p, n.whole);
  }

  lemma FractionPart(d: bytes, p: nat, n: Numeral, q: nat)
    requires UnsignedOk(n) && Parts(d, p, n, q) && (q == |d| || UnsignedStops(n, d[q]))
    ensures var b := p + |n.whole|; b <= |d| && FractionEnd(d, b) == b + |n.fraction|
  {
    FirstOf(d, p + |n.whole|, n);
    FractionSkipped(d, p + |n.whole|, n);
  }

  lemma ExponentPart(d: bytes, p: nat, n: Numeral, q: nat)
    requires UnsignedOk(n) && Parts(d, p, n, q) && (q == |d| || UnsignedStops(n, d[q]))
    ensures var c := p + |n.whole| + |n.fraction|; c <= |d| && ExponentEnd(d, c) == q
  {
    ExponentSkipped(d, p + |n.whole| + |n.fraction|, n);
  }

  lemma PartsFit(d: bytes, p: nat, n: Numeral, q: nat)
    requires UnsignedOk(n) && Parts(d, p, n, q)
    ensures Digits(n.whole) && p + |n.whole| <= p + |n.whole| + |n.fraction| <= q <= |d|
  {
  }

  lemma SplitText(d: bytes, p: nat, n: Numeral)
    requires At(d, p, Text(n))
    ensures At(d, p, n.sign) && Parts(d, p + |n.sign|, n, p + |Text(n)|)
  {
    hide At;
    StandsThen(d, p, n.sign + n.whole + n.fraction, n.exponent);
    StandsThen(d, p, n.sign + n.whole, n.fraction);
    StandsThen(d, p, n.sign, n.whole);
  }

  // What stands behind the whole part and behind the fraction.
  lemma FirstOf(d: bytes, b: nat, n: Numeral)
    requires UnsignedOk(n) && At(d, b, n.fraction) && At(d, b + |n.fraction|, n.exponent)
    requires var q := b + |n.fraction| + |n.exponent|; q == |d| || UnsignedStops(n, d[q])
    ensures b == |d| || !(48 <= d[b] <= 57)
    ensures n.fraction == [] ==> b == |d| || d[b] != 46
    ensures var c := b + |n.fraction|; c == |d| || !(48 <= d[c] <= 57)
  {
    if n.fraction != [] {
      StandsAt(d, b, n.fraction, 0);
    }
    if n.exponent != [] {
      StandsAt(d, b + |n.fraction|, n.exponent, 0);
    }
  }

  // A numeral is one token, up to where it stops.
  lemma NumeralIsToken(d: bytes, p: nat, n: Numeral, f: Features)
    requires NumeralOk(n) && At(d, p, Text(n)) && (p + |Text(n)| == |d| || Stops(n, d[p + |Text(n)|]))
    ensures ReadToken(d, p, f) == Token(Number, p, p + |Text(n)|)
  {
    SplitText(d, p, n);
    var q := p + |Text(n)|;
    hide At, ReadToken, Parts, Text, UnsignedOk, UnsignedStops;
    if n.sign == [] {
      DropDigit(d, p, n, q);
    } else {
      DropSign(d, p, n, q);
    }
    NumberStarts(d, p, f);
  }

  lemma NumberStarts(d: bytes, p: nat, f: Features)
    requires p < |d|
    requires 48 <= d[p] <= 57 || ((d[p] == 43 || d[p] == 45) && (p + 1 == |d| || d[p + 1] != 73))
    ensures ReadToken(d, p, f) == Token(Number, p, NumberEnd(d, p + 1))
  {
    hide NumberEnd;
  }

  // Behind the sign.
  lemma DropSign(d: bytes, p: nat, n: Numeral, q: nat)
    requires NumeralOk(n) && n.sign != [] && At(d, p, n.sign) && Parts(d, p + |n.sign|, n, q) && (q == |d| || Stops(n, d[q]))
    ensures p < |d| && (d[p] == 43 || d[p] == 45) && (p + 1 == |d| || d[p + 1] != 73) && NumberEnd(d, p + 1) == q
  {
    StandsAt(d, p, n.sign, 0);
    SignIsNoInfinity(d, p, n, q);
    hide At, NumberEnd, UnsignedOk, UnsignedStops;
    TailSkipped(d, p + 1, n, q);
  }

  // Behind the first digit of a numeral without a sign.
  lemma DropDigit(d: bytes, p: nat, n: Numeral, q: nat)
    requires NumeralOk(n) && n.sign == [] && Parts(d, p, n, q) && (q == |d| || UnsignedStops(n, d[q]))
    ensures p < |d| && 48 <= d[p] <= 57 && NumberEnd(d, p + 1) == q
  {
    var m := Numeral([], n.whole[1..], n.fraction, n.exponent);
    OneDigitLess(d, p, n, q);
    hide NumberEnd, At, Parts, UnsignedOk, UnsignedStops;
    TailSkipped(d, p + 1, m, q);
  }

  lemma OneDigitLess(d: bytes, p: nat, n: Numeral, q: nat)
    requires n.whole != [] && UnsignedOk(n) && Parts(d, p, n, q) && (q == |d| || UnsignedStops(n, d[q]))
    ensures p < |d| && 48 <= d[p] <= 57
    ensures var m := Numeral([], n.whole[1..], n.fraction, n.exponent);
            UnsignedOk(m) && Parts(d, p + 1, m, q) && (q == |d| || UnsignedStops(m, d[q]))
  {
    StandsAt(d, p, n.whole, 0);
    if |n.whole| > 1 {
      StandsAt(d, p, n.whole, 1);
    }
  }

  lemma SignIsNoInfinity(d: bytes, p: nat, n: Numeral, q: nat)
    requires NumeralOk(n) && |n.sign| == 1 && Parts(d, p + 1, n, q) && (q == |d| || Stops(n, d[q]))
    ensures p + 1 == |d| || d[p + 1] != 73
  {
    if n.whole != [] {
      StandsAt(d, p + 1, n.whole, 0);
    } else if n.fraction != [] {
      StandsAt(d, p + 1, n.fraction, 0);
    } else if n.exponent != [] {
      StandsAt(d, p + 1, n.exponent, 0);
    }
  }

  // ---------------------------------------------------------------- comments

  // "*/" stands at `q`.
  predicate Ends(d: bytes, q: nat) { q + 1 < |d| && d[q] == 42 && d[q + 1] == 47 }

  lemma {:induction false} FirstEnd(d: bytes, p: nat, q: nat)
    requires p <= q && Ends(d, q) && forall i :: p <= i < q ==> !Ends(d, i)
    ensures CStyleEnd(d, p) == Scan(true, q + 2)
    decreases q - p
  {
    if p < q {
      assert !Ends(d, p);
      FirstEnd(d, p + 1, q);
    }
  }

  lemma {:induction false} NoEnd(d: bytes, p: nat)
    requires p <= |d| && forall i :: p <= i ==> !Ends(d, i)
    ensures CStyleEnd(d, p) == Scan(p < |d| && d[|d| - 1] == 47, |d|)
    decreases |d| - p
  {
    if p + 1 < |d| {
      assert !Ends(d, p);
      NoEnd(d, p + 1);
    }
  }

  // A comment goes to its first "*/". Without one it goes to the end of the document, and is accepted
  // there if that ends with a slash.
  lemma BlockComment(d: bytes, p: nat, q: nat, f: Features)
    requires At(d, p, [47, 42]) && p + 2 <= q && forall i :: p + 2 <= i < q ==> !Ends(d, i)
    ensures Ends(d, q) ==> ReadToken(d, p, f) == Token(Comment, p, q + 2)
    ensures q == |d| ==> ReadToken(d, p, f) == Token(if p + 2 < |d| && d[|d| - 1] == 47 then Comment else Kind.Error, p, |d|)
  {
    assert d[p..p + 2][0] == d[p] && d[p..p + 2][1] == d[p + 1];
    if Ends(d, q) {
      FirstEnd(d, p + 2, q);
    } else if q == |d| {
      NoEnd(d, p + 2);
    }
    hide CStyleEnd;
  }

  lemma {:induction false} FirstBreak(d: bytes, p: nat, q: nat)
    requires p <= q <= |d| && forall i :: p <= i < q ==> d[i] != 10 && d[i] != 13
    ensures CppStyleEnd(d, p) == CppStyleEnd(d, q)
    decreases q - p
  {
    if p < q {
      FirstBreak(d, p + 1, q);
    }
  }

  // A comment of the other style goes through the first line break, or to the end of the document.
  lemma LineComment(d: bytes, p: nat, q: nat, f: Features)
    requires At(d, p, [47, 47]) && p + 2 <= q <= |d| && forall i :: p + 2 <= i < q ==> d[i] != 10 && d[i] != 13
    ensures q == |d| ==> ReadToken(d, p, f) == Token(Comment, p, |d|)
    ensures q < |d| && d[q] == 10 ==> ReadToken(d, p, f) == Token(Comment, p, q + 1)
    ensures q < |d| && d[q] == 13 ==>
              ReadToken(d, p, f) == Token(Comment, p, if q + 1 < |d| && d[q + 1] == 10 then q + 2 else q + 1)
  {
    assert d[p..p + 2][0] == d[p] && d[p..p + 2][1] == d[p + 1];
    FirstBreak(d, p + 2, q);
  }

  // ---------------------------------------------------------------- strings

  // A backslash takes the next character with it; the quote stands nowhere else.
  predicate BodyOf(b: bytes, quote: byte)
    decreases |b|
  {
    b == [] || if b[0] == 92 then |b| > 1 && BodyOf(b[2..], quote) else b[0] != quote && BodyOf(b[1..], quote)
  }

  lemma {:induction false} BodyEnds(d: bytes, p: nat, b: bytes, quote: byte)
    requires At(d, p, b) && BodyOf(b, quote) && p + |b| < |d| && d[p + |b|] == quote != 92
    ensures StringEnd(d, p, quote) == Scan(true, p + |b| + 1)
    decreases |b|
  {
    if b != [] {
      var k := if b[0] == 92 then 2 else 1;
      assert d[p..p + |b|][0] == d[p];
      SliceOfSlice(d, p, p + |b|, k, |b|);
      assert b[k..|b|] == b[k..];
      BodyEnds(d, p + k, b[k..], quote);
    }
  }

  // A string goes to its first unescaped quote, of the kind it started with.
  lemma StringIsToken(d: bytes, p: nat, b: bytes, quote: byte, f: Features)
    requires quote == 34 || (quote == 39 && f.allowSingleQuotes)
    requires At(d, p, [quote] + b + [quote]) && BodyOf(b, quote)
    ensures ReadToken(d, p, f) == Token(String, p, p + |b| + 2)
  {
    StandsThen(d, p, [quote] + b, [quote]);
    StandsThen(d, p, [quote], b);
    StandsAt(d, p, [quote], 0);
    StandsAt(d, p + 1 + |b|, [quote], 0);
    hide StringEnd, At, BodyOf;
    BodyEnds(d, p + 1, b, quote);
    QuoteStarts(d, p, quote, p + |b| + 2, f);
  }

  lemma QuoteStarts(d: bytes, p: nat, quote: byte, q: nat, f: Features)
    requires quote == 34 || (quote == 39 && f.allowSingleQuotes)
    requires p < |d| && d[p] == quote && StringEnd(d, p + 1, quote) == Scan(true, q)
    ensures ReadToken(d, p, f) == Token(String, p, q)
  {
    hide StringEnd;
  }

  // ---------------------------------------------------------------- words

  // A word is there as a whole, or its first character is an error by itself.
  lemma WordIsToken(d: bytes, p: nat, f: Features)
    requires p < |d|
    ensures d[p] == 116 ==> ReadToken(d, p, f) == if At(d, p, TRUE_TEXT) then Token(True, p, p + 4) else Token(Kind.Error, p, p + 1)
    ensures d[p] == 102 ==> ReadToken(d, p, f) == if At(d, p, FALSE_TEXT) then Token(False, p, p + 5) else Token(Kind.Error, p, p + 1)
    ensures d[p] == 110 ==> ReadToken(d, p, f) == if At(d, p, NULL_TEXT) then Token(Kind.Null, p, p + 4) else Token(Kind.Error, p, p + 1)
  {
    RestOfWord(d, p, 116, RUE);
    RestOfWord(d, p, 102, ALSE);
    RestOfWord(d, p, 110, ULL);
    assert [116] + RUE == TRUE_TEXT && [102] + ALSE == FALSE_TEXT && [110] + ULL == NULL_TEXT;
    hide At;
  }

  lemma RestOfWord(d: bytes, p: nat, c: byte, rest: bytes)
    requires p < |d|
    ensures At(d, p, [c] + rest) <==> d[p] == c && At(d, p + 1, rest)
  {
    if At(d, p, [c] + rest) {
      StandsThen(d, p, [c], rest);
      StandsAt(d, p, [c], 0);
    }
    if d[p] == c && At(d, p + 1, rest) {
      assert d[p..p + 1 + |rest|] == [d[p]] + d[p + 1..p + 1 + |rest|];
    }
  }

  // "NaN", "Infinity" and "-Infinity" are words only where the features allow them.
  const NAN_TEXT: bytes := [78, 97, 78]
  const INFINITY_TEXT: bytes := [73, 110, 102, 105, 110, 105, 116, 121]

  lemma SpecialWords(d: bytes, p: nat, f: Features)
    requires p < |d|
    ensures d[p] == 78 ==>
              ReadToken(d, p, f) == if f.allowSpecialFloats && At(d, p, NAN_TEXT) then Token(NaN, p, p + 3) else Token(Kind.Error, p, p + 1)
    ensures d[p] == 73 ==>
              ReadToken(d, p, f) == if f.allowSpecialFloats && At(d, p, INFINITY_TEXT) then Token(PosInf, p, p + 8)
                                    else Token(Kind.Error, p, p + 1)
    ensures (d[p] == 43 || d[p] == 45) && p + 1 < |d| && d[p + 1] == 73 ==>
              ReadToken(d, p, f) == if f.allowSpecialFloats && At(d, p + 1, INFINITY_TEXT)
                                    then Token(if d[p] == 43 then PosInf else NegInf, p, p + 9) else Token(Kind.Error, p, p + 2)
  {
    RestOfWord(d, p, 78, A_N);
    RestOfWord(d, p, 73, NFINITY);
    if p + 1 < |d| {
      RestOfWord(d, p + 1, 73, NFINITY);
    }
    assert [78] + A_N == NAN_TEXT && [73] + NFINITY == INFINITY_TEXT;
    hide At;
  }

  // ---------------------------------------------------------------- everything else

  predicate IsBlank(c: byte) { c == 9 || c == 10 || c == 13 || c == 32 }

  // Tabs, line feeds, carriage returns and blanks are skipped before a token, and nothing else.
  lemma {:induction false} BlanksAreSkipped(d: bytes, p: nat, q: nat)
    requires p <= q <= |d| && (forall i :: p <= i < q ==> IsBlank(d[i])) && (q < |d| ==> !IsBlank(d[q]))
    ensures SkipSpaces(d, p) == q
    decreases q - p
  {
    if p < q {
      BlanksAreSkipped(d, p + 1, q);
    }
  }

  // { } [ ] , : and NUL, which ends the document.
  const MARKS: map<byte, Kind> :=
    map[123 := ObjectBegin, 125 := ObjectEnd, 91 := ArrayBegin, 93 := ArrayEnd, 44 := ArraySeparator,
        58 := MemberSeparator, 0 := EndOfStream]

  // " ' / + - 0 to 9 f t n N I
  predicate StartsLonger(c: byte) {
    c == 34 || c == 39 || c == 47 || c == 43 || c == 45 || 48 <= c <= 57 || c == 102 || c == 116 || c == 110 || c == 78 || c == 73
  }

  // A mark is a token by itself; a character that starts nothing is an error by itself.
  lemma MarkOrError(d: bytes, p: nat, f: Features)
    requires p < |d|
    ensures d[p] in MARKS ==> ReadToken(d, p, f) == Token(MARKS[d[p]], p, p + 1)
    ensures d[p] !in MARKS && !IsBlank(d[p]) && !StartsLonger(d[p]) ==> ReadToken(d, p, f) == Token(Kind.Error, p, p + 1)
    ensures d[p] == 39 && !f.allowSingleQuotes ==> ReadToken(d, p, f) == Token(Kind.Error, p, p + 1)
    ensures d[p] == 47 && (p + 1 == |d| || (d[p + 1] != 42 && d[p + 1] != 47)) ==>
              ReadToken(d, p, f) == Token(Kind.Error, p, if p + 1 < |d| then p + 2 else p + 1)
  {
    hide At, NumberEnd, StringEnd;
  }

  // A byte order mark is skipped where the features say so.
  lemma ByteOrderMark(d: bytes, f: Features)
    ensures SkipBom(d, f) == if f.skipBom && |d| >= 3 && d[0] == 0xEF && d[1] == 0xBB && d[2] == 0xBF then 3 else 0
  {
    if |d| >= 3 {
      assert d[0..3] == [d[0], d[1], d[2]];
    }
  }
}
