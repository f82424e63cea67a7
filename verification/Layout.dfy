// Text laid out as tokens and white space, and what the reader's tokenizer makes of it.
module Layout {
  import opened Bytes
  import opened Scanner
  import JsonStrings

  datatype Tok = Tok(kind: Kind, text: bytes)

  datatype Chunk = Space(s: bytes) | Tk(tok: Tok)

  function ChunkText(c: Chunk): bytes {
    match c
    case Space(s) => s
    case Tk(t) => t.text
  }

  function Render(chunks: seq<Chunk>): bytes {
    if chunks == [] then [] else ChunkText(chunks[0]) + Render(chunks[1..])
  }

  function Tokens(chunks: seq<Chunk>): seq<Tok> {
    if chunks == [] then []
    else if chunks[0].Tk? then [chunks[0].tok] + Tokens(chunks[1..])
    else Tokens(chunks[1..])
  }

  lemma ConsStep(c: Chunk, rest: seq<Chunk>)
    ensures Render([c] + rest) == ChunkText(c) + Render(rest)
    ensures Tokens([c] + rest) == if c.Tk? then [c.tok] + Tokens(rest) else Tokens(rest)
  {
    assert ([c] + rest)[1..] == rest;
  }

  lemma {:induction false} RenderConcat(a: seq<Chunk>, b: seq<Chunk>)
    ensures Render(a + b) == Render(a) + Render(b)
  {
    if a == [] {
      assert a + b == b;
    } else {
      var c, rest := a[0], a[1..];
      assert a == [c] + rest && a + b == [c] + (rest + b);
      hide Render;
      RenderConcat(rest, b);
      ConsStep(c, rest);
      ConsStep(c, rest + b);
      assert ChunkText(c) + (Render(rest) + Render(b)) == ChunkText(c) + Render(rest) + Render(b);
    }
  }

  lemma {:induction false} TokensConcat(a: seq<Chunk>, b: seq<Chunk>)
    ensures Tokens(a + b) == Tokens(a) + Tokens(b)
  {
    if a == [] {
      assert a + b == b;
    } else {
      var c, rest := a[0], a[1..];
      assert a == [c] + rest && a + b == [c] + (rest + b);
      hide Tokens;
      TokensConcat(rest, b);
      ConsStep(c, rest);
      ConsStep(c, rest + b);
    }
  }

  // ---------------------------------------------------------------- the tokens a writer may emit

  predicate IsPunctuation(k: Kind) {
    k == ObjectBegin || k == ObjectEnd || k == ArrayBegin || k == ArrayEnd
    || k == ArraySeparator || k == MemberSeparator
  }

  function Mark(k: Kind): Tok
    requires IsPunctuation(k)
  {
    Tok(k, [match k
            case ObjectBegin => LBRACE
            case ObjectEnd => RBRACE
            case ArrayBegin => LBRACKET
            case ArrayEnd => RBRACKET
            case ArraySeparator => COMMA
            case MemberSeparator => COLON])
  }

  // A numeral as integers are printed: an optional minus sign, then at least one digit.
  predicate IsNumeral(t: bytes) {
    t != [] && if t[0] == MINUS then |t| > 1 && AllDigits(t[1..]) else AllDigits(t)
  }

  predicate IsQuoted(t: bytes) {
    |t| >= 2 && t[0] == QUOTE && t[|t| - 1] == QUOTE && JsonStrings.Closed(t[1..|t| - 1])
  }

  predicate TokOk(t: Tok) {
    if IsPunctuation(t.kind) then t == Mark(t.kind)
    else if t.kind == Number then IsNumeral(t.text)
    else if t.kind == String then IsQuoted(t.text)
    else if t.kind == True then t.text == TRUE_TEXT
    else if t.kind == False then t.text == FALSE_TEXT
    else t == Tok(Null, NULL_TEXT)
  }

  predicate ChunkOk(c: Chunk) {
    match c
    case Space(s) => s != [] && AllSpace(s)
    case Tk(t) => TokOk(t)
  }

  predicate IsNumber(c: Chunk) { c.Tk? && c.tok.kind == Number }

  predicate Separates(c: Chunk) { c.Space? || IsPunctuation(c.tok.kind) }

  // Every chunk is white space or a proper token, and nothing but a separator follows a number.
  predicate Lexable(chunks: seq<Chunk>) {
    && (forall i :: 0 <= i < |chunks| ==> ChunkOk(chunks[i]))
    && (forall i :: 0 <= i < |chunks| - 1 ==> NumberEndsAt(chunks, i))
  }

  predicate NumberEndsAt(chunks: seq<Chunk>, i: nat)
    requires i < |chunks| - 1
  {
    IsNumber(chunks[i]) ==> Separates(chunks[i + 1])
  }

  lemma LexableConcat(a: seq<Chunk>, b: seq<Chunk>)
    requires Lexable(a) && Lexable(b)
    requires a == [] || b == [] || !IsNumber(a[|a| - 1]) || Separates(b[0])
    ensures Lexable(a + b)
  {
    hide ChunkOk, IsNumber, Separates;
    forall i | 0 <= i < |a + b| - 1 ensures NumberEndsAt(a + b, i) {
      if i < |a| - 1 {
        assert NumberEndsAt(a, i);
      } else if i >= |a| {
        assert NumberEndsAt(b, i - |a|);
      }
    }
  }

  lemma LexableTail(chunks: seq<Chunk>)
    requires chunks != [] && Lexable(chunks)
    ensures Lexable(chunks[1..]) && ChunkOk(chunks[0])
    ensures IsNumber(chunks[0]) && |chunks| > 1 ==> Separates(chunks[1])
  {
    forall i | 0 <= i < |chunks[1..]| - 1 ensures NumberEndsAt(chunks[1..], i) {
      assert NumberEndsAt(chunks, i + 1);
    }
    if |chunks| > 1 {
      assert NumberEndsAt(chunks, 0);
    }
  }

  // ---------------------------------------------------------------- what the tokenizer sees

  // From offset `p` on, the document consists of exactly these tokens, as ReadToken delimits
  // them, and white space.
  predicate Lays(d: bytes, p: nat, toks: seq<Tok>, f: Features)
    requires p <= |d|
    decreases |toks|
  {
    if toks == [] then SkipSpaces(d, p) == |d| else
    var t := ReadToken(d, p, f);
    t.kind == toks[0].kind && d[t.start..t.end] == toks[0].text && Lays(d, t.end, toks[1..], f)
  }

  lemma {:induction false} SkipAllSpace(d: bytes, p: nat, n: nat)
    requires p + n <= |d| && AllSpace(d[p..p + n])
    ensures SkipSpaces(d, p) == SkipSpaces(d, p + n)
    decreases n
  {
    if n > 0 {
      assert d[p] == d[p..p + n][0];
      assert d[p + 1..p + n] == d[p..p + n][1..];
      SkipAllSpace(d, p + 1, n - 1);
    }
  }

  lemma {:induction false} SkipAllDigits(d: bytes, p: nat, n: nat)
    requires p + n <= |d| && AllDigits(d[p..p + n])
    requires p + n == |d| || !IsDigit(d[p + n])
    ensures SkipDigits(d, p) == p + n
    decreases n
  {
    if n > 0 {
      assert d[p] == d[p..p + n][0];
      assert d[p + 1..p + n] == d[p..p + n][1..];
      SkipAllDigits(d, p + 1, n - 1);
    }
  }

  // A character with which a number can go on.
  predicate ContinuesNumber(c: byte) { IsDigit(c) || c == DOT || c == LOWER_E || c == UPPER_E }

  lemma NumeralEnds(d: bytes, p: nat, n: nat)
    requires p + n <= |d| && AllDigits(d[p..p + n])
    requires p + n == |d| || !ContinuesNumber(d[p + n])
    ensures NumberEnd(d, p) == p + n
  {
    SkipAllDigits(d, p, n);
  }

  lemma {:induction false} ClosedBodyEnds(d: bytes, p: nat, n: nat)
    requires p + n < |d| && JsonStrings.Closed(d[p..p + n]) && d[p + n] == QUOTE
    ensures StringEnd(d, p, QUOTE) == Scan(true, p + n + 1)
    decreases n
  {
    if n > 0 {
      var b := d[p..p + n];
      assert b[0] == d[p];
      if d[p] == BACKSLASH {
        assert b[2..] == d[p + 2..p + n];
        ClosedBodyEnds(d, p + 2, n - 2);
      } else {
        assert b[1..] == d[p + 1..p + n];
        ClosedBodyEnds(d, p + 1, n - 1);
      }
    }
  }

  // Conversely: what the tokenizer takes for a string has a closed body.
  lemma {:induction false} StringBodyIsClosed(d: bytes, p: nat)
    requires p <= |d| && StringEnd(d, p, QUOTE).ok
    ensures JsonStrings.Closed(d[p..StringEnd(d, p, QUOTE).pos - 1])
    decreases |d| - p
  {
    var e := StringEnd(d, p, QUOTE).pos;
    if d[p] == BACKSLASH {
      StringBodyIsClosed(d, p + 2);
      assert d[p..e - 1][2..] == d[p + 2..e - 1];
    } else if d[p] != QUOTE {
      StringBodyIsClosed(d, p + 1);
      assert d[p..e - 1][1..] == d[p + 1..e - 1];
    }
  }

  lemma NumberLexes(d: bytes, p: nat, t: bytes, f: Features)
    requires At(d, p, t) && IsNumeral(t)
    requires p + |t| == |d| || !ContinuesNumber(d[p + |t|])
    ensures ReadToken(d, p, f) == Token(Number, p, p + |t|)
  {
    var n := |t|;
    assert d[p..p + n][0] == d[p];
    assert d[p + 1..p + n] == t[1..];
    assert forall i :: 0 <= i < |t[1..]| ==> t[1..][i] == t[i + 1];
    NumeralEnds(d, p + 1, n - 1);
    if t[0] == MINUS {
      assert t[1..][0] == d[p + 1];
    }
  }

  lemma StringLexes(d: bytes, p: nat, t: bytes, f: Features)
    requires At(d, p, t) && IsQuoted(t)
    ensures ReadToken(d, p, f) == Token(String, p, p + |t|)
  {
    var n := |t|;
    assert d[p..p + n][0] == d[p] && d[p..p + n][n - 1] == d[p + n - 1];
    SliceOfSlice(d, p, p + n, 1, n - 1);
    ClosedBodyEnds(d, p + 1, n - 2);
  }

  lemma WordLexes(d: bytes, p: nat, t: Tok, f: Features)
    requires At(d, p, t.text) && TokOk(t) && (t.kind == True || t.kind == False || t.kind == Null)
    ensures ReadToken(d, p, f) == Token(t.kind, p, p + |t.text|)
  {
    var n := |t.text|;
    assert d[p] == d[p..p + n][0];
    assert d[p + 1..p + n] == t.text[1..];
    assert TRUE_TEXT[1..] == RUE && FALSE_TEXT[1..] == ALSE && NULL_TEXT[1..] == ULL;
  }

  lemma MarkLexes(d: bytes, p: nat, k: Kind, f: Features)
    requires IsPunctuation(k) && At(d, p, Mark(k).text)
    ensures ReadToken(d, p, f) == Token(k, p, p + 1)
  {
    assert d[p] == d[p..p + 1][0];
  }

  // The tokenizer takes a proper token as it stands, provided a number does not run on.
  lemma TokenLexes(d: bytes, p: nat, t: Tok, f: Features)
    requires At(d, p, t.text) && TokOk(t)
    requires t.kind == Number ==> p + |t.text| == |d| || !ContinuesNumber(d[p + |t.text|])
    ensures ReadToken(d, p, f) == Token(t.kind, p, p + |t.text|)
  {
    if IsPunctuation(t.kind) {
      MarkLexes(d, p, t.kind, f);
    } else if t.kind == Number {
      NumberLexes(d, p, t.text, f);
    } else if t.kind == String {
      StringLexes(d, p, t.text, f);
    } else {
      WordLexes(d, p, t, f);
    }
  }

  // White space before a token does not matter to the tokenizer.
  lemma LaysAfterSpace(d: bytes, p: nat, n: nat, toks: seq<Tok>, f: Features)
    requires p + n <= |d| && AllSpace(d[p..p + n])
    ensures Lays(d, p, toks, f) == Lays(d, p + n, toks, f)
  {
    hide TokenAfter;
    SkipAllSpace(d, p, n);
  }

  lemma SeparatorStopsNumber(c: Chunk)
    requires ChunkOk(c) && Separates(c)
    ensures ChunkText(c) != [] && !ContinuesNumber(ChunkText(c)[0])
  {
  }

  lemma SpaceLays(d: bytes, p: nat, s: bytes, rest: bytes, toks: seq<Tok>, f: Features)
    requires p <= |d| && d[p..] == s + rest && AllSpace(s)
    ensures p + |s| <= |d| && d[p + |s|..] == rest
    ensures Lays(d, p + |s|, toks, f) ==> Lays(d, p, toks, f)
  {
    assert d[p + |s|..] == d[p..][|s|..];
    assert d[p..p + |s|] == d[p..][..|s|];
    LaysAfterSpace(d, p, |s|, toks, f);
  }

  lemma TokenLays(d: bytes, p: nat, t: Tok, rest: bytes, toks: seq<Tok>, f: Features)
    requires p <= |d| && d[p..] == t.text + rest && TokOk(t)
    requires t.kind == Number ==> rest == [] || !ContinuesNumber(rest[0])
    ensures p + |t.text| <= |d| && d[p + |t.text|..] == rest
    ensures Lays(d, p + |t.text|, toks, f) ==> Lays(d, p, [t] + toks, f)
  {
    var n := |t.text|;
    assert d[p + n..] == d[p..][n..];
    assert d[p..p + n] == d[p..][..n];
    if p + n < |d| {
      assert d[p + n] == d[p + n..][0];
    }
    TokenLexes(d, p, t, f);
    ReadTokenLays(d, p, t, toks, f);
  }

  lemma ReadTokenLays(d: bytes, p: nat, t: Tok, toks: seq<Tok>, f: Features)
    requires At(d, p, t.text) && ReadToken(d, p, f) == Token(t.kind, p, p + |t.text|)
    ensures Lays(d, p, [t] + toks, f) == Lays(d, p + |t.text|, toks, f)
  {
    assert ([t] + toks)[1..] == toks;
  }

  lemma NumberRunsNoFurther(c: Chunk, rest: seq<Chunk>)
    requires Lexable(rest) && (IsNumber(c) && rest != [] ==> Separates(rest[0]))
    ensures IsNumber(c) ==> Render(rest) == [] || !ContinuesNumber(Render(rest)[0])
  {
    if IsNumber(c) && rest != [] {
      SeparatorStopsNumber(rest[0]);
    }
  }

  // One chunk at the front, whichever it is.
  lemma ChunkLays(d: bytes, p: nat, c: Chunk, rest: seq<Chunk>, f: Features)
    requires p <= |d| && d[p..] == Render([c] + rest) && Lexable([c] + rest)
    ensures p + |ChunkText(c)| <= |d| && d[p + |ChunkText(c)|..] == Render(rest) && Lexable(rest)
    ensures Lays(d, p + |ChunkText(c)|, Tokens(rest), f) ==> Lays(d, p, Tokens([c] + rest), f)
  {
    hide ReadToken, Lays, Lexable, Render, Tokens;
    assert ([c] + rest)[1..] == rest;
    assert ([c] + rest)[0] == c;
    LexableTail([c] + rest);
    ConsStep(c, rest);
    match c {
      case Space(s) =>
        SpaceLays(d, p, s, Render(rest), Tokens(rest), f);
      case Tk(t) =>
        NumberRunsNoFurther(c, rest);
        TokenLays(d, p, t, Render(rest), Tokens(rest), f);
    }
  }

  // Lexable text is tokenized into exactly the tokens it was laid out from.
  lemma {:induction false} LexableLays(d: bytes, p: nat, chunks: seq<Chunk>, f: Features)
    requires p <= |d| && d[p..] == Render(chunks) && Lexable(chunks)
    ensures Lays(d, p, Tokens(chunks), f)
    decreases |chunks|
  {
    hide ReadToken, Lays;
    if chunks == [] {
      NothingLays(d, p, f);
    } else {
      var c, rest := chunks[0], chunks[1..];
      assert chunks == [c] + rest;
      ChunkLays(d, p, c, rest, f);
      LexableLays(d, p + |ChunkText(c)|, rest, f);
    }
  }

  lemma NothingLays(d: bytes, p: nat, f: Features)
    requires p <= |d| && d[p..] == []
    ensures Lays(d, p, [], f)
  {
  }
}
