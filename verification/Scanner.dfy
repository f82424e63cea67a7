// What the reader's tokenizer does, as functions of the document and an offset into it.
module Scanner {
  import opened Bytes

  datatype Features = Features(
    allowComments: bool, allowTrailingCommas: bool, strictRoot: bool,
    allowDroppedNullPlaceholders: bool, allowNumericKeys: bool, allowSingleQuotes: bool,
    failIfExtra: bool, rejectDupKeys: bool, allowSpecialFloats: bool, skipBom: bool,
    stackLimit: nat)

  // CharReaderBuilder::setDefaults.
  const DEFAULT_FEATURES: Features :=
    Features(true, true, false, false, false, false, false, false, false, true, 1000)

  // CharReaderBuilder::strictMode.
  const STRICT_FEATURES: Features :=
    Features(false, false, true, false, false, false, true, true, false, true, 1000)

  datatype Kind =
    | EndOfStream | ObjectBegin | ObjectEnd | ArrayBegin | ArrayEnd | String | Number
    | True | False | Null | NaN | PosInf | NegInf | ArraySeparator | MemberSeparator
    | Comment | Error

  datatype Token = Token(kind: Kind, start: nat, end: nat)

  // How far a scan got and whether it found what it wanted.
  datatype Scan = Scan(ok: bool, pos: nat)

  function SkipSpaces(d: bytes, p: nat): (q: nat)
    requires p <= |d|
    ensures p <= q <= |d|
    ensures q < |d| ==> !IsSpace(d[q])
    decreases |d| - p
  {
    if p < |d| && IsSpace(d[p]) then SkipSpaces(d, p + 1) else p
  }

  function SkipDigits(d: bytes, p: nat): (q: nat)
    requires p <= |d|
    ensures p <= q <= |d|
    ensures q < |d| ==> !IsDigit(d[q])
    decreases |d| - p
  {
    if p < |d| && IsDigit(d[p]) then SkipDigits(d, p + 1) else p
  }

  // Where readNumber stops: digits, then a fraction, then an exponent, each part optional.
  function FractionEnd(d: bytes, p: nat): (q: nat)
    requires p <= |d|
    ensures p <= q <= |d|
  {
    if p < |d| && d[p] == DOT then SkipDigits(d, p + 1) else p
  }

  function ExponentEnd(d: bytes, p: nat): (q: nat)
    requires p <= |d|
    ensures p <= q <= |d|
  {
    if p < |d| && (d[p] == LOWER_E || d[p] == UPPER_E) then
      if p + 1 < |d| && (d[p + 1] == PLUS || d[p + 1] == MINUS) then SkipDigits(d, p + 2)
      else SkipDigits(d, p + 1)
    else p
  }

  function NumberEnd(d: bytes, p: nat): (q: nat)
    requires p <= |d|
    ensures p <= q <= |d|
  {
    ExponentEnd(d, FractionEnd(d, SkipDigits(d, p)))
  }

  // A string runs to its unescaped closing quote; a backslash takes the next character with it.
  function StringEnd(d: bytes, p: nat, quote: byte): (r: Scan)
    requires p <= |d|
    ensures p <= r.pos <= |d|
    ensures r.ok ==> p < r.pos && d[r.pos - 1] == quote
    decreases |d| - p
  {
    if p == |d| then Scan(false, p)
    else if d[p] == BACKSLASH then StringEnd(d, if p + 2 <= |d| then p + 2 else |d|, quote)
    else if d[p] == quote then Scan(true, p + 1)
    else StringEnd(d, p + 1, quote)
  }

  // A C-style comment; one byte is always left for the closing test after the loop.
  function CStyleEnd(d: bytes, p: nat): (r: Scan)
    requires p <= |d|
    ensures p <= r.pos <= |d|
    decreases |d| - p
  {
    if p + 1 < |d| then
      if d[p] == STAR && d[p + 1] == SLASH then Scan(true, p + 2) else CStyleEnd(d, p + 1)
    else if p < |d| then Scan(d[p] == SLASH, p + 1)
    else Scan(false, p)
  }

  // A C++-style comment ends after its line break, of whichever kind.
  function CppStyleEnd(d: bytes, p: nat): (q: nat)
    requires p <= |d|
    ensures p <= q <= |d|
    decreases |d| - p
  {
    if p == |d| then p
    else if d[p] == LF then p + 1
    else if d[p] == CR then if p + 1 < |d| && d[p + 1] == LF then p + 2 else p + 1
    else CppStyleEnd(d, p + 1)
  }

  function CommentEnd(d: bytes, p: nat): (r: Scan)
    requires p <= |d|
    ensures p <= r.pos <= |d|
  {
    if p == |d| then Scan(false, p)
    else if d[p] == STAR then CStyleEnd(d, p + 1)
    else if d[p] == SLASH then Scan(true, CppStyleEnd(d, p + 1))
    else Scan(false, p + 1)
  }

  const RUE: bytes := [114, 117, 101]
  const ALSE: bytes := [97, 108, 115, 101]
  const ULL: bytes := [117, 108, 108]
  const A_N: bytes := [97, 78]
  const NFINITY: bytes := [110, 102, 105, 110, 105, 116, 121]

  function Match(d: bytes, p: nat, pattern: bytes): (r: Scan)
    requires p <= |d|
    ensures p <= r.pos <= |d|
  {
    if At(d, p, pattern) then Scan(true, p + |pattern|) else Scan(false, p)
  }

  // After a sign: a number, or what is left of an infinity.
  function SignedEnd(d: bytes, p: nat, f: Features, infinity: Kind): (r: (Kind, nat))
    requires p <= |d|
    ensures p <= r.1 <= |d|
    ensures r.0 == infinity || r.0 == Error || r.0 == Number
  {
    if p < |d| && d[p] == UPPER_I then
      if f.allowSpecialFloats && At(d, p + 1, NFINITY) then (infinity, p + 1 + |NFINITY|)
      else (Error, p + 1)
    else (Number, NumberEnd(d, p))
  }

  function Word(d: bytes, p: nat, kind: Kind, rest: bytes): (r: (Kind, nat))
    requires p <= |d|
    ensures p <= r.1 <= |d|
    ensures r.0 == kind || r.0 == Error
  {
    var m := Match(d, p, rest);
    (if m.ok then kind else Error, m.pos)
  }

  // The characters that are a token by themselves; NUL counts as the end of the document.
  function Punctuation(c: byte): Option<Kind> {
    if c == LBRACE then Some(ObjectBegin)
    else if c == RBRACE then Some(ObjectEnd)
    else if c == LBRACKET then Some(ArrayBegin)
    else if c == RBRACKET then Some(ArrayEnd)
    else if c == COMMA then Some(ArraySeparator)
    else if c == COLON then Some(MemberSeparator)
    else if c == NUL then Some(EndOfStream)
    else None
  }

  // The kind and the end of a longer token whose first character is `c` and whose rest starts at `p`.
  function LongToken(d: bytes, c: byte, p: nat, f: Features): (r: (Kind, nat))
    requires p <= |d|
    ensures p <= r.1 <= |d|
    ensures r.0 != EndOfStream
  {
    if c == QUOTE then
      var s := StringEnd(d, p, QUOTE); (if s.ok then String else Error, s.pos)
    else if c == APOSTROPHE then
      if !f.allowSingleQuotes then (Error, p) else
      var s := StringEnd(d, p, APOSTROPHE); (if s.ok then String else Error, s.pos)
    else if c == SLASH then
      var s := CommentEnd(d, p); (if s.ok then Comment else Error, s.pos)
    else if IsDigit(c) then (Number, NumberEnd(d, p))
    else if c == MINUS then SignedEnd(d, p, f, NegInf)
    else if c == PLUS then SignedEnd(d, p, f, PosInf)
    else if c == LOWER_T then Word(d, p, True, RUE)
    else if c == LOWER_F then Word(d, p, False, ALSE)
    else if c == LOWER_N then Word(d, p, Null, ULL)
    else if c == UPPER_N && f.allowSpecialFloats then Word(d, p, NaN, A_N)
    else if c == UPPER_I && f.allowSpecialFloats then Word(d, p, PosInf, NFINITY)
    else (Error, p)
  }

  function TokenAfter(d: bytes, c: byte, p: nat, f: Features): (r: (Kind, nat))
    requires p <= |d|
    ensures p <= r.1 <= |d|
  {
    match Punctuation(c)
    case Some(kind) => (kind, p)
    case None => LongToken(d, c, p, f)
  }

  function ReadToken(d: bytes, p: nat, f: Features): (t: Token)
    requires p <= |d|
    ensures p <= t.start <= t.end <= |d|
    ensures t.kind != EndOfStream ==> t.start < t.end
    ensures t.start < |d| ==> t.start < t.end
  {
    var start := SkipSpaces(d, p);
    if start == |d| then Token(EndOfStream, start, start) else
    var r := TokenAfter(d, d[start], start + 1, f);
    Token(r.0, start, r.1)
  }

  // The next token that is not a comment.
  function NextToken(d: bytes, p: nat, f: Features): (t: Token)
    requires p <= |d|
    ensures p <= t.start <= t.end <= |d|
    ensures t.kind != EndOfStream ==> t.start < t.end
    ensures t.kind != Comment
    decreases |d| - p
  {
    var t := ReadToken(d, p, f);
    if t.kind == Comment then NextToken(d, t.end, f) else t
  }

  // skipCommentTokens: comments are skipped only where the features allow them.
  function FirstToken(d: bytes, p: nat, f: Features): (t: Token)
    requires p <= |d|
    ensures p <= t.start <= t.end <= |d|
    ensures t.kind != EndOfStream ==> t.start < t.end
  {
    if f.allowComments then NextToken(d, p, f) else ReadToken(d, p, f)
  }

  // recoverFromError: where the reader resumes after discarding tokens.
  function Recover(d: bytes, p: nat, until: Kind, f: Features): (q: nat)
    requires p <= |d|
    ensures p <= q <= |d|
    decreases |d| - p
  {
    var t := ReadToken(d, p, f);
    if t.kind == until || t.kind == EndOfStream then t.end else Recover(d, t.end, until, f)
  }

  const BOM: bytes := [0xEF, 0xBB, 0xBF]

  function SkipBom(d: bytes, f: Features): (p: nat)
    ensures p <= |d|
  {
    if f.skipBom && At(d, 0, BOM) then 3 else 0
  }
}
