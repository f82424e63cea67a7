// What OurReader computes, as functions of the document, the offset, the node-stack depth and the
// value being filled in. Every function reports the offset at which it stops, the value it leaves
// behind and the errors it adds.
module ReaderSpec {
  import opened Bytes
  import opened Scanner
  import opened Values
  import JsonStrings
  import Numbers

  // The floating-point half of the number codec, which stays abstract: a text is a real number or
  // it is not, and a real number has some text (used only for numeric member names).
  datatype Floats = Floats(parse: bytes -> Option<Values.Real>, show: Values.Real -> bytes)

  datatype ErrorKind =
    | ExtraAfterValue | ContainerExpected | ValueExpected | NotANumber | MissingMemberName
    | MissingColon | DuplicateKey | MissingObjectComma | MissingArrayComma
    | BadString(error: JsonStrings.StringError)

  datatype ErrorInfo = ErrorInfo(kind: ErrorKind, token: Token)

  datatype Exception = StackLimitExceeded | KeyTooLong

  datatype Outcome =
    | Threw(exception: Exception)
    | Read(ok: bool, pos: nat, value: Value, errors: seq<ErrorInfo>)

  // What every step of the reader keeps: the cursor only moves forward inside the document, and
  // it fails exactly when it leaves an error behind.
  ghost predicate Sound(r: Outcome, d: bytes, p: nat) {
    r.Read? ==> p <= r.pos <= |d| && (r.ok <==> r.errors == [])
  }

  // A number token: an integer, or whatever the floating-point decoder says.
  function NumberValue(text: bytes, fl: Floats): Option<Value> {
    match Numbers.DecodeInteger(text)
    case Signed(i) => Some(Int(i))
    case Unsigned(u) => Some(UInt(u))
    case NotAnInteger =>
      match fl.parse(text)
      case Some(x) => Some(Value.Real(x))
      case None => None
  }

  // asString of a decoded number, used as a member name.
  function NumberName(v: Value, fl: Floats): bytes {
    match v
    case Int(i) => Numbers.DecimalInt(i as int)
    case UInt(u) => Numbers.DecimalInt(u as int)
    case Real(x) => fl.show(x)
    case _ => []
  }

  // The characters between a string token's quotes.
  function Body(d: bytes, t: Token): bytes
    requires t.end <= |d| && t.start + 2 <= t.end
  {
    d[t.start + 1..t.end - 1]
  }

  function Text(d: bytes, t: Token): bytes
    requires t.start <= t.end <= |d|
  {
    d[t.start..t.end]
  }

  lemma StringTokenHasQuotes(d: bytes, p: nat, f: Features)
    requires p <= |d|
    ensures ReadToken(d, p, f).kind == String ==> ReadToken(d, p, f).start + 2 <= ReadToken(d, p, f).end
  {
  }

  lemma {:induction false} NextStringHasQuotes(d: bytes, p: nat, f: Features)
    requires p <= |d|
    ensures NextToken(d, p, f).kind == String ==> NextToken(d, p, f).start + 2 <= NextToken(d, p, f).end
    decreases |d| - p
  {
    StringTokenHasQuotes(d, p, f);
    var t := ReadToken(d, p, f);
    if t.kind == Comment {
      NextStringHasQuotes(d, t.end, f);
    }
  }

  lemma FirstStringHasQuotes(d: bytes, p: nat, f: Features)
    requires p <= |d|
    ensures FirstToken(d, p, f).kind == String ==> FirstToken(d, p, f).start + 2 <= FirstToken(d, p, f).end
  {
    StringTokenHasQuotes(d, p, f);
    NextStringHasQuotes(d, p, f);
  }

  // A string token's text, or why it has none.
  function StringOf(d: bytes, t: Token): JsonStrings.DecodeResult
    requires t.start <= t.end <= |d|
  {
    if t.start + 2 <= t.end then JsonStrings.DecodeBody(Body(d, t)) else JsonStrings.Text([], 0)
  }

  function Fail(kind: ErrorKind, t: Token, pos: nat, value: Value): Outcome {
    Read(false, pos, value, [ErrorInfo(kind, t)])
  }

  function FailAndRecover(d: bytes, kind: ErrorKind, t: Token, p: nat, value: Value, until: Kind,
      f: Features): (r: Outcome)
    requires p <= |d|
    ensures Sound(r, d, p)
  {
    Fail(kind, t, Recover(d, p, until, f), value)
  }

  // readValue on a token that opens no container.
  function ScalarOutcome(d: bytes, t: Token, prior: Value, f: Features, fl: Floats): (r: Outcome)
    requires t.start <= t.end <= |d|
    requires t.kind != EndOfStream ==> t.start < t.end
    ensures r.Read? && r.pos <= |d| && (r.ok <==> r.errors == [])
    ensures r.pos == t.end || (t.start < t.end && r.pos == t.end - 1)
  {
    if f.allowDroppedNullPlaceholders
       && (t.kind == ArraySeparator || t.kind == ObjectEnd || t.kind == ArrayEnd)
    then Read(true, t.end - 1, Value.Null, []) // the token is un-read
    else match t.kind
    case Number =>
      (match NumberValue(Text(d, t), fl)
       case Some(v) => Read(true, t.end, v, [])
       case None => Fail(NotANumber, t, t.end, prior))
    case String =>
      (match StringOf(d, t)
       case Text(s, _) => Read(true, t.end, Str(s), [])
       case Failed(e) => Fail(BadString(e), t, t.end, prior))
    case True => Read(true, t.end, Bool(true), [])
    case False => Read(true, t.end, Bool(false), [])
    case Null => Read(true, t.end, Value.Null, [])
    case NaN => Read(true, t.end, Value.Real(Values.NaN), [])
    case PosInf => Read(true, t.end, Value.Real(Values.PosInfinity), [])
    case NegInf => Read(true, t.end, Value.Real(Values.NegInfinity), [])
    case _ => Fail(ValueExpected, t, t.end, prior)
  }

  function ReadValue(d: bytes, p: nat, depth: nat, prior: Value, f: Features, fl: Floats): (r: Outcome)
    requires p <= |d|
    ensures Sound(r, d, p)
    decreases |d| - p, 1
  {
    if depth > f.stackLimit then Threw(StackLimitExceeded) else
    var t := FirstToken(d, p, f);
    match t.kind
    case ObjectBegin => ReadMembers(d, t.end, depth, [], [], f, fl)
    case ArrayBegin => ReadItems(d, t.end, depth, [], 0, f, fl)
    case _ => ScalarOutcome(d, t, prior, f, fl)
  }

  // A member's name: the token that holds it, and the name or the error.
  datatype NameResult = MemberName(name: bytes) | NoName(kind: ErrorKind)

  function NameOf(d: bytes, t: Token, f: Features, fl: Floats): NameResult
    requires t.start <= t.end <= |d|
  {
    if t.kind == String then
      match StringOf(d, t)
      case Text(s, _) => MemberName(s)
      case Failed(e) => NoName(BadString(e))
    else if t.kind == Number && f.allowNumericKeys then
      match NumberValue(Text(d, t), fl)
      case Some(v) => MemberName(NumberName(v, fl))
      case None => NoName(NotANumber)
    else NoName(MissingMemberName)
  }

  // The object loop from the top of an iteration: `entries` are the members read so far and
  // `name` the last member's name.
  function ReadMembers(d: bytes, p: nat, depth: nat, entries: seq<Entry>, name: bytes, f: Features,
      fl: Floats): (r: Outcome)
    requires p <= |d| && KeysOf(entries, false)
    ensures Sound(r, d, p)
    decreases |d| - p, 4
  {
    var t := NextToken(d, p, f);
    if t.kind == ObjectEnd && (name == [] || f.allowTrailingCommas) then Read(true, t.end, Obj(entries), [])
    else match NameOf(d, t, f, fl)
      case NoName(kind) => FailAndRecover(d, kind, t, t.end, Obj(entries), ObjectEnd, f)
      case MemberName(key) =>
        if |key| > MAX_KEY_LENGTH then Threw(KeyTooLong)
        else if f.rejectDupKeys && Has(entries, Name(key)) then
          FailAndRecover(d, DuplicateKey, t, t.end, Obj(entries), ObjectEnd, f)
        else NamedMember(d, t.end, depth, entries, key, f, fl)
  }

  // From a member's colon on.
  function NamedMember(d: bytes, p: nat, depth: nat, entries: seq<Entry>, key: bytes, f: Features,
      fl: Floats): (r: Outcome)
    requires p <= |d| && KeysOf(entries, false)
    ensures Sound(r, d, p)
    decreases |d| - p, 5
  {
    var colon := ReadToken(d, p, f);
    if colon.kind != MemberSeparator then
      FailAndRecover(d, MissingColon, colon, colon.end, Obj(entries), ObjectEnd, f)
    else
      var v := ReadValue(d, colon.end, depth + 1, Get(entries, Name(key)), f, fl);
      if v.Threw? then v
      else AfterMember(d, colon.end, depth, Put(entries, Name(key), v.value), key, f, fl, v)
  }

  // What follows a member's value `v`, which is already among `entries`.
  function AfterMember(d: bytes, p: nat, depth: nat, entries: seq<Entry>, key: bytes, f: Features, fl: Floats,
      v: Outcome): (r: Outcome)
    requires p <= |d| && KeysOf(entries, false) && v.Read? && Sound(v, d, p)
    ensures Sound(r, d, p)
    decreases |d| - p, 5
  {
    if !v.ok then Read(false, Recover(d, v.pos, ObjectEnd, f), Obj(entries), v.errors) else
    var comma := ReadToken(d, v.pos, f);
    if comma.kind != ObjectEnd && comma.kind != ArraySeparator && comma.kind != Comment then
      FailAndRecover(d, MissingObjectComma, comma, comma.end, Obj(entries), ObjectEnd, f)
    else
      var next := if comma.kind == Comment then NextToken(d, comma.end, f) else comma;
      if next.kind == ObjectEnd then Read(true, next.end, Obj(entries), [])
      else ReadMembers(d, next.end, depth, entries, key, f, fl)
  }

  // The array loop from the top of an iteration.
  function ReadItems(d: bytes, p: nat, depth: nat, entries: seq<Entry>, index: nat, f: Features,
      fl: Floats): (r: Outcome)
    requires p <= |d| && KeysOf(entries, true)
    ensures Sound(r, d, p)
    decreases |d| - p, 4
  {
    var q := SkipSpaces(d, p);
    if q < |d| && d[q] == RBRACKET
       && (index == 0 || (f.allowTrailingCommas && !f.allowDroppedNullPlaceholders))
    then Read(true, q + 1, Array(entries), [])
    else NextItem(d, q, depth, entries, index, f, fl)
  }

  // From the first character of an item on.
  function NextItem(d: bytes, p: nat, depth: nat, entries: seq<Entry>, index: nat, f: Features,
      fl: Floats): (r: Outcome)
    requires p <= |d| && KeysOf(entries, true)
    ensures Sound(r, d, p)
    decreases |d| - p, 3
  {
    var v := ReadValue(d, p, depth + 1, Get(entries, Index(index)), f, fl);
    if v.Threw? then v
    else AfterItem(d, p, depth, Put(entries, Index(index), v.value), index, f, fl, v)
  }

  // What follows an item `v`, which is already among `entries`.
  function AfterItem(d: bytes, p: nat, depth: nat, entries: seq<Entry>, index: nat, f: Features, fl: Floats,
      v: Outcome): (r: Outcome)
    requires p <= |d| && KeysOf(entries, true) && v.Read? && Sound(v, d, p)
    ensures Sound(r, d, p)
    decreases |d| - p, 2
  {
    if !v.ok then Read(false, Recover(d, v.pos, ArrayEnd, f), Array(entries), v.errors) else
    var t := NextToken(d, v.pos, f);
    if t.kind != ArraySeparator && t.kind != ArrayEnd then
      FailAndRecover(d, MissingArrayComma, t, t.end, Array(entries), ArrayEnd, f)
    else if t.kind == ArrayEnd then Read(true, t.end, Array(entries), [])
    else ReadItems(d, t.end, depth, entries, index + 1, f, fl)
  }

  // The checks of OurReader::parse after the value `v`.
  function Finish(d: bytes, v: Outcome, f: Features): (r: Outcome)
    requires v.Read? && v.pos <= |d|
    ensures r.Read? && r.pos <= |d|
  {
    var t := FirstToken(d, v.pos, f);
    if f.failIfExtra && t.kind != EndOfStream then
      Read(false, t.end, v.value, v.errors + [ErrorInfo(ExtraAfterValue, t)])
    else if f.strictRoot && !IsContainer(v.value) then
      Read(false, t.end, v.value, v.errors + [ErrorInfo(ContainerExpected, Token(Error, 0, |d|))])
    else Read(v.ok, t.end, v.value, v.errors)
  }

  // OurReader::parse.
  function Parse(d: bytes, root: Value, f: Features, fl: Floats): (r: Outcome)
    ensures Sound(r, d, 0)
  {
    var v := ReadValue(d, SkipBom(d, f), 1, root, f, fl);
    if v.Threw? then v else Finish(d, v, f)
  }
}
