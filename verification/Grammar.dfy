// The language the reader accepts and what its sentences mean, over the tokens of a document and
// without reference to how the reader goes about it. A tree records the tokens a value consists of.
module Grammar {
  import opened Bytes
  import opened Scanner
  import opened Values
  import opened ReaderSpec
  import JsonStrings
  import Numbers

  datatype Tree =
    | Leaf(token: Token)
    | Absent(before: Token)  // a dropped null, before a comma or a closing bracket
    | List(open: Token, items: seq<Tree>, commas: seq<Token>, close: Token)
    | Record(open: Token, names: seq<Token>, colons: seq<Token>, values: seq<Tree>, commas: seq<Token>, close: Token)

  function End(x: Tree): nat {
    match x
    case Leaf(t) => t.end
    case Absent(t) => t.start
    case List(_, _, _, close) => close.end
    case Record(_, _, _, _, _, close) => close.end
  }

  // ---------------------------------------------------------------- tokens by themselves

  function LeafValue(d: bytes, t: Token, fl: Floats): Option<Value>
    requires t.start <= t.end <= |d|
  {
    match t.kind
    case Number => NumberValue(d[t.start..t.end], fl)
    case String => (match StringOf(d, t) case Text(s, _) => Some(Str(s)) case Failed(_) => None)
    case True => Some(Bool(true))
    case False => Some(Bool(false))
    case Null => Some(Value.Null)
    case NaN => Some(Value.Real(Values.NaN))
    case PosInf => Some(Value.Real(Values.PosInfinity))
    case NegInf => Some(Value.Real(Values.NegInfinity))
    case _ => None
  }

  // What is wrong with a token that is no value.
  function LeafError(d: bytes, t: Token): ErrorKind
    requires t.start <= t.end <= |d|
  {
    match t.kind
    case Number => NotANumber
    case String => (match StringOf(d, t) case Text(_, _) => ValueExpected case Failed(e) => BadString(e))
    case _ => ValueExpected
  }

  // The name a token stands for in front of a colon.
  function NameText(d: bytes, t: Token, f: Features, fl: Floats): Option<bytes>
    requires t.start <= t.end <= |d|
  {
    match LeafValue(d, t, fl)
    case Some(Str(s)) => Some(s)
    case Some(Int(i)) => if f.allowNumericKeys then Some(Numbers.DecimalInt(i as int)) else None
    case Some(UInt(u)) => if f.allowNumericKeys then Some(Numbers.DecimalInt(u as int)) else None
    case Some(Real(x)) => if f.allowNumericKeys && t.kind == Number then Some(fl.show(x)) else None
    case _ => None
  }

  function NameError(d: bytes, t: Token, f: Features): ErrorKind
    requires t.start <= t.end <= |d|
  {
    if t.kind == String || (t.kind == Number && f.allowNumericKeys) then LeafError(d, t) else MissingMemberName
  }

  // Where a null may be dropped.
  predicate EndsValue(kind: Kind) { kind == ArraySeparator || kind == ArrayEnd || kind == ObjectEnd }

  // ---------------------------------------------------------------- values

  // From `p` on, `depth` levels down, the document spells `x`. Comments are skipped ahead of a value
  // where the features allow them.
  predicate ValueAt(d: bytes, p: nat, depth: nat, x: Tree, f: Features, fl: Floats)
    decreases x, 3
  {
    p <= |d| && depth <= f.stackLimit &&
    var t := FirstToken(d, p, f);
    match x
    case Leaf(token) => token == t && LeafValue(d, t, fl).Some?
    case Absent(before) => before == t && f.allowDroppedNullPlaceholders && EndsValue(t.kind)
    case List(open, _, _, _) => open == t && t.kind == ArrayBegin && ListAt(d, t.end, depth, x, f, fl)
    case Record(open, _, _, _, _, _) => open == t && t.kind == ObjectBegin && RecordAt(d, t.end, depth, x, f, fl)
  }

  // Where the k-th item or member starts.
  function Start(p: nat, commas: seq<Token>, k: nat): nat
    requires k <= |commas|
  {
    if k == 0 then p else commas[k - 1].end
  }

  // ---------------------------------------------------------------- arrays

  predicate ItemAt(d: bytes, p: nat, depth: nat, x: Tree, i: nat, f: Features, fl: Floats)
    requires x.List? && i < |x.items| && i <= |x.commas|
    decreases x, 0
  {
    ValueAt(d, Start(p, x.commas, i), depth + 1, x.items[i], f, fl) && End(x.items[i]) <= |d|
  }

  // Comments are skipped ahead of the comma, whatever the features.
  predicate CommaAt(d: bytes, x: Tree, i: nat, f: Features)
    requires x.List? && i < |x.items| && i < |x.commas|
  {
    End(x.items[i]) <= |d| && x.commas[i] == NextToken(d, End(x.items[i]), f) && x.commas[i].kind == ArraySeparator
  }

  // item , item , and so on, ending with an item or a comma.
  predicate ItemsAt(d: bytes, p: nat, depth: nat, x: Tree, f: Features, fl: Floats)
    requires x.List?
    decreases x, 1
  {
    && p <= |d| && |x.commas| <= |x.items| <= |x.commas| + 1
    && (forall i :: 0 <= i < |x.items| ==> ItemAt(d, p, depth, x, i, f, fl))
    && (forall i :: 0 <= i < |x.commas| ==> CommaAt(d, x, i, f))
    && (x.items != [] ==> ReadToken(d, p, f).kind != ArrayEnd)
  }

  // A closing bracket at the very start, or after a comma where trailing commas are allowed. No
  // comment may stand before it.
  predicate ClosesHere(d: bytes, p: nat, k: nat, f: Features)
    requires p <= |d|
  {
    ReadToken(d, p, f).kind == ArrayEnd && (k == 0 || (f.allowTrailingCommas && !f.allowDroppedNullPlaceholders))
  }

  predicate ListAt(d: bytes, p: nat, depth: nat, x: Tree, f: Features, fl: Floats)
    requires x.List?
    decreases x, 2
  {
    && ItemsAt(d, p, depth, x, f, fl)
    && if |x.commas| < |x.items| then
         assert ItemAt(d, p, depth, x, |x.commas|, f, fl);
         x.close == NextToken(d, End(x.items[|x.commas|]), f) && x.close.kind == ArrayEnd
       else
         var q := Start(p, x.commas, |x.commas|);
         q <= |d| && ClosesHere(d, q, |x.items|, f) && x.close == ReadToken(d, q, f)
  }

  // ---------------------------------------------------------------- objects

  function FieldName(d: bytes, x: Tree, i: nat, f: Features, fl: Floats): bytes
    requires x.Record? && i < |x.names|
  {
    if x.names[i].start <= x.names[i].end <= |d| then
      match NameText(d, x.names[i], f, fl) case Some(name) => name case None => []
    else []
  }

  // The name of the last member before the k-th.
  function LastName(d: bytes, x: Tree, k: nat, f: Features, fl: Floats): bytes
    requires x.Record? && k <= |x.names|
  {
    if k == 0 then [] else FieldName(d, x, k - 1, f, fl)
  }

  predicate NameAt(d: bytes, p: nat, x: Tree, i: nat, f: Features, fl: Floats)
    requires x.Record? && i < |x.names| && i <= |x.commas|
  {
    var q := Start(p, x.commas, i);
    && q <= |d| && x.names[i] == NextToken(d, q, f)
    && NameText(d, x.names[i], f, fl).Some? && |FieldName(d, x, i, f, fl)| <= MAX_KEY_LENGTH
    && (f.rejectDupKeys ==> forall j :: 0 <= j < i ==> FieldName(d, x, j, f, fl) != FieldName(d, x, i, f, fl))
  }

  // No comment may stand before the colon.
  predicate ColonAt(d: bytes, x: Tree, i: nat, f: Features)
    requires x.Record? && i < |x.names| && i < |x.colons|
  {
    && x.names[i].end <= |d| && x.colons[i] == ReadToken(d, x.names[i].end, f) && x.colons[i].kind == MemberSeparator
  }

  predicate MemberAt(d: bytes, x: Tree, i: nat, depth: nat, f: Features, fl: Floats)
    requires x.Record? && i < |x.colons| && i < |x.values|
    decreases x, 0
  {
    ValueAt(d, x.colons[i].end, depth + 1, x.values[i], f, fl) && End(x.values[i]) <= |d|
  }

  // A comma; or, after a comment, any token but a closing brace.
  predicate Separates(d: bytes, p: nat, t: Token, f: Features)
    requires p <= |d|
  {
    t == NextToken(d, p, f) && if ReadToken(d, p, f).kind == Comment then t.kind != ObjectEnd else t.kind == ArraySeparator
  }

  predicate SeparatorAt(d: bytes, x: Tree, i: nat, f: Features)
    requires x.Record? && i < |x.values| && i < |x.commas|
  {
    End(x.values[i]) <= |d| && Separates(d, End(x.values[i]), x.commas[i], f)
  }

  // name : value , and so on, ending with a value or a separator.
  predicate MembersAt(d: bytes, p: nat, depth: nat, x: Tree, f: Features, fl: Floats)
    requires x.Record?
    decreases x, 1
  {
    && p <= |d| && |x.names| == |x.colons| == |x.values| && |x.commas| <= |x.values| <= |x.commas| + 1
    && (forall i :: 0 <= i < |x.names| ==> NameAt(d, p, x, i, f, fl))
    && (forall i :: 0 <= i < |x.colons| ==> ColonAt(d, x, i, f))
    && (forall i :: 0 <= i < |x.values| ==> MemberAt(d, x, i, depth, f, fl))
    && (forall i :: 0 <= i < |x.commas| ==> SeparatorAt(d, x, i, f))
  }

  // A closing brace ahead, at the start, where trailing commas are allowed, or after an empty name.
  predicate ClosesRecord(d: bytes, p: nat, last: bytes, f: Features)
    requires p <= |d|
  {
    NextToken(d, p, f).kind == ObjectEnd && (last == [] || f.allowTrailingCommas)
  }

  predicate RecordAt(d: bytes, p: nat, depth: nat, x: Tree, f: Features, fl: Floats)
    requires x.Record?
    decreases x, 2
  {
    && MembersAt(d, p, depth, x, f, fl)
    && if |x.commas| < |x.values| then
         assert MemberAt(d, x, |x.commas|, depth, f, fl);
         x.close == NextToken(d, End(x.values[|x.commas|]), f) && x.close.kind == ObjectEnd
       else
         var q := Start(p, x.commas, |x.commas|);
         q <= |d| && ClosesRecord(d, q, LastName(d, x, |x.names|, f, fl), f) && x.close == NextToken(d, q, f)
  }

  // ---------------------------------------------------------------- meaning

  // Items in order; members put in one after the other, so that of equal names the last one counts.
  function Meaning(d: bytes, x: Tree, f: Features, fl: Floats): Value
    decreases x, 1
  {
    match x
    case Leaf(t) =>
      if t.start <= t.end <= |d| then match LeafValue(d, t, fl) case Some(v) => v case None => Value.Null
      else Value.Null
    case Absent(_) => Value.Null
    case List(_, items, _, _) => Array(ListEntries(d, x, |items|, f, fl))
    case Record(_, names, _, values, _, _) =>
      Obj(RecordEntries(d, x, if |names| <= |values| then |names| else |values|, f, fl))
  }

  function ListEntries(d: bytes, x: Tree, k: nat, f: Features, fl: Floats): (r: seq<Entry>)
    requires x.List? && k <= |x.items|
    ensures |r| == k && forall i :: 0 <= i < k ==> r[i].key == Index(i)
    decreases x, 0
  {
    seq(k, i requires 0 <= i < k => Entry(Index(i), Meaning(d, x.items[i], f, fl)))
  }

  function RecordEntries(d: bytes, x: Tree, k: nat, f: Features, fl: Floats): (r: seq<Entry>)
    requires x.Record? && k <= |x.names| && k <= |x.values|
    ensures KeysOf(r, false)
    decreases x, 0, k
  {
    if k == 0 then []
    else Put(RecordEntries(d, x, k - 1, f, fl), Name(FieldName(d, x, k - 1, f, fl)), Meaning(d, x.values[k - 1], f, fl))
  }

  // ---------------------------------------------------------------- documents

  predicate DocumentAt(d: bytes, x: Tree, f: Features, fl: Floats) {
    && ValueAt(d, SkipBom(d, f), 1, x, f, fl) && End(x) <= |d|
    && (f.failIfExtra ==> FirstToken(d, End(x), f).kind == EndOfStream)
    && (f.strictRoot ==> x.List? || x.Record?)
  }

  // ---------------------------------------------------------------- faults

  // The first place at which a document leaves the language: what has been read in the containers
  // around it, and what is wrong.
  datatype Fault =
    | TooDeep
    | NoValue(kind: ErrorKind, token: Token)
    | InItem(list: Tree, inner: Fault)
    | NoComma(list: Tree, token: Token)
    | NoName(record: Tree, kind: ErrorKind, token: Token)
    | NameTooLong(record: Tree, name: Token)
    | NameRepeated(record: Tree, name: Token)
    | NoColon(record: Tree, name: Token, token: Token)
    | InMember(record: Tree, name: Token, colon: Token, inner: Fault)
    | NoSeparator(record: Tree, token: Token)

  datatype Report = Refused(info: ErrorInfo) | Thrown(exception: Exception)

  // What the caller gets to know of it.
  function Reported(y: Fault): Report {
    match y
    case TooDeep => Thrown(StackLimitExceeded)
    case NoValue(kind, t) => Refused(ErrorInfo(kind, t))
    case InItem(_, inner) => Reported(inner)
    case NoComma(_, t) => Refused(ErrorInfo(MissingArrayComma, t))
    case NoName(_, kind, t) => Refused(ErrorInfo(kind, t))
    case NameTooLong(_, _) => Thrown(KeyTooLong)
    case NameRepeated(_, t) => Refused(ErrorInfo(DuplicateKey, t))
    case NoColon(_, _, t) => Refused(ErrorInfo(MissingColon, t))
    case InMember(_, _, _, inner) => Reported(inner)
    case NoSeparator(_, t) => Refused(ErrorInfo(MissingObjectComma, t))
  }

  // What the value holds then, where it held `prior` before: all that was read up to the fault.
  function Left(d: bytes, y: Fault, prior: Value, f: Features, fl: Floats): Value
    decreases y
  {
    match y
    case InItem(list, inner) =>
      if list.List? then
        var entries, key := ListEntries(d, list, |list.items|, f, fl), Index(|list.items|);
        Array(Put(entries, key, Left(d, inner, Get(entries, key), f, fl)))
      else prior
    case NoComma(list, _) => if list.List? then Array(ListEntries(d, list, |list.items|, f, fl)) else prior
    case InMember(record, name, _, inner) =>
      if record.Record? && |record.names| == |record.values| && name.start <= name.end <= |d| && NameText(d, name, f, fl).Some? then
        var entries, key := RecordEntries(d, record, |record.names|, f, fl), Name(NameText(d, name, f, fl).value);
        Obj(Put(entries, key, Left(d, inner, Get(entries, key), f, fl)))
      else prior
    case NoName(record, _, _) => Members(d, record, f, fl)
    case NameRepeated(record, _) => Members(d, record, f, fl)
    case NoColon(record, _, _) => Members(d, record, f, fl)
    case NoSeparator(record, _) => Members(d, record, f, fl)
    case _ => prior
  }

  function Members(d: bytes, x: Tree, f: Features, fl: Floats): Value {
    if x.Record? && |x.names| == |x.values| then Obj(RecordEntries(d, x, |x.names|, f, fl)) else Value.Null
  }

  // Where the reader stops: it skips from container to container, each time to a token that could
  // close it.
  function Resume(d: bytes, y: Fault, f: Features): nat
    decreases y
  {
    match y
    case NoValue(_, t) => t.end
    case InItem(_, inner) => Past(d, Resume(d, inner, f), ArrayEnd, f)
    case NoComma(_, t) => Past(d, t.end, ArrayEnd, f)
    case InMember(_, _, _, inner) => Past(d, Resume(d, inner, f), ObjectEnd, f)
    case NoName(_, _, t) => Past(d, t.end, ObjectEnd, f)
    case NameRepeated(_, t) => Past(d, t.end, ObjectEnd, f)
    case NoColon(_, _, t) => Past(d, t.end, ObjectEnd, f)
    case NoSeparator(_, t) => Past(d, t.end, ObjectEnd, f)
    case _ => 0
  }

  function Past(d: bytes, p: nat, until: Kind, f: Features): nat { if p <= |d| then Recover(d, p, until, f) else 0 }

  predicate FaultAt(d: bytes, p: nat, depth: nat, y: Fault, f: Features, fl: Floats)
    decreases y, 1
  {
    p <= |d| &&
    if depth > f.stackLimit then y.TooDeep? else
    var t := FirstToken(d, p, f);
    if t.kind == ArrayBegin then ListFault(d, t, depth, y, f, fl)
    else if t.kind == ObjectBegin then RecordFault(d, t, depth, y, f, fl)
    else
      && y == NoValue(LeafError(d, t), t) && LeafValue(d, t, fl).None?
      && !(f.allowDroppedNullPlaceholders && EndsValue(t.kind))
  }

  // A fault in the array that `t` opens: in an item, or after one.
  predicate ListFault(d: bytes, t: Token, depth: nat, y: Fault, f: Features, fl: Floats)
    decreases y, 0
  {
    match y
    case InItem(list, inner) =>
      && list.List? && list.open == t && ListSoFar(d, t.end, depth, list, f, fl)
      && var q := Start(t.end, list.commas, |list.commas|);
         q <= |d| && !ClosesHere(d, q, |list.items|, f) && FaultAt(d, q, depth + 1, inner, f, fl)
    case NoComma(list, token) =>
      && list.List? && list.open == t && ItemsAt(d, t.end, depth, list, f, fl)
      && |list.items| == |list.commas| + 1 && End(list.items[|list.commas|]) <= |d|
      && token == NextToken(d, End(list.items[|list.commas|]), f)
      && token.kind != ArraySeparator && token.kind != ArrayEnd
    case _ => false
  }

  // A fault in the object that `t` opens: in a name, a colon or a value, or after one.
  predicate RecordFault(d: bytes, t: Token, depth: nat, y: Fault, f: Features, fl: Floats)
    decreases y, 0
  {
    match y
    case NoName(record, kind, token) =>
      && RecordOpen(d, t, depth, record, f, fl)
      && var q := Start(t.end, record.commas, |record.commas|);
         && token == NextToken(d, q, f) && NameText(d, token, f, fl).None? && kind == NameError(d, token, f)
         && !ClosesRecord(d, q, LastName(d, record, |record.names|, f, fl), f)
    case NameTooLong(record, name) =>
      NamedNext(d, t, depth, record, name, f, fl) && |NameText(d, name, f, fl).value| > MAX_KEY_LENGTH
    case NameRepeated(record, name) =>
      && NamedNext(d, t, depth, record, name, f, fl) && |NameText(d, name, f, fl).value| <= MAX_KEY_LENGTH
      && f.rejectDupKeys && Taken(d, record, NameText(d, name, f, fl).value, f, fl)
    case NoColon(record, name, token) =>
      && FreshNext(d, t, depth, record, name, f, fl)
      && token == ReadToken(d, name.end, f) && token.kind != MemberSeparator
    case InMember(record, name, colon, inner) =>
      && FreshNext(d, t, depth, record, name, f, fl)
      && colon == ReadToken(d, name.end, f) && colon.kind == MemberSeparator
      && FaultAt(d, colon.end, depth + 1, inner, f, fl)
    case NoSeparator(record, token) =>
      && record.Record? && record.open == t && MembersAt(d, t.end, depth, record, f, fl)
      && |record.values| == |record.commas| + 1 && End(record.values[|record.commas|]) <= |d|
      && token == ReadToken(d, End(record.values[|record.commas|]), f)
      && token.kind != ObjectEnd && token.kind != ArraySeparator && token.kind != Comment
    case _ => false
  }

  // item , item ,
  predicate ListSoFar(d: bytes, p: nat, depth: nat, x: Tree, f: Features, fl: Floats)
    requires x.List?
  {
    ItemsAt(d, p, depth, x, f, fl) && |x.commas| == |x.items|
  }

  // name : value , name : value ,
  predicate RecordSoFar(d: bytes, p: nat, depth: nat, x: Tree, f: Features, fl: Floats)
    requires x.Record?
  {
    MembersAt(d, p, depth, x, f, fl) && |x.commas| == |x.values| && Start(p, x.commas, |x.commas|) <= |d|
  }

  predicate RecordOpen(d: bytes, t: Token, depth: nat, x: Tree, f: Features, fl: Floats) {
    t.end <= |d| && x.Record? && x.open == t && RecordSoFar(d, t.end, depth, x, f, fl)
  }

  predicate NamedNext(d: bytes, t: Token, depth: nat, x: Tree, name: Token, f: Features, fl: Floats) {
    && RecordOpen(d, t, depth, x, f, fl)
    && name == NextToken(d, Start(t.end, x.commas, |x.commas|), f) && NameText(d, name, f, fl).Some?
  }

  predicate Taken(d: bytes, x: Tree, name: bytes, f: Features, fl: Floats)
    requires x.Record?
  {
    exists i :: 0 <= i < |x.names| && FieldName(d, x, i, f, fl) == name
  }

  predicate FreshNext(d: bytes, t: Token, depth: nat, x: Tree, name: Token, f: Features, fl: Floats) {
    && NamedNext(d, t, depth, x, name, f, fl) && |NameText(d, name, f, fl).value| <= MAX_KEY_LENGTH
    && (f.rejectDupKeys ==> !Taken(d, x, NameText(d, name, f, fl).value, f, fl))
  }
}
