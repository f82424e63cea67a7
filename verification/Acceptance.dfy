// The reader accepts exactly the language of the grammar, with the meaning the grammar gives it; and
// where a document leaves that language it reports exactly what is wrong at the first such place.
module Acceptance {
  import opened Bytes
  import opened Scanner
  import opened Values
  import opened ReaderSpec
  import opened Grammar
  import Numbers
  import JsonStrings
  import NormalForm
  import RoundTrip

  // ---------------------------------------------------------------- tokens

  lemma EndOfValueIsOneByte(d: bytes, p: nat, f: Features)
    requires p <= |d|
    ensures EndsValue(ReadToken(d, p, f).kind) ==> ReadToken(d, p, f).end == ReadToken(d, p, f).start + 1
  {
  }

  lemma {:induction false} NextEndOfValueIsOneByte(d: bytes, p: nat, f: Features)
    requires p <= |d|
    ensures EndsValue(NextToken(d, p, f).kind) ==> NextToken(d, p, f).end == NextToken(d, p, f).start + 1
    decreases |d| - p
  {
    EndOfValueIsOneByte(d, p, f);
    hide TokenAfter, SkipSpaces;
    var t := ReadToken(d, p, f);
    if t.kind == Comment {
      NextEndOfValueIsOneByte(d, t.end, f);
    }
  }

  lemma FirstEndOfValueIsOneByte(d: bytes, p: nat, f: Features)
    requires p <= |d|
    ensures EndsValue(FirstToken(d, p, f).kind) ==> FirstToken(d, p, f).end == FirstToken(d, p, f).start + 1
  {
    EndOfValueIsOneByte(d, p, f);
    NextEndOfValueIsOneByte(d, p, f);
  }

  // A value is the same read from its first character.
  lemma SameValue(d: bytes, p: nat, depth: nat, prior: Value, f: Features, fl: Floats)
    requires p <= |d|
    ensures ReadValue(d, SkipSpaces(d, p), depth, prior, f, fl) == ReadValue(d, p, depth, prior, f, fl)
  {
    RoundTrip.SkipIsIdempotent(d, p);
    hide TokenAfter, ReadItems, ReadMembers, ScalarOutcome;
    assert ReadToken(d, SkipSpaces(d, p), f) == ReadToken(d, p, f);
  }

  // ---------------------------------------------------------------- verdicts

  datatype Verdict = Fine(tree: Tree) | Faulty(fault: Fault)

  // The reader stops at `pos` with `left` in place, or throws.
  predicate Reports(r: Outcome, report: Report, pos: nat, left: Value) {
    match report
    case Refused(info) => r == Read(false, pos, left, [info])
    case Thrown(e) => r == Threw(e)
  }

  // A fault within brackets, whatever was there before.
  ghost predicate ReportsAnyway(r: Outcome, d: bytes, y: Fault, f: Features, fl: Floats) {
    forall prior :: ReportsFault(r, d, y, prior, f, fl)
  }

  predicate ReportsFault(r: Outcome, d: bytes, y: Fault, prior: Value, f: Features, fl: Floats) {
    Reports(r, Reported(y), Resume(d, y, f), Left(d, y, prior, f, fl))
  }

  // The verdict says what the reader did.
  ghost predicate Explains(v: Verdict, d: bytes, p: nat, depth: nat, prior: Value, r: Outcome, f: Features, fl: Floats) {
    match v
    case Fine(x) => ValueAt(d, p, depth, x, f, fl) && r == Read(true, End(x), Meaning(d, x, f, fl), [])
    case Faulty(y) => FaultAt(d, p, depth, y, f, fl) && ReportsFault(r, d, y, prior, f, fl)
  }

  ghost predicate ExplainsList(v: Verdict, d: bytes, t: Token, depth: nat, r: Outcome, f: Features, fl: Floats) {
    match v
    case Fine(x) =>
      && x.List? && x.open == t && ListAt(d, t.end, depth, x, f, fl)
      && r == Read(true, x.close.end, Meaning(d, x, f, fl), [])
    case Faulty(y) => ListFault(d, t, depth, y, f, fl) && ReportsAnyway(r, d, y, f, fl)
  }

  ghost predicate ExplainsRecord(v: Verdict, d: bytes, t: Token, depth: nat, r: Outcome, f: Features, fl: Floats) {
    match v
    case Fine(x) =>
      && x.Record? && x.open == t && RecordAt(d, t.end, depth, x, f, fl)
      && r == Read(true, x.close.end, Meaning(d, x, f, fl), [])
    case Faulty(y) => RecordFault(d, t, depth, y, f, fl) && ReportsAnyway(r, d, y, f, fl)
  }

  // ---------------------------------------------------------------- scalars

  lemma ScalarCases(d: bytes, t: Token, prior: Value, f: Features, fl: Floats)
    requires t.start < t.end <= |d| || (t.kind == EndOfStream && t.start <= t.end <= |d|)
    requires EndsValue(t.kind) ==> t.end == t.start + 1
    ensures var r := ScalarOutcome(d, t, prior, f, fl);
            if f.allowDroppedNullPlaceholders && EndsValue(t.kind) then r == Read(true, t.start, Value.Null, [])
            else match LeafValue(d, t, fl)
              case Some(v) => r == Read(true, t.end, v, [])
              case None => r == Fail(LeafError(d, t), t, t.end, prior)
    ensures EndsValue(t.kind) ==> LeafValue(d, t, fl).None?
  {
    hide NumberValue, StringOf;
  }

  lemma ExplainScalar(d: bytes, p: nat, depth: nat, prior: Value, f: Features, fl: Floats) returns (v: Verdict)
    requires p <= |d| && depth <= f.stackLimit
    requires FirstToken(d, p, f).kind != ArrayBegin && FirstToken(d, p, f).kind != ObjectBegin
    ensures Explains(v, d, p, depth, prior, ReadValue(d, p, depth, prior, f, fl), f, fl)
  {
    FirstEndOfValueIsOneByte(d, p, f);
    hide FirstToken, ScalarOutcome, LeafValue, LeafError;
    var t := FirstToken(d, p, f);
    ScalarCases(d, t, prior, f, fl);
    if f.allowDroppedNullPlaceholders && EndsValue(t.kind) {
      v := Fine(Absent(t));
    } else if LeafValue(d, t, fl).Some? {
      v := Fine(Leaf(t));
    } else {
      v := Faulty(NoValue(LeafError(d, t), t));
    }
  }

  // ---------------------------------------------------------------- one turn of the array loop

  lemma ListCloses(d: bytes, q: nat, depth: nat, entries: seq<Entry>, k: nat, f: Features, fl: Floats)
    requires q <= |d| && KeysOf(entries, true) && ClosesHere(d, q, k, f)
    ensures ReadItems(d, q, depth, entries, k, f, fl) == Read(true, ReadToken(d, q, f).end, Array(entries), [])
  {
    RoundTrip.ClosingBracketAhead(d, q, f);
    hide ReadToken, NextItem;
  }

  // An item is read, and what follows it decides.
  lemma ItemTurn(d: bytes, q: nat, depth: nat, entries: seq<Entry>, k: nat, f: Features, fl: Floats)
    requires q <= |d| && KeysOf(entries, true) && !ClosesHere(d, q, k, f)
    ensures var r := ReadItems(d, q, depth, entries, k, f, fl);
            var v := ReadValue(d, q, depth + 1, Get(entries, Index(k)), f, fl);
            && (v.Threw? ==> r == v)
            && (v.Read? && !v.ok ==>
                  r == Read(false, Recover(d, v.pos, ArrayEnd, f), Array(Put(entries, Index(k), v.value)), v.errors))
            && (v.Read? && v.ok ==>
                  var t := NextToken(d, v.pos, f);
                  var entries' := Put(entries, Index(k), v.value);
                  && (t.kind == ArrayEnd ==> r == Read(true, t.end, Array(entries'), []))
                  && (t.kind == ArraySeparator ==> r == ReadItems(d, t.end, depth, entries', k + 1, f, fl))
                  && (t.kind != ArrayEnd && t.kind != ArraySeparator ==>
                        Reports(r, Refused(ErrorInfo(MissingArrayComma, t)), Recover(d, t.end, ArrayEnd, f), Array(entries'))))
  {
    RoundTrip.ClosingBracketAhead(d, q, f);
    SameValue(d, q, depth + 1, Get(entries, Index(k)), f, fl);
    hide ReadToken, ReadValue, Get, Put;
    NextItemTurn(d, SkipSpaces(d, q), depth, entries, k, f, fl);
  }

  lemma NextItemTurn(d: bytes, q: nat, depth: nat, entries: seq<Entry>, k: nat, f: Features, fl: Floats)
    requires q <= |d| && KeysOf(entries, true)
    ensures var r := NextItem(d, q, depth, entries, k, f, fl);
            var v := ReadValue(d, q, depth + 1, Get(entries, Index(k)), f, fl);
            && (v.Threw? ==> r == v)
            && (v.Read? && !v.ok ==>
                  r == Read(false, Recover(d, v.pos, ArrayEnd, f), Array(Put(entries, Index(k), v.value)), v.errors))
            && (v.Read? && v.ok ==>
                  var t := NextToken(d, v.pos, f);
                  var entries' := Put(entries, Index(k), v.value);
                  && (t.kind == ArrayEnd ==> r == Read(true, t.end, Array(entries'), []))
                  && (t.kind == ArraySeparator ==> r == ReadItems(d, t.end, depth, entries', k + 1, f, fl))
                  && (t.kind != ArrayEnd && t.kind != ArraySeparator ==>
                        Reports(r, Refused(ErrorInfo(MissingArrayComma, t)), Recover(d, t.end, ArrayEnd, f), Array(entries'))))
  {
    hide ReadToken, NextToken, Get, Put, ReadValue, ReadItems;
  }

  // ---------------------------------------------------------------- growing a list

  function WithItem(x: Tree, item: Tree): Tree
    requires x.List?
  {
    List(x.open, x.items + [item], x.commas, x.close)
  }

  function WithComma(x: Tree, t: Token): Tree
    requires x.List?
  {
    List(x.open, x.items, x.commas + [t], x.close)
  }

  function Closed(x: Tree, t: Token): Tree
    requires x.List?
  {
    List(x.open, x.items, x.commas, t)
  }

  lemma AddItem(d: bytes, p: nat, depth: nat, x: Tree, item: Tree, f: Features, fl: Floats)
    requires x.List? && ListSoFar(d, p, depth, x, f, fl)
    requires Start(p, x.commas, |x.commas|) <= |d| && !ClosesHere(d, Start(p, x.commas, |x.commas|), |x.items|, f)
    requires ValueAt(d, Start(p, x.commas, |x.commas|), depth + 1, item, f, fl) && End(item) <= |d|
    ensures ItemsAt(d, p, depth, WithItem(x, item), f, fl)
  {
    var y := WithItem(x, item);
    if x.items == [] {
      NotClosedAtStart(d, p, f);
    }
    hide ValueAt, NextToken, ReadToken, ClosesHere;
    forall i | 0 <= i < |y.items| ensures ItemAt(d, p, depth, y, i, f, fl) {
      assert i < |x.items| ==> ItemAt(d, p, depth, x, i, f, fl);
    }
    forall i | 0 <= i < |y.commas| ensures CommaAt(d, y, i, f) {
      assert CommaAt(d, x, i, f);
    }
  }

  lemma NotClosedAtStart(d: bytes, p: nat, f: Features)
    requires p <= |d| && !ClosesHere(d, p, 0, f)
    ensures ReadToken(d, p, f).kind != ArrayEnd
  {
    hide ReadToken;
  }

  lemma AddComma(d: bytes, p: nat, depth: nat, x: Tree, t: Token, f: Features, fl: Floats)
    requires x.List? && ItemsAt(d, p, depth, x, f, fl) && |x.items| == |x.commas| + 1
    requires End(x.items[|x.commas|]) <= |d| && t == NextToken(d, End(x.items[|x.commas|]), f)
    requires t.kind == ArraySeparator
    ensures ListSoFar(d, p, depth, WithComma(x, t), f, fl)
  {
    var y := WithComma(x, t);
    hide ValueAt, NextToken, ReadToken;
    forall i | 0 <= i < |y.items| ensures ItemAt(d, p, depth, y, i, f, fl) {
      assert ItemAt(d, p, depth, x, i, f, fl);
    }
    forall i | 0 <= i < |y.commas| ensures CommaAt(d, y, i, f) {
      assert i < |x.commas| ==> CommaAt(d, x, i, f);
    }
    assert x.items != [];
    assert ItemsAt(d, p, depth, y, f, fl);
  }

  // Neither the closing bracket nor what comes later matters to what has been read.
  lemma CloseList(d: bytes, p: nat, depth: nat, x: Tree, t: Token, f: Features, fl: Floats)
    requires x.List? && ItemsAt(d, p, depth, x, f, fl)
    ensures ItemsAt(d, p, depth, Closed(x, t), f, fl)
    ensures Meaning(d, Closed(x, t), f, fl) == Array(ListEntries(d, x, |x.items|, f, fl))
  {
    var y := Closed(x, t);
    SameListEntries(d, x, y, |x.items|, f, fl);
    hide ValueAt, NextToken, ReadToken, ListEntries;
    forall i | 0 <= i < |y.items| ensures ItemAt(d, p, depth, y, i, f, fl) {
      assert ItemAt(d, p, depth, x, i, f, fl);
    }
    forall i | 0 <= i < |y.commas| ensures CommaAt(d, y, i, f) {
      assert CommaAt(d, x, i, f);
    }
  }

  // One more item is one more entry.
  lemma ListEntriesStep(d: bytes, x: Tree, k: nat, f: Features, fl: Floats)
    requires x.List? && k < |x.items|
    ensures ListEntries(d, x, k + 1, f, fl)
            == Put(ListEntries(d, x, k, f, fl), Index(k), Meaning(d, x.items[k], f, fl))
  {
    hide Meaning;
    PutAtEnd(ListEntries(d, x, k, f, fl), Index(k), Meaning(d, x.items[k], f, fl));
  }

  lemma SameListEntries(d: bytes, x: Tree, y: Tree, k: nat, f: Features, fl: Floats)
    requires x.List? && y.List? && k <= |x.items| && k <= |y.items| && x.items[..k] == y.items[..k]
    ensures ListEntries(d, x, k, f, fl) == ListEntries(d, y, k, f, fl)
  {
    hide Meaning;
    forall i | 0 <= i < k ensures x.items[i] == y.items[i] {
      assert x.items[..k][i] == y.items[..k][i];
    }
  }

  // ---------------------------------------------------------------- one turn of the object loop

  lemma RecordCloses(d: bytes, q: nat, depth: nat, entries: seq<Entry>, last: bytes, f: Features, fl: Floats)
    requires q <= |d| && KeysOf(entries, false) && ClosesRecord(d, q, last, f)
    ensures ReadMembers(d, q, depth, entries, last, f, fl) == Read(true, NextToken(d, q, f).end, Obj(entries), [])
  {
    hide NextToken, NameOf, NamedMember;
  }

  lemma NameCases(d: bytes, t: Token, f: Features, fl: Floats)
    requires t.start <= t.end <= |d|
    ensures NameOf(d, t, f, fl) == match NameText(d, t, f, fl)
                                   case Some(name) => MemberName(name)
                                   case None => NameResult.NoName(NameError(d, t, f))
  {
    hide StringOf, Numbers.DecodeInteger;
  }

  // A name is read, or is not acceptable.
  lemma NameTurn(d: bytes, q: nat, depth: nat, entries: seq<Entry>, last: bytes, f: Features, fl: Floats)
    requires q <= |d| && KeysOf(entries, false) && !ClosesRecord(d, q, last, f)
    ensures var r := ReadMembers(d, q, depth, entries, last, f, fl);
            var t := NextToken(d, q, f);
            match NameText(d, t, f, fl)
            case None => Reports(r, Refused(ErrorInfo(NameError(d, t, f), t)), Recover(d, t.end, ObjectEnd, f), Obj(entries))
            case Some(name) =>
              if |name| > MAX_KEY_LENGTH then r == Threw(KeyTooLong)
              else if f.rejectDupKeys && Has(entries, Name(name)) then
                Reports(r, Refused(ErrorInfo(DuplicateKey, t)), Recover(d, t.end, ObjectEnd, f), Obj(entries))
              else r == NamedMember(d, t.end, depth, entries, name, f, fl)
  {
    NameCases(d, NextToken(d, q, f), f, fl);
    hide NextToken, NameOf, NamedMember, NameText, NameError;
  }

  // From the colon on.
  lemma MemberTurn(d: bytes, q: nat, depth: nat, entries: seq<Entry>, name: bytes, f: Features, fl: Floats)
    requires q <= |d| && KeysOf(entries, false)
    ensures var r := NamedMember(d, q, depth, entries, name, f, fl);
            var colon := ReadToken(d, q, f);
            if colon.kind != MemberSeparator then
              Reports(r, Refused(ErrorInfo(MissingColon, colon)), Recover(d, colon.end, ObjectEnd, f), Obj(entries))
            else
              var v := ReadValue(d, colon.end, depth + 1, Get(entries, Name(name)), f, fl);
              && (v.Threw? ==> r == v)
              && (v.Read? && !v.ok ==>
                    r == Read(false, Recover(d, v.pos, ObjectEnd, f), Obj(Put(entries, Name(name), v.value)), v.errors))
              && (v.Read? && v.ok ==>
                    r == AfterMember(d, colon.end, depth, Put(entries, Name(name), v.value), name, f, fl, v))
  {
    hide ReadToken, Get, Put, ReadValue;
  }

  // From behind a value on.
  lemma SeparatorTurn(d: bytes, p: nat, depth: nat, entries: seq<Entry>, name: bytes, f: Features, fl: Floats,
      v: Outcome)
    requires p <= |d| && KeysOf(entries, false) && v.Read? && v.ok && Sound(v, d, p)
    ensures var r := AfterMember(d, p, depth, entries, name, f, fl, v);
            var first, t := ReadToken(d, v.pos, f), NextToken(d, v.pos, f);
            && (first.kind != ObjectEnd && first.kind != ArraySeparator && first.kind != Comment ==>
                  Reports(r, Refused(ErrorInfo(MissingObjectComma, first)), Recover(d, first.end, ObjectEnd, f), Obj(entries)))
            && (t.kind == ObjectEnd ==> r == Read(true, t.end, Obj(entries), []))
            && (Separates(d, v.pos, t, f) ==> r == ReadMembers(d, t.end, depth, entries, name, f, fl))
            && (first.kind == ObjectEnd ==> t.kind == ObjectEnd)
            && (first.kind == ArraySeparator || (first.kind == Comment && t.kind != ObjectEnd) ==> Separates(d, v.pos, t, f))
  {
    hide TokenAfter, SkipSpaces, ReadMembers;
  }

  // ---------------------------------------------------------------- growing a record

  function WithMember(x: Tree, name: Token, colon: Token, value: Tree): Tree
    requires x.Record?
  {
    Record(x.open, x.names + [name], x.colons + [colon], x.values + [value], x.commas, x.close)
  }

  function WithSeparator(x: Tree, t: Token): Tree
    requires x.Record?
  {
    Record(x.open, x.names, x.colons, x.values, x.commas + [t], x.close)
  }

  function ClosedRecord(x: Tree, t: Token): Tree
    requires x.Record?
  {
    Record(x.open, x.names, x.colons, x.values, x.commas, t)
  }

  lemma {:induction false} SameRecordEntries(d: bytes, x: Tree, y: Tree, k: nat, f: Features, fl: Floats)
    requires x.Record? && y.Record? && k <= |x.names| && k <= |x.values| && k <= |y.names| && k <= |y.values|
    requires x.names[..k] == y.names[..k] && x.values[..k] == y.values[..k]
    ensures RecordEntries(d, x, k, f, fl) == RecordEntries(d, y, k, f, fl)
    ensures LastName(d, x, k, f, fl) == LastName(d, y, k, f, fl)
    decreases k
  {
    hide Meaning, NameText, Put;
    if k > 0 {
      ShorterPrefix(x.names, y.names, k);
      ShorterPrefix(x.values, y.values, k);
      SameRecordEntries(d, x, y, k - 1, f, fl);
    }
  }

  lemma ShorterPrefix<T>(a: seq<T>, b: seq<T>, k: nat)
    requires 0 < k <= |a| && k <= |b| && a[..k] == b[..k]
    ensures a[..k - 1] == b[..k - 1] && a[k - 1] == b[k - 1]
  {
    assert a[..k][k - 1] == b[..k][k - 1];
    assert a[..k - 1] == a[..k][..k - 1] && b[..k - 1] == b[..k][..k - 1];
  }

  // What is known of the members so far carries over to a tree that continues them.
  predicate Continues(x: Tree, y: Tree) {
    && x.Record? && y.Record? && x.open == y.open
    && x.names <= y.names && x.colons <= y.colons && x.values <= y.values && x.commas <= y.commas
  }

  lemma MembersCarryOver(d: bytes, p: nat, depth: nat, x: Tree, y: Tree, f: Features, fl: Floats)
    requires Continues(x, y) && MembersAt(d, p, depth, x, f, fl)
    ensures forall i :: 0 <= i < |x.names| ==> NameAt(d, p, y, i, f, fl)
    ensures forall i :: 0 <= i < |x.colons| ==> ColonAt(d, y, i, f)
    ensures forall i :: 0 <= i < |x.values| ==> MemberAt(d, y, i, depth, f, fl)
    ensures forall i :: 0 <= i < |x.commas| ==> SeparatorAt(d, y, i, f)
  {
    hide ValueAt, NextToken, ReadToken, NameText;
    forall i | 0 <= i < |x.names| ensures NameAt(d, p, y, i, f, fl) {
      assert NameAt(d, p, x, i, f, fl);
      assert forall j :: 0 <= j <= i ==> FieldName(d, y, j, f, fl) == FieldName(d, x, j, f, fl);
    }
    forall i | 0 <= i < |x.colons| ensures ColonAt(d, y, i, f) {
      assert ColonAt(d, x, i, f);
    }
    forall i | 0 <= i < |x.values| ensures MemberAt(d, y, i, depth, f, fl) {
      assert MemberAt(d, x, i, depth, f, fl);
    }
    forall i | 0 <= i < |x.commas| ensures SeparatorAt(d, y, i, f) {
      assert SeparatorAt(d, x, i, f);
    }
  }

  lemma AddMember(d: bytes, p: nat, depth: nat, x: Tree, name: Token, colon: Token, value: Tree, f: Features,
      fl: Floats)
    requires x.Record? && RecordSoFar(d, p, depth, x, f, fl)
    requires name == NextToken(d, Start(p, x.commas, |x.commas|), f) && NameText(d, name, f, fl).Some?
    requires |NameText(d, name, f, fl).value| <= MAX_KEY_LENGTH
    requires f.rejectDupKeys ==> !Taken(d, x, NameText(d, name, f, fl).value, f, fl)
    requires colon == ReadToken(d, name.end, f) && colon.kind == MemberSeparator
    requires ValueAt(d, colon.end, depth + 1, value, f, fl) && End(value) <= |d|
    ensures MembersAt(d, p, depth, WithMember(x, name, colon, value), f, fl)
    ensures FieldName(d, WithMember(x, name, colon, value), |x.names|, f, fl) == NameText(d, name, f, fl).value
  {
    hide ValueAt, NextToken, ReadToken, NameText, NameAt, ColonAt, MemberAt, SeparatorAt, Taken;
    MembersCarryOver(d, p, depth, x, WithMember(x, name, colon, value), f, fl);
    LastNameAt(d, p, depth, x, name, colon, value, f, fl);
    LastMemberAt(d, x, depth, name, colon, value, f, fl);
  }

  lemma LastNameAt(d: bytes, p: nat, depth: nat, x: Tree, name: Token, colon: Token, value: Tree, f: Features,
      fl: Floats)
    requires x.Record? && RecordSoFar(d, p, depth, x, f, fl)
    requires name == NextToken(d, Start(p, x.commas, |x.commas|), f) && NameText(d, name, f, fl).Some?
    requires |NameText(d, name, f, fl).value| <= MAX_KEY_LENGTH
    requires f.rejectDupKeys ==> !Taken(d, x, NameText(d, name, f, fl).value, f, fl)
    ensures NameAt(d, p, WithMember(x, name, colon, value), |x.names|, f, fl)
    ensures FieldName(d, WithMember(x, name, colon, value), |x.names|, f, fl) == NameText(d, name, f, fl).value
  {
    hide NextToken, NameText, MemberAt, SeparatorAt, ColonAt;
    var y, n := WithMember(x, name, colon, value), |x.names|;
    forall j | 0 <= j < n ensures FieldName(d, y, j, f, fl) == FieldName(d, x, j, f, fl) {
      assert y.names[j] == x.names[j];
    }
  }

  lemma LastMemberAt(d: bytes, x: Tree, depth: nat, name: Token, colon: Token, value: Tree, f: Features, fl: Floats)
    requires x.Record? && |x.names| == |x.colons| == |x.values|
    requires name.end <= |d| && colon == ReadToken(d, name.end, f) && colon.kind == MemberSeparator
    requires ValueAt(d, colon.end, depth + 1, value, f, fl) && End(value) <= |d|
    ensures ColonAt(d, WithMember(x, name, colon, value), |x.names|, f)
    ensures MemberAt(d, WithMember(x, name, colon, value), |x.names|, depth, f, fl)
  {
    hide ValueAt, ReadToken;
  }

  lemma AddSeparator(d: bytes, p: nat, depth: nat, x: Tree, t: Token, f: Features, fl: Floats)
    requires x.Record? && MembersAt(d, p, depth, x, f, fl) && |x.values| == |x.commas| + 1
    requires End(x.values[|x.commas|]) <= |d| && Separates(d, End(x.values[|x.commas|]), t, f)
    ensures RecordSoFar(d, p, depth, WithSeparator(x, t), f, fl)
  {
    var y := WithSeparator(x, t);
    MembersCarryOver(d, p, depth, x, y, f, fl);
    assert t.end <= |d|;
    assert SeparatorAt(d, y, |x.commas|, f);
    hide NameAt, ColonAt, MemberAt, SeparatorAt, Separates;
    assert MembersAt(d, p, depth, y, f, fl);
  }

  lemma CloseRecord(d: bytes, p: nat, depth: nat, x: Tree, t: Token, f: Features, fl: Floats)
    requires x.Record? && MembersAt(d, p, depth, x, f, fl)
    ensures MembersAt(d, p, depth, ClosedRecord(x, t), f, fl)
    ensures Meaning(d, ClosedRecord(x, t), f, fl) == Obj(RecordEntries(d, x, |x.names|, f, fl))
    ensures LastName(d, ClosedRecord(x, t), |x.names|, f, fl) == LastName(d, x, |x.names|, f, fl)
  {
    var y := ClosedRecord(x, t);
    MembersCarryOver(d, p, depth, x, y, f, fl);
    SameRecordEntries(d, x, y, |x.names|, f, fl);
    hide NameAt, ColonAt, MemberAt, SeparatorAt, RecordEntries, LastName;
  }

  lemma NoKeys(key: Key)
    ensures KeysOf([], key.Index?) && !Has([], key)
  {
  }

  // The names taken so far are the keys of the entries so far.
  lemma {:induction false} RecordKeys(d: bytes, x: Tree, k: nat, name: bytes, f: Features, fl: Floats)
    requires x.Record? && k <= |x.names| && k <= |x.values|
    ensures Sorted(RecordEntries(d, x, k, f, fl), false)
    ensures Has(RecordEntries(d, x, k, f, fl), Name(name)) <==> exists i :: 0 <= i < k && FieldName(d, x, i, f, fl) == name
    decreases k
  {
    hide Meaning, FieldName, Put, Has, Get, KeyLess, LowerBound;
    if k == 0 {
      NoKeys(Name(name));
    } else {
      RecordKeys(d, x, k - 1, name, f, fl);
      PutThenGet(RecordEntries(d, x, k - 1, f, fl), Name(FieldName(d, x, k - 1, f, fl)),
                 Meaning(d, x.values[k - 1], f, fl), Name(name));
    }
  }

  // ---------------------------------------------------------------- the loops over trees

  // What the loops come to, with `x` read so far; and from behind a member's name.
  ghost function RestOfList(d: bytes, depth: nat, x: Tree, f: Features, fl: Floats): Outcome
    requires x.List? && Start(x.open.end, x.commas, |x.commas|) <= |d|
  {
    ReadItems(d, Start(x.open.end, x.commas, |x.commas|), depth, ListEntries(d, x, |x.items|, f, fl), |x.items|, f, fl)
  }

  ghost function RestOfRecord(d: bytes, depth: nat, x: Tree, f: Features, fl: Floats): Outcome
    requires x.Record? && |x.names| == |x.values| && Start(x.open.end, x.commas, |x.commas|) <= |d|
  {
    ReadMembers(d, Start(x.open.end, x.commas, |x.commas|), depth, RecordEntries(d, x, |x.names|, f, fl),
                LastName(d, x, |x.names|, f, fl), f, fl)
  }

  ghost function RestOfMember(d: bytes, depth: nat, x: Tree, name: Token, f: Features, fl: Floats): Outcome
    requires x.Record? && |x.names| == |x.values| && name.start <= name.end <= |d| && NameText(d, name, f, fl).Some?
  {
    NamedMember(d, name.end, depth, RecordEntries(d, x, |x.names|, f, fl), NameText(d, name, f, fl).value, f, fl)
  }

  // And from behind a member's value, which was read as `w` from `p` on.
  ghost function RestBehind(d: bytes, p: nat, depth: nat, x: Tree, w: Outcome, f: Features, fl: Floats): Outcome
    requires x.Record? && |x.names| == |x.values| && p <= |d| && w.Read? && Sound(w, d, p)
  {
    AfterMember(d, p, depth, RecordEntries(d, x, |x.names|, f, fl), LastName(d, x, |x.names|, f, fl), f, fl, w)
  }

  // What stood in the place of the next item or member before.
  ghost function PriorItem(d: bytes, x: Tree, f: Features, fl: Floats): Value
    requires x.List?
  {
    Get(ListEntries(d, x, |x.items|, f, fl), Index(|x.items|))
  }

  ghost function PriorMember(d: bytes, x: Tree, name: Token, f: Features, fl: Floats): Value
    requires x.Record? && |x.names| == |x.values| && name.start <= name.end <= |d| && NameText(d, name, f, fl).Some?
  {
    Get(RecordEntries(d, x, |x.names|, f, fl), Name(NameText(d, name, f, fl).value))
  }

  // The loop goes on from behind the last item of `x`, and comes to `r`.
  ghost predicate AfterItemIs(d: bytes, depth: nat, x: Tree, r: Outcome, f: Features, fl: Floats)
    requires x.List? && x.items != []
  {
    var e := End(x.items[|x.items| - 1]);
    e <= |d| &&
    var k := NextToken(d, e, f);
    && (k.kind == ArrayEnd ==> r == Read(true, k.end, Array(ListEntries(d, x, |x.items|, f, fl)), []))
    && (k.kind == ArraySeparator ==> r == RestOfList(d, depth, WithComma(x, k), f, fl))
    && (k.kind != ArrayEnd && k.kind != ArraySeparator ==>
          Reports(r, Refused(ErrorInfo(MissingArrayComma, k)), Recover(d, k.end, ArrayEnd, f), Array(ListEntries(d, x, |x.items|, f, fl))))
  }

  ghost predicate AfterMemberIs(d: bytes, depth: nat, x: Tree, r: Outcome, f: Features, fl: Floats)
    requires x.Record? && x.values != [] && |x.names| == |x.values|
  {
    var e := End(x.values[|x.values| - 1]);
    e <= |d| &&
    var first, k := ReadToken(d, e, f), NextToken(d, e, f);
    && (first.kind != ObjectEnd && first.kind != ArraySeparator && first.kind != Comment ==>
          Reports(r, Refused(ErrorInfo(MissingObjectComma, first)), Recover(d, first.end, ObjectEnd, f),
                  Obj(RecordEntries(d, x, |x.names|, f, fl))))
    && (k.kind == ObjectEnd ==> r == Read(true, k.end, Obj(RecordEntries(d, x, |x.names|, f, fl)), []))
    && (Separates(d, e, k, f) ==> r == RestOfRecord(d, depth, WithSeparator(x, k), f, fl))
    && (first.kind == ObjectEnd ==> k.kind == ObjectEnd)
    && (first.kind == ArraySeparator || (first.kind == Comment && k.kind != ObjectEnd) ==> Separates(d, e, k, f))
  }

  // A list that is still open where its next item starts.
  predicate Open(d: bytes, x: Tree, f: Features) {
    && x.List? && |x.commas| == |x.items| && Start(x.open.end, x.commas, |x.commas|) <= |d|
    && !ClosesHere(d, Start(x.open.end, x.commas, |x.commas|), |x.items|, f)
  }

  lemma ItemFails(d: bytes, depth: nat, x: Tree, y: Fault, f: Features, fl: Floats)
    requires Open(d, x, f)
    requires ReportsFault(ReadValue(d, Start(x.open.end, x.commas, |x.commas|), depth + 1, PriorItem(d, x, f, fl), f, fl),
                          d, y, PriorItem(d, x, f, fl), f, fl)
    ensures ReportsAnyway(RestOfList(d, depth, x, f, fl), d, InItem(x, y), f, fl)
  {
    hide ReadItems, ReadValue, ListEntries, Put, Get, ClosesHere, NextToken, Recover;
    ItemTurn(d, Start(x.open.end, x.commas, |x.commas|), depth, ListEntries(d, x, |x.items|, f, fl), |x.items|, f, fl);
  }

  lemma ItemReads(d: bytes, depth: nat, x: Tree, item: Tree, f: Features, fl: Floats)
    requires Open(d, x, f) && End(item) <= |d|
    requires ReadValue(d, Start(x.open.end, x.commas, |x.commas|), depth + 1, PriorItem(d, x, f, fl), f, fl)
             == Read(true, End(item), Meaning(d, item, f, fl), [])
    ensures AfterItemIs(d, depth, WithItem(x, item), RestOfList(d, depth, x, f, fl), f, fl)
  {
    var y, n := WithItem(x, item), |x.items|;
    SameListEntries(d, x, y, n, f, fl);
    ListEntriesStep(d, y, n, f, fl);
    hide ReadItems, ReadValue, ListEntries, Put, Get, ClosesHere, NextToken, Meaning;
    ItemTurn(d, Start(x.open.end, x.commas, |x.commas|), depth, ListEntries(d, x, n, f, fl), n, f, fl);
    var k := NextToken(d, End(item), f);
    SameListEntries(d, y, WithComma(y, k), n + 1, f, fl);
  }

  // A name that is acceptable behind `x`, and its colon.
  predicate NamedBy(d: bytes, x: Tree, name: Token, f: Features, fl: Floats) {
    && x.Record? && |x.names| == |x.colons| == |x.values| && name.start <= name.end <= |d|
    && NameText(d, name, f, fl).Some?
  }

  lemma MembersShape(d: bytes, depth: nat, x: Tree, f: Features, fl: Floats)
    requires x.Record? && MembersAt(d, x.open.end, depth, x, f, fl)
    ensures x.open.end <= |d| && |x.names| == |x.colons| == |x.values| && |x.commas| <= |x.values| <= |x.commas| + 1
  {
  }

  lemma RecordShape(d: bytes, depth: nat, x: Tree, f: Features, fl: Floats)
    requires x.Record? && RecordSoFar(d, x.open.end, depth, x, f, fl)
    ensures |x.names| == |x.colons| == |x.values| == |x.commas|
  {
  }

  lemma ColonMissing(d: bytes, depth: nat, x: Tree, name: Token, f: Features, fl: Floats)
    requires NamedBy(d, x, name, f, fl) && ReadToken(d, name.end, f).kind != MemberSeparator
    ensures ReportsAnyway(RestOfMember(d, depth, x, name, f, fl), d, NoColon(x, name, ReadToken(d, name.end, f)), f, fl)
  {
    hide ReadToken, NamedMember, RecordEntries, NameText, Get, Recover;
    MemberTurn(d, name.end, depth, RecordEntries(d, x, |x.names|, f, fl), NameText(d, name, f, fl).value, f, fl);
  }

  lemma MemberFails(d: bytes, depth: nat, x: Tree, name: Token, y: Fault, f: Features, fl: Floats)
    requires NamedBy(d, x, name, f, fl) && ReadToken(d, name.end, f).kind == MemberSeparator
    requires ReportsFault(ReadValue(d, ReadToken(d, name.end, f).end, depth + 1, PriorMember(d, x, name, f, fl), f, fl),
                          d, y, PriorMember(d, x, name, f, fl), f, fl)
    ensures ReportsAnyway(RestOfMember(d, depth, x, name, f, fl), d, InMember(x, name, ReadToken(d, name.end, f), y), f, fl)
  {
    hide ReadToken, NamedMember, RecordEntries, NameText, Get, ReadValue, AfterMember, Put, Recover;
    MemberTurn(d, name.end, depth, RecordEntries(d, x, |x.names|, f, fl), NameText(d, name, f, fl).value, f, fl);
  }

  lemma MemberReads(d: bytes, depth: nat, x: Tree, name: Token, value: Tree, f: Features, fl: Floats)
    requires NamedBy(d, x, name, f, fl) && ReadToken(d, name.end, f).kind == MemberSeparator && End(value) <= |d|
    requires ReadToken(d, name.end, f).end <= End(value)
    requires ReadValue(d, ReadToken(d, name.end, f).end, depth + 1, PriorMember(d, x, name, f, fl), f, fl)
             == Read(true, End(value), Meaning(d, value, f, fl), [])
    ensures AfterMemberIs(d, depth, WithMember(x, name, ReadToken(d, name.end, f), value),
                          RestOfMember(d, depth, x, name, f, fl), f, fl)
  {
    var colon := ReadToken(d, name.end, f);
    var y := WithMember(x, name, colon, value);
    MemberTurns(d, depth, x, name, value, f, fl);
    hide RestOfMember, Meaning, ReadToken, NextToken, RestBehind, AfterMemberIs;
    ValueIsBehind(d, colon.end, depth, y, Read(true, End(value), Meaning(d, value, f, fl), []), f, fl);
  }

  // The member is put in.
  lemma MemberTurns(d: bytes, depth: nat, x: Tree, name: Token, value: Tree, f: Features, fl: Floats)
    requires NamedBy(d, x, name, f, fl) && ReadToken(d, name.end, f).kind == MemberSeparator && End(value) <= |d|
    requires ReadToken(d, name.end, f).end <= End(value)
    requires ReadValue(d, ReadToken(d, name.end, f).end, depth + 1, PriorMember(d, x, name, f, fl), f, fl)
             == Read(true, End(value), Meaning(d, value, f, fl), [])
    ensures var colon := ReadToken(d, name.end, f);
            var y, w := WithMember(x, name, colon, value), Read(true, End(value), Meaning(d, value, f, fl), []);
            RestOfMember(d, depth, x, name, f, fl) == RestBehind(d, colon.end, depth, y, w, f, fl)
  {
    var colon := ReadToken(d, name.end, f);
    RecordEntriesStep(d, x, name, colon, value, f, fl);
    hide ReadToken, NamedMember, RecordEntries, NameText, Get, ReadValue, AfterMember, Put, Meaning, LastName;
    MemberTurn(d, name.end, depth, RecordEntries(d, x, |x.names|, f, fl), NameText(d, name, f, fl).value, f, fl);
  }

  lemma ValueIsBehind(d: bytes, p: nat, depth: nat, y: Tree, w: Outcome, f: Features, fl: Floats)
    requires y.Record? && y.values != [] && |y.names| == |y.values| && p <= |d|
    requires w.Read? && w.ok && w.errors == [] && w.pos == End(y.values[|y.values| - 1]) && p <= w.pos <= |d|
    ensures AfterMemberIs(d, depth, y, RestBehind(d, p, depth, y, w, f, fl), f, fl)
  {
    hide ReadToken, NextToken, RecordEntries, AfterMember, LastName, Separates, ReadMembers;
    SeparatorTurn(d, p, depth, RecordEntries(d, y, |y.names|, f, fl), LastName(d, y, |y.names|, f, fl), f, fl, w);
    SameRecordEntries(d, y, WithSeparator(y, NextToken(d, w.pos, f)), |y.names|, f, fl);
  }

  lemma RecordEntriesStep(d: bytes, x: Tree, name: Token, colon: Token, value: Tree, f: Features, fl: Floats)
    requires x.Record? && |x.names| == |x.colons| == |x.values|
    requires name.start <= name.end <= |d| && NameText(d, name, f, fl).Some?
    ensures var y, n := WithMember(x, name, colon, value), |x.names|;
            && RecordEntries(d, y, n + 1, f, fl)
               == Put(RecordEntries(d, x, n, f, fl), Name(NameText(d, name, f, fl).value), Meaning(d, value, f, fl))
            && LastName(d, y, n + 1, f, fl) == NameText(d, name, f, fl).value
  {
    var y, n := WithMember(x, name, colon, value), |x.names|;
    assert x.names[..n] == y.names[..n] && x.values[..n] == y.values[..n];
    SameRecordEntries(d, x, y, n, f, fl);
    hide NameText, Meaning, Put;
  }

  lemma ListIsClosed(d: bytes, depth: nat, x: Tree, f: Features, fl: Floats)
    requires x.List? && ListSoFar(d, x.open.end, depth, x, f, fl)
    requires Start(x.open.end, x.commas, |x.commas|) <= |d|
    requires ClosesHere(d, Start(x.open.end, x.commas, |x.commas|), |x.items|, f)
    ensures var y := Closed(x, ReadToken(d, Start(x.open.end, x.commas, |x.commas|), f));
            && ListAt(d, x.open.end, depth, y, f, fl)
            && RestOfList(d, depth, x, f, fl) == Read(true, y.close.end, Meaning(d, y, f, fl), [])
  {
    var q := Start(x.open.end, x.commas, |x.commas|);
    ListCloses(d, q, depth, ListEntries(d, x, |x.items|, f, fl), |x.items|, f, fl);
    CloseList(d, x.open.end, depth, x, ReadToken(d, q, f), f, fl);
    hide ReadToken, NextToken, ReadItems, ItemsAt, Meaning, ListEntries, ClosesHere;
  }

  lemma RecordIsClosed(d: bytes, depth: nat, x: Tree, f: Features, fl: Floats)
    requires x.Record? && RecordSoFar(d, x.open.end, depth, x, f, fl)
    requires ClosesRecord(d, Start(x.open.end, x.commas, |x.commas|), LastName(d, x, |x.names|, f, fl), f)
    ensures var y := ClosedRecord(x, NextToken(d, Start(x.open.end, x.commas, |x.commas|), f));
            && RecordAt(d, x.open.end, depth, y, f, fl)
            && RestOfRecord(d, depth, x, f, fl) == Read(true, y.close.end, Meaning(d, y, f, fl), [])
  {
    var q := Start(x.open.end, x.commas, |x.commas|);
    RecordCloses(d, q, depth, RecordEntries(d, x, |x.names|, f, fl), LastName(d, x, |x.names|, f, fl), f, fl);
    CloseRecord(d, x.open.end, depth, x, NextToken(d, q, f), f, fl);
    hide ReadToken, NextToken, ReadMembers, MembersAt, Meaning, RecordEntries, LastName, ClosesRecord;
  }

  // What the object loop makes of a name.
  lemma RecordTurn(d: bytes, depth: nat, x: Tree, f: Features, fl: Floats)
    requires x.Record? && RecordSoFar(d, x.open.end, depth, x, f, fl)
    requires !ClosesRecord(d, Start(x.open.end, x.commas, |x.commas|), LastName(d, x, |x.names|, f, fl), f)
    ensures var r, t := RestOfRecord(d, depth, x, f, fl), NextToken(d, Start(x.open.end, x.commas, |x.commas|), f);
            match NameText(d, t, f, fl)
            case None => ReportsAnyway(r, d, Fault.NoName(x, NameError(d, t, f), t), f, fl)
            case Some(name) =>
              && t.kind != EndOfStream
              && if |name| > MAX_KEY_LENGTH then r == Threw(KeyTooLong)
                 else if f.rejectDupKeys && Taken(d, x, name, f, fl) then
                   ReportsAnyway(r, d, NameRepeated(x, t), f, fl)
                 else r == RestOfMember(d, depth, x, t, f, fl)
  {
    hide NextToken, ReadMembers, NamedMember, MembersAt, RecordEntries, LastName, ClosesRecord, NameText, NameError, Has, Sorted;
    RecordShape(d, depth, x, f, fl);
    var q, n := Start(x.open.end, x.commas, |x.commas|), |x.names|;
    var t := NextToken(d, q, f);
    NameTurn(d, q, depth, RecordEntries(d, x, n, f, fl), LastName(d, x, n, f, fl), f, fl);
    if NameText(d, t, f, fl).Some? {
      NameIsToken(d, t, f, fl);
      RecordKeys(d, x, n, NameText(d, t, f, fl).value, f, fl);
    }
  }

  lemma NameIsToken(d: bytes, t: Token, f: Features, fl: Floats)
    requires t.start <= t.end <= |d| && NameText(d, t, f, fl).Some?
    ensures t.kind != EndOfStream
  {
  }

  lemma SeparatorMovesOn(d: bytes, p: nat, t: Token, f: Features)
    requires p <= |d| && Separates(d, p, t, f)
    ensures p < t.end <= |d|
  {
    hide TokenAfter, SkipSpaces;
  }

  // ---------------------------------------------------------------- every outcome explained

  // Whatever the document, the reader either succeeds on a sentence of the language, with its meaning,
  // or reports a fault that is there.
  lemma {:induction false} ExplainValue(d: bytes, p: nat, depth: nat, prior: Value, f: Features, fl: Floats)
    returns (v: Verdict)
    requires p <= |d|
    ensures Explains(v, d, p, depth, prior, ReadValue(d, p, depth, prior, f, fl), f, fl)
    decreases |d| - p, 0
  {
    if depth > f.stackLimit {
      return Faulty(TooDeep);
    }
    hide FirstToken, ReadItems, ReadMembers, ListAt, RecordAt, ListFault, RecordFault, Meaning;
    var t := FirstToken(d, p, f);
    if t.kind == ArrayBegin {
      NothingListed(d, t, depth, f, fl);
      v := ExplainItems(d, depth, List(t, [], [], t), f, fl);
    } else if t.kind == ObjectBegin {
      NothingRecorded(d, t, depth, f, fl);
      v := ExplainMembers(d, depth, Record(t, [], [], [], [], t), f, fl);
    } else {
      v := ExplainScalar(d, p, depth, prior, f, fl);
    }
  }

  lemma NothingListed(d: bytes, t: Token, depth: nat, f: Features, fl: Floats)
    requires t.end <= |d|
    ensures var x := List(t, [], [], t);
            ListSoFar(d, t.end, depth, x, f, fl) && RestOfList(d, depth, x, f, fl) == ReadItems(d, t.end, depth, [], 0, f, fl)
  {
    hide ReadItems;
  }

  lemma NothingRecorded(d: bytes, t: Token, depth: nat, f: Features, fl: Floats)
    requires t.end <= |d|
    ensures var x := Record(t, [], [], [], [], t);
            && RecordSoFar(d, t.end, depth, x, f, fl)
            && RestOfRecord(d, depth, x, f, fl) == ReadMembers(d, t.end, depth, [], [], f, fl)
  {
    hide ReadMembers;
  }

  // The array loop, with `x` read so far.
  lemma {:induction false} ExplainItems(d: bytes, depth: nat, x: Tree, f: Features, fl: Floats) returns (v: Verdict)
    requires depth <= f.stackLimit && x.List? && ListSoFar(d, x.open.end, depth, x, f, fl)
    requires Start(x.open.end, x.commas, |x.commas|) <= |d|
    ensures ExplainsList(v, d, x.open, depth, RestOfList(d, depth, x, f, fl), f, fl)
    decreases |d| - Start(x.open.end, x.commas, |x.commas|), 1
  {
    var q := Start(x.open.end, x.commas, |x.commas|);
    hide ReadToken, NextToken, ReadValue, ValueAt, FaultAt, ItemsAt, RestOfList, Meaning, ClosesHere, ListAt, AfterItemIs;
    if ClosesHere(d, q, |x.items|, f) {
      ListIsClosed(d, depth, x, f, fl);
      return Fine(Closed(x, ReadToken(d, q, f)));
    }
    var inner := ExplainValue(d, q, depth + 1, PriorItem(d, x, f, fl), f, fl);
    if inner.Faulty? {
      ItemFails(d, depth, x, inner.fault, f, fl);
      return Faulty(InItem(x, inner.fault));
    }
    AddItem(d, x.open.end, depth, x, inner.tree, f, fl);
    ItemReads(d, depth, x, inner.tree, f, fl);
    v := ExplainAfterItem(d, depth, WithItem(x, inner.tree), RestOfList(d, depth, x, f, fl), f, fl);
  }

  // Behind the last item of `x`, where the loop comes to `r`.
  lemma {:induction false} ExplainAfterItem(d: bytes, depth: nat, x: Tree, r: Outcome, f: Features, fl: Floats)
    returns (v: Verdict)
    requires depth <= f.stackLimit && x.List? && ItemsAt(d, x.open.end, depth, x, f, fl)
    requires |x.items| == |x.commas| + 1 && AfterItemIs(d, depth, x, r, f, fl)
    ensures ExplainsList(v, d, x.open, depth, r, f, fl)
    decreases |d| - End(x.items[|x.commas|]), 0
  {
    var k := NextToken(d, End(x.items[|x.commas|]), f);
    hide ReadToken, NextToken, RestOfList, ItemsAt, Meaning, ListEntries, ClosesHere;
    if k.kind == ArrayEnd {
      CloseList(d, x.open.end, depth, x, k, f, fl);
      v := Fine(Closed(x, k));
    } else if k.kind == ArraySeparator {
      AddComma(d, x.open.end, depth, x, k, f, fl);
      v := ExplainItems(d, depth, WithComma(x, k), f, fl);
    } else {
      v := Faulty(NoComma(x, k));
    }
  }

  // The object loop, with `x` read so far.
  lemma {:induction false} ExplainMembers(d: bytes, depth: nat, x: Tree, f: Features, fl: Floats) returns (v: Verdict)
    requires depth <= f.stackLimit && x.Record? && x.open.end <= |d| && RecordSoFar(d, x.open.end, depth, x, f, fl)
    ensures ExplainsRecord(v, d, x.open, depth, RestOfRecord(d, depth, x, f, fl), f, fl)
    decreases |d| - Start(x.open.end, x.commas, |x.commas|), 1
  {
    hide ReadToken, NextToken, RestOfRecord, RestOfMember, MembersAt, LastName, Meaning, ClosesRecord, NameText, NameError, FaultAt;
    hide RecordAt, Taken, ExplainsRecord, RecordFault, ReportsAnyway;
    RecordShape(d, depth, x, f, fl);
    SoFarFits(d, depth, x, f, fl);
    var q := Start(x.open.end, x.commas, |x.commas|);
    var name := NextToken(d, q, f);
    if ClosesRecord(d, q, LastName(d, x, |x.names|, f, fl), f) {
      RecordIsClosed(d, depth, x, f, fl);
      v := Fine(ClosedRecord(x, name));
      ClosedIsExplained(d, depth, x, f, fl);
    } else {
      RecordTurn(d, depth, x, f, fl);
      if NameText(d, name, f, fl).Some? && |NameText(d, name, f, fl).value| <= MAX_KEY_LENGTH
         && !(f.rejectDupKeys && Taken(d, x, NameText(d, name, f, fl).value, f, fl)) {
        v := ExplainNamed(d, depth, x, name, f, fl);
      } else {
        v := NameIsExplained(d, depth, x, f, fl);
      }
    }
  }

  lemma ClosedIsExplained(d: bytes, depth: nat, x: Tree, f: Features, fl: Floats)
    requires x.Record? && |x.names| == |x.values| && Start(x.open.end, x.commas, |x.commas|) <= |d|
    requires var y := ClosedRecord(x, NextToken(d, Start(x.open.end, x.commas, |x.commas|), f));
             && RecordAt(d, x.open.end, depth, y, f, fl)
             && RestOfRecord(d, depth, x, f, fl) == Read(true, y.close.end, Meaning(d, y, f, fl), [])
    ensures ExplainsRecord(Fine(ClosedRecord(x, NextToken(d, Start(x.open.end, x.commas, |x.commas|), f))), d, x.open, depth,
                           RestOfRecord(d, depth, x, f, fl), f, fl)
  {
    hide RestOfRecord, RecordAt, Meaning, NextToken;
  }

  // A name that is none, too long or taken.
  lemma NameIsExplained(d: bytes, depth: nat, x: Tree, f: Features, fl: Floats) returns (v: Verdict)
    requires depth <= f.stackLimit && x.Record? && x.open.end <= |d| && RecordSoFar(d, x.open.end, depth, x, f, fl)
    requires var q := Start(x.open.end, x.commas, |x.commas|);
             && !ClosesRecord(d, q, LastName(d, x, |x.names|, f, fl), f)
             && var name := NextToken(d, q, f);
                !(NameText(d, name, f, fl).Some? && |NameText(d, name, f, fl).value| <= MAX_KEY_LENGTH
                  && !(f.rejectDupKeys && Taken(d, x, NameText(d, name, f, fl).value, f, fl)))
    ensures ExplainsRecord(v, d, x.open, depth, RestOfRecord(d, depth, x, f, fl), f, fl)
  {
    hide ReadToken, NextToken, RestOfRecord, RestOfMember, MembersAt, LastName, Meaning, ClosesRecord, NameText, NameError, FaultAt;
    hide Taken, Members, Recover;
    var name := NextToken(d, Start(x.open.end, x.commas, |x.commas|), f);
    RecordTurn(d, depth, x, f, fl);
    match NameText(d, name, f, fl)
    case None => v := Faulty(Fault.NoName(x, NameError(d, name, f), name));
    case Some(key) => v := Faulty(if |key| > MAX_KEY_LENGTH then NameTooLong(x, name) else NameRepeated(x, name));
  }

  // From the colon after a fresh name on.
  lemma {:induction false} ExplainNamed(d: bytes, depth: nat, x: Tree, name: Token, f: Features, fl: Floats)
    returns (v: Verdict)
    requires depth <= f.stackLimit && x.Record? && FreshNext(d, x.open, depth, x, name, f, fl)
    ensures ExplainsRecord(v, d, x.open, depth, RestOfMember(d, depth, x, name, f, fl), f, fl)
    decreases |d| - name.end, 2
  {
    hide ReadToken, NextToken, RestOfMember, ReadValue, ValueAt, MembersAt, Taken, Meaning, NameText, FaultAt, AfterMemberIs;
    RecordShape(d, depth, x, f, fl);
    var colon := ReadToken(d, name.end, f);
    if colon.kind != MemberSeparator {
      ColonMissing(d, depth, x, name, f, fl);
      return Faulty(NoColon(x, name, colon));
    }
    var inner := ExplainValue(d, colon.end, depth + 1, PriorMember(d, x, name, f, fl), f, fl);
    if inner.Faulty? {
      MemberFails(d, depth, x, name, inner.fault, f, fl);
      return Faulty(InMember(x, name, colon, inner.fault));
    }
    AddMember(d, x.open.end, depth, x, name, colon, inner.tree, f, fl);
    MemberReads(d, depth, x, name, inner.tree, f, fl);
    v := ExplainAfterMember(d, depth, WithMember(x, name, colon, inner.tree), RestOfMember(d, depth, x, name, f, fl), f, fl);
  }

  // Behind the last value of `x`, where the loop comes to `r`.
  lemma {:induction false} ExplainAfterMember(d: bytes, depth: nat, x: Tree, r: Outcome, f: Features, fl: Floats)
    returns (v: Verdict)
    requires depth <= f.stackLimit && x.Record? && MembersAt(d, x.open.end, depth, x, f, fl)
    requires |x.values| == |x.commas| + 1 && AfterMemberIs(d, depth, x, r, f, fl)
    ensures ExplainsRecord(v, d, x.open, depth, r, f, fl)
    decreases |d| - End(x.values[|x.commas|]), 2
  {
    var e := End(x.values[|x.commas|]);
    var first, k := ReadToken(d, e, f), NextToken(d, e, f);
    MembersShape(d, depth, x, f, fl);
    hide ReadToken, NextToken, RestOfRecord, MembersAt, Meaning, RecordEntries, LastName, Separates, ExplainsRecord, AfterMemberIs;
    if k.kind == ObjectEnd {
      v := Fine(ClosedRecord(x, k));
      BraceIsExplained(d, depth, x, r, f, fl);
    } else if Separates(d, e, k, f) {
      SeparatorMovesOn(d, e, k, f);
      AddSeparator(d, x.open.end, depth, x, k, f, fl);
      SeparatorReads(d, depth, x, k, r, f, fl);
      v := ExplainMembers(d, depth, WithSeparator(x, k), f, fl);
    } else {
      v := Faulty(NoSeparator(x, first));
      NoSeparatorIsExplained(d, depth, x, r, f, fl);
    }
  }

  lemma BraceIsExplained(d: bytes, depth: nat, x: Tree, r: Outcome, f: Features, fl: Floats)
    requires x.Record? && MembersAt(d, x.open.end, depth, x, f, fl)
    requires |x.names| == |x.values| == |x.commas| + 1 && AfterMemberIs(d, depth, x, r, f, fl)
    requires End(x.values[|x.commas|]) <= |d| && NextToken(d, End(x.values[|x.commas|]), f).kind == ObjectEnd
    ensures ExplainsRecord(Fine(ClosedRecord(x, NextToken(d, End(x.values[|x.commas|]), f))), d, x.open, depth, r, f, fl)
  {
    hide ReadToken, NextToken, RestOfRecord, MembersAt, Meaning, RecordEntries, LastName, Separates;
    CloseRecord(d, x.open.end, depth, x, NextToken(d, End(x.values[|x.commas|]), f), f, fl);
  }

  lemma NoSeparatorIsExplained(d: bytes, depth: nat, x: Tree, r: Outcome, f: Features, fl: Floats)
    requires x.Record? && MembersAt(d, x.open.end, depth, x, f, fl)
    requires |x.names| == |x.values| == |x.commas| + 1 && AfterMemberIs(d, depth, x, r, f, fl)
    requires var e := End(x.values[|x.commas|]);
             e <= |d| && NextToken(d, e, f).kind != ObjectEnd && !Separates(d, e, NextToken(d, e, f), f)
    ensures ExplainsRecord(Faulty(NoSeparator(x, ReadToken(d, End(x.values[|x.commas|]), f))), d, x.open, depth, r, f, fl)
  {
    hide ReadToken, NextToken, RestOfRecord, MembersAt, RecordEntries, LastName, Separates, Recover;
  }

  lemma SeparatorReads(d: bytes, depth: nat, x: Tree, t: Token, r: Outcome, f: Features, fl: Floats)
    requires x.Record? && x.values != [] && |x.names| == |x.values| && AfterMemberIs(d, depth, x, r, f, fl)
    requires End(x.values[|x.values| - 1]) <= |d| && Separates(d, End(x.values[|x.values| - 1]), t, f)
    requires Start(x.open.end, WithSeparator(x, t).commas, |x.commas| + 1) <= |d|
    ensures r == RestOfRecord(d, depth, WithSeparator(x, t), f, fl)
  {
    hide RestOfRecord, NextToken, ReadToken, RecordEntries;
  }

  // ---------------------------------------------------------------- every sentence accepted

  // The first `k` items with their commas.
  function Upto(x: Tree, k: nat): Tree
    requires x.List? && k <= |x.commas| <= |x.items|
  {
    List(x.open, x.items[..k], x.commas[..k], x.close)
  }

  lemma UptoIsSoFar(d: bytes, depth: nat, x: Tree, k: nat, f: Features, fl: Floats)
    requires x.List? && ItemsAt(d, x.open.end, depth, x, f, fl) && k <= |x.commas|
    ensures |x.commas| <= |x.items| <= |x.commas| + 1 && x.open.end <= |d|
    ensures ListSoFar(d, x.open.end, depth, Upto(x, k), f, fl) && Start(x.open.end, x.commas, k) <= |d|
  {
    var y := Upto(x, k);
    assert k > 0 ==> CommaAt(d, x, k - 1, f);
    hide ValueAt, NextToken, ReadToken;
    forall i | 0 <= i < k ensures ItemAt(d, x.open.end, depth, y, i, f, fl) {
      assert ItemAt(d, x.open.end, depth, x, i, f, fl);
    }
    forall i | 0 <= i < k ensures CommaAt(d, y, i, f) {
      assert CommaAt(d, x, i, f);
    }
    assert y.items != [] ==> x.items != [];
    assert ItemsAt(d, x.open.end, depth, y, f, fl);
  }

  // Where an item starts the list is not closed.
  lemma OpenAtItem(d: bytes, depth: nat, x: Tree, k: nat, f: Features, fl: Floats)
    requires x.List? && ItemsAt(d, x.open.end, depth, x, f, fl) && k <= |x.commas| && k < |x.items|
    ensures Open(d, Upto(x, k), f)
    ensures ValueAt(d, Start(x.open.end, x.commas, k), depth + 1, x.items[k], f, fl) && End(x.items[k]) <= |d|
  {
    UptoIsSoFar(d, depth, x, k, f, fl);
    assert ItemAt(d, x.open.end, depth, x, k, f, fl);
    ValueIsNoBracket(d, Start(x.open.end, x.commas, k), depth + 1, x.items[k], f, fl);
    hide ReadToken, ValueAt;
    assert k > 0 || ReadToken(d, x.open.end, f).kind != ArrayEnd;
  }

  lemma ValueIsNoBracket(d: bytes, q: nat, depth: nat, x: Tree, f: Features, fl: Floats)
    requires ValueAt(d, q, depth, x, f, fl)
    ensures ReadToken(d, q, f).kind == ArrayEnd ==> f.allowDroppedNullPlaceholders
  {
    if ReadToken(d, q, f).kind == ArrayEnd {
      RoundTrip.NoCommentAhead(d, q, f);
    }
    hide ReadToken, NextToken, ListAt, RecordAt;
  }

  lemma {:induction false} ValueReads(d: bytes, p: nat, depth: nat, x: Tree, prior: Value, f: Features, fl: Floats)
    requires ValueAt(d, p, depth, x, f, fl)
    ensures End(x) <= |d| && ReadValue(d, p, depth, prior, f, fl) == Read(true, End(x), Meaning(d, x, f, fl), [])
    decreases x, 1, 0
  {
    var t := FirstToken(d, p, f);
    FirstEndOfValueIsOneByte(d, p, f);
    hide FirstToken, ReadItems, ReadMembers, ListAt, RecordAt, ListEntries, RecordEntries, LeafValue, LeafError, ScalarOutcome;
    match x
    case List(_, _, _, _) => ListReads(d, depth, x, f, fl);
    case Record(_, _, _, _, _, _) => RecordReads(d, depth, x, f, fl);
    case _ => LeafIsNoBracket(d, t, f, fl); ScalarCases(d, t, prior, f, fl);
  }

  lemma LeafIsNoBracket(d: bytes, t: Token, f: Features, fl: Floats)
    requires t.start <= t.end <= |d| && (LeafValue(d, t, fl).Some? || EndsValue(t.kind))
    ensures t.kind != ArrayBegin && t.kind != ObjectBegin && t.kind != EndOfStream
  {
  }

  lemma {:induction false} ListPrefixReads(d: bytes, depth: nat, x: Tree, k: nat, f: Features, fl: Floats)
    requires x.List? && ItemsAt(d, x.open.end, depth, x, f, fl) && k <= |x.commas|
    ensures Start(x.open.end, x.commas, k) <= |d|
    ensures ReadItems(d, x.open.end, depth, [], 0, f, fl) == RestOfList(d, depth, Upto(x, k), f, fl)
    decreases x, 0, k
  {
    hide ReadItems, RestOfList, ItemsAt, ListSoFar, AfterItemIs;
    UptoIsSoFar(d, depth, x, k, f, fl);
    if k == 0 {
      ListStarts(d, depth, x, f, fl);
    } else {
      ListPrefixReads(d, depth, x, k - 1, f, fl);
      ItemIsRead(d, depth, x, k - 1, f, fl);
      CommaIsRead(d, depth, x, k - 1, RestOfList(d, depth, Upto(x, k - 1), f, fl), f, fl);
    }
  }

  lemma ListStarts(d: bytes, depth: nat, x: Tree, f: Features, fl: Floats)
    requires x.List? && x.open.end <= |d| && |x.commas| <= |x.items|
    ensures ReadItems(d, x.open.end, depth, [], 0, f, fl) == RestOfList(d, depth, Upto(x, 0), f, fl)
  {
    hide ReadItems;
  }

  // The k-th item is read behind those before it.
  lemma {:induction false} ItemIsRead(d: bytes, depth: nat, x: Tree, k: nat, f: Features, fl: Floats)
    requires x.List? && ItemsAt(d, x.open.end, depth, x, f, fl) && k <= |x.commas| && k < |x.items|
    ensures Start(x.open.end, x.commas, k) <= |d|
    ensures AfterItemIs(d, depth, WithItem(Upto(x, k), x.items[k]), RestOfList(d, depth, Upto(x, k), f, fl), f, fl)
    decreases x, 0, 0
  {
    OpenAtItem(d, depth, x, k, f, fl);
    hide ReadItems, RestOfList, ItemsAt, ListSoFar, ValueAt, NextToken, ReadToken, Meaning, ReadValue, PriorItem, AfterItemIs;
    var y := Upto(x, k);
    ValueReads(d, Start(x.open.end, x.commas, k), depth + 1, x.items[k], PriorItem(d, y, f, fl), f, fl);
    ItemReads(d, depth, y, x.items[k], f, fl);
  }

  lemma CommaIsRead(d: bytes, depth: nat, x: Tree, k: nat, r: Outcome, f: Features, fl: Floats)
    requires x.List? && ItemsAt(d, x.open.end, depth, x, f, fl) && k < |x.commas|
    requires AfterItemIs(d, depth, WithItem(Upto(x, k), x.items[k]), r, f, fl)
    ensures Start(x.open.end, x.commas, k + 1) <= |d| && r == RestOfList(d, depth, Upto(x, k + 1), f, fl)
  {
    assert CommaAt(d, x, k, f);
    hide RestOfList, ItemsAt, NextToken;
    assert WithComma(WithItem(Upto(x, k), x.items[k]), x.commas[k]) == Upto(x, k + 1);
  }

  lemma {:induction false} ListReads(d: bytes, depth: nat, x: Tree, f: Features, fl: Floats)
    requires x.List? && ListAt(d, x.open.end, depth, x, f, fl)
    ensures x.open.end <= |d| && x.close.end <= |d|
    ensures ReadItems(d, x.open.end, depth, [], 0, f, fl) == Read(true, x.close.end, Meaning(d, x, f, fl), [])
    decreases x, 0, |x.commas| + 1
  {
    var n := |x.commas|;
    hide ReadItems, RestOfList, ItemsAt, ListSoFar, NextToken, ReadToken, Meaning, ClosesHere, AfterItemIs;
    ListPrefixReads(d, depth, x, n, f, fl);
    UptoIsSoFar(d, depth, x, n, f, fl);
    if n == |x.items| {
      assert Closed(Upto(x, n), x.close) == x;
      ListIsClosed(d, depth, Upto(x, n), f, fl);
    } else {
      ItemIsRead(d, depth, x, n, f, fl);
      LastItemIsRead(d, depth, x, RestOfList(d, depth, Upto(x, n), f, fl), f, fl);
    }
  }

  lemma LastItemIsRead(d: bytes, depth: nat, x: Tree, r: Outcome, f: Features, fl: Floats)
    requires x.List? && |x.items| == |x.commas| + 1 && End(x.items[|x.commas|]) <= |d|
    requires x.close == NextToken(d, End(x.items[|x.commas|]), f) && x.close.kind == ArrayEnd
    requires AfterItemIs(d, depth, WithItem(Upto(x, |x.commas|), x.items[|x.commas|]), r, f, fl)
    ensures r == Read(true, x.close.end, Meaning(d, x, f, fl), [])
  {
    hide RestOfList, NextToken, ListEntries;
    assert WithItem(Upto(x, |x.commas|), x.items[|x.commas|]) == x;
  }

  // The first `k` members with their separators.
  function MembersUpto(x: Tree, k: nat): Tree
    requires x.Record? && k <= |x.commas| <= |x.values| == |x.names| == |x.colons|
  {
    Record(x.open, x.names[..k], x.colons[..k], x.values[..k], x.commas[..k], x.close)
  }

  lemma MembersUptoAre(d: bytes, depth: nat, x: Tree, k: nat, f: Features, fl: Floats)
    requires x.Record? && MembersAt(d, x.open.end, depth, x, f, fl) && k <= |x.commas|
    ensures RecordSoFar(d, x.open.end, depth, MembersUpto(x, k), f, fl)
    ensures forall i :: 0 <= i < k ==> FieldName(d, MembersUpto(x, k), i, f, fl) == FieldName(d, x, i, f, fl)
  {
    MembersShape(d, depth, x, f, fl);
    NamesUpto(d, depth, x, k, f, fl);
    ValuesUpto(d, depth, x, k, f, fl);
    if k > 0 {
      SeparatorStands(d, depth, x, k - 1, f, fl);
    }
    hide NameAt, ColonAt, MemberAt, SeparatorAt, FieldName, Separates;
    assert MembersAt(d, x.open.end, depth, MembersUpto(x, k), f, fl);
  }

  lemma NamesUpto(d: bytes, depth: nat, x: Tree, k: nat, f: Features, fl: Floats)
    requires x.Record? && MembersAt(d, x.open.end, depth, x, f, fl) && k <= |x.commas|
    ensures var y := MembersUpto(x, k);
            && (forall i :: 0 <= i < k ==> FieldName(d, y, i, f, fl) == FieldName(d, x, i, f, fl))
            && forall i :: 0 <= i < k ==> NameAt(d, x.open.end, y, i, f, fl)
  {
    var y := MembersUpto(x, k);
    hide ValueAt, NextToken, ReadToken, NameText, ColonAt, MemberAt, SeparatorAt;
    assert forall i :: 0 <= i < k ==> FieldName(d, y, i, f, fl) == FieldName(d, x, i, f, fl);
    forall i | 0 <= i < k ensures NameAt(d, x.open.end, y, i, f, fl) {
      assert NameAt(d, x.open.end, x, i, f, fl);
    }
  }

  lemma ValuesUpto(d: bytes, depth: nat, x: Tree, k: nat, f: Features, fl: Floats)
    requires x.Record? && MembersAt(d, x.open.end, depth, x, f, fl) && k <= |x.commas|
    ensures var y := MembersUpto(x, k);
            forall i :: 0 <= i < k ==> ColonAt(d, y, i, f) && MemberAt(d, y, i, depth, f, fl) && SeparatorAt(d, y, i, f)
  {
    var y := MembersUpto(x, k);
    hide ValueAt, NextToken, ReadToken, NameAt, Separates;
    forall i | 0 <= i < k ensures ColonAt(d, y, i, f) && MemberAt(d, y, i, depth, f, fl) && SeparatorAt(d, y, i, f) {
      assert ColonAt(d, x, i, f) && MemberAt(d, x, i, depth, f, fl) && SeparatorAt(d, x, i, f);
    }
  }

  lemma {:induction false} RecordReads(d: bytes, depth: nat, x: Tree, f: Features, fl: Floats)
    requires x.Record? && RecordAt(d, x.open.end, depth, x, f, fl)
    ensures x.open.end <= |d| && x.close.end <= |d|
    ensures ReadMembers(d, x.open.end, depth, [], [], f, fl) == Read(true, x.close.end, Meaning(d, x, f, fl), [])
    decreases x, 0, |x.commas| + 1
  {
    var n := |x.commas|;
    MembersShape(d, depth, x, f, fl);
    RecordPrefixReads(d, depth, x, n, f, fl);
    hide ReadMembers, RestOfRecord, MembersAt, RecordSoFar, ReadToken, NextToken, RecordEntries, ClosesRecord, LastName, AfterMemberIs;
    if n == |x.values| {
      TrailingIsRead(d, depth, x, f, fl);
    } else {
      MemberIsRead(d, depth, x, n, f, fl);
      LastIsRead(d, depth, x, RestOfRecord(d, depth, MembersUpto(x, n), f, fl), f, fl);
    }
  }

  lemma TrailingIsRead(d: bytes, depth: nat, x: Tree, f: Features, fl: Floats)
    requires x.Record? && RecordAt(d, x.open.end, depth, x, f, fl) && |x.names| == |x.colons| == |x.values| == |x.commas|
    requires RecordSoFar(d, x.open.end, depth, MembersUpto(x, |x.commas|), f, fl)
    requires Start(x.open.end, MembersUpto(x, |x.commas|).commas, |x.commas|) <= |d|
    ensures x.close.end <= |d|
    ensures RestOfRecord(d, depth, MembersUpto(x, |x.commas|), f, fl) == Read(true, x.close.end, Meaning(d, x, f, fl), [])
  {
    var y := MembersUpto(x, |x.commas|);
    assert ClosedRecord(y, x.close) == x;
    SameRecordEntries(d, x, y, |x.commas|, f, fl);
    hide RestOfRecord, MembersAt, RecordSoFar, ReadToken, NextToken, RecordEntries, ClosesRecord, LastName, Meaning;
    RecordIsClosed(d, depth, y, f, fl);
  }

  lemma LastIsRead(d: bytes, depth: nat, x: Tree, r: Outcome, f: Features, fl: Floats)
    requires x.Record? && RecordAt(d, x.open.end, depth, x, f, fl) && |x.names| == |x.colons| == |x.values| == |x.commas| + 1
    requires var n := |x.commas|;
             AfterMemberIs(d, depth, WithMember(MembersUpto(x, n), x.names[n], x.colons[n], x.values[n]), r, f, fl)
    ensures x.close.end <= |d| && r == Read(true, x.close.end, Meaning(d, x, f, fl), [])
  {
    hide *;
    LastCloses(d, depth, x, f, fl);
    UptoAndLast(x);
    BraceReads(d, depth, x, r, f, fl);
  }

  lemma UptoAndLast(x: Tree)
    requires x.Record? && |x.names| == |x.colons| == |x.values| == |x.commas| + 1
    ensures var n := |x.commas|; WithMember(MembersUpto(x, n), x.names[n], x.colons[n], x.values[n]) == x
  {
  }

  lemma LastCloses(d: bytes, depth: nat, x: Tree, f: Features, fl: Floats)
    requires x.Record? && RecordAt(d, x.open.end, depth, x, f, fl) && |x.names| == |x.values| == |x.commas| + 1
    ensures var e := End(x.values[|x.commas|]);
            e <= |d| && x.close == NextToken(d, e, f) && x.close.kind == ObjectEnd
    ensures Meaning(d, x, f, fl) == Obj(RecordEntries(d, x, |x.names|, f, fl))
  {
    assert MemberAt(d, x, |x.commas|, depth, f, fl);
    hide NextToken, RecordEntries, ValueAt;
  }

  lemma BraceReads(d: bytes, depth: nat, x: Tree, r: Outcome, f: Features, fl: Floats)
    requires x.Record? && x.values != [] && |x.names| == |x.values| && AfterMemberIs(d, depth, x, r, f, fl)
    ensures var e := End(x.values[|x.values| - 1]);
            && e <= |d|
            && (NextToken(d, e, f).kind == ObjectEnd ==>
                  r == Read(true, NextToken(d, e, f).end, Obj(RecordEntries(d, x, |x.names|, f, fl)), []))
  {
    hide RestOfRecord, NextToken, ReadToken, RecordEntries;
  }

  // The n-th member is read behind those before it.
  lemma {:induction false} MemberIsRead(d: bytes, depth: nat, x: Tree, k: nat, f: Features, fl: Floats)
    requires x.Record? && MembersAt(d, x.open.end, depth, x, f, fl) && k <= |x.commas| && k < |x.values|
    ensures RecordSoFar(d, x.open.end, depth, MembersUpto(x, k), f, fl)
    ensures AfterMemberIs(d, depth, WithMember(MembersUpto(x, k), x.names[k], x.colons[k], x.values[k]),
                          RestOfRecord(d, depth, MembersUpto(x, k), f, fl), f, fl)
    decreases x, 0, 0
  {
    var y, name, colon, value := MembersUpto(x, k), x.names[k], x.colons[k], x.values[k];
    MembersUptoAre(d, depth, x, k, f, fl);
    assert NameAt(d, x.open.end, x, k, f, fl) && ColonAt(d, x, k, f) && MemberAt(d, x, k, depth, f, fl);
    NameIsFresh(d, depth, x, k, f, fl);
    hide ReadToken, NextToken, ReadMembers, RestOfRecord, RestOfMember, MembersAt, RecordSoFar, Taken, ValueAt, ReadValue, NameText;
    hide PriorMember, Meaning, AfterMemberIs, LastName, ClosesRecord;
    RecordTurn(d, depth, y, f, fl);
    ValueReads(d, colon.end, depth + 1, value, PriorMember(d, y, name, f, fl), f, fl);
    ReadMovesOn(d, colon.end, depth + 1, PriorMember(d, y, name, f, fl), f, fl);
    MemberReads(d, depth, y, name, value, f, fl);
  }

  lemma ReadMovesOn(d: bytes, p: nat, depth: nat, prior: Value, f: Features, fl: Floats)
    requires p <= |d|
    ensures var r := ReadValue(d, p, depth, prior, f, fl); r.Read? ==> p <= r.pos
  {
    hide ReadValue;
  }

  // Where a member starts the record is not closed, and its name is not taken where that matters.
  lemma NameIsFresh(d: bytes, depth: nat, x: Tree, k: nat, f: Features, fl: Floats)
    requires x.Record? && MembersAt(d, x.open.end, depth, x, f, fl) && k <= |x.commas| && k < |x.values|
    ensures var y, q := MembersUpto(x, k), Start(x.open.end, x.commas, k);
            && q <= |d| && x.names[k] == NextToken(d, q, f) && NameText(d, x.names[k], f, fl).Some?
            && !ClosesRecord(d, q, LastName(d, y, k, f, fl), f)
            && |NameText(d, x.names[k], f, fl).value| <= MAX_KEY_LENGTH
            && (f.rejectDupKeys ==> !Taken(d, y, NameText(d, x.names[k], f, fl).value, f, fl))
  {
    assert NameAt(d, x.open.end, x, k, f, fl);
    MembersUptoAre(d, depth, x, k, f, fl);
    NameIsNoBrace(d, x.names[k], f, fl);
    hide NextToken, NameText, MembersAt;
  }

  lemma NameIsNoBrace(d: bytes, t: Token, f: Features, fl: Floats)
    requires t.start <= t.end <= |d| && NameText(d, t, f, fl).Some?
    ensures t.kind != ObjectEnd
  {
  }

  lemma {:induction false} RecordPrefixReads(d: bytes, depth: nat, x: Tree, k: nat, f: Features, fl: Floats)
    requires x.Record? && MembersAt(d, x.open.end, depth, x, f, fl) && k <= |x.commas|
    ensures RecordSoFar(d, x.open.end, depth, MembersUpto(x, k), f, fl)
    ensures x.open.end <= |d| && Start(x.open.end, MembersUpto(x, k).commas, k) <= |d|
    ensures ReadMembers(d, x.open.end, depth, [], [], f, fl) == RestOfRecord(d, depth, MembersUpto(x, k), f, fl)
    decreases x, 0, k
  {
    hide ReadMembers, RestOfRecord, MembersAt, AfterMemberIs, RecordSoFar, FieldName;
    MembersShape(d, depth, x, f, fl);
    MembersUptoAre(d, depth, x, k, f, fl);
    SoFarFits(d, depth, MembersUpto(x, k), f, fl);
    if k == 0 {
      RecordStarts(d, depth, x, f, fl);
    } else {
      RecordPrefixReads(d, depth, x, k - 1, f, fl);
      MemberIsRead(d, depth, x, k - 1, f, fl);
      SeparatorIsRead(d, depth, x, k - 1, RestOfRecord(d, depth, MembersUpto(x, k - 1), f, fl), f, fl);
    }
  }

  lemma SoFarFits(d: bytes, depth: nat, x: Tree, f: Features, fl: Floats)
    requires x.Record? && RecordSoFar(d, x.open.end, depth, x, f, fl)
    ensures Start(x.open.end, x.commas, |x.commas|) <= |d|
  {
    hide MembersAt;
  }

  lemma RecordStarts(d: bytes, depth: nat, x: Tree, f: Features, fl: Floats)
    requires x.Record? && x.open.end <= |d| && |x.commas| <= |x.values| == |x.names| == |x.colons|
    ensures ReadMembers(d, x.open.end, depth, [], [], f, fl) == RestOfRecord(d, depth, MembersUpto(x, 0), f, fl)
  {
    hide ReadMembers;
  }

  lemma SeparatorIsRead(d: bytes, depth: nat, x: Tree, k: nat, r: Outcome, f: Features, fl: Floats)
    requires x.Record? && MembersAt(d, x.open.end, depth, x, f, fl) && k < |x.commas|
    requires AfterMemberIs(d, depth, WithMember(MembersUpto(x, k), x.names[k], x.colons[k], x.values[k]), r, f, fl)
    ensures Start(x.open.end, x.commas, k + 1) <= |d| && r == RestOfRecord(d, depth, MembersUpto(x, k + 1), f, fl)
  {
    hide RestOfRecord, MembersAt, AfterMemberIs, Separates;
    MembersShape(d, depth, x, f, fl);
    SeparatorStands(d, depth, x, k, f, fl);
    var y := WithMember(MembersUpto(x, k), x.names[k], x.colons[k], x.values[k]);
    assert WithSeparator(y, x.commas[k]) == MembersUpto(x, k + 1);
    SeparatorReads(d, depth, y, x.commas[k], r, f, fl);
  }

  lemma SeparatorStands(d: bytes, depth: nat, x: Tree, k: nat, f: Features, fl: Floats)
    requires x.Record? && MembersAt(d, x.open.end, depth, x, f, fl) && k < |x.commas|
    ensures End(x.values[k]) <= |d| && Separates(d, End(x.values[k]), x.commas[k], f) && x.commas[k].end <= |d|
  {
    assert SeparatorAt(d, x, k, f);
    hide MembersAt;
  }

  // ---------------------------------------------------------------- every fault reported

  lemma {:induction false} FaultReads(d: bytes, p: nat, depth: nat, y: Fault, prior: Value, f: Features, fl: Floats)
    requires FaultAt(d, p, depth, y, f, fl)
    ensures ReportsFault(ReadValue(d, p, depth, prior, f, fl), d, y, prior, f, fl)
    decreases y, 1
  {
    if depth <= f.stackLimit {
      var t := FirstToken(d, p, f);
      FirstEndOfValueIsOneByte(d, p, f);
      hide FirstToken, ReadItems, ReadMembers, ListFault, RecordFault, LeafValue, LeafError, ScalarOutcome;
      if t.kind == ArrayBegin {
        ListFaultReads(d, t, depth, y, f, fl);
      } else if t.kind == ObjectBegin {
        RecordFaultReads(d, t, depth, y, f, fl);
      } else {
        ScalarCases(d, t, prior, f, fl);
      }
    }
  }

  lemma {:induction false} ListFaultReads(d: bytes, t: Token, depth: nat, y: Fault, f: Features, fl: Floats)
    requires t.end <= |d| && ListFault(d, t, depth, y, f, fl)
    ensures ReportsAnyway(ReadItems(d, t.end, depth, [], 0, f, fl), d, y, f, fl)
    decreases y, 0
  {
    hide ReadItems, RestOfList, ItemsAt, ReadValue, PriorItem, ClosesHere, FaultAt, AfterItemIs, NextToken;
    match y
    case InItem(list, inner) =>
      ListIsReached(d, depth, list, f, fl);
      FaultReads(d, Start(t.end, list.commas, |list.commas|), depth + 1, inner, PriorItem(d, list, f, fl), f, fl);
      ItemFails(d, depth, list, inner, f, fl);
    case NoComma(list, token) =>
      ListPrefixReads(d, depth, list, |list.commas|, f, fl);
      ItemIsRead(d, depth, list, |list.commas|, f, fl);
      NoCommaReads(d, depth, list, RestOfList(d, depth, Upto(list, |list.commas|), f, fl), f, fl);
    case _ =>
  }

  // The loop has come to the item behind `x`.
  lemma ListIsReached(d: bytes, depth: nat, x: Tree, f: Features, fl: Floats)
    requires x.List? && ListSoFar(d, x.open.end, depth, x, f, fl)
    ensures x.open.end <= |d| && Start(x.open.end, x.commas, |x.commas|) <= |d| && |x.commas| == |x.items|
    ensures ReadItems(d, x.open.end, depth, [], 0, f, fl) == RestOfList(d, depth, x, f, fl)
  {
    ListPrefixReads(d, depth, x, |x.commas|, f, fl);
    assert Upto(x, |x.commas|) == x;
    hide ReadItems, RestOfList;
  }

  lemma NoCommaReads(d: bytes, depth: nat, x: Tree, r: Outcome, f: Features, fl: Floats)
    requires x.List? && |x.items| == |x.commas| + 1 && End(x.items[|x.commas|]) <= |d|
    requires AfterItemIs(d, depth, WithItem(Upto(x, |x.commas|), x.items[|x.commas|]), r, f, fl)
    ensures var k := NextToken(d, End(x.items[|x.commas|]), f);
            k.kind != ArraySeparator && k.kind != ArrayEnd ==> ReportsAnyway(r, d, NoComma(x, k), f, fl)
  {
    hide RestOfList, NextToken, ListEntries, Recover;
    assert WithItem(Upto(x, |x.commas|), x.items[|x.commas|]) == x;
  }

  // The loop has come to the member behind `record`.
  lemma RecordIsReached(d: bytes, t: Token, depth: nat, x: Tree, f: Features, fl: Floats)
    requires RecordOpen(d, t, depth, x, f, fl)
    ensures |x.names| == |x.colons| == |x.values| == |x.commas|
    ensures ReadMembers(d, t.end, depth, [], [], f, fl) == RestOfRecord(d, depth, x, f, fl)
  {
    RecordShape(d, depth, x, f, fl);
    RecordPrefixReads(d, depth, x, |x.commas|, f, fl);
    assert MembersUpto(x, |x.commas|) == x;
    hide ReadMembers, RestOfRecord, MembersAt;
  }

  // And to the colon behind a fresh name.
  lemma NameIsReached(d: bytes, t: Token, depth: nat, x: Tree, name: Token, f: Features, fl: Floats)
    requires FreshNext(d, t, depth, x, name, f, fl)
    ensures NamedBy(d, x, name, f, fl)
    ensures ReadMembers(d, t.end, depth, [], [], f, fl) == RestOfMember(d, depth, x, name, f, fl)
  {
    RecordIsReached(d, t, depth, x, f, fl);
    NameIsNoBrace(d, name, f, fl);
    hide ReadMembers, RestOfRecord, RestOfMember, MembersAt, NextToken, NameText, Taken, LastName;
    RecordTurn(d, depth, x, f, fl);
  }

  lemma {:induction false} RecordFaultReads(d: bytes, t: Token, depth: nat, y: Fault, f: Features, fl: Floats)
    requires t.end <= |d| && RecordFault(d, t, depth, y, f, fl)
    ensures ReportsAnyway(ReadMembers(d, t.end, depth, [], [], f, fl), d, y, f, fl)
    decreases y, 0
  {
    hide ReadMembers, RestOfRecord, RestOfMember, MembersAt, NextToken, ReadToken, NameText, Taken, ReadValue, PriorMember;
    hide RecordSoFar, RecordEntries, FaultAt, LastName, NameError, ClosesRecord;
    match y
    case NoName(record, _, _) =>
      RecordIsReached(d, t, depth, record, f, fl);
      RecordTurn(d, depth, record, f, fl);
    case NameTooLong(record, name) =>
      RecordIsReached(d, t, depth, record, f, fl);
      NameIsNotClosing(d, record, name, f, fl);
      RecordTurn(d, depth, record, f, fl);
    case NameRepeated(record, name) =>
      RecordIsReached(d, t, depth, record, f, fl);
      NameIsNotClosing(d, record, name, f, fl);
      RecordTurn(d, depth, record, f, fl);
    case NoColon(record, name, _) =>
      NameIsReached(d, t, depth, record, name, f, fl);
      ColonMissing(d, depth, record, name, f, fl);
    case InMember(record, name, colon, inner) =>
      NameIsReached(d, t, depth, record, name, f, fl);
      FaultReads(d, colon.end, depth + 1, inner, PriorMember(d, record, name, f, fl), f, fl);
      MemberFails(d, depth, record, name, inner, f, fl);
    case NoSeparator(record, _) => SeparatorFaultReads(d, t, depth, record, f, fl);
    case _ =>
  }

  lemma NameIsNotClosing(d: bytes, x: Tree, name: Token, f: Features, fl: Floats)
    requires x.Record? && |x.commas| <= |x.names| && Start(x.open.end, x.commas, |x.commas|) <= |d|
    requires name == NextToken(d, Start(x.open.end, x.commas, |x.commas|), f) && NameText(d, name, f, fl).Some?
    ensures !ClosesRecord(d, Start(x.open.end, x.commas, |x.commas|), LastName(d, x, |x.names|, f, fl), f)
  {
    NameIsNoBrace(d, name, f, fl);
    hide NameText, NextToken, LastName;
  }

  lemma SeparatorFaultReads(d: bytes, t: Token, depth: nat, x: Tree, f: Features, fl: Floats)
    requires x.Record? && x.open == t && MembersAt(d, t.end, depth, x, f, fl)
    requires |x.values| == |x.commas| + 1 && End(x.values[|x.commas|]) <= |d|
    requires var k := ReadToken(d, End(x.values[|x.commas|]), f);
             k.kind != ObjectEnd && k.kind != ArraySeparator && k.kind != Comment
    ensures t.end <= |d|
    ensures ReportsAnyway(ReadMembers(d, t.end, depth, [], [], f, fl), d, NoSeparator(x, ReadToken(d, End(x.values[|x.commas|]), f)), f, fl)
  {
    var n := |x.commas|;
    MembersShape(d, depth, x, f, fl);
    hide ReadMembers, RestOfRecord, MembersAt, RecordSoFar, NextToken, ReadToken, RecordEntries, AfterMemberIs;
    RecordPrefixReads(d, depth, x, n, f, fl);
    MemberIsRead(d, depth, x, n, f, fl);
    NoSeparatorReads(d, depth, x, RestOfRecord(d, depth, MembersUpto(x, n), f, fl), f, fl);
  }

  lemma NoSeparatorReads(d: bytes, depth: nat, x: Tree, r: Outcome, f: Features, fl: Floats)
    requires x.Record? && |x.names| == |x.colons| == |x.values| == |x.commas| + 1 && End(x.values[|x.commas|]) <= |d|
    requires var n := |x.commas|;
             AfterMemberIs(d, depth, WithMember(MembersUpto(x, n), x.names[n], x.colons[n], x.values[n]), r, f, fl)
    ensures var k := ReadToken(d, End(x.values[|x.commas|]), f);
            k.kind != ObjectEnd && k.kind != ArraySeparator && k.kind != Comment ==>
              ReportsAnyway(r, d, NoSeparator(x, k), f, fl)
  {
    hide RestOfRecord, Recover, NextToken, ReadToken, RecordEntries, Separates;
    var n := |x.commas|;
    assert WithMember(MembersUpto(x, n), x.names[n], x.colons[n], x.values[n]) == x;
  }

  // ---------------------------------------------------------------- documents

  // The reader accepts a document exactly when it is one of the language, and then the root is what
  // the document means.
  lemma AcceptsTheLanguage(d: bytes, root: Value, f: Features, fl: Floats)
    ensures var r := Parse(d, root, f, fl);
            r.Read? && r.ok <==> exists x :: DocumentAt(d, x, f, fl)
    ensures forall x :: DocumentAt(d, x, f, fl) ==> Parse(d, root, f, fl).Read? && Parse(d, root, f, fl).value == Meaning(d, x, f, fl)
  {
    hide Parse, DocumentAt, Meaning;
    forall x | DocumentAt(d, x, f, fl)
      ensures var r := Parse(d, root, f, fl); r.Read? && r.ok && r.value == Meaning(d, x, f, fl)
    {
      SentenceIsAccepted(d, x, root, f, fl);
    }
    var r := Parse(d, root, f, fl);
    if r.Read? && r.ok {
      var x := AcceptedIsSentence(d, root, f, fl);
    }
  }

  lemma SentenceIsAccepted(d: bytes, x: Tree, root: Value, f: Features, fl: Floats)
    requires DocumentAt(d, x, f, fl)
    ensures Parse(d, root, f, fl) == Read(true, FirstToken(d, End(x), f).end, Meaning(d, x, f, fl), [])
  {
    hide ReadValue, ValueAt, FirstToken, Meaning;
    ValueReads(d, SkipBom(d, f), 1, x, root, f, fl);
    MeaningIsContainer(d, x, f, fl);
  }

  lemma AcceptedIsSentence(d: bytes, root: Value, f: Features, fl: Floats) returns (x: Tree)
    requires var r := Parse(d, root, f, fl); r.Read? && r.ok
    ensures DocumentAt(d, x, f, fl)
  {
    var p := SkipBom(d, f);
    hide ReadValue, ValueAt, FaultAt, FirstToken, Meaning;
    var v := ExplainValue(d, p, 1, root, f, fl);
    if v.Fine? {
      x := v.tree;
      MeaningIsContainer(d, x, f, fl);
    }
  }

  lemma MeaningIsContainer(d: bytes, x: Tree, f: Features, fl: Floats)
    ensures x.List? || x.Record? ==> IsContainer(Meaning(d, x, f, fl))
    ensures x.Absent? ==> !IsContainer(Meaning(d, x, f, fl))
    ensures x.Leaf? ==> !IsContainer(Meaning(d, x, f, fl))
  {
  }

  // Where the value of a document leaves the language, the reader reports just that, first of all.
  lemma ReportsTheFault(d: bytes, y: Fault, root: Value, f: Features, fl: Floats)
    requires FaultAt(d, SkipBom(d, f), 1, y, f, fl)
    ensures match Reported(y)
            case Refused(info) =>
              var r := Parse(d, root, f, fl);
              && r.Read? && !r.ok && r.errors != [] && r.errors[0] == info
              && (!f.failIfExtra && !f.strictRoot ==> r.errors == [info])
              && r.value == Left(d, y, root, f, fl)
            case Thrown(e) => Parse(d, root, f, fl) == Threw(e)
  {
    hide ReadValue, FaultAt, FirstToken;
    FaultReads(d, SkipBom(d, f), 1, y, root, f, fl);
  }

  // A document's value is a sentence of the language or has a fault, not both and never neither.
  lemma SentenceOrFault(d: bytes, f: Features, fl: Floats)
    ensures (exists x :: ValueAt(d, SkipBom(d, f), 1, x, f, fl)) <==> !exists y :: FaultAt(d, SkipBom(d, f), 1, y, f, fl)
  {
    hide ReadValue, FaultAt, ValueAt;
    var p := SkipBom(d, f);
    var v := ExplainValue(d, p, 1, Value.Null, f, fl);
    assert match v case Fine(x) => ValueAt(d, p, 1, x, f, fl) case Faulty(y) => FaultAt(d, p, 1, y, f, fl);
    if x, y :| ValueAt(d, p, 1, x, f, fl) && FaultAt(d, p, 1, y, f, fl) {
      ValueReads(d, p, 1, x, Value.Null, f, fl);
      FaultReads(d, p, 1, y, Value.Null, f, fl);
    }
  }

  // ---------------------------------------------------------------- what sentences mean

  // Of members with the same name the last one counts, and there are no others.
  lemma {:induction false} LastMemberCounts(d: bytes, x: Tree, k: nat, j: nat, f: Features, fl: Floats)
    requires x.Record? && j < k <= |x.names| && k <= |x.values|
    requires forall i :: j < i < k ==> FieldName(d, x, i, f, fl) != FieldName(d, x, j, f, fl)
    ensures Get(RecordEntries(d, x, k, f, fl), Name(FieldName(d, x, j, f, fl))) == Meaning(d, x.values[j], f, fl)
    decreases k
  {
    hide Meaning, FieldName, Put, Get, Has, LowerBound, KeyLess;
    RecordKeys(d, x, k - 1, [], f, fl);
    PutThenGet(RecordEntries(d, x, k - 1, f, fl), Name(FieldName(d, x, k - 1, f, fl)), Meaning(d, x.values[k - 1], f, fl),
               Name(FieldName(d, x, j, f, fl)));
    if j < k - 1 {
      assert FieldName(d, x, k - 1, f, fl) != FieldName(d, x, j, f, fl);
      LastMemberCounts(d, x, k - 1, j, f, fl);
    }
  }

  lemma ItemsCount(d: bytes, x: Tree, f: Features, fl: Floats)
    requires x.List?
    ensures Size(Meaning(d, x, f, fl)) == |x.items|
    ensures forall i :: 0 <= i < |x.items| ==>
              Get(ListEntries(d, x, |x.items|, f, fl), Index(i)) == Meaning(d, x.items[i], f, fl)
  {
    var entries := ListEntries(d, x, |x.items|, f, fl);
    assert Meaning(d, x, f, fl) == Array(entries);
    hide Meaning, LowerBound;
    forall i | 0 <= i < |x.items| ensures Get(entries, Index(i)) == Meaning(d, x.items[i], f, fl) {
      NormalForm.DenseLowerBound(entries, 0, i);
    }
  }

  // ---------------------------------------------------------------- recovery

  // Consecutive tokens from `p` on, comments included.
  predicate Run(d: bytes, p: nat, ts: seq<Token>, f: Features)
    decreases |ts|
  {
    p <= |d| && (ts == [] || (ts[0] == ReadToken(d, p, f) && Run(d, ts[0].end, ts[1..], f)))
  }

  // The reader resumes behind the first token of the wanted kind, or at the end.
  lemma {:induction false} RecoverStops(d: bytes, p: nat, until: Kind, f: Features) returns (ts: seq<Token>)
    requires p <= |d|
    ensures ts != [] && Run(d, p, ts, f) && ts[|ts| - 1].end == Recover(d, p, until, f)
    ensures forall i :: 0 <= i < |ts| ==> (ts[i].kind == until || ts[i].kind == EndOfStream <==> i == |ts| - 1)
    decreases |d| - p
  {
    hide TokenAfter, SkipSpaces;
    var t := ReadToken(d, p, f);
    ts := [t];
    if t.kind != until && t.kind != EndOfStream {
      var more := RecoverStops(d, t.end, until, f);
      ts := [t] + more;
      assert ts[1..] == more;
    }
  }

  // ---------------------------------------------------------------- an odd document

  // {"":null/**/!}
  const ODD_RECORD: bytes := [123, 34, 34, 58, 110, 117, 108, 108, 47, 42, 42, 47, 33, 125]

  lemma MarkIsToken(d: bytes, p: nat, f: Features)
    requires p < |d| && !IsSpace(d[p]) && Punctuation(d[p]).Some?
    ensures ReadToken(d, p, f) == Token(Punctuation(d[p]).value, p, p + 1)
  {
  }

  lemma EmptyStringIsToken(d: bytes, p: nat, f: Features)
    requires p + 1 < |d| && d[p] == QUOTE == d[p + 1]
    ensures ReadToken(d, p, f) == Token(String, p, p + 2)
    ensures StringOf(d, Token(String, p, p + 2)) == JsonStrings.Text([], 0)
  {
    assert StringEnd(d, p + 1, QUOTE) == Scan(true, p + 2);
  }

  lemma NullIsToken(d: bytes, p: nat, f: Features)
    requires p + 3 < |d| && d[p] == 110 && d[p + 1] == 117 && d[p + 2] == 108 && d[p + 3] == 108
    ensures ReadToken(d, p, f) == Token(Kind.Null, p, p + 4)
  {
    assert d[p + 1..p + 4] == ULL;
  }

  lemma CommentIsToken(d: bytes, p: nat, f: Features)
    requires p + 3 < |d| && d[p] == SLASH && d[p + 1] == STAR && d[p + 2] == STAR && d[p + 3] == SLASH
    ensures ReadToken(d, p, f) == Token(Comment, p, p + 4)
  {
    assert CStyleEnd(d, p + 2) == Scan(true, p + 4);
  }

  lemma OddStart(f: Features)
    ensures var d := ODD_RECORD;
            && ReadToken(d, 0, f) == Token(ObjectBegin, 0, 1) && ReadToken(d, 1, f) == Token(String, 1, 3)
            && ReadToken(d, 3, f) == Token(MemberSeparator, 3, 4) && ReadToken(d, 4, f) == Token(Kind.Null, 4, 8)
            && StringOf(d, Token(String, 1, 3)) == JsonStrings.Text([], 0)
  {
    hide ReadToken, StringOf;
    MarkIsToken(ODD_RECORD, 0, f);
    EmptyStringIsToken(ODD_RECORD, 1, f);
    MarkIsToken(ODD_RECORD, 3, f);
    NullIsToken(ODD_RECORD, 4, f);
  }

  lemma OddEnd(f: Features)
    ensures var d := ODD_RECORD;
            && NextToken(d, 8, f) == Token(Kind.Error, 12, 13) && ReadToken(d, 8, f).kind == Comment
            && NextToken(d, 13, f) == Token(ObjectEnd, 13, 14) && FirstToken(d, 14, f) == Token(EndOfStream, 14, 14)
  {
    CommentIsToken(ODD_RECORD, 8, f);
    MarkIsToken(ODD_RECORD, 13, f);
    assert ReadToken(ODD_RECORD, 12, f) == Token(Kind.Error, 12, 13);
    assert ReadToken(ODD_RECORD, 14, f) == Token(EndOfStream, 14, 14);
  }

  const ODD_TREE: Tree :=
    Record(Token(ObjectBegin, 0, 1), [Token(String, 1, 3)], [Token(MemberSeparator, 3, 4)], [Leaf(Token(Kind.Null, 4, 8))],
           [Token(Kind.Error, 12, 13)], Token(ObjectEnd, 13, 14))

  lemma OddTreeIsSpelled(f: Features, fl: Floats)
    requires f.stackLimit >= 2
    ensures ValueAt(ODD_RECORD, 0, 1, ODD_TREE, f, fl)
    ensures FieldName(ODD_RECORD, ODD_TREE, 0, f, fl) == []
  {
    var d, x := ODD_RECORD, ODD_TREE;
    OddStart(f);
    OddEnd(f);
    OddTokensAlike(f);
    hide ReadToken, NextToken, FirstToken, StringOf;
    assert NameText(d, x.names[0], f, fl) == Some([]);
    assert NameAt(d, 1, x, 0, f, fl);
    assert MemberAt(d, x, 0, 1, f, fl);
    assert SeparatorAt(d, x, 0, f);
    assert RecordAt(d, 1, 1, x, f, fl);
  }

  lemma OddTreeMeans(f: Features, fl: Floats)
    requires FieldName(ODD_RECORD, ODD_TREE, 0, f, fl) == []
    ensures Meaning(ODD_RECORD, ODD_TREE, f, fl) == Obj([Entry(Name([]), Value.Null)])
  {
    assert RecordEntries(ODD_RECORD, ODD_TREE, 0, f, fl) == [];
    assert Meaning(ODD_RECORD, ODD_TREE.values[0], f, fl) == Value.Null;
    hide FieldName;
    PutAtEnd([], Name([]), Value.Null);
    assert RecordEntries(ODD_RECORD, ODD_TREE, 1, f, fl) == [Entry(Name([]), Value.Null)];
  }

  // A comment makes any token pass for a comma, and an empty name makes a trailing one acceptable, even
  // where the features allow neither comments nor trailing commas.
  lemma OddRecordIsAccepted(root: Value, f: Features, fl: Floats)
    requires f.stackLimit >= 2
    ensures Parse(ODD_RECORD, root, f, fl) == Read(true, 14, Obj([Entry(Name([]), Value.Null)]), [])
  {
    OddTreeIsSpelled(f, fl);
    OddTreeMeans(f, fl);
    OddEnd(f);
    assert SkipBom(ODD_RECORD, f) == 0 by { assert ODD_RECORD[0..3][0] == 123; }
    hide Parse, Meaning, ValueAt, FirstToken, NextToken, ReadToken;
    SentenceIsAccepted(ODD_RECORD, ODD_TREE, root, f, fl);
  }

  lemma OddTokensAlike(f: Features)
    requires ReadToken(ODD_RECORD, 0, f) == Token(ObjectBegin, 0, 1) && ReadToken(ODD_RECORD, 1, f) == Token(String, 1, 3)
    requires ReadToken(ODD_RECORD, 4, f) == Token(Kind.Null, 4, 8)
    ensures FirstToken(ODD_RECORD, 0, f) == Token(ObjectBegin, 0, 1) && NextToken(ODD_RECORD, 1, f) == Token(String, 1, 3)
    ensures FirstToken(ODD_RECORD, 4, f) == Token(Kind.Null, 4, 8)
  {
    hide TokenAfter, SkipSpaces;
  }
}
