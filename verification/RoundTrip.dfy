// Reading back what spells a tree: a document whose tokens are those of a tree is parsed into the
// normal form of that tree, exactly when the tree does not nest more deeply than the reader allows.
module RoundTrip {
  import opened Bytes
  import opened Values
  import opened Layout
  import opened Documents
  import opened Scanner
  import opened ReaderSpec
  import JsonStrings
  import Numbers

  // ---------------------------------------------------------------- single tokens

  lemma LaysHead(d: bytes, p: nat, t: Tok, toks: seq<Tok>, f: Features)
    requires p <= |d| && Lays(d, p, [t] + toks, f)
    ensures var k := ReadToken(d, p, f);
            k.kind == t.kind && d[k.start..k.end] == t.text && Lays(d, k.end, toks, f)
  {
    assert ([t] + toks)[0] == t && ([t] + toks)[1..] == toks;
  }

  // The same for a list of one token.
  lemma LaysOne(d: bytes, p: nat, one: seq<Tok>, toks: seq<Tok>, f: Features)
    requires p <= |d| && |one| == 1 && Lays(d, p, one + toks, f)
    ensures var k := ReadToken(d, p, f);
            k.kind == one[0].kind && d[k.start..k.end] == one[0].text && Lays(d, k.end, toks, f)
  {
    assert one == [one[0]];
    LaysHead(d, p, one[0], toks, f);
  }

  lemma NoCommentAhead(d: bytes, p: nat, f: Features)
    requires p <= |d| && ReadToken(d, p, f).kind != Comment
    ensures NextToken(d, p, f) == FirstToken(d, p, f) == ReadToken(d, p, f)
  {
  }

  lemma SkipIsIdempotent(d: bytes, p: nat)
    requires p <= |d|
    ensures SkipSpaces(d, SkipSpaces(d, p)) == SkipSpaces(d, p)
  {
  }

  // A token is the same seen from its first character.
  lemma SameTokens(d: bytes, p: nat, toks: seq<Tok>, f: Features)
    requires p <= |d|
    ensures Lays(d, SkipSpaces(d, p), toks, f) == Lays(d, p, toks, f)
  {
    hide TokenAfter;
    SkipIsIdempotent(d, p);
  }

  lemma ClosingBracketAhead(d: bytes, p: nat, f: Features)
    requires p <= |d|
    ensures var q := SkipSpaces(d, p);
            (q < |d| && d[q] == RBRACKET) <==> ReadToken(d, p, f).kind == ArrayEnd
    ensures var q := SkipSpaces(d, p);
            q < |d| && d[q] == RBRACKET ==> ReadToken(d, p, f).end == q + 1
  {
  }

  // The kinds with which a value can start.
  predicate StartsValue(k: Kind) {
    k == Number || k == String || k == True || k == False || k == Kind.Null || k == ArrayBegin || k == ObjectBegin
  }

  lemma ValueHead(v: Value, s: Spelling) returns (t: Tok, toks: seq<Tok>)
    requires Valid(v) && RealFree(v) && !s.dropNull
    ensures ValueTokens(v, s) == [t] + toks && StartsValue(t.kind)
  {
    t, toks := ValueTokens(v, s)[0], ValueTokens(v, s)[1..];
    assert ValueTokens(v, s) == [t] + toks;
  }

  lemma RegroupTokens(a: seq<Tok>, b: seq<Tok>, c: seq<Tok>, d: seq<Tok>, e: seq<Tok>)
    ensures a + (b + c) + d + e == a + (b + (c + (d + e)))
  {
  }

  // ---------------------------------------------------------------- outcomes

  // The reader succeeds with `value` and stops where only `rest` is left.
  ghost predicate ReadsAs(r: Outcome, d: bytes, value: Value, rest: seq<Tok>, f: Features) {
    r.Read? && r.ok && r.errors == [] && r.value == value && r.pos <= |d| && Lays(d, r.pos, rest, f)
  }

  predicate Fits(v: Value, depth: nat, f: Features) { depth + Depth(v) <= f.stackLimit + 1 }

  // Trees the theorem speaks about: without reals, and with arrays the reader can count.
  predicate Readable(v: Value) { Valid(v) && RealFree(v) && Countable(v) }

  lemma ScalarNumber(x: int, fl: Floats)
    requires Numbers.MIN_INT <= x <= Numbers.MAX_UINT
    ensures NumberValue(Numbers.DecimalInt(x), fl)
            == Some(if x <= Numbers.MAX_INT then Int(x as Numbers.int64) else UInt(x as Numbers.uint64))
  {
    Numbers.IntegerRoundTrip(x);
  }

  lemma ScalarString(d: bytes, t: Token, s: bytes, emitUTF8: bool)
    requires t.start <= t.end <= |d| && d[t.start..t.end] == JsonStrings.Quoted(s, emitUTF8)
    ensures t.start + 2 <= t.end
    ensures StringOf(d, t) == JsonStrings.Text(JsonStrings.Reread(s, emitUTF8), |JsonStrings.EscapeBody(s, emitUTF8)|)
  {
    hide JsonStrings.EscapeBody, JsonStrings.DecodeBody, JsonStrings.Reread;
    var q := JsonStrings.Quoted(s, emitUTF8);
    assert |q| == t.end - t.start;
    SliceOfSlice(d, t.start, t.end, 1, |q| - 1);
    assert q[1..|q| - 1] == JsonStrings.EscapeBody(s, emitUTF8);
    JsonStrings.EscapeThenDecode(s, emitUTF8);
  }

  lemma ScalarReads(d: bytes, t: Token, v: Value, s: Spelling, prior: Value, f: Features, fl: Floats)
    requires Valid(v) && RealFree(v) && !IsContainer(v) && !s.dropNull
    requires t.start < t.end <= |d|
    requires ScalarTokens(v, s) == [Tok(t.kind, d[t.start..t.end])]
    ensures ScalarOutcome(d, t, prior, f, fl) == Read(true, t.end, Norm(v, s.emitUTF8), [])
  {
    match v
    case Int(i) => ScalarNumber(i as int, fl);
    case UInt(u) => ScalarNumber(u as int, fl);
    case Str(text) => ScalarString(d, t, text, s.emitUTF8);
    case _ =>
  }

  lemma ReadsScalar(d: bytes, p: nat, depth: nat, prior: Value, v: Value, s: Spelling, rest: seq<Tok>, f: Features,
      fl: Floats)
    requires p <= |d| && 0 < depth <= f.stackLimit
    requires Valid(v) && RealFree(v) && !IsContainer(v) && !s.dropNull
    requires Lays(d, p, ScalarTokens(v, s) + rest, f)
    ensures ReadsAs(ReadValue(d, p, depth, prior, f, fl), d, Norm(v, s.emitUTF8), rest, f)
  {
    ScalarKind(v, s);
    hide ReadToken, Lays, ReadValue, ScalarOutcome, Norm, ScalarTokens, Valid, RealFree;
    var tok := ScalarTokens(v, s)[0];
    assert ScalarTokens(v, s) == [tok];
    LaysHead(d, p, tok, rest, f);
    ScalarTokenReads(d, p, depth, prior, f, fl);
    ScalarReads(d, ReadToken(d, p, f), v, s, prior, f, fl);
  }

  lemma ScalarTokenReads(d: bytes, p: nat, depth: nat, prior: Value, f: Features, fl: Floats)
    requires p <= |d| && depth <= f.stackLimit
    requires var k := ReadToken(d, p, f).kind; k != Comment && k != ObjectBegin && k != ArrayBegin
    ensures ReadValue(d, p, depth, prior, f, fl) == ScalarOutcome(d, ReadToken(d, p, f), prior, f, fl)
  {
    hide ReadToken, NextToken, FirstToken, ScalarOutcome;
    NoCommentAhead(d, p, f);
  }

  lemma ScalarKind(v: Value, s: Spelling)
    requires RealFree(v) && !IsContainer(v) && !s.dropNull
    ensures |ScalarTokens(v, s)| == 1
    ensures var k := ScalarTokens(v, s)[0].kind;
            k == Number || k == String || k == True || k == False || k == Kind.Null
  {
  }

  // ---------------------------------------------------------------- lists

  // From the k-th item on: the item, the rest of the list with its commas, the bracket.
  ghost function ItemsFrom(items: seq<Value>, k: nat, s: Spelling, bound: nat, rest: seq<Tok>): seq<Tok>
    requires k < |items| && ItemsBelow(items, bound)
  {
    ValueTokens(items[k], s) + ItemsAfter(items, k + 1, s, bound, rest)
  }

  ghost function ItemsAfter(items: seq<Value>, k: nat, s: Spelling, bound: nat, rest: seq<Tok>): seq<Tok>
    requires k <= |items| && ItemsBelow(items, bound)
  {
    ItemTokens(items, k, s, bound) + (CLOSE_ARRAY + rest)
  }

  lemma NextItemTokens(items: seq<Value>, k: nat, s: Spelling, bound: nat, rest: seq<Tok>)
    requires k <= |items| && ItemsBelow(items, bound)
    ensures k == |items| ==> ItemsAfter(items, k, s, bound, rest) == CLOSE_ARRAY + rest
    ensures 0 < k < |items| ==> ItemsAfter(items, k, s, bound, rest) == SEPARATOR + ItemsFrom(items, k, s, bound, rest)
    ensures 0 == k < |items| ==> ItemsAfter(items, k, s, bound, rest) == ItemsFrom(items, k, s, bound, rest)
  {
    if k < |items| {
      var head, item, tail := if k > 0 then SEPARATOR else [], ValueTokens(items[k], s), ItemTokens(items, k + 1, s, bound);
      assert ItemTokens(items, k, s, bound) == head + item + tail;
      assert head + item + tail + (CLOSE_ARRAY + rest) == head + (item + (tail + (CLOSE_ARRAY + rest)));
    } else {
      assert [] + (CLOSE_ARRAY + rest) == CLOSE_ARRAY + rest;
    }
  }

  // A member: its name and colon, its value.
  ghost function MembersFrom(entries: seq<Entry>, k: nat, s: Spelling, bound: nat, rest: seq<Tok>): seq<Tok>
    requires k < |entries| && EntriesBelow(entries, bound)
  {
    KeyTokens(entries[k].key, s) + (ValueTokens(entries[k].value, s) + MembersAfter(entries, k + 1, s, bound, rest))
  }

  ghost function MembersAfter(entries: seq<Entry>, k: nat, s: Spelling, bound: nat, rest: seq<Tok>): seq<Tok>
    requires k <= |entries| && EntriesBelow(entries, bound)
  {
    MemberTokens(entries, k, s, bound) + (CLOSE_OBJECT + rest)
  }

  lemma NextMemberTokens(entries: seq<Entry>, k: nat, s: Spelling, bound: nat, rest: seq<Tok>)
    requires k <= |entries| && EntriesBelow(entries, bound)
    ensures k == |entries| ==> MembersAfter(entries, k, s, bound, rest) == CLOSE_OBJECT + rest
    ensures 0 < k < |entries| ==> MembersAfter(entries, k, s, bound, rest) == SEPARATOR + MembersFrom(entries, k, s, bound, rest)
    ensures 0 == k < |entries| ==> MembersAfter(entries, k, s, bound, rest) == MembersFrom(entries, k, s, bound, rest)
  {
    if k < |entries| {
      var head, key, value, tail := if k > 0 then SEPARATOR else [], KeyTokens(entries[k].key, s),
                                    ValueTokens(entries[k].value, s), MemberTokens(entries, k + 1, s, bound);
      assert MemberTokens(entries, k, s, bound) == head + (key + value) + tail;
      hide *;
      RegroupTokens(head, key, value, tail, CLOSE_OBJECT + rest);
    } else {
      assert [] + (CLOSE_OBJECT + rest) == CLOSE_OBJECT + rest;
    }
  }

  // ---------------------------------------------------------------- depth

  predicate AllFit(items: seq<Value>, k: nat, depth: nat, f: Features) {
    forall j :: k <= j < |items| ==> Fits(items[j], depth, f)
  }

  predicate AllEntriesFit(entries: seq<Entry>, k: nat, depth: nat, f: Features) {
    forall j :: k <= j < |entries| ==> Fits(entries[j].value, depth, f)
  }

  lemma EntryIsItem(v: Value, j: nat)
    requires Valid(v) && v.Array? && j < |v.entries|
    ensures v.entries[j].value in Items(v)
  {
    var i := v.entries[j].key.i;
    LowerBoundOfPresent(v.entries, j);
    assert Slot(v, i) == v.entries[j].value;
    if j < |v.entries| - 1 {
      assert KeyLess(v.entries[j].key, v.entries[|v.entries| - 1].key);
    }
    ItemAt(v, i);
  }

  // An array fits exactly when it is not itself too deep and all its items fit one level down.
  lemma ArrayFits(v: Value, depth: nat, f: Features)
    requires Valid(v) && v.Array?
    ensures Fits(v, depth, f) <==> depth <= f.stackLimit && forall x :: x in Items(v) ==> Fits(x, depth + 1, f)
  {
    if v.entries != [] {
      var j := DeepestEntry(v.entries);
      EntryIsItem(v, j);
    }
  }

  lemma ObjectFits(v: Value, depth: nat, f: Features)
    requires Valid(v) && v.Obj?
    ensures Fits(v, depth, f) <==> depth <= f.stackLimit && AllEntriesFit(v.entries, 0, depth + 1, f)
  {
    forall e | e in v.entries ensures Depth(e.value) < Depth(v) {
      assert EntryDepth(e) <= MaxDepth(v.entries);
    }
    if v.entries != [] {
      var j := DeepestEntry(v.entries);
      assert v.entries[j] in v.entries;
    }
  }

  // ---------------------------------------------------------------- one turn of each loop

  lemma ItemTurn(d: bytes, p: nat, depth: nat, done: seq<Entry>, index: nat, f: Features, fl: Floats)
    requires p <= |d| && KeysOf(done, true) && ReadToken(d, p, f).kind != ArrayEnd
    ensures var r := ReadItems(d, p, depth, done, index, f, fl);
            var v := ReadValue(d, SkipSpaces(d, p), depth + 1, Get(done, Index(index)), f, fl);
            && (v.Threw? ==> r == v)
            && (v.Read? && !v.ok ==> r.Read? && !r.ok)
            && (v.Read? && v.ok ==>
                  var t := NextToken(d, v.pos, f);
                  var done' := Put(done, Index(index), v.value);
                  && (t.kind == ArrayEnd ==> r == Read(true, t.end, Array(done'), []))
                  && (t.kind == ArraySeparator ==> r == ReadItems(d, t.end, depth, done', index + 1, f, fl)))
  {
    hide ReadToken, NextToken, Get, Put, ReadValue;
    ClosingBracketAhead(d, p, f);
    NextItemTurn(d, SkipSpaces(d, p), depth, done, index, f, fl);
  }

  lemma NextItemTurn(d: bytes, p: nat, depth: nat, done: seq<Entry>, index: nat, f: Features, fl: Floats)
    requires p <= |d| && KeysOf(done, true)
    ensures var r := NextItem(d, p, depth, done, index, f, fl);
            var v := ReadValue(d, p, depth + 1, Get(done, Index(index)), f, fl);
            && (v.Threw? ==> r == v)
            && (v.Read? && !v.ok ==> r.Read? && !r.ok)
            && (v.Read? && v.ok ==>
                  var t := NextToken(d, v.pos, f);
                  var done' := Put(done, Index(index), v.value);
                  && (t.kind == ArrayEnd ==> r == Read(true, t.end, Array(done'), []))
                  && (t.kind == ArraySeparator ==> r == ReadItems(d, t.end, depth, done', index + 1, f, fl)))
  {
    hide ReadToken, NextToken, Get, Put, ReadValue, ReadItems;
  }

  lemma MemberTurn(d: bytes, p: nat, depth: nat, done: seq<Entry>, lastName: bytes, name: bytes, f: Features,
      fl: Floats)
    requires p <= |d| && KeysOf(done, false) && |name| <= MAX_KEY_LENGTH
    requires f.rejectDupKeys ==> !Has(done, Name(name))
    requires var t := ReadToken(d, p, f);
             && t.kind == String && StringOf(d, t).Text? && StringOf(d, t).text == name
             && ReadToken(d, t.end, f).kind == MemberSeparator
    ensures var r := ReadMembers(d, p, depth, done, lastName, f, fl);
            var colon := ReadToken(d, ReadToken(d, p, f).end, f);
            var v := ReadValue(d, colon.end, depth + 1, Get(done, Name(name)), f, fl);
            && (v.Threw? ==> r == v)
            && (v.Read? && !v.ok ==> r.Read? && !r.ok)
            && (v.Read? && v.ok ==>
                  var t := ReadToken(d, v.pos, f);
                  var done' := Put(done, Name(name), v.value);
                  && (t.kind == ObjectEnd ==> r == Read(true, t.end, Obj(done'), []))
                  && (t.kind == ArraySeparator ==> r == ReadMembers(d, t.end, depth, done', name, f, fl)))
  {
    hide ReadToken, NextToken, StringOf, Get, Put, Has, ReadValue;
    NoCommentAhead(d, p, f);
    NamedMemberTurn(d, ReadToken(d, p, f).end, depth, done, name, f, fl);
  }

  // A name that is too long, or taken where names must be distinct, is not accepted.
  lemma NameRejected(d: bytes, p: nat, depth: nat, done: seq<Entry>, lastName: bytes, name: bytes, f: Features,
      fl: Floats)
    requires p <= |d| && KeysOf(done, false)
    requires |name| > MAX_KEY_LENGTH || (f.rejectDupKeys && Has(done, Name(name)))
    requires var t := ReadToken(d, p, f); t.kind == String && StringOf(d, t).Text? && StringOf(d, t).text == name
    ensures var r := ReadMembers(d, p, depth, done, lastName, f, fl); r.Read? ==> !r.ok
  {
    hide ReadToken, NextToken, StringOf, Get, Put, Has, ReadValue, Recover;
    NoCommentAhead(d, p, f);
  }

  lemma NamedMemberTurn(d: bytes, p: nat, depth: nat, done: seq<Entry>, name: bytes, f: Features, fl: Floats)
    requires p <= |d| && KeysOf(done, false) && ReadToken(d, p, f).kind == MemberSeparator
    ensures var r := NamedMember(d, p, depth, done, name, f, fl);
            var v := ReadValue(d, ReadToken(d, p, f).end, depth + 1, Get(done, Name(name)), f, fl);
            && (v.Threw? ==> r == v)
            && (v.Read? && !v.ok ==> r.Read? && !r.ok)
            && (v.Read? && v.ok ==>
                  var t := ReadToken(d, v.pos, f);
                  var done' := Put(done, Name(name), v.value);
                  && (t.kind == ObjectEnd ==> r == Read(true, t.end, Obj(done'), []))
                  && (t.kind == ArraySeparator ==> r == ReadMembers(d, t.end, depth, done', name, f, fl)))
  {
    hide ReadToken, NextToken, Get, Put, ReadValue, ReadMembers;
  }

  // ---------------------------------------------------------------- the induction

  // Success with `value` if everything fits, and otherwise the exception; where a name is not
  // acceptable, no success.
  ghost predicate ReadsIf(named: bool, fits: bool, r: Outcome, d: bytes, value: Value, rest: seq<Tok>, f: Features) {
    if !named then r.Read? ==> !r.ok
    else if fits then ReadsAs(r, d, value, rest, f)
    else r == Threw(StackLimitExceeded)
  }

  ghost predicate ItemsReadable(items: seq<Value>, bound: nat) {
    ItemsBelow(items, bound) && forall x :: x in items ==> Readable(x)
  }

  ghost predicate EntriesReadable(entries: seq<Entry>, bound: nat) {
    EntriesBelow(entries, bound) && forall e :: e in entries ==> Readable(e.value)
  }

  predicate ItemsNamed(items: seq<Value>, k: nat, emitUTF8: bool, f: Features) {
    forall j :: k <= j < |items| ==> NamesOk(items[j], emitUTF8, f.rejectDupKeys)
  }

  // The members from the k-th on are acceptable when `done` have been read.
  predicate MembersNamed(entries: seq<Entry>, k: nat, done: seq<Entry>, emitUTF8: bool, f: Features)
    requires KeysOf(done, false)
  {
    && (forall j :: k <= j < |entries| ==> MemberNamed(entries[j], done, emitUTF8, f))
    && (f.rejectDupKeys ==>
          forall i, j :: k <= i < j < |entries| ==> NameRead(entries[i], emitUTF8) != NameRead(entries[j], emitUTF8))
  }

  predicate MemberNamed(e: Entry, done: seq<Entry>, emitUTF8: bool, f: Features)
    requires KeysOf(done, false)
  {
    && NamesOk(e.value, emitUTF8, f.rejectDupKeys) && |NameRead(e, emitUTF8)| <= MAX_KEY_LENGTH
    && (f.rejectDupKeys ==> !Has(done, Name(NameRead(e, emitUTF8))))
  }

  lemma MembersNamedStep(entries: seq<Entry>, k: nat, done: seq<Entry>, value: Value, emitUTF8: bool, f: Features)
    requires k < |entries| && Sorted(done, false)
    ensures Sorted(Put(done, Name(NameRead(entries[k], emitUTF8)), value), false)
    ensures k + 1 == |entries| ==> MembersNamed(entries, k + 1, Put(done, Name(NameRead(entries[k], emitUTF8)), value), emitUTF8, f)
    ensures MembersNamed(entries, k, done, emitUTF8, f)
            <==> MemberNamed(entries[k], done, emitUTF8, f)
                 && MembersNamed(entries, k + 1, Put(done, Name(NameRead(entries[k], emitUTF8)), value), emitUTF8, f)
  {
    var name := Name(NameRead(entries[k], emitUTF8));
    PutKeepsSorted(done, name, value);
    hide NamesOk, NameRead, Has, Put;
    forall j | k < j < |entries|
      ensures Has(Put(done, name, value), Name(NameRead(entries[j], emitUTF8)))
              <==> NameRead(entries[j], emitUTF8) == NameRead(entries[k], emitUTF8) || Has(done, Name(NameRead(entries[j], emitUTF8)))
    {
      PutThenGet(done, name, value, Name(NameRead(entries[j], emitUTF8)));
    }
  }

  lemma EntriesFitStep(entries: seq<Entry>, k: nat, depth: nat, f: Features)
    requires k < |entries|
    ensures AllEntriesFit(entries, k, depth, f) <==> Fits(entries[k].value, depth, f) && AllEntriesFit(entries, k + 1, depth, f)
    ensures k + 1 == |entries| ==> AllEntriesFit(entries, k + 1, depth, f)
  {
  }

  lemma NamesOfArray(v: Value, emitUTF8: bool, f: Features)
    requires Valid(v) && v.Array?
    ensures NamesOk(v, emitUTF8, f.rejectDupKeys) <==> ItemsNamed(Items(v), 0, emitUTF8, f)
  {
    forall e | e in v.entries ensures e.value in Items(v) {
      var j :| 0 <= j < |v.entries| && v.entries[j] == e;
      EntryIsItem(v, j);
    }
    forall i | 0 <= i < |Items(v)|
      ensures Items(v)[i] == Value.Null || exists e :: e in v.entries && e.value == Items(v)[i]
    {
      GetIsNullOrEntry(v.entries, Index(i));
    }
  }

  lemma NamesOfObject(v: Value, emitUTF8: bool, f: Features)
    requires Valid(v) && v.Obj?
    ensures NamesOk(v, emitUTF8, f.rejectDupKeys) <==> MembersNamed(v.entries, 0, [], emitUTF8, f)
  {
    assert forall e :: e in v.entries ==> exists j :: 0 <= j < |v.entries| && v.entries[j] == e;
    assert forall j :: 0 <= j < |v.entries| ==> v.entries[j] in v.entries;
  }

  lemma ItemHead(items: seq<Value>, k: nat, s: Spelling, bound: nat, rest: seq<Tok>) returns (t: Tok, toks: seq<Tok>)
    requires k < |items| && ItemsReadable(items, bound) && !s.dropNull
    ensures ItemsFrom(items, k, s, bound, rest) == [t] + toks && StartsValue(t.kind)
  {
    assert items[k] in items;
    t, toks := ValueHead(items[k], s);
    var after := ItemsAfter(items, k + 1, s, bound, rest);
    assert [t] + toks + after == [t] + (toks + after);
    toks := toks + after;
  }

  lemma {:induction false} ReadsItems(d: bytes, p: nat, depth: nat, done: seq<Entry>, k: nat, items: seq<Value>,
      bound: nat, s: Spelling, rest: seq<Tok>, f: Features, fl: Floats)
    requires p <= |d| && 0 < depth && k < |items| && KeysOf(done, true)
    requires ItemsReadable(items, bound) && !s.dropNull
    requires Lays(d, p, ItemsFrom(items, k, s, bound, rest), f)
    ensures ReadsIf(ItemsNamed(items, k, s.emitUTF8, f), AllFit(items, k, depth + 1, f), ReadItems(d, p, depth, done, k, f, fl), d,
                    Array(NormItems(items, k, done, s.emitUTF8, bound)), rest, f)
    decreases bound, |items| - k
  {
    hide ReadToken, NextToken, FirstToken, Lays, ReadItems, ReadValue, ValueTokens, ItemTokens, Put, Get, NamesOk, Norm;
    var q := SkipSpaces(d, p);
    var t, toks := ItemHead(items, k, s, bound, rest);
    LaysHead(d, p, t, toks, f);
    ItemTurn(d, p, depth, done, k, f, fl);
    SameTokens(d, p, ItemsFrom(items, k, s, bound, rest), f);
    ReadsValue(d, q, depth + 1, Get(done, Index(k)), items[k], s, ItemsAfter(items, k + 1, s, bound, rest), f, fl);
    if NamesOk(items[k], s.emitUTF8, f.rejectDupKeys) && Fits(items[k], depth + 1, f) {
      var v := ReadValue(d, q, depth + 1, Get(done, Index(k)), f, fl);
      NextItemTokens(items, k + 1, s, bound, rest);
      if k + 1 == |items| {
        LaysOne(d, v.pos, CLOSE_ARRAY, rest, f);
        NoCommentAhead(d, v.pos, f);
      } else {
        LaysOne(d, v.pos, SEPARATOR, ItemsFrom(items, k + 1, s, bound, rest), f);
        NoCommentAhead(d, v.pos, f);
        var done' := Put(done, Index(k), Norm(items[k], s.emitUTF8));
        ReadsItems(d, ReadToken(d, v.pos, f).end, depth, done', k + 1, items, bound, s, rest, f, fl);
      }
    }
  }

  lemma {:induction false} ReadsMembers(d: bytes, p: nat, depth: nat, done: seq<Entry>, lastName: bytes, k: nat,
      entries: seq<Entry>, bound: nat, s: Spelling, rest: seq<Tok>, f: Features, fl: Floats)
    requires p <= |d| && 0 < depth && k < |entries| && Sorted(done, false)
    requires EntriesReadable(entries, bound) && !s.dropNull
    requires Lays(d, p, MembersFrom(entries, k, s, bound, rest), f)
    ensures ReadsIf(MembersNamed(entries, k, done, s.emitUTF8, f), AllEntriesFit(entries, k, depth + 1, f), ReadMembers(d, p, depth, done, lastName, f, fl), d,
                    Obj(NormMembers(entries, k, done, s.emitUTF8, bound)), rest, f)
    decreases bound, |entries| - k, 0
  {
    var e := entries[k];
    assert e in entries;
    var name, value := JsonStrings.Reread(e.key.s, s.emitUTF8), Norm(e.value, s.emitUTF8);
    MembersNamedStep(entries, k, done, value, s.emitUTF8, f);
    EntriesFitStep(entries, k, depth + 1, f);
    hide ReadToken, NextToken, FirstToken, Lays, ReadMembers, ReadValue, ValueTokens, MemberTokens, Put, Get, StringOf,
         NamesOk, MembersNamed, AllEntriesFit, Fits, Norm, Has;
    var after := ValueTokens(e.value, s) + MembersAfter(entries, k + 1, s, bound, rest);
    var colon := MemberHead(d, p, e, s, after, f);
    if |name| > MAX_KEY_LENGTH || (f.rejectDupKeys && Has(done, Name(name))) {
      NameRejected(d, p, depth, done, lastName, name, f, fl);
    } else {
      MemberTurn(d, p, depth, done, lastName, name, f, fl);
      ReadsValue(d, colon.end, depth + 1, Get(done, Name(name)), e.value, s, MembersAfter(entries, k + 1, s, bound, rest), f, fl);
      if NamesOk(e.value, s.emitUTF8, f.rejectDupKeys) && Fits(e.value, depth + 1, f) {
        ReadsOtherMembers(d, ReadValue(d, colon.end, depth + 1, Get(done, Name(name)), f, fl), depth, Put(done, Name(name), value), name,
                          value, k, entries, bound, s, rest, f, fl, ReadMembers(d, p, depth, done, lastName, f, fl));
      }
    }
  }

  // The k-th member's value has been read, as `v`, and put in; `r` is what the loop comes to.
  lemma {:induction false} ReadsOtherMembers(d: bytes, v: Outcome, depth: nat, done: seq<Entry>, name: bytes,
      value: Value, k: nat, entries: seq<Entry>, bound: nat, s: Spelling, rest: seq<Tok>, f: Features, fl: Floats,
      r: Outcome)
    requires 0 < depth && k < |entries| && Sorted(done, false) && EntriesReadable(entries, bound) && !s.dropNull
    requires ReadsAs(v, d, value, MembersAfter(entries, k + 1, s, bound, rest), f)
    requires var t := ReadToken(d, v.pos, f);
             && (t.kind == ObjectEnd ==> r == Read(true, t.end, Obj(done), []))
             && (t.kind == ArraySeparator ==> r == ReadMembers(d, t.end, depth, done, name, f, fl))
    ensures ReadsIf(MembersNamed(entries, k + 1, done, s.emitUTF8, f), AllEntriesFit(entries, k + 1, depth + 1, f), r, d,
                    Obj(NormMembers(entries, k + 1, done, s.emitUTF8, bound)), rest, f)
    decreases bound, |entries| - k - 1, 1
  {
    hide ReadToken, Lays, ReadMembers, Norm, NamesOk, NextToken, FirstToken, ReadValue, ValueTokens, MemberTokens;
    hide Fits, Valid, RealFree, Countable, Put, Get, Has;
    NextMemberTokens(entries, k + 1, s, bound, rest);
    if k + 1 == |entries| {
      LaysOne(d, v.pos, CLOSE_OBJECT, rest, f);
    } else {
      LaysOne(d, v.pos, SEPARATOR, MembersFrom(entries, k + 1, s, bound, rest), f);
      ReadsMembers(d, ReadToken(d, v.pos, f).end, depth, done, name, k + 1, entries, bound, s, rest, f, fl);
    }
  }

  // A member's name and colon, as the reader sees them.
  lemma MemberHead(d: bytes, p: nat, e: Entry, s: Spelling, after: seq<Tok>, f: Features) returns (colon: Token)
    requires p <= |d| && e.key.Name? && Lays(d, p, KeyTokens(e.key, s) + after, f)
    ensures var t := ReadToken(d, p, f);
            && t.kind == String && StringOf(d, t).Text?
            && StringOf(d, t).text == JsonStrings.Reread(e.key.s, s.emitUTF8)
            && colon == ReadToken(d, t.end, f) && colon.kind == MemberSeparator
            && Lays(d, colon.end, after, f)
  {
    hide ReadToken, Lays;
    var key, mark := KeyTokens(e.key, s)[0], Mark(MemberSeparator);
    assert KeyTokens(e.key, s) + after == [key] + ([mark] + after);
    LaysHead(d, p, key, [mark] + after, f);
    var t := ReadToken(d, p, f);
    LaysHead(d, t.end, mark, after, f);
    ScalarString(d, t, e.key.s, s.emitUTF8);
    colon := ReadToken(d, t.end, f);
  }

  lemma {:induction false} ReadsValue(d: bytes, p: nat, depth: nat, prior: Value, v: Value, s: Spelling,
      rest: seq<Tok>, f: Features, fl: Floats)
    requires p <= |d| && 0 < depth
    requires Readable(v) && !s.dropNull
    requires Lays(d, p, ValueTokens(v, s) + rest, f)
    ensures ReadsIf(NamesOk(v, s.emitUTF8, f.rejectDupKeys), Fits(v, depth, f), ReadValue(d, p, depth, prior, f, fl), d, Norm(v, s.emitUTF8), rest, f)
    decreases Depth(v)
  {
    if depth <= f.stackLimit {
      match v
      case Array(_) => ReadsArray(d, p, depth, prior, v, s, rest, f, fl);
      case Obj(_) => ReadsObject(d, p, depth, prior, v, s, rest, f, fl);
      case _ => ReadsScalar(d, p, depth, prior, v, s, rest, f, fl);
    }
  }

  lemma {:induction false} ReadsArray(d: bytes, p: nat, depth: nat, prior: Value, v: Value, s: Spelling,
      rest: seq<Tok>, f: Features, fl: Floats)
    requires p <= |d| && 0 < depth <= f.stackLimit && v.Array?
    requires Readable(v) && !s.dropNull
    requires Lays(d, p, ValueTokens(v, s) + rest, f)
    ensures ReadsIf(NamesOk(v, s.emitUTF8, f.rejectDupKeys), Fits(v, depth, f), ReadValue(d, p, depth, prior, f, fl), d, Norm(v, s.emitUTF8), rest, f)
    decreases Depth(v), |Items(v)| + 1
  {
    var items, bound := Items(v), Depth(v);
    ArrayTokens(v, s, rest);
    hide ReadToken, Lays, ReadItems, ReadValue, ValueTokens, ItemTokens, Items;
    LaysHead(d, p, OPEN_ARRAY[0], ItemsAfter(items, 0, s, bound, rest), f);
    var t := ReadToken(d, p, f);
    OpensArray(d, p, depth, prior, f, fl);
    NextItemTokens(items, 0, s, bound, rest);
    ArrayFits(v, depth, f);
    NamesOfArray(v, s.emitUTF8, f);
    if items == [] {
      EmptyArrayReads(d, t.end, depth, rest, f, fl);
    } else {
      ItemsAreReadable(v);
      ReadsItems(d, t.end, depth, [], 0, items, bound, s, rest, f, fl);
    }
  }

  lemma ArrayTokens(v: Value, s: Spelling, rest: seq<Tok>)
    requires Valid(v) && v.Array?
    ensures ValueTokens(v, s) + rest == [OPEN_ARRAY[0]] + ItemsAfter(Items(v), 0, s, Depth(v), rest)
  {
    var items := ItemTokens(Items(v), 0, s, Depth(v));
    assert OPEN_ARRAY + items + CLOSE_ARRAY + rest == OPEN_ARRAY + (items + (CLOSE_ARRAY + rest));
  }

  lemma ObjectTokens(v: Value, s: Spelling, rest: seq<Tok>)
    requires Valid(v) && v.Obj? && EntriesBelow(v.entries, Depth(v))
    ensures ValueTokens(v, s) + rest == [OPEN_OBJECT[0]] + MembersAfter(v.entries, 0, s, Depth(v), rest)
  {
    var members := MemberTokens(v.entries, 0, s, Depth(v));
    assert OPEN_OBJECT + members + CLOSE_OBJECT + rest == OPEN_OBJECT + (members + (CLOSE_OBJECT + rest));
  }

  lemma ItemsAreReadable(v: Value)
    requires v.Array? && Readable(v)
    ensures ItemsReadable(Items(v), Depth(v))
  {
  }

  lemma OpensArray(d: bytes, p: nat, depth: nat, prior: Value, f: Features, fl: Floats)
    requires p <= |d| && depth <= f.stackLimit && ReadToken(d, p, f).kind == ArrayBegin
    ensures ReadValue(d, p, depth, prior, f, fl) == ReadItems(d, ReadToken(d, p, f).end, depth, [], 0, f, fl)
  {
    hide ReadToken, NextToken, FirstToken;
    NoCommentAhead(d, p, f);
  }

  lemma OpensObject(d: bytes, p: nat, depth: nat, prior: Value, f: Features, fl: Floats)
    requires p <= |d| && depth <= f.stackLimit && ReadToken(d, p, f).kind == ObjectBegin
    ensures ReadValue(d, p, depth, prior, f, fl) == ReadMembers(d, ReadToken(d, p, f).end, depth, [], [], f, fl)
  {
    hide ReadToken, NextToken, FirstToken;
    NoCommentAhead(d, p, f);
  }

  lemma EmptyArrayReads(d: bytes, p: nat, depth: nat, rest: seq<Tok>, f: Features, fl: Floats)
    requires p <= |d| && Lays(d, p, CLOSE_ARRAY + rest, f)
    ensures ReadsAs(ReadItems(d, p, depth, [], 0, f, fl), d, Array([]), rest, f)
  {
    hide ReadToken, Lays;
    LaysOne(d, p, CLOSE_ARRAY, rest, f);
    ClosingBracketAhead(d, p, f);
  }

  lemma EmptyObjectReads(d: bytes, p: nat, depth: nat, rest: seq<Tok>, f: Features, fl: Floats)
    requires p <= |d| && Lays(d, p, CLOSE_OBJECT + rest, f)
    ensures ReadsAs(ReadMembers(d, p, depth, [], [], f, fl), d, Obj([]), rest, f)
  {
    hide ReadToken, Lays;
    LaysOne(d, p, CLOSE_OBJECT, rest, f);
    NoCommentAhead(d, p, f);
  }

  lemma {:induction false} ReadsObject(d: bytes, p: nat, depth: nat, prior: Value, v: Value, s: Spelling,
      rest: seq<Tok>, f: Features, fl: Floats)
    requires p <= |d| && 0 < depth <= f.stackLimit && v.Obj?
    requires Readable(v) && !s.dropNull
    requires Lays(d, p, ValueTokens(v, s) + rest, f)
    ensures ReadsIf(NamesOk(v, s.emitUTF8, f.rejectDupKeys), Fits(v, depth, f), ReadValue(d, p, depth, prior, f, fl), d, Norm(v, s.emitUTF8), rest, f)
    decreases Depth(v), |v.entries| + 1
  {
    var entries, bound := v.entries, Depth(v);
    MembersAreReadable(v);
    ObjectTokens(v, s, rest);
    ObjectFits(v, depth, f);
    NamesOfObject(v, s.emitUTF8, f);
    assert Norm(v, s.emitUTF8) == Obj(NormMembers(entries, 0, [], s.emitUTF8, bound));
    hide *;
    LaysHead(d, p, OPEN_OBJECT[0], MembersAfter(entries, 0, s, bound, rest), f);
    var t := ReadToken(d, p, f);
    OpensObject(d, p, depth, prior, f, fl);
    NextMemberTokens(entries, 0, s, bound, rest);
    if entries == [] {
      EmptyObjectReads(d, t.end, depth, rest, f, fl);
      NoMembersAreNormal(s.emitUTF8, bound);
    } else {
      ReadsMembers(d, t.end, depth, [], [], 0, entries, bound, s, rest, f, fl);
    }
  }

  lemma MembersAreReadable(v: Value)
    requires v.Obj? && Readable(v)
    ensures EntriesReadable(v.entries, Depth(v))
  {
    MembersAreBelow(v);
  }

  lemma NoMembersAreNormal(emitUTF8: bool, bound: nat)
    ensures NormMembers([], 0, [], emitUTF8, bound) == []
    ensures forall depth: nat, f: Features :: AllEntriesFit([], 0, depth, f)
    ensures forall f: Features :: MembersNamed([], 0, [], emitUTF8, f)
  {
  }

  // ---------------------------------------------------------------- documents

  // What parsing a document that spells `v` comes to.
  ghost function Expected(v: Value, emitUTF8: bool, end: nat, f: Features): Outcome
    requires Valid(v)
  {
    if Depth(v) > f.stackLimit then Threw(StackLimitExceeded)
    else if f.strictRoot && !IsContainer(v) then
      Read(false, end, Norm(v, emitUTF8), [ErrorInfo(ContainerExpected, Token(Error, 0, end))])
    else Read(true, end, Norm(v, emitUTF8), [])
  }

  lemma NoBomBeforeValue(d: bytes, f: Features)
    requires StartsValue(ReadToken(d, 0, f).kind)
    ensures SkipBom(d, f) == 0
  {
    if At(d, 0, BOM) {
      assert d[0] == d[0..3][0] == 0xEF;
    }
  }

  lemma NothingFollows(d: bytes, p: nat, f: Features)
    requires p <= |d| && Lays(d, p, [], f)
    ensures FirstToken(d, p, f) == Token(EndOfStream, |d|, |d|)
  {
  }

  lemma FinishesWell(d: bytes, v: Outcome, value: Value, emitUTF8: bool, f: Features)
    requires Valid(value) && Depth(value) <= f.stackLimit
    requires ReadsAs(v, d, Norm(value, emitUTF8), [], f)
    ensures Finish(d, v, f) == Expected(value, emitUTF8, |d|, f)
  {
    NothingFollows(d, v.pos, f);
    hide FirstToken, Lays;
  }

  lemma FinishKeepsFailure(d: bytes, v: Outcome, f: Features)
    requires v.Read? ==> v.pos <= |d|
    ensures v.Read? && !v.ok ==> !Finish(d, v, f).ok
  {
    hide FirstToken;
  }

  // Any document that consists of the tokens of a tree, however it is laid out, is read as that
  // tree's normal form, without an error and up to the document's end; the reader throws exactly
  // when the tree nests more deeply than the features allow. All this holds if the names are
  // acceptable to the reader; if they are not, it does not succeed.
  lemma DocumentReads(d: bytes, v: Value, s: Spelling, root: Value, f: Features, fl: Floats)
    requires Readable(v) && !s.dropNull
    requires Lays(d, 0, ValueTokens(v, s), f)
    ensures NamesOk(v, s.emitUTF8, f.rejectDupKeys) ==> Parse(d, root, f, fl) == Expected(v, s.emitUTF8, |d|, f)
    ensures !NamesOk(v, s.emitUTF8, f.rejectDupKeys) ==> Parse(d, root, f, fl).Read? ==> !Parse(d, root, f, fl).ok
  {
    hide ReadToken, Lays, ValueTokens, ReadValue, FirstToken, SkipBom, Norm, NormItems, NormMembers, Finish, NamesOk;
    var t, toks := ValueHead(v, s);
    assert ValueTokens(v, s) + [] == ValueTokens(v, s);
    LaysHead(d, 0, t, toks, f);
    NoBomBeforeValue(d, f);
    ReadsValue(d, 0, 1, root, v, s, [], f, fl);
    FinishKeepsFailure(d, ReadValue(d, 0, 1, root, f, fl), f);
    if NamesOk(v, s.emitUTF8, f.rejectDupKeys) && Fits(v, 1, f) {
      FinishesWell(d, ReadValue(d, 0, 1, root, f, fl), v, s.emitUTF8, f);
    }
  }
}
