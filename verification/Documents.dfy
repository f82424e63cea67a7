// Trees as documents: how deep they nest, the tokens that spell them, and the value a reader is
// to recover from those tokens.
module Documents {
  import opened Bytes
  import opened Values
  import opened Layout
  import opened JsonStrings
  import Numbers
  import Scanner

  function Max(a: nat, b: nat): nat { if a < b then b else a }

  // How many nodes are on the reader's stack below and including the deepest one.
  function Depth(v: Value): (n: nat)
    ensures n > 0
  {
    match v
    case Array(entries) => 1 + MaxDepth(entries)
    case Obj(entries) => 1 + MaxDepth(entries)
    case _ => 1
  }

  function MaxDepth(entries: seq<Entry>): (n: nat)
    ensures forall e :: e in entries ==> EntryDepth(e) <= n
    ensures entries == [] ==> n == 0
  {
    if entries == [] then 0
    else
      var first := EntryDepth(entries[0]);
      var n := Max(first, MaxDepth(entries[1..]));
      assert entries == [entries[0]] + entries[1..];
      assert entries[0] in entries;
      n
  }

  function EntryDepth(e: Entry): (n: nat)
    ensures n == Depth(e.value)
  {
    Depth(e.value)
  }

  lemma {:induction false} DeepestEntry(entries: seq<Entry>) returns (j: nat)
    requires entries != []
    ensures j < |entries| && Depth(entries[j].value) == MaxDepth(entries)
  {
    j := 0;
    if MaxDepth(entries[1..]) > Depth(entries[0].value) {
      j := DeepestEntry(entries[1..]);
      j := j + 1;
    }
  }

  lemma GetIsNullOrEntry(entries: seq<Entry>, key: Key)
    requires KeysOf(entries, key.Index?)
    ensures Get(entries, key) == Null || exists e :: e in entries && e.value == Get(entries, key)
  {
    if Has(entries, key) {
      assert entries[LowerBound(entries, key)] in entries;
    }
  }

  lemma SlotIsShallower(v: Value, i: nat)
    requires Valid(v) && v.Array? && i < Size(v)
    ensures Depth(Slot(v, i)) < Depth(v)
    ensures Valid(Slot(v, i))
    ensures RealFree(v) ==> RealFree(Slot(v, i))
  {
    GetIsNullOrEntry(v.entries, Index(i));
    assert v.entries[0] in v.entries;
  }

  // The items of an array in order, holes as null.
  function Items(v: Value): (r: seq<Value>)
    requires Valid(v) && v.Array?
    ensures |r| == Size(v)
    ensures forall x :: x in r ==> Depth(x) < Depth(v) && Valid(x) && (RealFree(v) ==> RealFree(x))
  {
    var r := seq(Size(v), i requires 0 <= i < Size(v) => Slot(v, i));
    assert forall x :: x in r ==> Depth(x) < Depth(v) && Valid(x) && (RealFree(v) ==> RealFree(x)) by {
      forall x | x in r ensures Depth(x) < Depth(v) && Valid(x) && (RealFree(v) ==> RealFree(x)) {
        var i :| 0 <= i < |r| && r[i] == x;
        SlotIsShallower(v, i);
      }
    }
    r
  }

  lemma ItemAt(v: Value, i: nat)
    requires Valid(v) && v.Array? && i < Size(v)
    ensures Items(v)[i] == Slot(v, i) && Slot(v, i) in Items(v)
    ensures Depth(Slot(v, i)) < Depth(v) && Valid(Slot(v, i))
  {
    assert Items(v)[i] == Slot(v, i);
    assert Items(v)[i] in Items(v);
  }

  // Lists whose elements nest less deeply than `bound`.
  ghost predicate ItemsBelow(items: seq<Value>, bound: nat) {
    forall x :: x in items ==> Depth(x) < bound && Valid(x)
  }

  ghost predicate EntriesBelow(entries: seq<Entry>, bound: nat) {
    KeysOf(entries, false) && forall e :: e in entries ==> Depth(e.value) < bound && Valid(e.value)
  }

  lemma MembersAreBelow(v: Value)
    requires Valid(v) && v.Obj?
    ensures EntriesBelow(v.entries, Depth(v))
  {
    forall e | e in v.entries ensures Depth(e.value) < Depth(v) {
      assert EntryDepth(e) <= MaxDepth(v.entries);
    }
  }

  // ---------------------------------------------------------------- tokens

  // How a writer spells scalars: what it prints for null (nothing, when it drops null
  // placeholders) and for reals, and whether it leaves non-ASCII bytes alone.
  datatype Spelling = Spelling(dropNull: bool, emitUTF8: bool, show: Real -> bytes)

  function ScalarTokens(v: Value, s: Spelling): seq<Tok>
    requires !IsContainer(v)
  {
    match v
    case Null => if s.dropNull then [] else [Tok(Scanner.Null, NULL_TEXT)]
    case Int(i) => [Tok(Scanner.Number, Numbers.DecimalInt(i as int))]
    case UInt(u) => [Tok(Scanner.Number, Numbers.DecimalInt(u as int))]
    case Real(r) => [Tok(Scanner.Number, s.show(r))]
    case Str(t) => [Tok(Scanner.String, Quoted(t, s.emitUTF8))]
    case Bool(b) => [if b then Tok(Scanner.True, TRUE_TEXT) else Tok(Scanner.False, FALSE_TEXT)]
  }

  const OPEN_ARRAY: seq<Tok> := [Mark(Scanner.ArrayBegin)]
  const CLOSE_ARRAY: seq<Tok> := [Mark(Scanner.ArrayEnd)]
  const OPEN_OBJECT: seq<Tok> := [Mark(Scanner.ObjectBegin)]
  const CLOSE_OBJECT: seq<Tok> := [Mark(Scanner.ObjectEnd)]
  const SEPARATOR: seq<Tok> := [Mark(Scanner.ArraySeparator)]
  const MEMBER_SEPARATOR: seq<Tok> := [Mark(Scanner.MemberSeparator)]

  ghost function ValueTokens(v: Value, s: Spelling): seq<Tok>
    requires Valid(v)
    decreases Depth(v)
  {
    match v
    case Array(_) => OPEN_ARRAY + ItemTokens(Items(v), 0, s, Depth(v)) + CLOSE_ARRAY
    case Obj(entries) => OPEN_OBJECT + MemberTokens(entries, 0, s, Depth(v)) + CLOSE_OBJECT
    case _ => ScalarTokens(v, s)
  }

  // The items from the k-th on; each but the first is preceded by a comma.
  ghost function ItemTokens(items: seq<Value>, k: nat, s: Spelling, bound: nat): seq<Tok>
    requires k <= |items| && ItemsBelow(items, bound)
    decreases bound, |items| - k
  {
    if k == |items| then []
    else (if k > 0 then SEPARATOR else []) + ValueTokens(items[k], s) + ItemTokens(items, k + 1, s, bound)
  }

  ghost function MemberTokens(entries: seq<Entry>, k: nat, s: Spelling, bound: nat): seq<Tok>
    requires k <= |entries| && EntriesBelow(entries, bound)
    decreases bound, |entries| - k
  {
    if k == |entries| then []
    else (if k > 0 then SEPARATOR else []) + (KeyTokens(entries[k].key, s) + ValueTokens(entries[k].value, s))
         + MemberTokens(entries, k + 1, s, bound)
  }

  function KeyTokens(key: Key, s: Spelling): seq<Tok>
    requires key.Name?
  {
    [Tok(Scanner.String, Quoted(key.s, s.emitUTF8)), Mark(Scanner.MemberSeparator)]
  }

  // ---------------------------------------------------------------- the value read back

  // What reading the tokens yields: small unsigned numbers come back signed, holes come back as
  // null, strings and names come back sanitized unless they were written raw. Members are put in
  // one after the other, as the reader does.
  ghost function Norm(v: Value, emitUTF8: bool): Value
    requires Valid(v)
    decreases Depth(v)
  {
    match v
    case UInt(u) => if u as int <= Numbers.MAX_INT then Int(u as Numbers.int64) else v
    case Str(t) => Str(Reread(t, emitUTF8))
    case Array(_) => Array(NormItems(Items(v), 0, [], emitUTF8, Depth(v)))
    case Obj(entries) => Obj(NormMembers(entries, 0, [], emitUTF8, Depth(v)))
    case _ => v
  }

  ghost function NormItems(items: seq<Value>, k: nat, done: seq<Entry>, emitUTF8: bool, bound: nat): (r: seq<Entry>)
    requires k <= |items| && ItemsBelow(items, bound) && KeysOf(done, true)
    ensures KeysOf(r, true)
    decreases bound, |items| - k
  {
    if k == |items| then done
    else NormItems(items, k + 1, Put(done, Index(k), Norm(items[k], emitUTF8)), emitUTF8, bound)
  }

  ghost function NormMembers(entries: seq<Entry>, k: nat, done: seq<Entry>, emitUTF8: bool, bound: nat): (r: seq<Entry>)
    requires k <= |entries| && EntriesBelow(entries, bound) && KeysOf(done, false)
    ensures KeysOf(r, false)
    decreases bound, |entries| - k
  {
    if k == |entries| then done
    else
      var name := Name(Reread(entries[k].key.s, emitUTF8));
      NormMembers(entries, k + 1, Put(done, name, Norm(entries[k].value, emitUTF8)), emitUTF8, bound)
  }

  // A member's name once it has been written and read.
  function NameRead(e: Entry, emitUTF8: bool): bytes { if e.key.Name? then Reread(e.key.s, emitUTF8) else [] }

  // No name is then too long for the reader and, where names have to be distinct, no two members of
  // an object share one.
  predicate NamesOk(v: Value, emitUTF8: bool, distinct: bool) {
    match v
    case Array(entries) => forall e :: e in entries ==> NamesOk(e.value, emitUTF8, distinct)
    case Obj(entries) =>
      OwnNamesOk(entries, emitUTF8, distinct) && forall e :: e in entries ==> NamesOk(e.value, emitUTF8, distinct)
    case _ => true
  }

  predicate OwnNamesOk(entries: seq<Entry>, emitUTF8: bool, distinct: bool) {
    && (forall e :: e in entries ==> |NameRead(e, emitUTF8)| <= MAX_KEY_LENGTH)
    && (distinct ==> forall i, j :: 0 <= i < j < |entries| ==> NameRead(entries[i], emitUTF8) != NameRead(entries[j], emitUTF8))
  }

  // The reader counts the items of an array in an int.
  const MAX_ITEMS_READ: nat := 0x7FFF_FFFF

  predicate Countable(v: Value) {
    match v
    case Array(entries) => Size(v) <= MAX_ITEMS_READ && forall e :: e in entries ==> Countable(e.value)
    case Obj(entries) => forall e :: e in entries ==> Countable(e.value)
    case _ => true
  }
}
