// What the normal form of a round trip is: for which trees it is the tree itself, what it keeps of
// the others, and that a second trip changes nothing.
module NormalForm {
  import opened Bytes
  import opened Values
  import opened Documents
  import opened JsonStrings
  import Numbers
  import Utf8

  // ---------------------------------------------------------------- trees that come back as they are

  // No unsigned number that a signed one could hold, and no array with a hole.
  predicate Compact(v: Value) {
    match v
    case UInt(u) => u as int > Numbers.MAX_INT
    case Array(entries) => Dense(entries) && forall e :: e in entries ==> Compact(e.value)
    case Obj(entries) => forall e :: e in entries ==> Compact(e.value)
    case _ => true
  }

  predicate Dense(entries: seq<Entry>) {
    forall i :: 0 <= i < |entries| ==> entries[i].key == Index(i)
  }

  // Every string and every member name is well-formed UTF-8.
  predicate WellFormedTexts(v: Value) {
    match v
    case Str(s) => Utf8.WellFormed(s)
    case Array(entries) => forall e :: e in entries ==> WellFormedTexts(e.value)
    case Obj(entries) =>
      forall e :: e in entries ==> WellFormedTexts(e.value) && (e.key.Name? ==> Utf8.WellFormed(e.key.s))
    case _ => true
  }

  predicate TextsSurvive(v: Value, emitUTF8: bool) { emitUTF8 || WellFormedTexts(v) }

  // ---------------------------------------------------------------- the canonical tree

  // Small unsigned numbers made signed, holes filled with null, nothing else changed.
  ghost function Canonical(v: Value): Value
    requires Valid(v)
    decreases Depth(v)
  {
    match v
    case UInt(u) => if u as int <= Numbers.MAX_INT then Int(u as Numbers.int64) else v
    case Array(_) => Array(CanonicalItems(Items(v), Depth(v)))
    case Obj(entries) => MembersAreBelow(v); Obj(CanonicalMembers(entries, Depth(v)))
    case _ => v
  }

  ghost function CanonicalItems(items: seq<Value>, bound: nat): (r: seq<Entry>)
    requires ItemsBelow(items, bound)
    ensures |r| == |items| && Dense(r)
    decreases bound, 0
  {
    seq(|items|, i requires 0 <= i < |items| => assert items[i] in items; Entry(Index(i), Canonical(items[i])))
  }

  ghost function CanonicalMembers(entries: seq<Entry>, bound: nat): (r: seq<Entry>)
    requires EntriesBelow(entries, bound)
    ensures |r| == |entries| && forall i :: 0 <= i < |r| ==> r[i].key == entries[i].key
    decreases bound, 0
  {
    seq(|entries|, i requires 0 <= i < |entries| =>
      assert entries[i] in entries; Entry(entries[i].key, Canonical(entries[i].value)))
  }

  lemma ItemsSurvive(v: Value, emitUTF8: bool)
    requires Valid(v) && v.Array? && TextsSurvive(v, emitUTF8)
    ensures forall x :: x in Items(v) ==> TextsSurvive(x, emitUTF8)
  {
    forall x | x in Items(v) ensures TextsSurvive(x, emitUTF8) {
      var i :| 0 <= i < |Items(v)| && Items(v)[i] == x;
      GetIsNullOrEntry(v.entries, Index(i));
    }
  }

  lemma TextSurvives(s: bytes, emitUTF8: bool)
    requires emitUTF8 || Utf8.WellFormed(s)
    ensures Reread(s, emitUTF8) == s
  {
    if !emitUTF8 {
      SanitizeKeepsWellFormed(s);
    }
  }

  // Where no text is damaged, a round trip yields the canonical tree.
  lemma {:induction false} NormIsCanonical(v: Value, emitUTF8: bool)
    requires Valid(v) && TextsSurvive(v, emitUTF8)
    ensures Norm(v, emitUTF8) == Canonical(v)
    decreases Depth(v)
  {
    match v
    case Str(s) => TextSurvives(s, emitUTF8);
    case Array(_) =>
      ItemsSurvive(v, emitUTF8);
      NormItemsIsCanonical(Items(v), 0, [], emitUTF8, Depth(v));
    case Obj(entries) =>
      MembersAreBelow(v);
      NormMembersIsCanonical(entries, 0, emitUTF8, Depth(v));
    case _ =>
  }

  lemma {:induction false} NormItemsIsCanonical(items: seq<Value>, k: nat, done: seq<Entry>, emitUTF8: bool, bound: nat)
    requires k <= |items| && ItemsBelow(items, bound)
    requires forall x :: x in items ==> TextsSurvive(x, emitUTF8)
    requires done == CanonicalItems(items, bound)[..k]
    ensures NormItems(items, k, done, emitUTF8, bound) == CanonicalItems(items, bound)
    decreases bound, |items| - k
  {
    if k < |items| {
      assert items[k] in items;
      NormIsCanonical(items[k], emitUTF8);
      PutAtEnd(done, Index(k), Canonical(items[k]));
      NormItemsIsCanonical(items, k + 1, Put(done, Index(k), Canonical(items[k])), emitUTF8, bound);
    }
  }

  // The reader appends a member whose name is above all those before it.
  lemma MemberIsAppended(entries: seq<Entry>, k: nat, done: seq<Entry>, emitUTF8: bool, bound: nat)
    requires k < |entries| && EntriesBelow(entries, bound) && KeysOf(done, false)
    requires emitUTF8 || Utf8.WellFormed(entries[k].key.s)
    requires forall i :: 0 <= i < |done| ==> KeyLess(done[i].key, entries[k].key)
    ensures var value := Norm(entries[k].value, emitUTF8);
            KeysOf(done + [Entry(entries[k].key, value)], false)
            && NormMembers(entries, k, done, emitUTF8, bound)
               == NormMembers(entries, k + 1, done + [Entry(entries[k].key, value)], emitUTF8, bound)
  {
    hide Norm;
    var e := entries[k];
    TextSurvives(e.key.s, emitUTF8);
    assert Name(Reread(e.key.s, emitUTF8)) == e.key;
    PutAtEnd(done, e.key, Norm(e.value, emitUTF8));
  }

  lemma CanonicalMember(entries: seq<Entry>, k: nat, bound: nat)
    requires k < |entries| && EntriesBelow(entries, bound) && Sorted(entries, false)
    ensures Valid(entries[k].value)
    ensures var done := CanonicalMembers(entries, bound)[..k];
            && KeysOf(done, false)
            && (forall i :: 0 <= i < |done| ==> KeyLess(done[i].key, entries[k].key))
            && CanonicalMembers(entries, bound)[..k + 1] == done + [Entry(entries[k].key, Canonical(entries[k].value))]
  {
    assert entries[k] in entries;
    var all := CanonicalMembers(entries, bound);
    assert all[k] == Entry(entries[k].key, Canonical(entries[k].value));
    hide CanonicalMembers, Canonical;
    assert all[..k + 1] == all[..k] + [all[k]];
  }

  ghost predicate MembersSurvive(entries: seq<Entry>, emitUTF8: bool)
    requires KeysOf(entries, false)
  {
    forall e :: e in entries ==> TextsSurvive(e.value, emitUTF8) && (emitUTF8 || Utf8.WellFormed(e.key.s))
  }

  lemma MemberSurvives(entries: seq<Entry>, k: nat, emitUTF8: bool)
    requires k < |entries| && KeysOf(entries, false) && MembersSurvive(entries, emitUTF8)
    ensures TextsSurvive(entries[k].value, emitUTF8) && (emitUTF8 || Utf8.WellFormed(entries[k].key.s))
  {
    assert entries[k] in entries;
  }

  lemma MemberTurnsCanonical(entries: seq<Entry>, k: nat, emitUTF8: bool, bound: nat)
    requires k < |entries| && EntriesBelow(entries, bound) && Sorted(entries, false)
    requires MembersSurvive(entries, emitUTF8)
    requires Valid(entries[k].value) && Norm(entries[k].value, emitUTF8) == Canonical(entries[k].value)
    ensures var all := CanonicalMembers(entries, bound);
            && KeysOf(all[..k], false) && KeysOf(all[..k + 1], false)
            && NormMembers(entries, k, all[..k], emitUTF8, bound) == NormMembers(entries, k + 1, all[..k + 1], emitUTF8, bound)
  {
    MemberSurvives(entries, k, emitUTF8);
    hide *;
    CanonicalMember(entries, k, bound);
    MemberIsAppended(entries, k, CanonicalMembers(entries, bound)[..k], emitUTF8, bound);
  }

  lemma {:induction false} NormMembersIsCanonical(entries: seq<Entry>, k: nat, emitUTF8: bool, bound: nat)
    requires k <= |entries| && EntriesBelow(entries, bound) && Sorted(entries, false)
    requires MembersSurvive(entries, emitUTF8)
    ensures KeysOf(CanonicalMembers(entries, bound)[..k], false)
    ensures NormMembers(entries, k, CanonicalMembers(entries, bound)[..k], emitUTF8, bound) == CanonicalMembers(entries, bound)
    decreases bound, |entries| - k
  {
    if k < |entries| {
      MemberSurvives(entries, k, emitUTF8);
      assert Valid(entries[k].value) && Depth(entries[k].value) < bound by { assert entries[k] in entries; }
      hide *;
      NormIsCanonical(entries[k].value, emitUTF8);
      MemberTurnsCanonical(entries, k, emitUTF8, bound);
      NormMembersIsCanonical(entries, k + 1, emitUTF8, bound);
    } else {
      var all := CanonicalMembers(entries, bound);
      assert all[..k] == all;
    }
  }

  // ---------------------------------------------------------------- what the canonical tree keeps

  lemma {:induction false} SameLowerBound(a: seq<Entry>, b: seq<Entry>, key: Key)
    requires KeysOf(a, key.Index?) && KeysOf(b, key.Index?) && |a| == |b|
    requires forall i :: 0 <= i < |a| ==> a[i].key == b[i].key
    ensures LowerBound(a, key) == LowerBound(b, key)
  {
    if a != [] {
      SameLowerBound(a[1..], b[1..], key);
    }
  }

  lemma {:induction false} DenseLowerBound(entries: seq<Entry>, first: nat, i: nat)
    requires first <= i <= first + |entries|
    requires forall j :: 0 <= j < |entries| ==> entries[j].key == Index(first + j)
    ensures LowerBound(entries, Index(i)) == i - first
  {
    if entries != [] && first < i {
      DenseLowerBound(entries[1..], first + 1, i);
    }
  }

  // Reading any position of an array sees the same item, holes as null, in canonical form.
  lemma CanonicalKeepsItems(v: Value, i: nat)
    requires Valid(v) && v.Array?
    ensures Size(Canonical(v)) == Size(v)
    ensures i < Size(v) ==> Valid(Slot(v, i)) && Slot(Canonical(v), i) == Canonical(Slot(v, i))
  {
    hide CanonicalItems, Items, Valid, ItemsBelow, Canonical;
    CanonicalArray(v);
    if i < Size(v) {
      ItemAt(v, i);
      CanonicalItemAt(Items(v), i, Depth(v));
      DenseLowerBound(CanonicalItems(Items(v), Depth(v)), 0, i);
    }
  }

  lemma CanonicalArray(v: Value)
    requires Valid(v) && v.Array?
    ensures ItemsBelow(Items(v), Depth(v)) && Canonical(v) == Array(CanonicalItems(Items(v), Depth(v)))
  {
  }

  lemma CanonicalItemAt(items: seq<Value>, i: nat, bound: nat)
    requires ItemsBelow(items, bound) && i < |items|
    ensures Valid(items[i]) && CanonicalItems(items, bound)[i] == Entry(Index(i), Canonical(items[i]))
  {
    assert items[i] in items;
  }

  // Looking up any name in an object finds a member exactly when it did, in canonical form.
  lemma CanonicalKeepsMembers(v: Value, key: Key)
    requires Valid(v) && v.Obj? && key.Name?
    ensures Size(Canonical(v)) == Size(v)
    ensures Has(Canonical(v).entries, key) == Has(v.entries, key)
    ensures Valid(Get(v.entries, key)) && Get(Canonical(v).entries, key) == Canonical(Get(v.entries, key))
  {
    MembersAreBelow(v);
    SameLowerBound(v.entries, Canonical(v).entries, key);
    GetIsNullOrEntry(v.entries, key);
  }

  // ---------------------------------------------------------------- fixed points

  lemma DenseGet(entries: seq<Entry>, i: nat)
    requires Dense(entries) && i < |entries|
    ensures KeysOf(entries, true) && Get(entries, Index(i)) == entries[i].value
    ensures Size(Array(entries)) == |entries|
  {
    DenseLowerBound(entries, 0, i);
  }

  lemma CompactItems(v: Value, i: nat)
    requires Valid(v) && v.Array? && Compact(v) && i < |v.entries|
    ensures Size(v) == |v.entries| && Items(v)[i] == v.entries[i].value
  {
    DenseGet(v.entries, i);
    hide Valid, Compact, Dense;
    ItemAt(v, i);
  }

  // A compact tree is its own canonical form.
  lemma {:induction false} CompactIsCanonical(v: Value)
    requires Valid(v) && Compact(v)
    ensures Canonical(v) == v
    decreases Depth(v)
  {
    match v
    case Array(entries) =>
      if entries != [] {
        CompactItems(v, 0);
      }
      var r := CanonicalItems(Items(v), Depth(v));
      forall i | 0 <= i < |entries| ensures r[i] == entries[i] {
        CompactItems(v, i);
        assert Items(v)[i] in Items(v) && entries[i] in entries;
        CompactIsCanonical(entries[i].value);
      }
      assert r == entries;
    case Obj(entries) =>
      MembersAreBelow(v);
      var r := CanonicalMembers(entries, Depth(v));
      forall i | 0 <= i < |entries| ensures r[i] == entries[i] {
        assert entries[i] in entries;
        CompactIsCanonical(entries[i].value);
      }
      assert r == entries;
    case _ =>
  }

  // What is asked of a normal form beyond its shape: that it can be stored, which takes acceptable
  // names, and that it can be read back in its turn.
  datatype Wanted = Shape | Storable | Legible

  // What a round trip yields, whatever went in.
  ghost predicate Normal(v: Value, emitUTF8: bool, wanted: Wanted, bound: nat) {
    Compact(v) && TextsSurvive(v, emitUTF8) && Depth(v) < bound && Kept(v, wanted)
  }

  ghost predicate AllNormal(entries: seq<Entry>, emitUTF8: bool, wanted: Wanted, bound: nat) {
    forall e :: e in entries ==> NormalKey(e.key, emitUTF8, wanted) && Normal(e.value, emitUTF8, wanted, bound)
  }

  ghost predicate Kept(v: Value, wanted: Wanted) {
    (!wanted.Shape? ==> Valid(v)) && (wanted.Legible? ==> RealFree(v) && Countable(v))
  }

  ghost predicate NormalKey(key: Key, emitUTF8: bool, wanted: Wanted) {
    (!wanted.Shape? ==> KeyFits(key)) && (key.Name? ==> emitUTF8 || Utf8.WellFormed(key.s))
  }

  ghost predicate Presentable(v: Value, emitUTF8: bool, wanted: Wanted) {
    (!wanted.Shape? ==> NamesOk(v, emitUTF8, false)) && (wanted.Legible? ==> RealFree(v) && Countable(v))
  }

  lemma {:induction false} ShallowEntries(entries: seq<Entry>, bound: nat)
    requires bound > 0 && forall e :: e in entries ==> Depth(e.value) < bound
    ensures MaxDepth(entries) < bound
  {
    if entries != [] {
      assert entries[0] in entries;
      ShallowEntries(entries[1..], bound);
    }
  }

  lemma PutKeepsNormal(entries: seq<Entry>, key: Key, value: Value, emitUTF8: bool, wanted: Wanted, bound: nat)
    requires KeysOf(entries, key.Index?) && AllNormal(entries, emitUTF8, wanted, bound)
    requires NormalKey(key, emitUTF8, wanted) && Normal(value, emitUTF8, wanted, bound)
    ensures AllNormal(Put(entries, key, value), emitUTF8, wanted, bound)
  {
    forall e | e in Put(entries, key, value) ensures e in entries || e == Entry(key, value) {
    }
  }

  lemma {:induction false} NormIsNormal(v: Value, emitUTF8: bool, wanted: Wanted)
    requires Valid(v) && Presentable(v, emitUTF8, wanted)
    ensures Normal(Norm(v, emitUTF8), emitUTF8, wanted, Depth(v) + 1)
    decreases Depth(v)
  {
    match v
    case Str(s) => SanitizeIsWellFormed(s);
    case Array(_) => NormArrayIsNormal(v, emitUTF8, wanted);
    case Obj(_) => NormObjectIsNormal(v, emitUTF8, wanted);
    case _ =>
  }

  lemma NormalArray(entries: seq<Entry>, emitUTF8: bool, wanted: Wanted, bound: nat)
    requires bound > 0 && Dense(entries) && AllNormal(entries, emitUTF8, wanted, bound)
    requires wanted.Legible? ==> |entries| <= MAX_ITEMS_READ
    ensures Normal(Array(entries), emitUTF8, wanted, bound + 1)
  {
    ShallowEntries(entries, bound);
  }

  lemma NormalObject(entries: seq<Entry>, emitUTF8: bool, wanted: Wanted, bound: nat)
    requires bound > 0 && Sorted(entries, false) && AllNormal(entries, emitUTF8, wanted, bound)
    ensures Normal(Obj(entries), emitUTF8, wanted, bound + 1)
  {
    ShallowEntries(entries, bound);
  }

  lemma ItemsFit(v: Value, emitUTF8: bool, wanted: Wanted)
    requires Valid(v) && Presentable(v, emitUTF8, wanted) && v.Array?
    ensures ItemsBelow(Items(v), Depth(v)) && |Items(v)| <= MAX_ARRAY_INDEX + 1
    ensures Norm(v, emitUTF8) == Array(NormItems(Items(v), 0, [], emitUTF8, Depth(v)))
    ensures (wanted.Legible? ==> |Items(v)| <= MAX_ITEMS_READ)
    ensures forall x :: x in Items(v) ==> Presentable(x, emitUTF8, wanted)
  {
    forall x | x in Items(v) ensures Presentable(x, emitUTF8, wanted) {
      var i :| 0 <= i < |Items(v)| && Items(v)[i] == x;
      GetIsNullOrEntry(v.entries, Index(i));
    }
    if v.entries != [] {
      assert v.entries[|v.entries| - 1] in v.entries;
    }
  }

  lemma NothingIsNormal(emitUTF8: bool, wanted: Wanted, bound: nat)
    ensures KeysOf([], true) && Dense([]) && AllNormal([], emitUTF8, wanted, bound)
  {
  }

  lemma {:induction false} NormArrayIsNormal(v: Value, emitUTF8: bool, wanted: Wanted)
    requires Valid(v) && Presentable(v, emitUTF8, wanted) && v.Array?
    ensures Normal(Norm(v, emitUTF8), emitUTF8, wanted, Depth(v) + 1)
    decreases Depth(v), |Items(v)| + 1
  {
    hide AllNormal, Normal, Kept, NormItems, Dense, Presentable, Valid, Items, Countable, RealFree, NamesOk, ItemsBelow;
    ItemsFit(v, emitUTF8, wanted);
    NothingIsNormal(emitUTF8, wanted, Depth(v));
    NormItemsAreNormal(Items(v), 0, [], emitUTF8, wanted, Depth(v));
    NormalArray(NormItems(Items(v), 0, [], emitUTF8, Depth(v)), emitUTF8, wanted, Depth(v));
  }

  lemma {:induction false} NormItemsAreNormal(items: seq<Value>, k: nat, done: seq<Entry>, emitUTF8: bool, wanted: Wanted,
      bound: nat)
    requires k == |done| <= |items| <= MAX_ARRAY_INDEX + 1 && ItemsBelow(items, bound)
    requires forall x :: x in items ==> Presentable(x, emitUTF8, wanted)
    requires Dense(done) && AllNormal(done, emitUTF8, wanted, bound)
    ensures Dense(NormItems(items, k, done, emitUTF8, bound)) && |NormItems(items, k, done, emitUTF8, bound)| == |items|
    ensures AllNormal(NormItems(items, k, done, emitUTF8, bound), emitUTF8, wanted, bound)
    decreases bound, |items| - k
  {
    if k < |items| {
      assert items[k] in items;
      NormIsNormal(items[k], emitUTF8, wanted);
      var value := Norm(items[k], emitUTF8);
      PutKeepsNormal(done, Index(k), value, emitUTF8, wanted, bound);
      PutAtEnd(done, Index(k), value);
      NormItemsAreNormal(items, k + 1, Put(done, Index(k), value), emitUTF8, wanted, bound);
    }
  }

  lemma MembersFit(v: Value, emitUTF8: bool, wanted: Wanted)
    requires Valid(v) && v.Obj?
    ensures EntriesBelow(v.entries, Depth(v)) && Sorted([], false) && AllNormal([], emitUTF8, wanted, Depth(v))
    ensures Norm(v, emitUTF8) == Obj(NormMembers(v.entries, 0, [], emitUTF8, Depth(v)))
  {
    MembersAreBelow(v);
    hide EntriesBelow, Valid, Normal, NormalKey, NormMembers;
  }

  lemma MembersPresentable(v: Value, emitUTF8: bool, wanted: Wanted)
    requires Presentable(v, emitUTF8, wanted) && v.Obj?
    ensures forall e :: e in v.entries ==> Presentable(e.value, emitUTF8, wanted)
                                           && (!wanted.Shape? ==> |NameRead(e, emitUTF8)| <= MAX_KEY_LENGTH)
  {
    hide NameRead;
  }

  lemma {:induction false} NormObjectIsNormal(v: Value, emitUTF8: bool, wanted: Wanted)
    requires Valid(v) && Presentable(v, emitUTF8, wanted) && v.Obj?
    ensures Normal(Norm(v, emitUTF8), emitUTF8, wanted, Depth(v) + 1)
    decreases Depth(v), |v.entries| + 1
  {
    hide AllNormal, Normal, Kept, NormMembers, Sorted, Presentable, Valid, Countable, RealFree, NamesOk, EntriesBelow;
    MembersFit(v, emitUTF8, wanted);
    MembersPresentable(v, emitUTF8, wanted);
    NormMembersAreNormal(v.entries, 0, [], emitUTF8, wanted, Depth(v));
    NormalObject(NormMembers(v.entries, 0, [], emitUTF8, Depth(v)), emitUTF8, wanted, Depth(v));
  }

  lemma {:induction false} NormMembersAreNormal(entries: seq<Entry>, k: nat, done: seq<Entry>, emitUTF8: bool,
      wanted: Wanted, bound: nat)
    requires k <= |entries| && EntriesBelow(entries, bound)
    requires forall e :: e in entries ==> Presentable(e.value, emitUTF8, wanted)
                                          && (!wanted.Shape? ==> |NameRead(e, emitUTF8)| <= MAX_KEY_LENGTH)
    requires Sorted(done, false) && AllNormal(done, emitUTF8, wanted, bound)
    ensures Sorted(NormMembers(entries, k, done, emitUTF8, bound), false)
    ensures AllNormal(NormMembers(entries, k, done, emitUTF8, bound), emitUTF8, wanted, bound)
    decreases bound, |entries| - k
  {
    if k < |entries| {
      var e := entries[k];
      assert e in entries;
      NormIsNormal(e.value, emitUTF8, wanted);
      SanitizeIsWellFormed(e.key.s);
      var name, value := Name(Reread(e.key.s, emitUTF8)), Norm(e.value, emitUTF8);
      PutKeepsNormal(done, name, value, emitUTF8, wanted, bound);
      PutKeepsSorted(done, name, value);
      NormMembersAreNormal(entries, k + 1, Put(done, name, value), emitUTF8, wanted, bound);
    }
  }

  // Any tree comes back exactly as it went in if and only if it is compact and, unless bytes are
  // passed through raw, all its texts are well-formed UTF-8.
  lemma ComesBackUnchanged(v: Value, emitUTF8: bool)
    requires Valid(v)
    ensures Norm(v, emitUTF8) == v <==> Compact(v) && TextsSurvive(v, emitUTF8)
  {
    NormIsNormal(v, emitUTF8, Shape);
    if Compact(v) && TextsSurvive(v, emitUTF8) {
      NormIsCanonical(v, emitUTF8);
      CompactIsCanonical(v);
    }
  }

  // After one trip, whatever the bytes, a second one changes nothing.
  lemma SecondTripChangesNothing(v: Value, emitUTF8: bool)
    requires Valid(v) && NamesOk(v, emitUTF8, false)
    ensures Valid(Norm(v, emitUTF8))
    ensures Norm(Norm(v, emitUTF8), emitUTF8) == Norm(v, emitUTF8)
  {
    NormIsNormal(v, emitUTF8, Storable);
    NormIsCanonical(Norm(v, emitUTF8), emitUTF8);
    CompactIsCanonical(Norm(v, emitUTF8));
  }
}
