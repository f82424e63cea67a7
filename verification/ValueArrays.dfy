// Json::Value as an array: a std::map from index to value whose operations shift entries one by one,
// shown to act on the sequence of items, holes read as null, and when they do not.
module ValueArrays {
  import opened Values
  import opened Documents
  import opened NormalForm

  // map.erase(key)
  function Erase(entries: seq<Entry>, key: Key): (r: seq<Entry>)
    requires KeysOf(entries, key.Index?)
    ensures KeysOf(r, key.Index?)
  {
    if Has(entries, key) then
      var n := LowerBound(entries, key); entries[..n] + entries[n + 1..]
    else entries
  }

  // Erasing closes the gap at the erased entry.
  lemma ErasedAt(entries: seq<Entry>, key: Key)
    requires Sorted(entries, key.Index?) && Has(entries, key)
    ensures var n, r := LowerBound(entries, key), Erase(entries, key);
            && |r| == |entries| - 1 && Sorted(r, key.Index?)
            && forall k :: 0 <= k < |r| ==> r[k] == entries[if k < n then k else k + 1]
  {
    hide KeyLess, LowerBound;
  }

  lemma ErasedIsGone(entries: seq<Entry>, key: Key)
    requires Sorted(entries, key.Index?) && Has(entries, key)
    ensures Sorted(Erase(entries, key), key.Index?)
    ensures forall k :: 0 <= k < |Erase(entries, key)| ==> Erase(entries, key)[k].key != key
  {
    ErasedAt(entries, key);
    var n, r := LowerBound(entries, key), Erase(entries, key);
    assert entries[n].key == key;
    hide Erase, LowerBound, KeyLess;
    forall k | 0 <= k < |r| ensures r[k].key != key {
      if k < n {
        KeyTrichotomy(entries[k].key, key);
      } else {
        KeyTrichotomy(key, entries[k + 1].key);
      }
    }
  }

  lemma OthersStay(entries: seq<Entry>, key: Key, other: Key)
    requires Sorted(entries, key.Index?) && SameKind(key, other) && Has(entries, key)
    requires other != key && Has(entries, other)
    ensures KeysOf(Erase(entries, key), other.Index?)
    ensures Has(Erase(entries, key), other) && Get(Erase(entries, key), other) == Get(entries, other)
  {
    hide Erase, LowerBound, KeyLess;
    ErasedAt(entries, key);
    var n, r, j := LowerBound(entries, key), Erase(entries, key), LowerBound(entries, other);
    var k := if j < n then j else j - 1;
    assert r[k] == entries[j];
    GetPresent(r, k);
  }

  lemma EraseThenGet(entries: seq<Entry>, key: Key, other: Key)
    requires Sorted(entries, key.Index?) && SameKind(key, other)
    ensures Sorted(Erase(entries, key), key.Index?)
    ensures Has(Erase(entries, key), other) <==> other != key && Has(entries, other)
    ensures Get(Erase(entries, key), other) == if other == key then Null else Get(entries, other)
  {
    if Has(entries, key) {
      ErasedAt(entries, key);
      ErasedIsGone(entries, key);
      if other != key && Has(entries, other) {
        OthersStay(entries, key, other);
      } else {
        hide Erase, LowerBound;
        HasIffPresent(Erase(entries, key), other);
        HasIffPresent(entries, other);
      }
    }
  }

  // ---------------------------------------------------------------- arrays as sequences

  predicate IsArray(v: Value) { v.Null? || v.Array? }

  predicate Present(v: Value, i: nat)
    requires Valid(v) && IsArray(v)
  {
    v.Array? && Has(v.entries, Index(i))
  }

  // The items in order, holes as null.
  ghost function View(v: Value): (r: seq<Value>)
    requires Valid(v) && IsArray(v)
    ensures |r| == Size(v)
  {
    if v.Null? then [] else Items(v)
  }

  // Size is one more than the greatest index present.
  lemma SizeIsGreatest(v: Value, i: nat)
    requires Valid(v) && v.Array?
    ensures Present(v, i) ==> i < Size(v)
    ensures Size(v) > 0 ==> Present(v, Size(v) - 1)
    ensures Size(v) <= MAX_ARRAY_INDEX + 1
  {
    if v.entries != [] {
      var last := |v.entries| - 1;
      assert v.entries[last] in v.entries;
      GetPresent(v.entries, last);
      HasIffPresent(v.entries, Index(i));
      if Present(v, i) {
        var j :| 0 <= j < |v.entries| && v.entries[j].key == Index(i);
        assert j == last || KeyLess(v.entries[j].key, v.entries[last].key);
      }
    }
  }

  lemma SizeFromPresence(v: Value, n: nat)
    requires Valid(v) && v.Array?
    requires forall i :: n <= i ==> !Present(v, i)
    requires n == 0 || Present(v, n - 1)
    ensures Size(v) == n
  {
    if n > 0 {
      SizeIsGreatest(v, n - 1);
    }
    if Size(v) > 0 {
      SizeIsGreatest(v, Size(v) - 1);
    }
  }

  // What a position holds: nothing reads as null.
  function At(v: Value, i: nat): Value
    requires Valid(v) && IsArray(v)
  {
    if v.Array? then Get(v.entries, Index(i)) else Null
  }

  // No holes.
  ghost predicate Full(v: Value)
    requires Valid(v) && IsArray(v)
  {
    forall i :: 0 <= i < Size(v) ==> Present(v, i)
  }

  // An array is full exactly when the keys of its map are 0, 1, 2 and so on.
  lemma FullIsDense(v: Value)
    requires Valid(v) && v.Array?
    ensures Full(v) <==> Dense(v.entries)
  {
    if Dense(v.entries) {
      forall i | 0 <= i < Size(v) ensures Present(v, i) {
        GetPresent(v.entries, i);
      }
    }
    if Full(v) {
      forall i | 0 <= i < |v.entries| ensures v.entries[i].key == Index(i) {
        FullPrefixIsDense(v, i);
      }
    }
  }

  lemma {:induction false} FullPrefixIsDense(v: Value, i: nat)
    requires Valid(v) && v.Array? && Full(v) && i < |v.entries|
    ensures v.entries[i].key == Index(i)
  {
    SizeIsGreatest(v, v.entries[i].key.i);
    GetPresent(v.entries, i);
    if i > 0 {
      FullPrefixIsDense(v, i - 1);
      assert KeyLess(v.entries[i - 1].key, v.entries[i].key);
    }
    if v.entries[i].key.i > i {
      assert Present(v, i);
      HasIffPresent(v.entries, Index(i));
      var j :| 0 <= j < |v.entries| && v.entries[j].key == Index(i);
      if j > i {
        assert false;
      }
    }
  }

  // ---------------------------------------------------------------- single steps

  function EntriesOf(v: Value): seq<Entry> { if v.Array? then v.entries else [] }

  function Store(v: Value, i: nat, x: Value): Value
    requires Valid(v) && IsArray(v)
  {
    Array(Put(EntriesOf(v), Index(i), x))
  }

  lemma Stored(v: Value, i: nat, x: Value)
    requires Valid(v) && IsArray(v) && i <= MAX_ARRAY_INDEX && Valid(x)
    ensures Valid(Store(v, i, x)) && Store(v, i, x).Array?
    ensures forall k: nat :: Present(Store(v, i, x), k) <==> k == i || Present(v, k)
    ensures forall k: nat :: At(Store(v, i, x), k) == if k == i then x else At(v, k)
  {
    var r := Put(EntriesOf(v), Index(i), x);
    PutKeepsSorted(EntriesOf(v), Index(i), x);
    assert forall e :: e in r ==> e in EntriesOf(v) || e == Entry(Index(i), x);
    forall k: nat ensures Present(Array(r), k) <==> k == i || Present(v, k)
                  ensures At(Array(r), k) == if k == i then x else At(v, k) {
      PutThenGet(EntriesOf(v), Index(i), x, Index(k));
    }
  }

  function Without(v: Value, i: nat): Value
    requires Valid(v) && v.Array?
  {
    Array(Erase(v.entries, Index(i)))
  }

  lemma Erased(v: Value, i: nat)
    requires Valid(v) && v.Array?
    ensures Valid(Without(v, i)) && Without(v, i).Array?
    ensures forall k: nat :: Present(Without(v, i), k) <==> k != i && Present(v, k)
    ensures forall k: nat :: At(Without(v, i), k) == if k == i then Null else At(v, k)
  {
    var r := Erase(v.entries, Index(i));
    EraseThenGet(v.entries, Index(i), Index(i));
    assert forall e :: e in r ==> e in v.entries;
    forall k: nat ensures Present(Array(r), k) <==> k != i && Present(v, k)
                  ensures At(Array(r), k) == if k == i then Null else At(v, k) {
      EraseThenGet(v.entries, Index(i), Index(k));
    }
  }

  lemma AtIsValid(v: Value, i: nat)
    requires Valid(v) && IsArray(v)
    ensures Valid(At(v, i))
    ensures !Present(v, i) ==> At(v, i) == Null
    ensures i < Size(v) ==> View(v)[i] == At(v, i)
    ensures Present(v, i) ==> i < Size(v)
  {
    if v.Array? {
      GetIsNullOrEntry(v.entries, Index(i));
      SizeIsGreatest(v, i);
      if i < Size(v) {
        ItemAt(v, i);
      }
    }
  }

  // A view is determined by which positions are present and what they hold.
  lemma ViewBecomes(v: Value, s: seq<Value>)
    requires Valid(v) && v.Array?
    requires forall k: nat :: |s| <= k ==> !Present(v, k)
    requires s == [] || Present(v, |s| - 1)
    requires forall k: nat :: k < |s| ==> At(v, k) == s[k]
    ensures View(v) == s && Size(v) == |s|
  {
    SizeFromPresence(v, |s|);
    forall k | 0 <= k < |s| ensures View(v)[k] == s[k] {
      AtIsValid(v, k);
    }
  }

  // operator[](ArrayIndex) makes a null value an array and a hole a null entry.
  function Touch(v: Value, i: nat): Value
    requires Valid(v) && IsArray(v)
  {
    if Present(v, i) then v else Store(v, i, Null)
  }

  lemma Touched(v: Value, i: nat)
    requires Valid(v) && IsArray(v) && i <= MAX_ARRAY_INDEX
    ensures Valid(Touch(v, i)) && Touch(v, i).Array?
    ensures forall k: nat :: Present(Touch(v, i), k) <==> k == i || Present(v, k)
    ensures forall k: nat :: At(Touch(v, i), k) == At(v, k)
    ensures View(Touch(v, i)) == PadTo(View(v), i + 1)
    ensures Full(v) && i <= Size(v) ==> Full(Touch(v, i))
  {
    hide At, Store, Valid, View, Size, Get, Has;
    if !Present(v, i) {
      Stored(v, i, Null);
      AtIsValid(v, i);
    }
    NothingBeyond(v);
    ViewBecomes(Touch(v, i), PadTo(View(v), i + 1));
  }

  // (*this)[i] = std::move((*this)[j]): both become entries and swap what they hold.
  function Swap(v: Value, i: nat, j: nat): Value
    requires Valid(v) && IsArray(v) && i <= MAX_ARRAY_INDEX && j <= MAX_ARRAY_INDEX
  {
    Touched(v, j);
    Touched(Touch(v, j), i);
    AtIsValid(v, j);
    Stored(Touch(Touch(v, j), i), i, At(v, j));
    Store(Store(Touch(Touch(v, j), i), i, At(v, j)), j, At(v, i))
  }

  lemma Swapped(v: Value, i: nat, j: nat)
    requires Valid(v) && IsArray(v) && i <= MAX_ARRAY_INDEX && j <= MAX_ARRAY_INDEX
    ensures Valid(Swap(v, i, j)) && Swap(v, i, j).Array?
    ensures forall k: nat :: Present(Swap(v, i, j), k) <==> k == i || k == j || Present(v, k)
    ensures forall k: nat :: At(Swap(v, i, j), k) == At(v, if k == i then j else if k == j then i else k)
  {
    Touched(v, j);
    Touched(Touch(v, j), i);
    AtIsValid(v, i);
    AtIsValid(v, j);
    Stored(Touch(Touch(v, j), i), i, At(v, j));
    Stored(Store(Touch(Touch(v, j), i), i, At(v, j)), j, At(v, i));
  }

  // ---------------------------------------------------------------- loops

  // Insertion, from the end down to `i`: a null entry has travelled down to `i` and what was above
  // it has moved up by one.
  ghost predicate MovedUp(was: Value, v: Value, i: nat)
    requires Valid(was) && IsArray(was) && Valid(v) && IsArray(v)
  {
    && i <= Size(was) && (i == Size(was) ==> v == was)
    && (forall k: nat :: Present(v, k) <==> (i <= k <= Size(was) && i < Size(was)) || Present(was, k))
    && (forall k: nat :: k < i ==> At(v, k) == At(was, k))
    && (forall k: nat :: i < k <= Size(was) ==> At(v, k) == At(was, k - 1))
    && At(v, i) == Null
  }

  lemma MovedUpStart(v: Value)
    requires Valid(v) && IsArray(v)
    ensures MovedUp(v, v, Size(v))
  {
    NothingBeyond(v);
  }

  lemma MoveUpStep(was: Value, v: Value, i: nat)
    requires Valid(was) && IsArray(was) && Valid(v) && IsArray(v)
    requires MovedUp(was, v, i) && 0 < i <= MAX_ARRAY_INDEX
    ensures Valid(Swap(v, i, i - 1)) && Swap(v, i, i - 1).Array? && MovedUp(was, Swap(v, i, i - 1), i - 1)
  {
    hide Present, At, Store, Swap, Valid, View, Size, Erase, Get, Has;
    Swapped(v, i, i - 1);
  }

  lemma InsertedView(was: Value, v: Value, i: nat, x: Value)
    requires Valid(was) && IsArray(was) && Valid(v) && IsArray(v)
    requires MovedUp(was, v, i) && i <= MAX_ARRAY_INDEX && Valid(x)
    ensures var r := Store(v, i, x);
            && Valid(r) && View(r) == View(was)[..i] + [x] + View(was)[i..]
            && (Full(was) ==> Full(r))
  {
    hide Present, At, Store, Swap, Valid, View, Size, Erase, Get, Has;
    Stored(v, i, x);
    NothingBeyond(was);
    var r, s := Store(v, i, x), View(was)[..i] + [x] + View(was)[i..];
    forall k: nat | k < |s| ensures At(r, k) == s[k] {
      if k > i {
        assert s[k] == View(was)[k - 1] == At(was, k - 1);
      }
    }
    ViewBecomes(r, s);
  }

  // Removal, from `index` up to `i`: what was above has moved down by one.
  ghost predicate MovedDown(was: Value, v: Value, index: nat, i: nat)
    requires Valid(was) && IsArray(was) && Valid(v) && IsArray(v)
  {
    && v.Array? && index <= i < Size(was)
    && (forall k: nat :: Present(v, k) <==> index <= k <= i || Present(was, k))
    && (forall k: nat :: index <= k < i ==> At(v, k) == At(was, k + 1))
    && (forall k: nat :: k < index || i <= k ==> At(v, k) == At(was, k))
  }

  lemma MoveDownStep(was: Value, v: Value, index: nat, i: nat)
    requires Valid(was) && IsArray(was) && Valid(v) && IsArray(v)
    requires MovedDown(was, v, index, i) && i + 1 < Size(was) <= MAX_ARRAY_INDEX + 1
    ensures var t := Touch(v, i + 1);
            && Valid(t) && IsArray(t) && Valid(At(v, i + 1))
            && Valid(Store(t, i, At(v, i + 1))) && MovedDown(was, Store(t, i, At(v, i + 1)), index, i + 1)
  {
    hide Present, At, Store, Touch, Valid, View, Size, Get, Has;
    Touched(v, i + 1);
    AtIsValid(v, i + 1);
    Stored(Touch(v, i + 1), i, At(v, i + 1));
  }

  // Every position as removal leaves it.
  ghost predicate ClosedUp(was: Value, v: Value, index: nat)
    requires Valid(was) && was.Array? && Valid(v) && v.Array?
  {
    && index < Size(was)
    && (forall k: nat :: Present(v, k) <==> k + 1 != Size(was) && (index <= k < Size(was) || Present(was, k)))
    && (forall k: nat :: k < index ==> At(v, k) == At(was, k))
    && (forall k: nat :: index <= k ==> At(v, k) == At(was, k + 1))
  }

  lemma RemovedPositions(was: Value, v: Value, index: nat)
    requires Valid(was) && was.Array? && Valid(v) && v.Array?
    requires Size(was) > 0 && MovedDown(was, v, index, Size(was) - 1)
    ensures var r := Without(v, Size(was) - 1); Valid(r) && r.Array? && ClosedUp(was, r, index)
  {
    hide Present, At, Valid, View, Size, Without;
    Erased(v, Size(was) - 1);
    NothingBeyond(was);
  }

  // What removal comes to: the sequence of items loses the one at `index`, unless that one was the
  // last and followed a hole: then the holes below it are lost too.
  lemma RemovedView(was: Value, v: Value, index: nat)
    requires Valid(was) && was.Array? && Valid(v) && v.Array? && ClosedUp(was, v, index)
    ensures Full(was) ==> Full(v)
    ensures View(v) == View(was)[..index] + View(was)[index + 1..]
            <==> index + 1 < Size(was) || index == 0 || Present(was, index - 1)
  {
    hide Present, At, Valid, View, Size;
    NothingBeyond(was);
    if index + 1 < Size(was) || index == 0 || Present(was, index - 1) {
      ViewBecomes(v, View(was)[..index] + View(was)[index + 1..]);
    } else {
      SizeIsGreatest(v, index - 1);
    }
  }

  // Shrinking, from `newSize` up to `i`.
  ghost predicate Cut(was: Value, v: Value, newSize: nat, i: nat)
    requires Valid(was) && IsArray(was) && Valid(v) && IsArray(v)
  {
    && v.Array? && newSize <= i
    && (forall k: nat :: Present(v, k) <==> Present(was, k) && !(newSize <= k < i))
    && (forall k: nat :: k < newSize ==> At(v, k) == At(was, k))
  }

  lemma CutStep(was: Value, v: Value, newSize: nat, i: nat)
    requires Valid(was) && IsArray(was) && Valid(v) && v.Array? && Cut(was, v, newSize, i)
    ensures var r := Without(v, i); Valid(r) && Cut(was, r, newSize, i + 1)
  {
    hide Present, At, Store, Swap, Valid, View, Size, Erase, Get, Has;
    Erased(v, i);
  }

  lemma CutView(was: Value, v: Value, newSize: nat)
    requires Valid(was) && was.Array? && Valid(v) && v.Array?
    requires 0 < newSize <= Size(was) && Cut(was, v, newSize, Size(was))
    ensures Size(v) == newSize <==> Present(was, newSize - 1)
    ensures Size(v) == newSize ==> View(v) == View(was)[..newSize]
    ensures Full(was) ==> Size(v) == newSize && Full(v)
  {
    hide At, Valid, View, Size, Has, Get;
    NothingBeyond(was);
    SizeIsGreatest(v, newSize - 1);
    if Present(was, newSize - 1) {
      ViewBecomes(v, View(was)[..newSize]);
    }
  }

  // An array of two holes and an item.
  function HolesBelow(x: Value): Value { Array([Entry(Index(2), x)]) }

  lemma HolesBelowIs(x: Value)
    requires Valid(x)
    ensures var v := HolesBelow(x);
            && Valid(v) && v.Array? && View(v) == [Null, Null, x]
            && forall k: nat :: Present(v, k) <==> k == 2
  {
    var v := HolesBelow(x);
    forall k: nat ensures Present(v, k) <==> k == 2 {
      HasIffPresent(v.entries, Index(k));
    }
    GetPresent(v.entries, 0);
    hide View;
    ViewBecomes(v, [Null, Null, x]);
  }

  // Removing the item loses the holes as well, and so does shrinking to them.
  lemma HolesAreLost(x: Value)
    requires Valid(x)
    ensures var v := HolesBelow(x);
            && Valid(v) && ClosedUp(v, Array([]), 2) && Cut(v, Array([]), 2, 3)
            && View(v)[..2] + View(v)[3..] == [Null, Null] == View(v)[..2]
            && View(Array([])) == [] && Size(Array([])) == 0
  {
    HolesBelowIs(x);
    NothingBeyond(HolesBelow(x));
  }

  // At least `n` items, the new ones null.
  function PadTo(s: seq<Value>, n: nat): seq<Value> {
    if n <= |s| then s else s + seq(n - |s|, _ => Null)
  }

  lemma PadTwice(s: seq<Value>, n: nat)
    ensures |PadTo(s, n)| == if n <= |s| then |s| else n
    ensures PadTo(PadTo(s, n), n + 1) == PadTo(s, n + 1)
  {
  }

  lemma AppendKeeps(v: Value, x: Value)
    requires Valid(v) && IsArray(v) && Size(v) <= MAX_ARRAY_INDEX && Valid(x)
    ensures var r := Store(v, Size(v), x);
            Valid(r) && View(r) == View(v) + [x] && (Full(v) ==> Full(r))
  {
    hide Present, At, View, Valid, Store;
    Stored(v, Size(v), x);
    NothingBeyond(v);
    ViewBecomes(Store(v, Size(v), x), View(v) + [x]);
  }

  lemma NothingBeyond(v: Value)
    requires Valid(v) && IsArray(v)
    ensures forall k: nat :: Size(v) <= k ==> !Present(v, k) && At(v, k) == Null
    ensures forall k: nat :: k < Size(v) ==> View(v)[k] == At(v, k)
    ensures Size(v) > 0 ==> Present(v, Size(v) - 1)
  {
    forall k: nat ensures Size(v) <= k ==> !Present(v, k) && At(v, k) == Null
                  ensures k < Size(v) ==> View(v)[k] == At(v, k) {
      AtIsValid(v, k);
    }
    if v.Array? {
      SizeIsGreatest(v, 0);
    }
  }

  // ---------------------------------------------------------------- the operations

  class ArrayValue {
    var value: Value

    constructor ()
      ensures value == Null
    {
      value := Null;
    }

    // (*value_.map_)[i] = x
    method PutEntry(i: nat, x: Value)
      requires Valid(value) && value.Array? && i <= MAX_ARRAY_INDEX && Valid(x)
      modifies this
      ensures Valid(value) && value.Array? && value == Store(old(value), i, x)
    {
      Stored(value, i, x);
      value := Array(Put(value.entries, Index(i), x));
    }

    // value_.map_->erase(i)
    method EraseEntry(i: nat)
      requires Valid(value) && value.Array?
      modifies this
      ensures Valid(value) && value.Array? && value == Without(old(value), i)
    {
      Erased(value, i);
      value := Array(Erase(value.entries, Index(i)));
    }

    // operator[](ArrayIndex), whose result the caller reads.
    method Element(index: nat) returns (x: Value)
      requires Valid(value) && IsArray(value) && index <= MAX_ARRAY_INDEX
      modifies this
      ensures Valid(value) && value.Array? && value == Touch(old(value), index)
      ensures x == At(old(value), index) == At(value, index)
      ensures View(value) == PadTo(View(old(value)), index + 1)
    {
      Touched(value, index);
      if value.Null? {
        value := Array([]);
      }
      if !Has(value.entries, Index(index)) {
        value := Array(Put(value.entries, Index(index), Null));
      }
      x := Get(value.entries, Index(index));
    }

    // operator[](ArrayIndex), whose result the caller assigns to.
    method Assign(index: nat, x: Value)
      requires Valid(value) && IsArray(value) && index <= MAX_ARRAY_INDEX && Valid(x)
      modifies this
      ensures Valid(value) && value.Array? && value == Store(old(value), index, x)
    {
      TouchThenStore(value, index, x);
      hide Present, At, View, Valid, Full, Store, Touch, Swap, Without, MovedUp, MovedDown, Size, Get, Has, Put, PadTo;
      var _ := Element(index);
      PutEntry(index, x);
    }

    // Move-assignment is a swap.
    method MoveAssign(i: nat, j: nat)
      requires Valid(value) && IsArray(value) && i <= MAX_ARRAY_INDEX && j <= MAX_ARRAY_INDEX
      modifies this
      ensures Valid(value) && IsArray(value) && value == Swap(old(value), i, j)
    {
      Swapped(value, i, j);
      Touched(value, j);
      AtIsValid(value, j);
      var y := Element(j);
      var x := Element(i);
      PutEntry(i, y);
      PutEntry(j, x);
    }

    method Append(x: Value)
      requires Valid(value) && IsArray(value) && Size(value) <= MAX_ARRAY_INDEX && Valid(x)
      modifies this
      ensures Valid(value) && IsArray(value) && View(value) == View(old(value)) + [x]
      ensures Full(old(value)) ==> Full(value)
    {
      AppendKeeps(value, x);
      if value.Null? {
        value := Array([]);
      }
      PutEntry(Size(value), x);
    }

    method Insert(index: nat, newValue: Value) returns (ok: bool)
      requires Valid(value) && IsArray(value) && Size(value) <= MAX_ARRAY_INDEX && Valid(newValue)
      modifies this
      ensures Valid(value) && IsArray(value) && (ok <==> index <= Size(old(value)))
      ensures !ok ==> value == old(value)
      ensures ok ==> View(value) == View(old(value))[..index] + [newValue] + View(old(value))[index..]
      ensures Full(old(value)) ==> Full(value)
    {
      ghost var was := value;
      var length := Size(value);
      if index > length {
        return false;
      }
      hide Present, At, View, Valid, Full, Store, MovedUp;
      OpenGap(index, length);
      InsertedView(was, value, index, newValue);
      Assign(index, newValue);
      ok := true;
    }

    // The items from `index` on each move up by one.
    method OpenGap(index: nat, length: nat)
      requires Valid(value) && IsArray(value) && index <= length == Size(value) <= MAX_ARRAY_INDEX
      modifies this
      ensures Valid(value) && IsArray(value) && MovedUp(old(value), value, index)
    {
      ghost var was := value;
      hide Present, Size, Valid, Swap, MovedUp;
      var i := length;
      MovedUpStart(value);
      while i > index
        invariant index <= i <= length && Valid(value) && IsArray(value) && MovedUp(was, value, i)
      {
        MoveUpStep(was, value, i);
        MoveAssign(i, i - 1);
        i := i - 1;
      }
    }

    // `index` may be present, absent or out of range, and the value need not be an array.
    method RemoveIndex(index: nat) returns (ok: bool, removed: Value)
      requires Valid(value)
      modifies this
      ensures ok <==> old(value).Array? && Present(old(value), index)
      ensures !ok ==> value == old(value)
      ensures ok ==> removed == At(old(value), index)
      ensures ok ==> Valid(value) && value.Array? && ClosedUp(old(value), value, index)
    {
      ok := value.Array? && Has(value.entries, Index(index));
      if !ok {
        return false, Null;
      }
      removed := Get(value.entries, Index(index));
      RemovePresent(index);
    }

    method RemovePresent(index: nat)
      requires Valid(value) && value.Array? && Present(value, index)
      modifies this
      ensures Valid(value) && value.Array? && ClosedUp(old(value), value, index)
    {
      ghost var was := value;
      var oldSize := Size(value);
      SizeIsGreatest(value, index);
      hide Present, At, View, Full, Size, Valid, Without, MovedDown, ClosedUp;
      CloseGap(index, oldSize);
      ghost var mid := value;
      RemovedPositions(was, mid, index);
      EraseEntry(oldSize - 1);
      assert value == Without(mid, Size(was) - 1);
    }

    // The items above `index` each move down by one.
    method CloseGap(index: nat, oldSize: nat)
      requires Valid(value) && value.Array? && oldSize == Size(value) <= MAX_ARRAY_INDEX + 1
      requires index < oldSize && Present(value, index)
      modifies this
      ensures Valid(value) && value.Array? && MovedDown(old(value), value, index, oldSize - 1)
    {
      ghost var was := value;
      hide Present, At, View, Valid, Touch, Store;
      var i := index;
      while i < oldSize - 1
        invariant index <= i <= oldSize - 1 && Valid(value) && IsArray(value) && MovedDown(was, value, index, i)
      {
        MoveDownStep(was, value, index, i);
        var next := Element(i + 1);
        PutEntry(i, next);
        i := i + 1;
      }
    }

    // `ok` is false where the code's own assertion about the new size fails and it throws.
    method Resize(newSize: nat) returns (ok: bool)
      requires Valid(value) && IsArray(value) && newSize <= MAX_ARRAY_INDEX + 1
      modifies this
      ensures Valid(value) && value.Array?
      ensures ok <==> newSize == 0 || newSize >= Size(old(value)) || Present(old(value), newSize - 1)
      ensures ok ==> View(value) == if newSize <= Size(old(value)) then View(old(value))[..newSize]
                                    else PadTo(View(old(value)), newSize)
      ensures Full(old(value)) ==> ok && Full(value)
    {
      if value.Null? {
        value := Array([]);
      }
      var oldSize := Size(value);
      if newSize == 0 {
        value := Array([]);
        ok := true;
      } else if newSize > oldSize {
        Grow(oldSize, newSize);
        ok := true;
      } else {
        ok := Shrink(oldSize, newSize);
      }
    }

    method Grow(oldSize: nat, newSize: nat)
      requires Valid(value) && value.Array? && oldSize == Size(value) < newSize <= MAX_ARRAY_INDEX + 1
      modifies this
      ensures Valid(value) && value.Array? && View(value) == PadTo(View(old(value)), newSize)
      ensures Full(old(value)) ==> Full(value)
    {
      for i := oldSize to newSize
        invariant Valid(value) && value.Array? && View(value) == PadTo(View(old(value)), i)
        invariant Full(old(value)) ==> Full(value)
      {
        hide Present, At, View, Valid, Full, Store, Touch, Swap, Without, MovedUp, MovedDown, Size, Get, Has, Put, PadTo;
        PadTwice(View(old(value)), i);
        Touched(value, i);
        var _ := Element(i);
      }
    }

    method Shrink(oldSize: nat, newSize: nat) returns (ok: bool)
      requires Valid(value) && value.Array? && 0 < newSize <= oldSize == Size(value)
      modifies this
      ensures Valid(value) && value.Array?
      ensures ok <==> Present(old(value), newSize - 1)
      ensures ok ==> View(value) == View(old(value))[..newSize]
      ensures Full(old(value)) ==> ok && Full(value)
    {
      ghost var was := value;
      NothingBeyond(value);
      hide Present, Full, View;
      var index := newSize;
      while index < oldSize
        invariant newSize <= index <= oldSize && Valid(value) && value.Array? && Cut(was, value, newSize, index)
      {
        CutStep(was, value, newSize, index);
        EraseEntry(index);
        index := index + 1;
      }
      CutView(was, value, newSize);
      ok := Size(value) == newSize;
    }
  }

  // Assigning through operator[] stores.
  lemma TouchThenStore(v: Value, i: nat, x: Value)
    requires Valid(v) && IsArray(v) && i <= MAX_ARRAY_INDEX
    ensures Valid(Touch(v, i)) && IsArray(Touch(v, i)) && Store(Touch(v, i), i, x) == Store(v, i, x)
  {
    Touched(v, i);
    if !Present(v, i) {
      PutTwice(EntriesOf(v), Index(i), Null, x);
    }
  }

  lemma PutTwice(entries: seq<Entry>, key: Key, a: Value, b: Value)
    requires Sorted(entries, key.Index?)
    ensures Put(Put(entries, key, a), key, b) == Put(entries, key, b)
  {
    hide LowerBound, KeyLess;
    PutKeepsSorted(entries, key, a);
    var n, r := LowerBound(entries, key), Put(entries, key, a);
    assert r[n].key == key;
    LowerBoundOfPresent(r, n);
  }
}
