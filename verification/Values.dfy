// JSON values as the library stores them: a container is a std::map from CZString to value, so it
// is a sequence of entries in strictly increasing key order. Comparison follows operator< and
// operator==, which defer to the comparison of those maps.
module Values {
  import opened Bytes
  import opened Numbers

  // A floating-point payload is opaque apart from the three special values.
  datatype Real = NaN | PosInfinity | NegInfinity | Double(bits: nat)

  // CZString: an array index or a member name.
  datatype Key = Index(i: nat) | Name(s: bytes)

  datatype Entry = Entry(key: Key, value: Value)

  datatype Value =
    | Null
    | Int(i: int64)
    | UInt(u: uint64)
    | Real(r: Real)
    | Str(s: bytes)
    | Bool(b: bool)
    | Array(entries: seq<Entry>)
    | Obj(entries: seq<Entry>)

  predicate IsContainer(v: Value) { v.Array? || v.Obj? }

  // ---------------------------------------------------------------- keys

  // memcmp on the first `n` bytes: negative, zero or positive.
  function MemCmp(a: bytes, b: bytes, n: nat): int
    requires n <= |a| && n <= |b|
    decreases n
  {
    if n == 0 then 0
    else if a[0] != b[0] then a[0] as int - b[0] as int
    else MemCmp(a[1..], b[1..], n - 1)
  }

  function Min(a: nat, b: nat): nat { if a < b then a else b }

  predicate BytesLess(a: bytes, b: bytes) {
    var comp := MemCmp(a, b, Min(|a|, |b|));
    if comp < 0 then true else if comp > 0 then false else |a| < |b|
  }

  predicate BytesEqual(a: bytes, b: bytes) {
    |a| == |b| && MemCmp(a, b, |a|) == 0
  }

  predicate SameKind(a: Key, b: Key) { a.Index? <==> b.Index? }

  predicate KeyLess(a: Key, b: Key)
    requires SameKind(a, b)
  {
    if a.Index? then a.i < b.i else BytesLess(a.s, b.s)
  }

  predicate KeyEqual(a: Key, b: Key)
    requires SameKind(a, b)
  {
    if a.Index? then a.i == b.i else BytesEqual(a.s, b.s)
  }

  lemma {:induction false} MemCmpOrder(a: bytes, b: bytes, n: nat)
    requires n <= |a| && n <= |b|
    ensures MemCmp(a, b, n) == 0 <==> a[..n] == b[..n]
    ensures MemCmp(a, b, n) == 0 - MemCmp(b, a, n)
    decreases n
  {
    if n > 0 {
      MemCmpOrder(a[1..], b[1..], n - 1);
      assert a[..n] == [a[0]] + a[1..][..n - 1];
      assert b[..n] == [b[0]] + b[1..][..n - 1];
      if a[..n] == b[..n] {
        assert a[..n][0] == b[..n][0] && a[..n][1..] == b[..n][1..];
      }
    }
  }

  lemma BytesTrichotomy(a: bytes, b: bytes)
    ensures BytesEqual(a, b) <==> a == b
    ensures !(BytesLess(a, b) && BytesLess(b, a))
    ensures BytesLess(a, b) || BytesLess(b, a) || a == b
    ensures a == b ==> !BytesLess(a, b)
  {
    var n := Min(|a|, |b|);
    MemCmpOrder(a, b, n);
    assert a[..|a|] == a && b[..|b|] == b;
    if |a| == |b| {
      MemCmpOrder(a, b, |a|);
    }
  }

  // The head decides, or the tails do.
  lemma BytesLessByHead(a: bytes, b: bytes)
    ensures BytesLess(a, b) <==>
            b != [] && (a == [] || a[0] < b[0] || (a[0] == b[0] && BytesLess(a[1..], b[1..])))
  {
  }

  lemma {:induction false} BytesTransitive(a: bytes, b: bytes, c: bytes)
    requires BytesLess(a, b) && BytesLess(b, c)
    ensures BytesLess(a, c)
  {
    BytesLessByHead(a, b);
    BytesLessByHead(b, c);
    BytesLessByHead(a, c);
    if a != [] && a[0] == b[0] == c[0] {
      BytesTransitive(a[1..], b[1..], c[1..]);
    }
  }

  lemma KeyTrichotomy(a: Key, b: Key)
    requires SameKind(a, b)
    ensures KeyEqual(a, b) <==> a == b
    ensures !(KeyLess(a, b) && KeyLess(b, a))
    ensures KeyLess(a, b) || KeyLess(b, a) || a == b
    ensures a == b ==> !KeyLess(a, b)
  {
    if a.Name? {
      BytesTrichotomy(a.s, b.s);
    }
  }

  lemma KeyTransitive(a: Key, b: Key, c: Key)
    requires SameKind(a, b) && SameKind(b, c) && KeyLess(a, b) && KeyLess(b, c)
    ensures KeyLess(a, c)
  {
    if a.Name? {
      BytesTransitive(a.s, b.s, c.s);
    }
  }

  // ---------------------------------------------------------------- maps as sorted sequences

  predicate KeysOf(entries: seq<Entry>, indices: bool) {
    forall i :: 0 <= i < |entries| ==> entries[i].key.Index? == indices
  }

  predicate Sorted(entries: seq<Entry>, indices: bool) {
    && KeysOf(entries, indices)
    && forall i, j :: 0 <= i < j < |entries| ==> KeyLess(entries[i].key, entries[j].key)
  }

  // ArrayIndex is a 32-bit unsigned integer and the size of an array is its highest index plus one.
  const MAX_ARRAY_INDEX: nat := 0xFFFF_FFFE
  const MAX_KEY_LENGTH: nat := 0x3FFF_FFFF

  predicate KeyFits(k: Key) {
    match k
    case Index(i) => i <= MAX_ARRAY_INDEX
    case Name(s) => |s| <= MAX_KEY_LENGTH
  }

  // The invariant of a stored value: each map's keys are of the container's kind and in order.
  predicate Valid(v: Value) {
    match v
    case Array(entries) => Sorted(entries, true) && forall e :: e in entries ==> KeyFits(e.key) && Valid(e.value)
    case Obj(entries) => Sorted(entries, false) && forall e :: e in entries ==> KeyFits(e.key) && Valid(e.value)
    case _ => true
  }

  predicate RealFree(v: Value) {
    match v
    case Real(_) => false
    case Array(entries) => forall e :: e in entries ==> RealFree(e.value)
    case Obj(entries) => forall e :: e in entries ==> RealFree(e.value)
    case _ => true
  }

  // How many values and entries a tree holds.
  function Weight(v: Value): (w: nat)
    ensures w > 0
  {
    match v
    case Array(entries) => 1 + TotalWeight(entries)
    case Obj(entries) => 1 + TotalWeight(entries)
    case _ => 1
  }

  function TotalWeight(entries: seq<Entry>): (w: nat)
    ensures entries != [] ==> w == EntryWeight(entries[0]) + TotalWeight(entries[1..])
  {
    if entries == [] then 0 else EntryWeight(entries[0]) + TotalWeight(entries[1..])
  }

  function EntryWeight(e: Entry): (w: nat)
    ensures w > Weight(e.value)
  {
    1 + Weight(e.value)
  }

  // Where std::map::lower_bound stops.
  function LowerBound(entries: seq<Entry>, key: Key): (n: nat)
    requires KeysOf(entries, key.Index?)
    ensures n <= |entries|
    ensures forall i :: 0 <= i < n ==> KeyLess(entries[i].key, key)
    ensures n < |entries| ==> !KeyLess(entries[n].key, key)
  {
    if entries == [] || !KeyLess(entries[0].key, key) then 0
    else 1 + LowerBound(entries[1..], key)
  }

  lemma {:induction false} LowerBoundOfPresent(entries: seq<Entry>, j: nat)
    requires j < |entries| && Sorted(entries, entries[j].key.Index?)
    ensures LowerBound(entries, entries[j].key) == j
  {
    KeyTrichotomy(entries[j].key, entries[j].key);
    if j > 0 {
      assert KeyLess(entries[0].key, entries[j].key);
      LowerBoundOfPresent(entries[1..], j - 1);
    }
  }

  predicate Has(entries: seq<Entry>, key: Key)
    requires KeysOf(entries, key.Index?)
  {
    var n := LowerBound(entries, key);
    n < |entries| && entries[n].key == key
  }

  function Get(entries: seq<Entry>, key: Key): Value
    requires KeysOf(entries, key.Index?)
  {
    if Has(entries, key) then entries[LowerBound(entries, key)].value else Null
  }

  // map[key] = value
  function Put(entries: seq<Entry>, key: Key, value: Value): (r: seq<Entry>)
    requires KeysOf(entries, key.Index?)
    ensures KeysOf(r, key.Index?)
  {
    var n := LowerBound(entries, key);
    if n < |entries| && entries[n].key == key then entries[n := Entry(key, value)]
    else entries[..n] + [Entry(key, value)] + entries[n..]
  }

  // A key above every other is appended.
  lemma PutAtEnd(entries: seq<Entry>, key: Key, value: Value)
    requires KeysOf(entries, key.Index?)
    requires forall i :: 0 <= i < |entries| ==> KeyLess(entries[i].key, key)
    ensures Put(entries, key, value) == entries + [Entry(key, value)]
    ensures !Has(entries, key)
  {
    assert LowerBound(entries, key) == |entries|;
  }

  lemma PutKeepsSorted(entries: seq<Entry>, key: Key, value: Value)
    requires Sorted(entries, key.Index?)
    ensures Sorted(Put(entries, key, value), key.Index?)
  {
    var n := LowerBound(entries, key);
    var r := Put(entries, key, value);
    if !(n < |entries| && entries[n].key == key) {
      forall i, j | 0 <= i < j < |r| ensures KeyLess(r[i].key, r[j].key) {
        if i == n {
          KeyTrichotomy(key, entries[n].key);
          if n < j - 1 {
            KeyTransitive(key, entries[n].key, entries[j - 1].key);
          }
        }
      }
    }
  }

  lemma {:induction false} HasIffPresent(entries: seq<Entry>, key: Key)
    requires Sorted(entries, key.Index?)
    ensures Has(entries, key) <==> exists j :: 0 <= j < |entries| && entries[j].key == key
  {
    if j :| 0 <= j < |entries| && entries[j].key == key {
      LowerBoundOfPresent(entries, j);
    }
  }

  lemma GetPresent(entries: seq<Entry>, j: nat)
    requires j < |entries| && Sorted(entries, entries[j].key.Index?)
    ensures Has(entries, entries[j].key) && Get(entries, entries[j].key) == entries[j].value
  {
    LowerBoundOfPresent(entries, j);
  }

  // The map laws of Put.
  lemma PutThenGet(entries: seq<Entry>, key: Key, value: Value, other: Key)
    requires Sorted(entries, key.Index?) && SameKind(key, other)
    ensures Sorted(Put(entries, key, value), key.Index?)
    ensures Has(Put(entries, key, value), other) <==> other == key || Has(entries, other)
    ensures Get(Put(entries, key, value), other) == if other == key then value else Get(entries, other)
  {
    hide LowerBound, KeyLess;
    var n, r := LowerBound(entries, key), Put(entries, key, value);
    PutKeepsSorted(entries, key, value);
    assert r[n] == Entry(key, value);
    if other == key {
      GetPresent(r, n);
    } else if Has(entries, other) {
      var j := LowerBound(entries, other);
      var k := if |r| == |entries| || j < n then j else j + 1;
      assert r[k] == entries[j];
      GetPresent(r, k);
    } else {
      HasIffPresent(entries, other);
      HasIffPresent(r, other);
      forall k | 0 <= k < |r| ensures r[k].key != other {
        assert k == n || r[k] == entries[if |r| == |entries| || k < n then k else k - 1];
      }
    }
  }

  // Value::size: an array's is its highest index plus one.
  function Size(v: Value): nat {
    match v
    case Array(entries) =>
      if entries == [] then 0
      else if entries[|entries| - 1].key.Index? then entries[|entries| - 1].key.i + 1
      else 0
    case Obj(entries) => |entries|
    case _ => 0
  }

  // The read-only value[index]: a hole reads as null.
  function Slot(v: Value, index: nat): Value
    requires v.Array? && KeysOf(v.entries, true)
  {
    Get(v.entries, Index(index))
  }

  // ---------------------------------------------------------------- order

  function TypeRank(v: Value): nat {
    match v
    case Null => 0
    case Int(_) => 1
    case UInt(_) => 2
    case Real(_) => 3
    case Str(_) => 4
    case Bool(_) => 5
    case Array(_) => 6
    case Obj(_) => 7
  }

  // The values the order speaks about: valid and without floating-point parts.
  predicate Ordered(v: Value) { Valid(v) && RealFree(v) }

  predicate AllOrdered(entries: seq<Entry>, indices: bool) {
    KeysOf(entries, indices) && forall e :: e in entries ==> Ordered(e.value)
  }

  predicate Less(a: Value, b: Value)
    requires Ordered(a) && Ordered(b)
    decreases Weight(a) + Weight(b), 1
  {
    if TypeRank(a) != TypeRank(b) then TypeRank(a) < TypeRank(b) else
    match a
    case Null => false
    case Int(i) => i < b.i
    case UInt(u) => u < b.u
    case Real(_) => false
    case Str(s) => BytesLess(s, b.s)
    case Bool(p) => !p && b.b
    case Array(entries) =>
      if |entries| != |b.entries| then |entries| < |b.entries| else MapLess(entries, b.entries, true)
    case Obj(entries) =>
      if |entries| != |b.entries| then |entries| < |b.entries| else MapLess(entries, b.entries, false)
  }

  // operator< of std::pair.
  predicate PairLess(p: Entry, q: Entry)
    requires SameKind(p.key, q.key) && Ordered(p.value) && Ordered(q.value)
    decreases EntryWeight(p) + EntryWeight(q), 1
  {
    KeyLess(p.key, q.key) || (!KeyLess(q.key, p.key) && Less(p.value, q.value))
  }

  // std::lexicographical_compare over the entries.
  predicate MapLess(x: seq<Entry>, y: seq<Entry>, indices: bool)
    requires AllOrdered(x, indices) && AllOrdered(y, indices)
    decreases TotalWeight(x) + TotalWeight(y), 2
  {
    if y == [] then false
    else if x == [] then true
    else if PairLess(x[0], y[0]) then true
    else if PairLess(y[0], x[0]) then false
    else MapLess(x[1..], y[1..], indices)
  }

  predicate Equal(a: Value, b: Value)
    requires Ordered(a) && Ordered(b)
    decreases Weight(a), 1
  {
    if TypeRank(a) != TypeRank(b) then false else
    match a
    case Null => true
    case Int(i) => i == b.i
    case UInt(u) => u == b.u
    case Real(_) => false
    case Str(s) => BytesEqual(s, b.s)
    case Bool(p) => p == b.b
    case Array(entries) => |entries| == |b.entries| && MapEqual(entries, b.entries, true)
    case Obj(entries) => |entries| == |b.entries| && MapEqual(entries, b.entries, false)
  }

  predicate MapEqual(x: seq<Entry>, y: seq<Entry>, indices: bool)
    requires AllOrdered(x, indices) && AllOrdered(y, indices) && |x| == |y|
    decreases TotalWeight(x), 2
  {
    x == [] || (KeyEqual(x[0].key, y[0].key) && Equal(x[0].value, y[0].value)
                && MapEqual(x[1..], y[1..], indices))
  }

  // Value::compare.
  function Compare(a: Value, b: Value): int
    requires Ordered(a) && Ordered(b)
  {
    if Less(a, b) then -1 else if Less(b, a) then 1 else 0
  }

  // operator== is identity of trees.
  lemma {:induction false} EqualIsIdentity(a: Value, b: Value)
    requires Ordered(a) && Ordered(b)
    ensures Equal(a, b) <==> a == b
    decreases Weight(a), 1
  {
    if TypeRank(a) == TypeRank(b) {
      match a
      case Str(s) => BytesTrichotomy(s, b.s);
      case Array(entries) => if |entries| == |b.entries| { MapEqualIsIdentity(entries, b.entries, true); }
      case Obj(entries) => if |entries| == |b.entries| { MapEqualIsIdentity(entries, b.entries, false); }
      case _ =>
    }
  }

  lemma {:induction false} MapEqualIsIdentity(x: seq<Entry>, y: seq<Entry>, indices: bool)
    requires AllOrdered(x, indices) && AllOrdered(y, indices) && |x| == |y|
    ensures MapEqual(x, y, indices) <==> x == y
    decreases TotalWeight(x), 2
  {
    if x != [] {
      KeyTrichotomy(x[0].key, y[0].key);
      EqualIsIdentity(x[0].value, y[0].value);
      MapEqualIsIdentity(x[1..], y[1..], indices);
      assert x == [x[0]] + x[1..] && y == [y[0]] + y[1..];
    }
  }

  // Exactly one of a < b, a == b, b < a.
  lemma {:induction false} Trichotomy(a: Value, b: Value)
    requires Ordered(a) && Ordered(b)
    ensures !(Less(a, b) && Less(b, a))
    ensures a == b ==> !Less(a, b)
    ensures Less(a, b) || Less(b, a) || a == b
    decreases Weight(a), 1
  {
    if TypeRank(a) == TypeRank(b) {
      match a
      case Str(s) => BytesTrichotomy(s, b.s);
      case Array(entries) => if |entries| == |b.entries| { MapTrichotomy(entries, b.entries, true); }
      case Obj(entries) => if |entries| == |b.entries| { MapTrichotomy(entries, b.entries, false); }
      case _ =>
    }
  }

  lemma {:induction false} PairTrichotomy(p: Entry, q: Entry)
    requires SameKind(p.key, q.key) && Ordered(p.value) && Ordered(q.value)
    ensures !(PairLess(p, q) && PairLess(q, p))
    ensures p == q ==> !PairLess(p, q)
    ensures PairLess(p, q) || PairLess(q, p) || p == q
    decreases EntryWeight(p), 1
  {
    KeyTrichotomy(p.key, q.key);
    Trichotomy(p.value, q.value);
  }

  lemma {:induction false} MapTrichotomy(x: seq<Entry>, y: seq<Entry>, indices: bool)
    requires AllOrdered(x, indices) && AllOrdered(y, indices)
    ensures !(MapLess(x, y, indices) && MapLess(y, x, indices))
    ensures x == y ==> !MapLess(x, y, indices)
    ensures MapLess(x, y, indices) || MapLess(y, x, indices) || x == y
    decreases TotalWeight(x), 2
  {
    if x != [] && y != [] {
      hide PairLess;
      PairTrichotomy(x[0], y[0]);
      MapTrichotomy(x[1..], y[1..], indices);
      assert x == [x[0]] + x[1..] && y == [y[0]] + y[1..];
    }
  }

  lemma {:induction false} Transitive(a: Value, b: Value, c: Value)
    requires Ordered(a) && Ordered(b) && Ordered(c)
    requires Less(a, b) && Less(b, c)
    ensures Less(a, c)
    decreases Weight(a), 1
  {
    if TypeRank(a) == TypeRank(b) == TypeRank(c) {
      match a
      case Str(s) => BytesTransitive(s, b.s, c.s);
      case Array(entries) =>
        if |entries| == |b.entries| == |c.entries| { MapTransitive(entries, b.entries, c.entries, true); }
      case Obj(entries) =>
        if |entries| == |b.entries| == |c.entries| { MapTransitive(entries, b.entries, c.entries, false); }
      case _ =>
    }
  }

  lemma {:induction false} PairTransitive(p: Entry, q: Entry, r: Entry)
    requires SameKind(p.key, q.key) && SameKind(q.key, r.key)
    requires Ordered(p.value) && Ordered(q.value) && Ordered(r.value)
    requires PairLess(p, q) && PairLess(q, r)
    ensures PairLess(p, r)
    decreases EntryWeight(p), 1
  {
    KeyTrichotomy(p.key, q.key);
    KeyTrichotomy(q.key, r.key);
    KeyTrichotomy(p.key, r.key);
    if KeyLess(p.key, q.key) && KeyLess(q.key, r.key) {
      KeyTransitive(p.key, q.key, r.key);
    } else if p.key == q.key == r.key {
      Transitive(p.value, q.value, r.value);
    }
  }

  lemma {:induction false} MapTransitive(x: seq<Entry>, y: seq<Entry>, z: seq<Entry>, indices: bool)
    requires AllOrdered(x, indices) && AllOrdered(y, indices) && AllOrdered(z, indices)
    requires MapLess(x, y, indices) && MapLess(y, z, indices)
    ensures MapLess(x, z, indices)
    decreases TotalWeight(x), 2
  {
    if x != [] {
      PairTrichotomy(x[0], y[0]);
      PairTrichotomy(y[0], z[0]);
      PairTrichotomy(x[0], z[0]);
      if PairLess(x[0], y[0]) && PairLess(y[0], z[0]) {
        PairTransitive(x[0], y[0], z[0]);
      } else if x[0] == y[0] == z[0] {
        MapTransitive(x[1..], y[1..], z[1..], indices);
      }
    }
  }

  // operator< is a strict total order on real-free values, operator== is its equality, and
  // compare reports it.
  lemma StrictTotalOrder(a: Value, b: Value, c: Value)
    requires Ordered(a) && Ordered(b) && Ordered(c)
    ensures !Less(a, a)
    ensures Less(a, b) && Less(b, c) ==> Less(a, c)
    ensures Equal(a, b) <==> !Less(a, b) && !Less(b, a)
    ensures Equal(a, b) <==> a == b
    ensures Compare(a, b) < 0 <==> Less(a, b)
    ensures Compare(a, b) == 0 <==> Equal(a, b)
    ensures Compare(a, b) == 0 - Compare(b, a)
  {
    Trichotomy(a, a);
    Trichotomy(a, b);
    EqualIsIdentity(a, b);
    if Less(a, b) && Less(b, c) {
      Transitive(a, b, c);
    }
  }
}
