// Which order operator< is: kinds as ValueType lists them, numbers by size, strings by their first
// differing byte, containers by size and then by their first differing entry.
module ValueOrder {
  import opened Bytes
  import opened Values

  // Where the two first differ, the first one ends or has the smaller byte.
  ghost predicate TextBelow(x: bytes, y: bytes) { exists n :: TextBelowAt(x, y, n) }

  predicate TextBelowAt(x: bytes, y: bytes, n: nat) {
    n <= |x| && n < |y| && x[..n] == y[..n] && (n == |x| || x[n] < y[n])
  }

  ghost predicate KeyBelow(a: Key, b: Key) {
    match a
    case Index(i) => b.Index? && i < b.i
    case Name(s) => b.Name? && TextBelow(s, b.s)
  }

  // What operator< is to be, in terms of itself on the values inside containers.
  ghost predicate Below(a: Value, b: Value)
    requires Ordered(a) && Ordered(b)
  {
    match a
    case Null => !b.Null?
    case Int(i) => (b.Int? && i < b.i) || b.UInt? || b.Str? || b.Bool? || b.Array? || b.Obj?
    case UInt(u) => (b.UInt? && u < b.u) || b.Str? || b.Bool? || b.Array? || b.Obj?
    case Str(s) => (b.Str? && TextBelow(s, b.s)) || b.Bool? || b.Array? || b.Obj?
    case Bool(p) => (b.Bool? && !p && b.b) || b.Array? || b.Obj?
    case Array(_) => (b.Array? && MapBelow(a, b)) || b.Obj?
    case Obj(_) => b.Obj? && MapBelow(a, b)
  }

  // The smaller map; or, where two of the same size first differ, the one with the lower key, or under
  // the same key the lower value.
  ghost predicate MapBelow(a: Value, b: Value)
    requires Ordered(a) && Ordered(b) && IsContainer(a) && IsContainer(b)
  {
    |a.entries| < |b.entries| || (|a.entries| == |b.entries| && exists n :: MapBelowAt(a, b, n))
  }

  ghost predicate MapBelowAt(a: Value, b: Value, n: nat)
    requires Ordered(a) && Ordered(b) && IsContainer(a) && IsContainer(b) && |a.entries| == |b.entries|
  {
    && n < |a.entries| && a.entries[..n] == b.entries[..n] && a.entries[n] in a.entries && b.entries[n] in b.entries
    && (KeyBelow(a.entries[n].key, b.entries[n].key)
        || (a.entries[n].key == b.entries[n].key && Less(a.entries[n].value, b.entries[n].value)))
  }

  // ---------------------------------------------------------------- the order is this one

  lemma {:induction false} TextOrder(x: bytes, y: bytes)
    ensures BytesLess(x, y) <==> TextBelow(x, y)
  {
    BytesLessByHead(x, y);
    if x == [] || y == [] || x[0] != y[0] {
      assert y != [] && (x == [] || x[0] < y[0]) ==> TextBelowAt(x, y, 0);
      HeadsDiffer(x, y);
    } else {
      TextOrder(x[1..], y[1..]);
      TextBelowTail(x, y);
    }
  }

  lemma HeadsDiffer(x: bytes, y: bytes)
    requires x == [] || y == [] || x[0] != y[0]
    ensures TextBelow(x, y) ==> y != [] && (x == [] || x[0] < y[0])
  {
    if n: nat :| TextBelowAt(x, y, n) {
      if n > 0 {
        assert x[..n][0] == x[0] && y[..n][0] == y[0];
      }
    }
  }

  lemma TextBelowTail(x: bytes, y: bytes)
    requires x != [] && y != [] && x[0] == y[0]
    ensures TextBelow(x, y) <==> TextBelow(x[1..], y[1..])
  {
    if n: nat :| TextBelowAt(x, y, n) {
      if n > 0 {
        assert x[1..][..n - 1] == x[..n][1..] && y[1..][..n - 1] == y[..n][1..];
        assert TextBelowAt(x[1..], y[1..], n - 1);
      }
    }
    if n: nat :| TextBelowAt(x[1..], y[1..], n) {
      assert x[..n + 1] == [x[0]] + x[1..][..n] && y[..n + 1] == [y[0]] + y[1..][..n];
      assert TextBelowAt(x, y, n + 1);
    }
  }

  lemma KeyOrder(a: Key, b: Key)
    requires SameKind(a, b)
    ensures KeyLess(a, b) <==> KeyBelow(a, b)
  {
    if a.Name? {
      TextOrder(a.s, b.s);
    }
  }

  // operator< on trees without floating-point parts is the order described above.
  lemma LessIsBelow(a: Value, b: Value)
    requires Ordered(a) && Ordered(b)
    ensures Less(a, b) <==> Below(a, b)
  {
    match a
    case Str(s) => if b.Str? { TextOrder(s, b.s); }
    case Array(_) => if b.Array? { MapOrder(a, b, true); }
    case Obj(_) => if b.Obj? { MapOrder(a, b, false); }
    case _ =>
  }

  lemma MapOrder(a: Value, b: Value, indices: bool)
    requires Ordered(a) && Ordered(b) && if indices then a.Array? && b.Array? else a.Obj? && b.Obj?
    ensures AllOrdered(a.entries, indices) && AllOrdered(b.entries, indices)
    ensures |a.entries| == |b.entries| ==> (MapLess(a.entries, b.entries, indices) <==> exists n :: MapBelowAt(a, b, n))
  {
    if |a.entries| == |b.entries| {
      FirstDifference(a.entries, b.entries, indices);
      forall n: nat ensures MapBelowAt(a, b, n) <==> PairLessAt(a.entries, b.entries, n, indices) {
        PairOrder(a, b, n, indices);
      }
    }
  }

  lemma PairOrder(a: Value, b: Value, n: nat, indices: bool)
    requires Ordered(a) && Ordered(b) && IsContainer(a) && IsContainer(b) && |a.entries| == |b.entries|
    requires AllOrdered(a.entries, indices) && AllOrdered(b.entries, indices)
    ensures MapBelowAt(a, b, n) <==> PairLessAt(a.entries, b.entries, n, indices)
  {
    hide Less, KeyBelow;
    if n < |a.entries| {
      assert a.entries[n] in a.entries && b.entries[n] in b.entries;
      KeyOrder(a.entries[n].key, b.entries[n].key);
      KeyTrichotomy(a.entries[n].key, b.entries[n].key);
    }
  }

  predicate PairLessAt(x: seq<Entry>, y: seq<Entry>, n: nat, indices: bool)
    requires AllOrdered(x, indices) && AllOrdered(y, indices) && |x| == |y|
  {
    n < |x| && x[..n] == y[..n] && PairLess(x[n], y[n])
  }

  lemma {:induction false} FirstDifference(x: seq<Entry>, y: seq<Entry>, indices: bool)
    requires AllOrdered(x, indices) && AllOrdered(y, indices) && |x| == |y|
    ensures MapLess(x, y, indices) <==> exists n :: PairLessAt(x, y, n, indices)
  {
    hide PairLess;
    if x != [] {
      PairTrichotomy(x[0], y[0]);
      FirstDifference(x[1..], y[1..], indices);
      if PairLess(x[0], y[0]) {
        assert PairLessAt(x, y, 0, indices);
      } else if PairLess(y[0], x[0]) {
        HeadEntriesDiffer(x, y, indices);
      } else {
        PairLessTail(x, y, indices);
      }
    }
  }

  lemma HeadEntriesDiffer(x: seq<Entry>, y: seq<Entry>, indices: bool)
    requires AllOrdered(x, indices) && AllOrdered(y, indices) && |x| == |y| > 0 && x[0] != y[0] && !PairLess(x[0], y[0])
    ensures forall n :: !PairLessAt(x, y, n, indices)
  {
    hide PairLess;
    forall n: nat ensures !PairLessAt(x, y, n, indices) {
      if 0 < n < |x| {
        assert x[..n][0] == x[0] && y[..n][0] == y[0];
      }
    }
  }

  lemma PairLessTail(x: seq<Entry>, y: seq<Entry>, indices: bool)
    requires AllOrdered(x, indices) && AllOrdered(y, indices) && |x| == |y| > 0 && x[0] == y[0] && !PairLess(x[0], y[0])
    ensures (exists n :: PairLessAt(x, y, n, indices)) <==> exists n :: PairLessAt(x[1..], y[1..], n, indices)
  {
    hide PairLess;
    if n: nat :| PairLessAt(x, y, n, indices) {
      if n > 0 {
        assert x[1..][..n - 1] == x[..n][1..] && y[1..][..n - 1] == y[..n][1..];
        assert PairLessAt(x[1..], y[1..], n - 1, indices);
      }
    }
    if n: nat :| PairLessAt(x[1..], y[1..], n, indices) {
      assert x[..n + 1] == [x[0]] + x[1..][..n] && y[..n + 1] == [y[0]] + y[1..][..n];
      assert PairLessAt(x, y, n + 1, indices);
    }
  }
}
