// evpp::Buffer: an array with a read and a write index and some room in front, whose unread octets
// behave as a queue. Sizes are unbounded.
module Buffer {
  import opened NetworkOrder

  const CHEAP_PREPEND_SIZE: nat := 8
  const INITIAL_SIZE: nat := 1024
  const EXTRA_BUFFER_SIZE: nat := 65536

  // What readv yields: an error, or the octets it took from the descriptor.
  datatype Received = Failed | Got(octets: seq<octet>)

  method MemCpy(a: array<octet>, at: nat, d: seq<octet>)
    requires at + |d| <= a.Length
    modifies a
    ensures a[at..at + |d|] == d
    ensures forall i :: 0 <= i < a.Length && !(at <= i < at + |d|) ==> a[i] == old(a[i])
  {
    forall i | 0 <= i < |d| {
      a[at + i] := d[i];
    }
  }

  class Buffer {
    var buffer: array<octet>
    var capacity: nat
    var readIndex: nat
    var writeIndex: nat
    var reservedPrependSize: nat

    ghost predicate Valid()
      reads this
    {
      && readIndex <= writeIndex <= capacity == buffer.Length
      && reservedPrependSize <= capacity
    }

    // The unread octets.
    ghost function Contents(): seq<octet>
      reads this, buffer
      requires Valid()
    {
      buffer[readIndex..writeIndex]
    }

    constructor (initialSize: nat, reservedPrependSize: nat)
      ensures Valid() && fresh(buffer) && Contents() == []
      ensures this.reservedPrependSize == reservedPrependSize
      ensures capacity - writeIndex == initialSize && readIndex == reservedPrependSize
    {
      capacity := reservedPrependSize + initialSize;
      readIndex := reservedPrependSize;
      writeIndex := reservedPrependSize;
      this.reservedPrependSize := reservedPrependSize;
      buffer := new octet[reservedPrependSize + initialSize];
      new;
      assert Length() == 0;
      assert WritableBytes() == initialSize;
      assert PrependableBytes() == reservedPrependSize;
    }

    function Length(): (n: nat)
      reads this, buffer
      requires Valid()
      ensures n == |Contents()|
    {
      writeIndex - readIndex
    }

    function WritableBytes(): nat
      reads this
      requires Valid()
    {
      capacity - writeIndex
    }

    function PrependableBytes(): nat
      reads this
      requires Valid()
    {
      readIndex
    }

    // ------------------------------------------------------------ taking octets out

    // These octets still stand right in front of the unread ones.
    ghost predicate JustRead(taken: seq<octet>)
      reads this, buffer
      requires Valid()
    {
      |taken| <= readIndex && buffer[readIndex - |taken|..readIndex] == taken
    }

    method Skip(len: nat)
      requires Valid()
      modifies `readIndex, `writeIndex
      ensures Valid()
      ensures Contents() == if len < |old(Contents())| then old(Contents())[len..] else []
      ensures if len < |old(Contents())| then readIndex == old(readIndex) + len && JustRead(old(Contents())[..len])
              else readIndex == reservedPrependSize
    {
      if len < Length() {
        assert buffer[readIndex..readIndex + len] == Contents()[..len];
        readIndex := readIndex + len;
      } else {
        Reset();
      }
    }

    method Truncate(n: nat)
      requires Valid()
      modifies `readIndex, `writeIndex
      ensures Valid()
      ensures Contents() == if n < |old(Contents())| then old(Contents())[..n] else old(Contents())
      ensures readIndex == if n == 0 then reservedPrependSize else old(readIndex)
    {
      if n == 0 {
        readIndex := reservedPrependSize;
        writeIndex := reservedPrependSize;
      } else if writeIndex > readIndex + n {
        writeIndex := readIndex + n;
      }
    }

    method Reset()
      requires Valid()
      modifies `readIndex, `writeIndex
      ensures Valid() && Contents() == [] && readIndex == reservedPrependSize
    {
      Truncate(0);
    }

    method Next(len: nat) returns (result: seq<octet>)
      requires Valid()
      modifies `readIndex, `writeIndex
      ensures Valid()
      ensures result + Contents() == old(Contents())
      ensures |result| == if len < |old(Contents())| then len else |old(Contents())|
      ensures if len < |old(Contents())| then readIndex == old(readIndex) + len && JustRead(result)
              else readIndex == reservedPrependSize
    {
      if len < Length() {
        result := buffer[readIndex..readIndex + len];
        readIndex := readIndex + len;
      } else {
        result := NextAll();
      }
    }

    method NextAll() returns (result: seq<octet>)
      requires Valid()
      modifies `readIndex, `writeIndex
      ensures Valid() && Contents() == [] && result == old(Contents()) && readIndex == reservedPrependSize
    {
      result := buffer[readIndex..writeIndex];
      Reset();
    }

    method ReadByte() returns (x: octet)
      requires Valid() && Contents() != []
      modifies `readIndex
      ensures Valid() && [x] + Contents() == old(Contents())
      ensures JustRead([x]) && readIndex == old(readIndex) + 1
    {
      x := buffer[readIndex];
      readIndex := readIndex + 1;
    }

    // Puts back the last `n` of the octets `taken`, if and only if they still stand in front: a read
    // that leaves nothing resets the indexes.
    method UnreadBytes(n: nat, ghost taken: seq<octet>)
      requires Valid() && n < readIndex && n <= |taken|
      modifies `readIndex
      ensures Valid() && Contents() == old(buffer[readIndex - n..readIndex]) + old(Contents())
      ensures Contents() == taken[|taken| - n..] + old(Contents()) <==> old(JustRead(taken[|taken| - n..]))
      ensures old(JustRead(taken)) ==> Contents() == taken[|taken| - n..] + old(Contents())
    {
      var last := taken[|taken| - n..];
      readIndex := readIndex - n;
      assert Contents() == old(buffer[readIndex - n..readIndex]) + old(Contents());
      assert old(JustRead(last)) == (Contents()[..n] == last);
    }

    // ------------------------------------------------------------ room

    // Doubles the capacity, or moves the unread octets to the front. The code's own assertions are
    // those below.
    method Grow(len: nat)
      requires Valid()
      requires WritableBytes() + PrependableBytes() >= len + reservedPrependSize ==> reservedPrependSize < readIndex
      modifies this, buffer
      ensures Valid() && Contents() == old(Contents())
      ensures buffer == old(buffer) || fresh(buffer)
      ensures WritableBytes() >= len && PrependableBytes() == reservedPrependSize == old(reservedPrependSize)
      ensures capacity == if old(WritableBytes() + PrependableBytes()) < len + reservedPrependSize
                          then 2 * old(capacity) + len else old(capacity)
    {
      if WritableBytes() + PrependableBytes() < len + reservedPrependSize {
        Enlarge(len);
      } else {
        assert reservedPrependSize < readIndex;
        MoveToFront();
        assert WritableBytes() >= len;
      }
    }

    method Enlarge(len: nat)
      requires Valid()
      modifies this
      ensures Valid() && Contents() == old(Contents()) && fresh(buffer)
      ensures capacity == 2 * old(capacity) + len && readIndex == reservedPrependSize == old(reservedPrependSize)
    {
      var n := 2 * capacity + len;
      var m := Length();
      var d := new octet[n];
      MemCpy(d, reservedPrependSize, buffer[readIndex..writeIndex]);
      writeIndex := m + reservedPrependSize;
      readIndex := reservedPrependSize;
      capacity := n;
      buffer := d;
    }

    // memmove: the ranges may overlap.
    method MoveToFront()
      requires Valid() && reservedPrependSize < readIndex
      modifies `readIndex, `writeIndex, buffer
      ensures Valid() && Contents() == old(Contents()) && readIndex == reservedPrependSize
    {
      var readable := Length();
      forall i | 0 <= i < readable {
        buffer[reservedPrependSize + i] := buffer[readIndex + i];
      }
      readIndex := reservedPrependSize;
      writeIndex := readIndex + readable;
      assert readable == Length();
    }

    method Reserve(len: nat)
      requires Valid()
      modifies this, buffer
      ensures Valid() && Contents() == old(Contents()) && reservedPrependSize == old(reservedPrependSize)
      ensures buffer == old(buffer) || fresh(buffer)
      ensures capacity >= len + reservedPrependSize
    {
      if capacity >= len + reservedPrependSize {
        return;
      }
      Grow(len + reservedPrependSize);
    }

    method EnsureWritableBytes(len: nat)
      requires Valid()
      modifies this, buffer
      ensures Valid() && Contents() == old(Contents()) && reservedPrependSize == old(reservedPrependSize)
      ensures buffer == old(buffer) || fresh(buffer)
      ensures WritableBytes() >= len
      ensures old(WritableBytes()) >= len ==>
                buffer == old(buffer) && readIndex == old(readIndex) && writeIndex == old(writeIndex) && capacity == old(capacity)
    {
      if WritableBytes() < len {
        Grow(len);
      }
      assert WritableBytes() >= len;
    }

    // ------------------------------------------------------------ putting octets in

    method Write(d: seq<octet>)
      requires Valid()
      modifies this, buffer
      ensures Valid() && Contents() == old(Contents()) + d && reservedPrependSize == old(reservedPrependSize)
      ensures buffer == old(buffer) || fresh(buffer)
      ensures old(WritableBytes()) >= |d| ==>
                readIndex == old(readIndex) && writeIndex == old(writeIndex) + |d| && capacity == old(capacity)
    {
      EnsureWritableBytes(|d|);
      assert writeIndex + |d| <= capacity;
      Fill(d);
    }

    method Prepend(d: seq<octet>)
      requires Valid() && |d| <= PrependableBytes()
      modifies `readIndex, buffer
      ensures Valid() && Contents() == d + old(Contents()) && readIndex == old(readIndex) - |d|
    {
      readIndex := readIndex - |d|;
      MemCpy(buffer, readIndex, d);
    }

    method UnwriteBytes(n: nat)
      requires Valid() && n <= |Contents()|
      modifies `writeIndex
      ensures Valid() && Contents() == old(Contents())[..|old(Contents())| - n] && writeIndex == old(writeIndex) - n
    {
      writeIndex := writeIndex - n;
    }

    // A NUL right behind the unread octets, which stay as they are.
    method ToText()
      requires Valid()
      modifies this, buffer
      ensures Valid() && Contents() == old(Contents()) && reservedPrependSize == old(reservedPrependSize)
      ensures buffer == old(buffer) || fresh(buffer)
      ensures writeIndex < capacity && buffer[writeIndex] == 0
    {
      Write([0]);
      assert Contents()[|Contents()| - 1] == 0;
      UnwriteBytes(1);
    }

    method Swap(rhs: Buffer)
      requires Valid() && rhs.Valid() && rhs != this
      modifies this, rhs
      ensures buffer == old(rhs.buffer) && capacity == old(rhs.capacity) && readIndex == old(rhs.readIndex)
      ensures writeIndex == old(rhs.writeIndex) && reservedPrependSize == old(rhs.reservedPrependSize)
      ensures rhs.buffer == old(buffer) && rhs.capacity == old(capacity) && rhs.readIndex == old(readIndex)
      ensures rhs.writeIndex == old(writeIndex) && rhs.reservedPrependSize == old(reservedPrependSize)
    {
      buffer, rhs.buffer := rhs.buffer, buffer;
      capacity, rhs.capacity := rhs.capacity, capacity;
      readIndex, rhs.readIndex := rhs.readIndex, readIndex;
      writeIndex, rhs.writeIndex := rhs.writeIndex, writeIndex;
      reservedPrependSize, rhs.reservedPrependSize := rhs.reservedPrependSize, reservedPrependSize;
    }

    // Shrinking keeps the octets and `reserve` more of room, and sets the reserved front part back
    // to its default size.
    method Shrink(reserve: nat)
      requires Valid()
      modifies this
      ensures Valid() && Contents() == old(Contents()) && fresh(buffer)
      ensures WritableBytes() == reserve && PrependableBytes() == reservedPrependSize == CHEAP_PREPEND_SIZE
    {
      var other := new Buffer(Length() + reserve, CHEAP_PREPEND_SIZE);
      other.Write(buffer[readIndex..writeIndex]);
      Swap(other);
    }

    // readv fills the room behind the unread octets first; what does not fit comes through the
    // extra buffer, which is offered when that room is the smaller of the two.
    method ReadFromFD(r: Received) returns (n: int)
      requires Valid()
      requires r.Got? ==> |r.octets| <= WritableBytes() + (if WritableBytes() < EXTRA_BUFFER_SIZE then EXTRA_BUFFER_SIZE else 0)
      modifies this, buffer
      ensures Valid() && reservedPrependSize == old(reservedPrependSize)
      ensures buffer == old(buffer) || fresh(buffer)
      ensures n == if r.Failed? then -1 else |r.octets|
      ensures Contents() == old(Contents()) + if r.Failed? then [] else r.octets
    {
      var writable := WritableBytes();
      if r.Failed? {
        return -1;
      }
      n := |r.octets|;
      if n <= writable {
        Fill(r.octets);
      } else {
        Fill(r.octets[..writable]);
        Write(r.octets[writable..]);
        Rejoin(old(Contents()), r.octets, writable);
      }
    }

    // Octets put by somebody else into the room behind the unread ones.
    method Fill(d: seq<octet>)
      requires Valid() && |d| <= WritableBytes()
      modifies `writeIndex, buffer
      ensures Valid() && Contents() == old(Contents()) + d && writeIndex == old(writeIndex) + |d|
    {
      MemCpy(buffer, writeIndex, d);
      writeIndex := writeIndex + |d|;
      assert buffer[readIndex..writeIndex - |d|] == old(Contents());
    }

    // ------------------------------------------------------------ integers

    // AppendInt8, AppendInt16, AppendInt32 and AppendInt64.
    method AppendInt(i: Integer)
      requires Valid()
      modifies this, buffer
      ensures Valid() && Contents() == old(Contents()) + Wire(i) && reservedPrependSize == old(reservedPrependSize)
      ensures buffer == old(buffer) || fresh(buffer)
    {
      var be := Wire(i);
      Write(be);
    }

    method PrependInt(i: Integer)
      requires Valid() && Size(WidthOf(i)) <= PrependableBytes()
      modifies `readIndex, buffer
      ensures Valid() && Contents() == Wire(i) + old(Contents())
    {
      Prepend(Wire(i));
    }

    method ReadInt(w: Width) returns (i: Integer)
      requires Valid() && |Contents()| >= Size(w)
      modifies `readIndex, `writeIndex
      ensures Valid() && i == Peek(w, old(Contents())) && Contents() == old(Contents())[Size(w)..]
      ensures ReadAll([w], old(Contents())) == Integers([i], Contents())
      ensures Size(w) < |old(Contents())| ==> JustRead(old(Contents())[..Size(w)])
    {
      i := Peek(w, buffer[readIndex..writeIndex]);
      Skip(Size(w));
    }
  }

  // `len` octets are read and the last `n` of them put back again. They are in front of the contents
  // afterwards if and only if something was left when they were read, or, since the indexes were
  // reset otherwise, the same octets happened to stand at the end of the reserved part.
  method ReadAndUnread(b: Buffer, len: nat, n: nat) returns (result: seq<octet>)
    requires b.Valid() && n <= len && n <= |b.Contents()|
    requires n < if len < |b.Contents()| then b.readIndex + len else b.reservedPrependSize
    modifies b`readIndex, b`writeIndex
    ensures b.Valid() && result == old(b.Contents())[..if len < |old(b.Contents())| then len else |old(b.Contents())|]
    ensures b.Contents() == old(b.Contents())[|result| - n..]
            <==> len < |old(b.Contents())| || old(FrontOf(b, n)) == result[|result| - n..]
  {
    ghost var all := b.Contents();
    result := b.Next(len);
    ghost var last, left := result[|result| - n..], b.Contents();
    assert last + left == all[|result| - n..];
    assert left == [] ==> (b.JustRead(last) <==> old(FrontOf(b, n)) == last);
    assert left != [] ==> b.JustRead(last);
    b.UnreadBytes(n, result);
  }

  // The last `n` octets of the reserved part.
  ghost function FrontOf(b: Buffer, n: nat): seq<octet>
    reads b, b.buffer
    requires b.Valid() && n <= b.reservedPrependSize
  {
    b.buffer[b.reservedPrependSize - n..b.reservedPrependSize]
  }

  // When all was read it is not put back: 9 and 1 are read, and unreading the last octet gives 9.
  method UnreadAfterReadingAll() returns (b: Buffer, all: seq<octet>)
    ensures b.Valid() && all == [9, 1] && b.Contents() == [9]
  {
    b := new Buffer(INITIAL_SIZE, CHEAP_PREPEND_SIZE);
    b.Write([1]);
    b.Prepend([9]);
    all := b.NextAll();
    b.UnreadBytes(1, all);
  }

  lemma Rejoin(a: seq<octet>, d: seq<octet>, n: nat)
    requires n <= |d|
    ensures a + d[..n] + d[n..] == a + d
  {
    assert d[..n] + d[n..] == d;
  }

  // An integer prepended is the next one read.
  lemma PrependedIsReadFirst(i: Integer, contents: seq<octet>)
    ensures ReadAll([WidthOf(i)], Wire(i) + contents) == Integers([i], contents)
  {
    FirstIsRead(i, [], contents);
    assert [WidthOf(i)] + [] == [WidthOf(i)];
    assert ReadAll([], contents) == Integers([], contents);
    assert [i] + [] == [i];
  }
}
