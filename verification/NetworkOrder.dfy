// Integers in network byte order, as Buffer appends and reads them on a little-endian host: swapped
// in a register, then copied to or from memory.
module NetworkOrder {

  type octet = bv8

  // ---------------------------------------------------------------- swapping

  // evppbswap_64
  function Swap64(x: bv64): bv64 {
    ((x & 0xff00000000000000) >> 56)
    | ((x & 0x00ff000000000000) >> 40)
    | ((x & 0x0000ff0000000000) >> 24)
    | ((x & 0x000000ff00000000) >> 8)
    | ((x & 0x00000000ff000000) << 8)
    | ((x & 0x0000000000ff0000) << 24)
    | ((x & 0x000000000000ff00) << 40)
    | ((x & 0x00000000000000ff) << 56)
  }

  // htonl and ntohl
  function Swap32(x: bv32): bv32 {
    ((x & 0xff000000) >> 24) | ((x & 0x00ff0000) >> 8) | ((x & 0x0000ff00) << 8) | ((x & 0x000000ff) << 24)
  }

  // htons and ntohs
  function Swap16(x: bv16): bv16 {
    ((x & 0xff00) >> 8) | ((x & 0x00ff) << 8)
  }

  lemma SwapTwice(x: bv64, y: bv32, z: bv16)
    ensures Swap64(Swap64(x)) == x && Swap32(Swap32(y)) == y && Swap16(Swap16(z)) == z
  {
  }

  // ---------------------------------------------------------------- memory

  // The octets of a 64-bit integer in the memory of a little-endian host.
  function Store64(x: bv64): (s: seq<octet>)
    ensures |s| == 8
  {
    [(x & 0xff) as bv8, ((x >> 8) & 0xff) as bv8, ((x >> 16) & 0xff) as bv8, ((x >> 24) & 0xff) as bv8,
     ((x >> 32) & 0xff) as bv8, ((x >> 40) & 0xff) as bv8, ((x >> 48) & 0xff) as bv8, ((x >> 56) & 0xff) as bv8]
  }

  function Load64(s: seq<octet>): bv64
    requires |s| == 8
  {
    (s[0] as bv64) | ((s[1] as bv64) << 8) | ((s[2] as bv64) << 16) | ((s[3] as bv64) << 24)
    | ((s[4] as bv64) << 32) | ((s[5] as bv64) << 40) | ((s[6] as bv64) << 48) | ((s[7] as bv64) << 56)
  }

  function Store32(x: bv32): (s: seq<octet>)
    ensures |s| == 4
  {
    [(x & 0xff) as bv8, ((x >> 8) & 0xff) as bv8, ((x >> 16) & 0xff) as bv8, ((x >> 24) & 0xff) as bv8]
  }

  function Load32(s: seq<octet>): bv32
    requires |s| == 4
  {
    (s[0] as bv32) | ((s[1] as bv32) << 8) | ((s[2] as bv32) << 16) | ((s[3] as bv32) << 24)
  }

  function Store16(x: bv16): (s: seq<octet>)
    ensures |s| == 2
  {
    [(x & 0xff) as bv8, ((x >> 8) & 0xff) as bv8]
  }

  function Load16(s: seq<octet>): bv16
    requires |s| == 2
  {
    (s[0] as bv16) | ((s[1] as bv16) << 8)
  }

  lemma LoadStored64(x: bv64)
    ensures Load64(Store64(x)) == x
  {
  }

  lemma LoadStored32(x: bv32)
    ensures Load32(Store32(x)) == x
  {
  }

  lemma LoadStored16(x: bv16)
    ensures Load16(Store16(x)) == x
  {
  }

  // ---------------------------------------------------------------- integers on the wire

  datatype Width = W8 | W16 | W32 | W64

  function Size(w: Width): nat {
    match w
    case W8 => 1
    case W16 => 2
    case W32 => 4
    case W64 => 8
  }

  // The bit pattern of an int8_t, int16_t, int32_t or int64_t.
  datatype Integer = I8(x8: bv8) | I16(x16: bv16) | I32(x32: bv32) | I64(x64: bv64)

  function WidthOf(i: Integer): Width {
    match i
    case I8(_) => W8
    case I16(_) => W16
    case I32(_) => W32
    case I64(_) => W64
  }

  // What AppendInt* hands to Write and PrependInt* to Prepend.
  function Wire(i: Integer): (s: seq<octet>)
    ensures |s| == Size(WidthOf(i))
  {
    match i
    case I8(x) => [x]
    case I16(x) => Store16(Swap16(x))
    case I32(x) => Store32(Swap32(x))
    case I64(x) => Store64(Swap64(x))
  }

  // What PeekInt* makes of the first octets.
  function Peek(w: Width, s: seq<octet>): (i: Integer)
    requires |s| >= Size(w)
    ensures WidthOf(i) == w
  {
    match w
    case W8 => I8(s[0])
    case W16 => I16(Swap16(Load16(s[..2])))
    case W32 => I32(Swap32(Load32(s[..4])))
    case W64 => I64(Swap64(Load64(s[..8])))
  }

  lemma SwappedOctets(x: bv64)
    ensures (Swap64(x) & 0xff) == ((x >> 56) & 0xff) && ((Swap64(x) >> 8) & 0xff) == ((x >> 48) & 0xff)
    ensures ((Swap64(x) >> 16) & 0xff) == ((x >> 40) & 0xff) && ((Swap64(x) >> 24) & 0xff) == ((x >> 32) & 0xff)
    ensures ((Swap64(x) >> 32) & 0xff) == ((x >> 24) & 0xff) && ((Swap64(x) >> 40) & 0xff) == ((x >> 16) & 0xff)
    ensures ((Swap64(x) >> 48) & 0xff) == ((x >> 8) & 0xff) && ((Swap64(x) >> 56) & 0xff) == (x & 0xff)
  {
  }

  // The most significant octet travels first.
  lemma WireIsBigEndian(x: bv64)
    ensures Wire(I64(x)) == [((x >> 56) & 0xff) as bv8, ((x >> 48) & 0xff) as bv8, ((x >> 40) & 0xff) as bv8, ((x >> 32) & 0xff) as bv8,
                             ((x >> 24) & 0xff) as bv8, ((x >> 16) & 0xff) as bv8, ((x >> 8) & 0xff) as bv8, (x & 0xff) as bv8]
  {
    SwappedOctets(x);
    hide Swap64;
  }

  lemma ShorterWireIsBigEndian(x: bv32, y: bv16, z: bv8)
    ensures Wire(I32(x)) == [((x >> 24) & 0xff) as bv8, ((x >> 16) & 0xff) as bv8, ((x >> 8) & 0xff) as bv8, (x & 0xff) as bv8]
    ensures Wire(I16(y)) == [((y >> 8) & 0xff) as bv8, (y & 0xff) as bv8]
    ensures Wire(I8(z)) == [z]
  {
  }

  lemma PeekWired(i: Integer, rest: seq<octet>)
    ensures Peek(WidthOf(i), Wire(i) + rest) == i
  {
    assert (Wire(i) + rest)[..Size(WidthOf(i))] == Wire(i);
    match i
    case I8(_) =>
    case I16(x) => LoadStored16(Swap16(x));
    case I32(x) => LoadStored32(Swap32(x));
    case I64(x) => LoadStored64(Swap64(x));
  }

  function WireAll(integers: seq<Integer>): seq<octet> {
    if integers == [] then [] else Wire(integers[0]) + WireAll(integers[1..])
  }

  // Reading integers of the given widths one after the other; None when the octets run out.
  datatype Reading = TooShort | Integers(read: seq<Integer>, rest: seq<octet>)

  function ReadAll(widths: seq<Width>, s: seq<octet>): Reading {
    if widths == [] then Integers([], s)
    else if |s| < Size(widths[0]) then TooShort
    else match ReadAll(widths[1..], s[Size(widths[0])..])
      case TooShort => TooShort
      case Integers(read, rest) => Integers([Peek(widths[0], s)] + read, rest)
  }

  function Widths(integers: seq<Integer>): seq<Width> {
    seq(|integers|, i requires 0 <= i < |integers| => WidthOf(integers[i]))
  }

  lemma FirstIsRead(first: Integer, widths: seq<Width>, tail: seq<octet>)
    ensures ReadAll([WidthOf(first)] + widths, Wire(first) + tail)
            == match ReadAll(widths, tail)
               case TooShort => TooShort
               case Integers(read, rest) => Integers([first] + read, rest)
  {
    PeekWired(first, tail);
    hide Peek, Wire;
    assert ([WidthOf(first)] + widths)[1..] == widths;
    assert (Wire(first) + tail)[Size(WidthOf(first))..] == tail;
  }

  lemma FirstIsWired(first: Integer, others: seq<Integer>)
    ensures WireAll([first] + others) == Wire(first) + WireAll(others)
    ensures Widths([first] + others) == [WidthOf(first)] + Widths(others)
  {
    hide Wire;
    assert ([first] + others)[1..] == others;
  }

  lemma OneMoreIsReadBack(first: Integer, others: seq<Integer>, rest: seq<octet>)
    requires ReadAll(Widths(others), WireAll(others) + rest) == Integers(others, rest)
    ensures ReadAll(Widths([first] + others), WireAll([first] + others) + rest) == Integers([first] + others, rest)
  {
    hide *;
    FirstIsWired(first, others);
    FirstIsRead(first, Widths(others), WireAll(others) + rest);
    assert Wire(first) + WireAll(others) + rest == Wire(first) + (WireAll(others) + rest);
  }

  // Whatever integers are appended, reading the same widths gives them back in order and leaves
  // what follows.
  lemma {:induction false} AppendedAreReadBack(integers: seq<Integer>, rest: seq<octet>)
    ensures ReadAll(Widths(integers), WireAll(integers) + rest) == Integers(integers, rest)
  {
    if integers == [] {
      assert WireAll(integers) + rest == rest;
    } else {
      AppendedAreReadBack(integers[1..], rest);
      OneMoreIsReadBack(integers[0], integers[1..], rest);
      assert [integers[0]] + integers[1..] == integers;
    }
  }
}
