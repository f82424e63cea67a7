// Byte strings, the character constants the codec switches on, and the failure-compatible result
// type shared by the other modules.
module Bytes {

  type byte = x: int | 0 <= x < 256 witness 0
  type bytes = seq<byte>

  datatype Option<+T> = None | Some(value: T)

  const NUL: byte := 0
  const BACKSPACE: byte := 8
  const TAB: byte := 9
  const LF: byte := 10
  const FORMFEED: byte := 12
  const CR: byte := 13
  const SPACE: byte := 32
  const QUOTE: byte := 34
  const APOSTROPHE: byte := 39
  const STAR: byte := 42
  const PLUS: byte := 43
  const COMMA: byte := 44
  const MINUS: byte := 45
  const DOT: byte := 46
  const SLASH: byte := 47
  const ZERO: byte := 48
  const NINE: byte := 57
  const COLON: byte := 58
  const UPPER_A: byte := 65
  const UPPER_E: byte := 69
  const UPPER_F: byte := 70
  const UPPER_I: byte := 73
  const UPPER_N: byte := 78
  const LBRACKET: byte := 91
  const BACKSLASH: byte := 92
  const RBRACKET: byte := 93
  const LOWER_A: byte := 97
  const LOWER_B: byte := 98
  const LOWER_E: byte := 101
  const LOWER_F: byte := 102
  const LOWER_N: byte := 110
  const LOWER_R: byte := 114
  const LOWER_T: byte := 116
  const LOWER_U: byte := 117
  const LBRACE: byte := 123
  const RBRACE: byte := 125

  const TRUE_TEXT: bytes := [116, 114, 117, 101]
  const FALSE_TEXT: bytes := [102, 97, 108, 115, 101]
  const NULL_TEXT: bytes := [110, 117, 108, 108]

  predicate IsDigit(c: byte) { ZERO <= c <= NINE }

  predicate IsSpace(c: byte) { c == SPACE || c == TAB || c == CR || c == LF }

  predicate AllSpace(s: bytes) { forall i :: 0 <= i < |s| ==> IsSpace(s[i]) }

  predicate AllDigits(s: bytes) { forall i :: 0 <= i < |s| ==> IsDigit(s[i]) }

  // `pattern` occurs in `d` at offset `p`.
  predicate At(d: bytes, p: nat, pattern: bytes) {
    p + |pattern| <= |d| && d[p..p + |pattern|] == pattern
  }

  lemma SliceOfSlice(d: bytes, p: nat, q: nat, i: nat, j: nat)
    requires p <= q <= |d| && i <= j <= q - p
    ensures d[p..q][i..j] == d[p + i..p + j]
  {
    forall k | 0 <= k < j - i ensures d[p..q][i..j][k] == d[p + i..p + j][k] {
      assert d[p..q][i + k] == d[p + i + k];
    }
  }

  lemma Regroup(a: bytes, b: bytes, c: bytes, d: bytes)
    ensures a + (b + c + d) == a + b + c + d
  {
  }
}
