// The layout of BuiltStyledStreamWriter, and the proof that it consists of exactly the tokens of the
// tree, however the writer is set to indent and wherever it breaks lines.
module StyledLayout {
  import opened Bytes
  import opened Values
  import opened Layout
  import opened Documents
  import opened Fast = FastWriter
  import JsonStrings
  import Scanner

  datatype CommentStyle = NoComments | MostComments | AllComments

  datatype Style = Style(spelling: Spelling, indentation: bytes, comments: CommentStyle, yaml: bool)

  const RIGHT_MARGIN: nat := 74
  const TWO_TO_THE_32: nat := 0x1_0000_0000

  // ---------------------------------------------------------------- pieces of the layout

  // writeIndent: without an indentation there are no line breaks either.
  function Newline(c: Style, ind: bytes): seq<Chunk> {
    if c.indentation == [] then [] else [Space([LF] + ind)]
  }

  // The blank inside the brackets and after the commas of an array on one line.
  function Pad(c: Style): seq<Chunk> {
    if c.indentation == [] then [] else [Space([SPACE])]
  }

  // writeWithIndent, where the cursor is already indented or not.
  function Lead(c: Style, ind: bytes, indented: bool): seq<Chunk> {
    if indented then [] else Newline(c, ind)
  }

  // The colon symbol StreamWriterBuilder chooses.
  function StyledColon(c: Style): seq<Chunk> {
    if c.yaml then [Tk(Mark(Scanner.MemberSeparator)), Space([SPACE])]
    else if c.indentation == [] then [Tk(Mark(Scanner.MemberSeparator))]
    else [Space([SPACE]), Tk(Mark(Scanner.MemberSeparator)), Space([SPACE])]
  }

  function StyledKey(key: Key, c: Style): seq<Chunk>
    requires key.Name?
  {
    [Tk(Tok(Scanner.String, JsonStrings.Quoted(key.s, c.spelling.emitUTF8)))] + StyledColon(c)
  }

  // ---------------------------------------------------------------- one line or several

  // What takes no line of its own: scalars and empty containers.
  predicate IsInline(v: Value) { !IsContainer(v) || v.entries == [] }

  function InlineChunks(v: Value, s: Spelling): seq<Chunk>
    requires IsInline(v)
  {
    match v
    case Array(_) => AsChunks(OPEN_ARRAY) + AsChunks(CLOSE_ARRAY)
    case Obj(_) => AsChunks(OPEN_OBJECT) + AsChunks(CLOSE_OBJECT)
    case _ => AsChunks(ScalarTokens(v, s))
  }

  function InlineText(v: Value, s: Spelling): bytes
    requires IsInline(v)
  {
    Render(InlineChunks(v, s))
  }

  predicate AllInline(items: seq<Value>) { forall x :: x in items ==> IsInline(x) }

  // The text of the first `k` items, without separators.
  function InlineLength(items: seq<Value>, k: nat, s: Spelling): nat
    requires k <= |items| && AllInline(items)
  {
    if k == 0 then 0 else InlineLength(items, k - 1, s) + |InlineText(items[k - 1], s)|
  }

  // The arithmetic is the code's, on 32-bit unsigned numbers.
  predicate TooMany(items: seq<Value>) { |items| * 3 % TWO_TO_THE_32 >= RIGHT_MARGIN }

  predicate LineTooLong(items: seq<Value>, s: Spelling)
    requires items != [] && AllInline(items)
  {
    (4 + (|items| - 1) * 2 + InlineLength(items, |items|, s)) % TWO_TO_THE_32 >= RIGHT_MARGIN
  }

  predicate Multiline(items: seq<Value>, c: Style)
    requires items != []
  {
    c.comments.AllComments? || TooMany(items) || !AllInline(items) || LineTooLong(items, c.spelling)
  }

  // ---------------------------------------------------------------- the layout

  // `lead` and `gap` are white space.
  function Framed(lead: seq<Chunk>, open: Tok, body: seq<Chunk>, gap: seq<Chunk>, close: Tok): seq<Chunk> {
    lead + ([Tk(open)] + body + (gap + [Tk(close)]))
  }

  ghost function Styled(v: Value, c: Style, ind: bytes, indented: bool): seq<Chunk>
    requires Valid(v)
    decreases Depth(v)
  {
    if IsInline(v) then InlineChunks(v, c.spelling)
    else if v.Obj? then
      MembersAreBelow(v);
      Framed(Lead(c, ind, indented), Mark(Scanner.ObjectBegin),
             StyledMembers(v.entries, 0, c, ind + c.indentation, Depth(v)),
             Newline(c, ind), Mark(Scanner.ObjectEnd))
    else if Multiline(Items(v), c) then
      Framed(Lead(c, ind, indented), Mark(Scanner.ArrayBegin),
             StyledItems(Items(v), 0, c, ind + c.indentation, Newline(c, ind + c.indentation), Depth(v)),
             Newline(c, ind), Mark(Scanner.ArrayEnd))
    else
      Framed([], Mark(Scanner.ArrayBegin),
             StyledItems(Items(v), 0, c, ind, Pad(c), Depth(v)), Pad(c), Mark(Scanner.ArrayEnd))
  }

  ghost function StyledItems(items: seq<Value>, k: nat, c: Style, ind: bytes, gap: seq<Chunk>, bound: nat): seq<Chunk>
    requires k <= |items| && ItemsBelow(items, bound)
    decreases bound, |items| - k
  {
    if k == |items| then []
    else CommaChunks(k) + (gap + Styled(items[k], c, ind, true)) + StyledItems(items, k + 1, c, ind, gap, bound)
  }

  ghost function StyledMembers(entries: seq<Entry>, k: nat, c: Style, ind: bytes, bound: nat): seq<Chunk>
    requires k <= |entries| && EntriesBelow(entries, bound)
    decreases bound, |entries| - k
  {
    if k == |entries| then []
    else CommaChunks(k) + StyledMember(entries[k], c, ind) + StyledMembers(entries, k + 1, c, ind, bound)
  }

  ghost function StyledMember(e: Entry, c: Style, ind: bytes): seq<Chunk>
    requires e.key.Name? && Valid(e.value)
    decreases Depth(e.value) + 1, 0
  {
    Newline(c, ind) + (StyledKey(e.key, c) + Styled(e.value, c, ind, false))
  }

  // ---------------------------------------------------------------- the same tokens

  predicate Blank(cs: seq<Chunk>) { forall i :: 0 <= i < |cs| ==> cs[i].Space? }

  lemma {:induction false} BlankTokens(cs: seq<Chunk>)
    requires Blank(cs)
    ensures Tokens(cs) == []
  {
    if cs != [] {
      BlankTokens(cs[1..]);
    }
  }

  lemma FramedTokens(lead: seq<Chunk>, open: Tok, body: seq<Chunk>, gap: seq<Chunk>, close: Tok)
    requires Blank(lead) && Blank(gap)
    ensures Tokens(Framed(lead, open, body, gap, close)) == [open] + Tokens(body) + [close]
  {
    BlankTokens(lead);
    BlankTokens(gap);
    ConsStep(Tk(open), []);
    ConsStep(Tk(close), []);
    TokensConcat(gap, [Tk(close)]);
    TokensOfThree([Tk(open)], body, gap + [Tk(close)]);
    TokensConcat(lead, [Tk(open)] + body + (gap + [Tk(close)]));
  }

  lemma StyledKeyTokens(key: Key, c: Style)
    requires key.Name?
    ensures Tokens(StyledKey(key, c)) == KeyTokens(key, c.spelling)
  {
    var colon := Mark(Scanner.MemberSeparator);
    ConsStep(Tk(Tok(Scanner.String, JsonStrings.Quoted(key.s, c.spelling.emitUTF8))), StyledColon(c));
    ConsStep(Tk(colon), []);
    ConsStep(Tk(colon), [Space([SPACE])]);
    ConsStep(Space([SPACE]), []);
    ConsStep(Space([SPACE]), [Tk(colon), Space([SPACE])]);
    assert [Space([SPACE])] + [Tk(colon), Space([SPACE])] == [Space([SPACE]), Tk(colon), Space([SPACE])];
    assert [Tk(colon)] + [Space([SPACE])] == [Tk(colon), Space([SPACE])];
    assert [Tk(colon)] + [] == [Tk(colon)] && [Space([SPACE])] + [] == [Space([SPACE])];
  }

  lemma InlineTokens(v: Value, s: Spelling)
    requires Valid(v) && IsInline(v)
    ensures Tokens(InlineChunks(v, s)) == ValueTokens(v, s)
  {
    match v
    case Array(_) =>
      TokensOfChunks(OPEN_ARRAY);
      TokensOfChunks(CLOSE_ARRAY);
      TokensConcat(AsChunks(OPEN_ARRAY), AsChunks(CLOSE_ARRAY));
      assert ItemTokens(Items(v), 0, s, Depth(v)) == [];
    case Obj(entries) =>
      TokensOfChunks(OPEN_OBJECT);
      TokensOfChunks(CLOSE_OBJECT);
      TokensConcat(AsChunks(OPEN_OBJECT), AsChunks(CLOSE_OBJECT));
    case _ => TokensOfChunks(ScalarTokens(v, s));
  }

  // Layout independence: whatever the indentation and the comment style, and whether or not the
  // cursor is already indented, the styled layout has the tokens of the tree and no others.
  lemma {:induction false} StyledTokens(v: Value, c: Style, ind: bytes, indented: bool)
    requires Valid(v)
    ensures Tokens(Styled(v, c, ind, indented)) == ValueTokens(v, c.spelling)
    decreases Depth(v)
  {
    if IsInline(v) {
      InlineTokens(v, c.spelling);
    } else if v.Obj? {
      MembersAreBelow(v);
      StyledMembersTokens(v.entries, 0, c, ind + c.indentation, Depth(v));
      FramedTokens(Lead(c, ind, indented), Mark(Scanner.ObjectBegin),
                   StyledMembers(v.entries, 0, c, ind + c.indentation, Depth(v)),
                   Newline(c, ind), Mark(Scanner.ObjectEnd));
    } else if Multiline(Items(v), c) {
      var inner := ind + c.indentation;
      StyledItemsTokens(Items(v), 0, c, inner, Newline(c, inner), Depth(v));
      FramedTokens(Lead(c, ind, indented), Mark(Scanner.ArrayBegin),
                   StyledItems(Items(v), 0, c, inner, Newline(c, inner), Depth(v)),
                   Newline(c, ind), Mark(Scanner.ArrayEnd));
    } else {
      StyledItemsTokens(Items(v), 0, c, ind, Pad(c), Depth(v));
      FramedTokens([], Mark(Scanner.ArrayBegin),
                   StyledItems(Items(v), 0, c, ind, Pad(c), Depth(v)), Pad(c), Mark(Scanner.ArrayEnd));
    }
  }

  lemma {:induction false} StyledItemsTokens(items: seq<Value>, k: nat, c: Style, ind: bytes, gap: seq<Chunk>,
      bound: nat)
    requires k <= |items| && ItemsBelow(items, bound) && Blank(gap)
    ensures Tokens(StyledItems(items, k, c, ind, gap, bound)) == ItemTokens(items, k, c.spelling, bound)
    decreases bound, |items| - k
  {
    if k < |items| {
      var item, rest := Styled(items[k], c, ind, true), StyledItems(items, k + 1, c, ind, gap, bound);
      assert items[k] in items;
      assert StyledItems(items, k, c, ind, gap, bound) == CommaChunks(k) + (gap + item) + rest;
      SeparatorTokens(k, false);
      BlankTokens(gap);
      StyledTokens(items[k], c, ind, true);
      StyledItemsTokens(items, k + 1, c, ind, gap, bound);
      hide Styled, StyledItems, ValueTokens, Blank, Tokens, CommaChunks;
      TokensConcat(gap, item);
      TokensOfThree(CommaChunks(k), gap + item, rest);
    }
  }

  lemma {:induction false} StyledMembersTokens(entries: seq<Entry>, k: nat, c: Style, ind: bytes, bound: nat)
    requires k <= |entries| && EntriesBelow(entries, bound)
    ensures Tokens(StyledMembers(entries, k, c, ind, bound)) == MemberTokens(entries, k, c.spelling, bound)
    decreases bound, |entries| - k
  {
    if k < |entries| {
      var member, rest := StyledMember(entries[k], c, ind), StyledMembers(entries, k + 1, c, ind, bound);
      SeparatorTokens(k, false);
      StyledTokens(entries[k].value, c, ind, false);
      StyledMemberTokens(entries[k], c, ind);
      StyledMembersTokens(entries, k + 1, c, ind, bound);
      hide StyledMember, Styled, ValueTokens;
      TokensOfThree(CommaChunks(k), member, rest);
    }
  }

  lemma StyledMemberTokens(e: Entry, c: Style, ind: bytes)
    requires e.key.Name? && Valid(e.value)
    requires Tokens(Styled(e.value, c, ind, false)) == ValueTokens(e.value, c.spelling)
    ensures Tokens(StyledMember(e, c, ind)) == KeyTokens(e.key, c.spelling) + ValueTokens(e.value, c.spelling)
  {
    var key, value := StyledKey(e.key, c), Styled(e.value, c, ind, false);
    BlankTokens(Newline(c, ind));
    StyledKeyTokens(e.key, c);
    TokensConcat(key, value);
    TokensConcat(Newline(c, ind), key + value);
  }

  // ---------------------------------------------------------------- lexable

  predicate Spaces(cs: seq<Chunk>) { Blank(cs) && forall i :: 0 <= i < |cs| ==> ChunkOk(cs[i]) }

  lemma SpacesThen(cs: seq<Chunk>, rest: seq<Chunk>)
    requires Spaces(cs) && Lexable(rest)
    ensures Lexable(cs + rest)
    ensures StartsSeparate(rest) ==> StartsSeparate(cs + rest)
  {
    LexableConcat(cs, rest);
  }

  lemma FramedLexable(lead: seq<Chunk>, open: Tok, body: seq<Chunk>, gap: seq<Chunk>, close: Tok)
    requires Spaces(lead) && Spaces(gap) && Lexable(body)
    requires TokOk(open) && IsPunctuation(open.kind) && TokOk(close) && IsPunctuation(close.kind)
    ensures Lexable(Framed(lead, open, body, gap, close))
  {
    var tail := gap + [Tk(close)];
    SpacesThen(gap, [Tk(close)]);
    LexableConcat([Tk(open)], body);
    LexableConcat([Tk(open)] + body, tail);
    SpacesThen(lead, [Tk(open)] + body + tail);
  }

  lemma BlanksAreSpaces(c: Style, ind: bytes)
    requires AllSpace(c.indentation) && AllSpace(ind)
    ensures AllSpace(ind + c.indentation)
    ensures Spaces(Newline(c, ind)) && Spaces(Pad(c)) && Lexable(StyledColon(c))
  {
    assert forall i :: 0 <= i < |StyledColon(c)| ==> ChunkOk(StyledColon(c)[i]) && !IsNumber(StyledColon(c)[i]);
  }

  lemma InlineLexable(v: Value, s: Spelling)
    requires Valid(v) && RealFree(v) && IsInline(v)
    ensures Lexable(InlineChunks(v, s))
  {
    match v
    case Array(_) => LexableConcat(AsChunks(OPEN_ARRAY), AsChunks(CLOSE_ARRAY));
    case Obj(_) => LexableConcat(AsChunks(OPEN_OBJECT), AsChunks(CLOSE_OBJECT));
    case _ => ScalarLexable(v, s);
  }

  lemma {:induction false} StyledLexable(v: Value, c: Style, ind: bytes, indented: bool)
    requires Valid(v) && RealFree(v) && AllSpace(c.indentation) && AllSpace(ind)
    ensures Lexable(Styled(v, c, ind, indented))
    decreases Depth(v)
  {
    var inner := ind + c.indentation;
    BlanksAreSpaces(c, ind);
    BlanksAreSpaces(c, inner);
    if IsInline(v) {
      InlineLexable(v, c.spelling);
    } else if v.Obj? {
      MembersAreBelow(v);
      StyledMembersLexable(v.entries, 0, c, inner, Depth(v));
      FramedLexable(Lead(c, ind, indented), Mark(Scanner.ObjectBegin),
                    StyledMembers(v.entries, 0, c, inner, Depth(v)), Newline(c, ind), Mark(Scanner.ObjectEnd));
    } else if Multiline(Items(v), c) {
      StyledItemsLexable(Items(v), 0, c, inner, Newline(c, inner), Depth(v));
      FramedLexable(Lead(c, ind, indented), Mark(Scanner.ArrayBegin),
                    StyledItems(Items(v), 0, c, inner, Newline(c, inner), Depth(v)),
                    Newline(c, ind), Mark(Scanner.ArrayEnd));
    } else {
      StyledItemsLexable(Items(v), 0, c, ind, Pad(c), Depth(v));
      FramedLexable([], Mark(Scanner.ArrayBegin),
                    StyledItems(Items(v), 0, c, ind, Pad(c), Depth(v)), Pad(c), Mark(Scanner.ArrayEnd));
    }
  }

  lemma {:induction false} StyledItemsLexable(items: seq<Value>, k: nat, c: Style, ind: bytes, gap: seq<Chunk>,
      bound: nat)
    requires k <= |items| && ItemsBelow(items, bound) && forall x :: x in items ==> RealFree(x)
    requires AllSpace(c.indentation) && AllSpace(ind) && Spaces(gap)
    ensures Lexable(StyledItems(items, k, c, ind, gap, bound))
    ensures k > 0 ==> StartsSeparate(StyledItems(items, k, c, ind, gap, bound))
    decreases bound, |items| - k
  {
    if k < |items| {
      StyledLexable(items[k], c, ind, true);
      StyledItemsLexable(items, k + 1, c, ind, gap, bound);
      SpacesThen(gap, Styled(items[k], c, ind, true));
      Listed(k, gap + Styled(items[k], c, ind, true), StyledItems(items, k + 1, c, ind, gap, bound));
    }
  }

  lemma StyledMemberLexable(e: Entry, c: Style, ind: bytes)
    requires e.key.Name? && Valid(e.value) && AllSpace(c.indentation) && AllSpace(ind)
    requires Lexable(Styled(e.value, c, ind, false))
    ensures Lexable(StyledMember(e, c, ind))
  {
    BlanksAreSpaces(c, ind);
    QuotedOk(e.key.s, c.spelling.emitUTF8);
    var name := [Tk(Tok(Scanner.String, JsonStrings.Quoted(e.key.s, c.spelling.emitUTF8)))];
    LexableConcat(name, StyledColon(c));
    LexableConcat(name + StyledColon(c), Styled(e.value, c, ind, false));
    SpacesThen(Newline(c, ind), StyledKey(e.key, c) + Styled(e.value, c, ind, false));
  }

  lemma {:induction false} StyledMembersLexable(entries: seq<Entry>, k: nat, c: Style, ind: bytes, bound: nat)
    requires k <= |entries| && EntriesBelow(entries, bound) && forall e :: e in entries ==> RealFree(e.value)
    requires AllSpace(c.indentation) && AllSpace(ind)
    ensures Lexable(StyledMembers(entries, k, c, ind, bound))
    ensures k > 0 ==> StartsSeparate(StyledMembers(entries, k, c, ind, bound))
    decreases bound, |entries| - k
  {
    if k < |entries| {
      assert entries[k] in entries;
      StyledLexable(entries[k].value, c, ind, false);
      StyledMemberLexable(entries[k], c, ind);
      StyledMembersLexable(entries, k + 1, c, ind, bound);
      Listed(k, StyledMember(entries[k], c, ind), StyledMembers(entries, k + 1, c, ind, bound));
    }
  }
}
