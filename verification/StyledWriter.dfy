// BuiltStyledStreamWriter: the indenting writer with its stream, its indentation and its list of
// child texts, every method proved against StyledLayout. Comments are not modelled: no value has any.
module StyledWriter {
  import opened Bytes
  import opened Values
  import opened Layout
  import opened Documents
  import opened StyledLayout
  import opened Fast = FastWriter
  import JsonStrings
  import Numbers
  import Scanner

  // ---------------------------------------------------------------- texts

  function IndentText(c: Style, ind: bytes): bytes { if c.indentation == [] then [] else [LF] + ind }

  function LeadText(c: Style, ind: bytes, indented: bool): bytes {
    if indented then [] else IndentText(c, ind)
  }

  function PadText(c: Style): bytes { if c.indentation == [] then [] else [SPACE] }

  function ColonSymbol(c: Style): bytes {
    if c.yaml then [COLON, SPACE]
    else if c.indentation == [] then [COLON]
    else [SPACE, COLON, SPACE]
  }

  ghost function StyledText(v: Value, c: Style, ind: bytes, indented: bool): bytes
    requires Valid(v)
  {
    Render(Styled(v, c, ind, indented))
  }

  lemma RenderSpace(s: bytes)
    ensures Render([Space(s)]) == s
  {
    ConsStep(Space(s), []);
    assert [Space(s)] + [] == [Space(s)];
  }

  lemma BlankTexts(c: Style, ind: bytes, indented: bool)
    ensures Render(Newline(c, ind)) == IndentText(c, ind)
    ensures Render(Lead(c, ind, indented)) == LeadText(c, ind, indented)
    ensures Render(Pad(c)) == PadText(c)
  {
    RenderSpace([LF] + ind);
    RenderSpace([SPACE]);
  }

  lemma ColonRenders(c: Style)
    ensures Render(StyledColon(c)) == ColonSymbol(c)
  {
    var colon := Mark(Scanner.MemberSeparator);
    RenderOne(colon);
    RenderSpace([SPACE]);
    ConsStep(Tk(colon), [Space([SPACE])]);
    assert [Tk(colon)] + [Space([SPACE])] == [Tk(colon), Space([SPACE])];
    ConsStep(Space([SPACE]), [Tk(colon), Space([SPACE])]);
    assert [Space([SPACE])] + [Tk(colon), Space([SPACE])] == [Space([SPACE]), Tk(colon), Space([SPACE])];
  }

  // A bracketed text: what comes before, the bracket, the list, what comes before the closing one.
  lemma FramedText(lead: seq<Chunk>, open: Tok, body: seq<Chunk>, gap: seq<Chunk>, close: Tok)
    ensures Render(Framed(lead, open, body, gap, close))
            == Render(lead) + open.text + Render(body) + Render(gap) + close.text
  {
    RenderConcat(lead, [Tk(open)] + body + (gap + [Tk(close)]));
    RenderOfThree([Tk(open)], body, gap + [Tk(close)]);
    RenderConcat(gap, [Tk(close)]);
    RenderOne(open);
    RenderOne(close);
    Flatten(Render(lead), open.text, Render(body), Render(gap), close.text);
  }

  lemma Flatten(a: bytes, b: bytes, c: bytes, d: bytes, e: bytes)
    ensures a + (b + c + (d + e)) == a + b + c + d + e
  {
  }

  // The rest of a list whose k-th item is next and whose comma, if any, has been written.
  ghost function RestOfItems(items: seq<Value>, k: nat, c: Style, ind: bytes, gap: seq<Chunk>, bound: nat): bytes
    requires k < |items| && ItemsBelow(items, bound)
  {
    Render(gap) + StyledText(items[k], c, ind, true) + Render(StyledItems(items, k + 1, c, ind, gap, bound))
  }

  lemma ItemsRender(items: seq<Value>, k: nat, c: Style, ind: bytes, gap: seq<Chunk>, bound: nat)
    requires k <= |items| && ItemsBelow(items, bound)
    ensures Render(StyledItems(items, k, c, ind, gap, bound))
            == if k == |items| then [] else CommaText(k) + RestOfItems(items, k, c, ind, gap, bound)
  {
    if k < |items| {
      assert items[k] in items;
      var item, rest := Styled(items[k], c, ind, true), StyledItems(items, k + 1, c, ind, gap, bound);
      assert StyledItems(items, k, c, ind, gap, bound) == CommaChunks(k) + (gap + item) + rest;
      hide Styled, StyledItems, Render, CommaChunks;
      RenderConcat(gap, item);
      RenderOfThree(CommaChunks(k), gap + item, rest);
      CommaRenders(k);
      Associate(CommaText(k), Render(gap) + Render(item), Render(rest));
    }
  }

  lemma Associate(a: bytes, b: bytes, c: bytes)
    ensures a + b + c == a + (b + c)
  {
  }

  ghost function StyledMemberText(e: Entry, c: Style, ind: bytes): bytes
    requires e.key.Name? && Valid(e.value)
  {
    IndentText(c, ind) + JsonStrings.Quoted(e.key.s, c.spelling.emitUTF8) + ColonSymbol(c) + StyledText(e.value, c, ind, false)
  }

  lemma MemberRenders(e: Entry, c: Style, ind: bytes)
    requires e.key.Name? && Valid(e.value)
    ensures Render(StyledMember(e, c, ind)) == StyledMemberText(e, c, ind)
  {
    var quoted := JsonStrings.Quoted(e.key.s, c.spelling.emitUTF8);
    var value := Styled(e.value, c, ind, false);
    BlankTexts(c, ind, false);
    ConsStep(Tk(Tok(Scanner.String, quoted)), StyledColon(c));
    ColonRenders(c);
    RenderConcat(StyledKey(e.key, c), value);
    RenderConcat(Newline(c, ind), StyledKey(e.key, c) + value);
    Regroup(IndentText(c, ind), quoted, ColonSymbol(c), Render(value));
  }

  ghost function RestOfMembers(entries: seq<Entry>, k: nat, c: Style, ind: bytes, bound: nat): bytes
    requires k < |entries| && EntriesBelow(entries, bound)
  {
    StyledMemberText(entries[k], c, ind) + Render(StyledMembers(entries, k + 1, c, ind, bound))
  }

  lemma MembersRender(entries: seq<Entry>, k: nat, c: Style, ind: bytes, bound: nat)
    requires k <= |entries| && EntriesBelow(entries, bound)
    ensures Render(StyledMembers(entries, k, c, ind, bound))
            == if k == |entries| then [] else CommaText(k) + RestOfMembers(entries, k, c, ind, bound)
  {
    if k < |entries| {
      assert entries[k] in entries;
      var member, rest := StyledMember(entries[k], c, ind), StyledMembers(entries, k + 1, c, ind, bound);
      assert StyledMembers(entries, k, c, ind, bound) == CommaChunks(k) + member + rest;
      MemberRenders(entries[k], c, ind);
      hide Styled, StyledMember, StyledMembers, Render, CommaChunks, MemberText;
      RenderOfThree(CommaChunks(k), member, rest);
      CommaRenders(k);
      Associate(CommaText(k), Render(member), Render(rest));
    }
  }

  // The texts of the first `k` items, as isMultilineArray collects them.
  function ChildTexts(items: seq<Value>, k: nat, s: Spelling): (r: seq<bytes>)
    requires k <= |items| && AllInline(items)
    ensures |r| == k
  {
    if k == 0 then [] else ChildTexts(items, k - 1, s) + [InlineText(items[k - 1], s)]
  }

  lemma {:induction false} ChildTextAt(items: seq<Value>, k: nat, i: nat, s: Spelling)
    requires i < k <= |items| && AllInline(items)
    ensures ChildTexts(items, k, s)[i] == InlineText(items[i], s)
  {
    hide InlineText;
    if i < k - 1 {
      ChildTextAt(items, k - 1, i, s);
    }
  }

  lemma InlineStyledText(v: Value, c: Style, ind: bytes, indented: bool)
    requires Valid(v) && IsInline(v)
    ensures StyledText(v, c, ind, indented) == InlineText(v, c.spelling)
  {
  }

  lemma ScalarRenders(v: Value, s: Spelling)
    requires !IsContainer(v)
    ensures InlineText(v, s) == if ScalarTokens(v, s) == [] then [] else ScalarTokens(v, s)[0].text
  {
    if ScalarTokens(v, s) != [] {
      RenderOne(ScalarTokens(v, s)[0]);
    }
  }

  lemma EmptyRenders(v: Value, s: Spelling)
    requires IsContainer(v) && v.entries == []
    ensures InlineText(v, s) == if v.Array? then [LBRACKET, RBRACKET] else [LBRACE, RBRACE]
  {
    RenderOne(Mark(Scanner.ArrayBegin));
    RenderOne(Mark(Scanner.ArrayEnd));
    RenderOne(Mark(Scanner.ObjectBegin));
    RenderOne(Mark(Scanner.ObjectEnd));
    RenderConcat(AsChunks(OPEN_ARRAY), AsChunks(CLOSE_ARRAY));
    RenderConcat(AsChunks(OPEN_OBJECT), AsChunks(CLOSE_OBJECT));
  }

  // ---------------------------------------------------------------- whole containers as text

  ghost function StyledItemsText(v: Value, c: Style, ind: bytes, gap: seq<Chunk>): bytes
    requires Valid(v) && v.Array?
  {
    Render(StyledItems(Items(v), 0, c, ind, gap, Depth(v)))
  }

  ghost function StyledMembersText(v: Value, c: Style, ind: bytes): bytes
    requires Valid(v) && v.Obj?
  {
    MembersAreBelow(v);
    Render(StyledMembers(v.entries, 0, c, ind, Depth(v)))
  }

  lemma LinesText(v: Value, c: Style, ind: bytes, indented: bool)
    requires Valid(v) && v.Array? && v.entries != [] && Multiline(Items(v), c)
    ensures StyledText(v, c, ind, indented)
            == LeadText(c, ind, indented) + [LBRACKET]
               + StyledItemsText(v, c, ind + c.indentation, Newline(c, ind + c.indentation)) + IndentText(c, ind) + [RBRACKET]
  {
    var inner := ind + c.indentation;
    BlankTexts(c, ind, indented);
    FramedText(Lead(c, ind, indented), Mark(Scanner.ArrayBegin),
               StyledItems(Items(v), 0, c, inner, Newline(c, inner), Depth(v)), Newline(c, ind), Mark(Scanner.ArrayEnd));
  }

  lemma LineText(v: Value, c: Style, ind: bytes, indented: bool)
    requires Valid(v) && v.Array? && v.entries != [] && !Multiline(Items(v), c)
    ensures StyledText(v, c, ind, indented) == [LBRACKET] + StyledItemsText(v, c, ind, Pad(c)) + PadText(c) + [RBRACKET]
  {
    var body := StyledItems(Items(v), 0, c, ind, Pad(c), Depth(v));
    assert Styled(v, c, ind, indented) == Framed([], Mark(Scanner.ArrayBegin), body, Pad(c), Mark(Scanner.ArrayEnd));
    assert Render([]) + [LBRACKET] == [LBRACKET];
    hide *;
    BlankTexts(c, ind, indented);
    FramedText([], Mark(Scanner.ArrayBegin), body, Pad(c), Mark(Scanner.ArrayEnd));
  }

  lemma StyledObjectText(v: Value, c: Style, ind: bytes, indented: bool)
    requires Valid(v) && v.Obj? && v.entries != []
    ensures StyledText(v, c, ind, indented)
            == LeadText(c, ind, indented) + [LBRACE] + StyledMembersText(v, c, ind + c.indentation) + IndentText(c, ind) + [RBRACE]
  {
    MembersAreBelow(v);
    BlankTexts(c, ind, indented);
    FramedText(Lead(c, ind, indented), Mark(Scanner.ObjectBegin),
               StyledMembers(v.entries, 0, c, ind + c.indentation, Depth(v)), Newline(c, ind), Mark(Scanner.ObjectEnd));
  }

  // One item written: the rest of the list, with its comma, is what is left.
  lemma ItemWritten(before: bytes, items: seq<Value>, k: nat, c: Style, ind: bytes, gap: seq<Chunk>, bound: nat)
    requires k < |items| && ItemsBelow(items, bound)
    ensures var after := before + Render(gap) + StyledText(items[k], c, ind, true);
            before + RestOfItems(items, k, c, ind, gap, bound)
            == if k + 1 == |items| then after else after + [COMMA] + RestOfItems(items, k + 1, c, ind, gap, bound)
  {
    var rest := Render(StyledItems(items, k + 1, c, ind, gap, bound));
    assert items[k] in items;
    Regroup(before, Render(gap), StyledText(items[k], c, ind, true), rest);
    ItemsRender(items, k + 1, c, ind, gap, bound);
    if k + 1 < |items| {
      Associate(before + Render(gap) + StyledText(items[k], c, ind, true), [COMMA],
                RestOfItems(items, k + 1, c, ind, gap, bound));
    }
  }

  lemma MemberWritten(before: bytes, entries: seq<Entry>, k: nat, c: Style, ind: bytes, bound: nat)
    requires k < |entries| && EntriesBelow(entries, bound)
    ensures var after := before + StyledMemberText(entries[k], c, ind);
            before + RestOfMembers(entries, k, c, ind, bound)
            == if k + 1 == |entries| then after else after + [COMMA] + RestOfMembers(entries, k + 1, c, ind, bound)
  {
    var rest := Render(StyledMembers(entries, k + 1, c, ind, bound));
    assert entries[k] in entries;
    Associate(before, StyledMemberText(entries[k], c, ind), rest);
    MembersRender(entries, k + 1, c, ind, bound);
    if k + 1 < |entries| {
      Associate(before + StyledMemberText(entries[k], c, ind), [COMMA], RestOfMembers(entries, k + 1, c, ind, bound));
    }
  }

  lemma MemberIsBelow(entries: seq<Entry>, k: nat, bound: nat)
    requires k < |entries| && EntriesBelow(entries, bound)
    ensures entries[k].key.Name? && Valid(entries[k].value) && Depth(entries[k].value) < bound
  {
    assert entries[k] in entries;
  }

  lemma FirstItems(v: Value, c: Style, ind: bytes, gap: seq<Chunk>)
    requires Valid(v) && v.Array? && v.entries != []
    ensures StyledItemsText(v, c, ind, gap) == RestOfItems(Items(v), 0, c, ind, gap, Depth(v))
  {
    ItemsRender(Items(v), 0, c, ind, gap, Depth(v));
    assert CommaText(0) + RestOfItems(Items(v), 0, c, ind, gap, Depth(v)) == RestOfItems(Items(v), 0, c, ind, gap, Depth(v));
  }

  lemma FirstMembers(v: Value, c: Style, ind: bytes)
    requires Valid(v) && v.Obj? && v.entries != [] && EntriesBelow(v.entries, Depth(v))
    ensures StyledMembersText(v, c, ind) == RestOfMembers(v.entries, 0, c, ind, Depth(v))
  {
    MembersRender(v.entries, 0, c, ind, Depth(v));
    assert CommaText(0) + RestOfMembers(v.entries, 0, c, ind, Depth(v)) == RestOfMembers(v.entries, 0, c, ind, Depth(v));
  }

  // ---------------------------------------------------------------- the writer

  class BuiltStyledStreamWriter {
    const style: Style
    const endingLineFeedSymbol: bytes
    var sout: bytes
    var childValues: seq<bytes>
    var indentString: bytes
    var addChildValues: bool
    var indented: bool

    constructor (style: Style, endingLineFeedSymbol: bytes)
      ensures this.style == style && this.endingLineFeedSymbol == endingLineFeedSymbol
      ensures sout == [] && Steady()
    {
      this.style, this.endingLineFeedSymbol := style, endingLineFeedSymbol;
      sout, childValues, indentString, addChildValues, indented := [], [], [], false, false;
    }

    // With comments kept, no child texts are ever collected.
    ghost predicate Steady()
      reads this
    {
      style.comments.AllComments? ==> childValues == [] && !addChildValues
    }

    // ------------------------------------------------------------ output

    method PushValue(value: bytes)
      modifies `sout, `childValues
      ensures addChildValues ==> sout == old(sout) && childValues == old(childValues) + [value]
      ensures !addChildValues ==> sout == old(sout) + value && childValues == old(childValues)
    {
      if addChildValues {
        childValues := childValues + [value];
      } else {
        sout := sout + value;
      }
    }

    method WriteIndent()
      modifies `sout
      ensures sout == old(sout) + IndentText(style, indentString)
    {
      if style.indentation != [] {
        sout := sout + ([LF] + indentString);
      }
    }

    method WriteWithIndent(value: bytes)
      modifies `sout, `indented
      ensures sout == old(sout) + LeadText(style, indentString, old(indented)) + value
      ensures !indented
    {
      if !indented {
        WriteIndent();
      }
      sout := sout + value;
      indented := false;
    }

    method Indent()
      modifies `indentString
      ensures indentString == old(indentString) + style.indentation
    {
      indentString := indentString + style.indentation;
    }

    // The code's own assertion is the one below; it holds because the indentation is balanced.
    method Unindent(ghost outer: bytes)
      requires indentString == outer + style.indentation
      modifies `indentString
      ensures indentString == outer
    {
      assert |indentString| >= |style.indentation|;
      indentString := indentString[..|indentString| - |style.indentation|];
    }

    // ------------------------------------------------------------ values

    method Write(root: Value)
      requires Valid(root) && Steady()
      modifies this
      ensures Steady()
      ensures sout == old(sout) + StyledText(root, style, [], true) + endingLineFeedSymbol
    {
      addChildValues := false;
      indented := true;
      indentString := [];
      WriteValue(root);
      sout := sout + endingLineFeedSymbol;
    }

    // Either collects the value's text as a child text, or writes it and leaves the indentation as
    // it was.
    method WriteValue(value: Value)
      requires Valid(value) && Steady() && (addChildValues ==> IsInline(value))
      modifies this
      ensures Steady() && indentString == old(indentString) && addChildValues == old(addChildValues)
      ensures addChildValues ==> sout == old(sout) && indented == old(indented)
                                 && childValues == old(childValues) + [InlineText(value, style.spelling)]
      ensures !addChildValues ==> sout == old(sout) + StyledText(value, style, old(indentString), old(indented))
                                  && (indented ==> old(indented))
      decreases Depth(value), 5
    {
      if IsInline(value) {
        InlineStyledText(value, style, indentString, indented);
      }
      if value.Array? {
        WriteArrayValue(value);
      } else if value.Obj? {
        WriteObjectValue(value);
      } else {
        var text := ScalarText(value);
        PushValue(text);
      }
    }

    method ScalarText(value: Value) returns (text: bytes)
      requires Valid(value) && !IsContainer(value)
      ensures text == InlineText(value, style.spelling)
    {
      ScalarRenders(value, style.spelling);
      if value.Null? {
        text := if style.spelling.dropNull then [] else NULL_TEXT;
      } else if value.Int? {
        text := Numbers.LargestIntToString(value.i);
      } else if value.UInt? {
        text := Numbers.LargestUIntToString(value.u);
      } else if value.Real? {
        text := style.spelling.show(value.r);
      } else if value.Str? {
        text := JsonStrings.ValueToQuotedStringN(value.s, style.spelling.emitUTF8);
      } else {
        text := if value.b then TRUE_TEXT else FALSE_TEXT;
      }
    }

    // ------------------------------------------------------------ objects

    method WriteObjectValue(value: Value)
      requires Valid(value) && value.Obj? && Steady() && (addChildValues ==> IsInline(value))
      modifies this
      ensures Steady() && indentString == old(indentString) && addChildValues == old(addChildValues)
      ensures addChildValues ==> sout == old(sout) && indented == old(indented)
                                 && childValues == old(childValues) + [InlineText(value, style.spelling)]
      ensures !addChildValues ==> sout == old(sout) + StyledText(value, style, old(indentString), old(indented))
                                  && (indented ==> old(indented))
      decreases Depth(value), 3
    {
      if value.entries == [] {
        EmptyRenders(value, style.spelling);
        InlineStyledText(value, style, indentString, indented);
        PushValue([LBRACE, RBRACE]);
      } else {
        ghost var outer := indentString;
        StyledObjectText(value, style, indentString, indented);
        WriteWithIndent([LBRACE]);
        Indent();
        WriteMembers(value);
        Unindent(outer);
        WriteWithIndent([RBRACE]);
        FlattenFrom(old(sout), LeadText(style, outer, old(indented)), [LBRACE],
                    StyledMembersText(value, style, outer + style.indentation), IndentText(style, outer), [RBRACE]);
      }
    }

    method WriteMembers(value: Value)
      requires Valid(value) && value.Obj? && value.entries != [] && Steady() && !addChildValues && !indented
      modifies this
      ensures Steady() && indentString == old(indentString) && !addChildValues && !indented
      ensures sout == old(sout) + StyledMembersText(value, style, indentString)
      decreases Depth(value), 2
    {
      hide Styled, StyledMembers, StyledMember, StyledMemberText, StyledMembersText, RestOfMembers, Render, Valid, EntriesBelow;
      hide Depth, MaxDepth, CommaText, IndentText, StyledText;
      MembersAreBelow(value);
      FirstMembers(value, style, indentString);
      var members := value.entries;
      ghost var bound, ind := Depth(value), indentString;
      ghost var whole := sout + RestOfMembers(members, 0, style, ind, bound);
      var it := 0;
      while true
        invariant it < |members| && Steady() && indentString == ind && !addChildValues && !indented
        invariant sout + RestOfMembers(members, it, style, ind, bound) == whole
        decreases |members| - it
      {
        WriteNextMember(members, it, ind, bound);
        it := it + 1;
        if it == |members| {
          break;
        }
        sout := sout + [COMMA];
      }
    }

    method WriteNextMember(members: seq<Entry>, it: nat, ghost ind: bytes, ghost bound: nat)
      requires it < |members| && EntriesBelow(members, bound)
      requires Steady() && indentString == ind && !addChildValues && !indented
      modifies this
      ensures Steady() && indentString == ind && !addChildValues && !indented
      ensures old(sout) + RestOfMembers(members, it, style, ind, bound)
              == if it + 1 == |members| then sout else sout + [COMMA] + RestOfMembers(members, it + 1, style, ind, bound)
      decreases bound, 0
    {
      MemberIsBelow(members, it, bound);
      MemberWritten(sout, members, it, style, ind, bound);
      hide RestOfMembers, StyledMemberText, EntriesBelow, Valid;
      WriteMember(members[it]);
    }

    method WriteMember(member: Entry)
      requires member.key.Name? && Valid(member.value) && Steady() && !addChildValues && !indented
      modifies this
      ensures Steady() && indentString == old(indentString) && !addChildValues && !indented
      ensures sout == old(sout) + StyledMemberText(member, style, indentString)
      decreases Depth(member.value), 6
    {
      var name := JsonStrings.ValueToQuotedStringN(member.key.s, style.spelling.emitUTF8);
      WriteWithIndent(name);
      sout := sout + ColonSymbol(style);
      WriteValue(member.value);
      FlattenFour(old(sout), IndentText(style, indentString), name, ColonSymbol(style),
                  StyledText(member.value, style, indentString, false));
    }

    // ------------------------------------------------------------ arrays

    method WriteArrayValue(value: Value)
      requires Valid(value) && value.Array? && Steady() && (addChildValues ==> IsInline(value))
      modifies this
      ensures Steady() && indentString == old(indentString) && addChildValues == old(addChildValues)
      ensures addChildValues ==> sout == old(sout) && indented == old(indented)
                                 && childValues == old(childValues) + [InlineText(value, style.spelling)]
      ensures !addChildValues ==> sout == old(sout) + StyledText(value, style, old(indentString), old(indented))
                                  && (indented ==> old(indented))
      decreases Depth(value), 4
    {
      var size := Size(value);
      if size == 0 {
        EmptyRenders(value, style.spelling);
        InlineStyledText(value, style, indentString, indented);
        PushValue([LBRACKET, RBRACKET]);
      } else {
        WriteItems(value);
      }
    }

    // What isMultilineArray leaves in childValues: nothing, or the text of every item.
    ghost predicate HasAllChildren(items: seq<Value>)
      reads this
    {
      AllInline(items) && childValues == ChildTexts(items, |items|, style.spelling)
    }

    method WriteItems(value: Value)
      requires Valid(value) && value.Array? && value.entries != [] && Steady() && !addChildValues
      modifies this
      ensures Steady() && indentString == old(indentString) && !addChildValues && (indented ==> old(indented))
      ensures sout == old(sout) + StyledText(value, style, old(indentString), old(indented))
      decreases Depth(value), 3
    {
      var isMultiLine := style.comments.AllComments?;
      if !isMultiLine {
        isMultiLine := IsMultilineArray(value);
      }
      if isMultiLine {
        WriteLines(value);
      } else {
        WriteOneLine(value);
      }
    }

    method WriteLines(value: Value)
      requires Valid(value) && value.Array? && value.entries != [] && Steady() && !addChildValues
      requires Multiline(Items(value), style)
      requires childValues == [] || HasAllChildren(Items(value))
      modifies this
      ensures Steady() && indentString == old(indentString) && !addChildValues && !indented
      ensures sout == old(sout) + StyledText(value, style, old(indentString), old(indented))
      decreases Depth(value), 2
    {
      ghost var outer := indentString;
      LinesText(value, style, indentString, indented);
      hide Styled, StyledText, StyledItemsText, Items, Multiline, LeadText, IndentText;
      WriteWithIndent([LBRACKET]);
      Indent();
      WriteItemLines(value);
      Unindent(outer);
      WriteWithIndent([RBRACKET]);
      FlattenFrom(old(sout), LeadText(style, outer, old(indented)), [LBRACKET],
                  StyledItemsText(value, style, outer + style.indentation, Newline(style, outer + style.indentation)),
                  IndentText(style, outer), [RBRACKET]);
    }

    method WriteItemLines(value: Value)
      requires Valid(value) && value.Array? && value.entries != [] && Steady() && !addChildValues && !indented
      requires childValues == [] || HasAllChildren(Items(value))
      modifies this
      ensures Steady() && indentString == old(indentString) && !addChildValues && !indented
      ensures sout == old(sout) + StyledItemsText(value, style, indentString, Newline(style, indentString))
      decreases Depth(value), 1
    {
      hide Styled, StyledItems, StyledText, StyledItemsText, RestOfItems, Render, Items, Slot, AllInline, IndentText;
      ghost var items, bound, ind := Items(value), Depth(value), indentString;
      ghost var gap := Newline(style, ind);
      FirstItems(value, style, ind, gap);
      var hasChildValue := childValues != [];
      var size := Size(value);
      var index := 0;
      while true
        invariant index < size == |items| && Steady() && indentString == ind && !addChildValues && !indented
        invariant hasChildValue ==> HasAllChildren(items)
        invariant sout + RestOfItems(items, index, style, ind, gap, bound)
               == old(sout) + RestOfItems(items, 0, style, ind, gap, bound)
        decreases size - index
      {
        BlankTexts(style, ind, false);
        ItemWritten(sout, items, index, style, ind, gap, bound);
        WriteItemLine(value, index, hasChildValue);
        index := index + 1;
        if index == size {
          break;
        }
        sout := sout + [COMMA];
      }
    }

    method WriteItemLine(value: Value, index: nat, hasChildValue: bool)
      requires Valid(value) && value.Array? && index < Size(value) && Steady() && !addChildValues && !indented
      requires hasChildValue ==> HasAllChildren(Items(value))
      modifies this
      ensures Steady() && indentString == old(indentString) && !addChildValues && !indented
      ensures sout == old(sout) + IndentText(style, indentString) + StyledText(Items(value)[index], style, indentString, true)
      ensures hasChildValue ==> childValues == old(childValues)
      decreases Depth(value), 0
    {
      ItemAt(value, index);
      if hasChildValue {
        InlineStyledText(Items(value)[index], style, indentString, true);
        ChildTextAt(Items(value), Size(value), index, style.spelling);
        WriteWithIndent(childValues[index]);
      } else {
        if !indented {
          WriteIndent();
        }
        indented := true;
        WriteValue(Slot(value, index));
        indented := false;
      }
    }

    // The code's own assertion about the number of child texts is the one below.
    method WriteOneLine(value: Value)
      requires Valid(value) && value.Array? && value.entries != [] && Steady() && !addChildValues
      requires HasAllChildren(Items(value)) && !Multiline(Items(value), style)
      modifies `sout
      ensures sout == old(sout) + StyledText(value, style, indentString, indented)
    {
      hide Styled, StyledText, StyledItemsText, Items, Multiline, PadText;
      var size := Size(value);
      assert |childValues| == size;
      LineText(value, style, indentString, indented);
      sout := sout + [LBRACKET];
      ghost var start := sout;
      sout := sout + PadText(style);
      WriteChildTexts(value, start);
      sout := sout + PadText(style);
      sout := sout + [RBRACKET];
      assert start + StyledItemsText(value, style, indentString, Pad(style)) == old(sout) + ([LBRACKET] + StyledItemsText(value, style, indentString, Pad(style)));
      Regroup(old(sout), [LBRACKET] + StyledItemsText(value, style, indentString, Pad(style)), PadText(style), [RBRACKET]);
    }

    // The items between the brackets; the first blank has been written already.
    method WriteChildTexts(value: Value, ghost start: bytes)
      requires Valid(value) && value.Array? && value.entries != []
      requires HasAllChildren(Items(value)) && sout == start + PadText(style)
      modifies `sout
      ensures sout == start + StyledItemsText(value, style, indentString, Pad(style))
    {
      hide Styled, StyledItems, StyledText, StyledItemsText, RestOfItems, Render, Items, InlineChunks, PadText, Pad;
      ghost var items, bound, gap := Items(value), Depth(value), Pad(style);
      BlankTexts(style, [], false);
      FirstItems(value, style, indentString, gap);
      var size := Size(value);
      var index := 0;
      ghost var before := start;
      while true
        invariant index < size == |items| && sout == before + PadText(style)
        invariant before + RestOfItems(items, index, style, indentString, gap, bound)
               == start + RestOfItems(items, 0, style, indentString, gap, bound)
        decreases size - index
      {
        ItemWritten(before, items, index, style, indentString, gap, bound);
        InlineStyledText(items[index], style, indentString, true);
        ChildTextAt(items, size, index, style.spelling);
        sout := sout + childValues[index];
        index := index + 1;
        if index == size {
          break;
        }
        sout := sout + [COMMA];
        before := sout;
        sout := sout + PadText(style);
      }
    }

    // Whether the array must be broken into lines. Child texts are collected for arrays whose items
    // all fit on one line, one for each item.
    method IsMultilineArray(value: Value) returns (isMultiLine: bool)
      requires Valid(value) && value.Array? && value.entries != []
      requires !style.comments.AllComments? && !addChildValues
      modifies this
      ensures sout == old(sout) && indentString == old(indentString) && indented == old(indented)
      ensures !addChildValues
      ensures isMultiLine == Multiline(Items(value), style)
      ensures childValues == [] || HasAllChildren(Items(value))
      ensures !isMultiLine ==> HasAllChildren(Items(value))
      decreases Depth(value), 1
    {
      hide Items, Slot, InlineChunks, Render;
      ghost var items := Items(value);
      var size := Size(value);
      isMultiLine := size * 3 % TWO_TO_THE_32 >= RIGHT_MARGIN;
      childValues := [];
      var index := 0;
      while index < size && !isMultiLine
        invariant index <= size == |items| && childValues == [] && !addChildValues
        invariant sout == old(sout) && indentString == old(indentString) && indented == old(indented)
        invariant !isMultiLine ==> !TooMany(items) && forall i :: 0 <= i < index ==> IsInline(items[i])
        invariant isMultiLine ==> TooMany(items) || !AllInline(items)
      {
        ItemAt(value, index);
        var childValue := Slot(value, index);
        isMultiLine := (childValue.Array? || childValue.Obj?) && Size(childValue) != 0;
        assert isMultiLine ==> items[index] in items && !IsInline(items[index]);
        index := index + 1;
      }
      if !isMultiLine {
        isMultiLine := CollectChildren(value);
      }
    }

    method CollectChildren(value: Value) returns (tooLong: bool)
      requires Valid(value) && value.Array? && value.entries != [] && AllInline(Items(value))
      requires !style.comments.AllComments? && !addChildValues && childValues == []
      modifies this
      ensures sout == old(sout) && indentString == old(indentString) && indented == old(indented)
      ensures !addChildValues && HasAllChildren(Items(value))
      ensures tooLong == LineTooLong(Items(value), style.spelling)
      decreases Depth(value), 0
    {
      hide Items, Slot, InlineChunks, Render;
      ghost var items := Items(value);
      var size := Size(value);
      addChildValues := true;
      var lineLength: nat := (4 + (size - 1) * 2) % TWO_TO_THE_32;
      var index := 0;
      while index < size
        invariant index <= size == |items| && addChildValues
        invariant sout == old(sout) && indentString == old(indentString) && indented == old(indented)
        invariant childValues == ChildTexts(items, index, style.spelling)
        invariant lineLength == (4 + (size - 1) * 2 + InlineLength(items, index, style.spelling)) % TWO_TO_THE_32
      {
        ItemAt(value, index);
        WriteValue(Slot(value, index));
        AddModulo(4 + (size - 1) * 2 + InlineLength(items, index, style.spelling), |childValues[index]|);
        lineLength := (lineLength + |childValues[index]| % TWO_TO_THE_32) % TWO_TO_THE_32;
        index := index + 1;
      }
      addChildValues := false;
      tooLong := lineLength >= RIGHT_MARGIN;
    }
  }

  lemma AddModulo(a: nat, b: nat)
    ensures (a % TWO_TO_THE_32 + b % TWO_TO_THE_32) % TWO_TO_THE_32 == (a + b) % TWO_TO_THE_32
  {
  }

  lemma FlattenFrom(z: bytes, a: bytes, b: bytes, c: bytes, d: bytes, e: bytes)
    ensures z + (a + b + c + d + e) == z + a + b + c + d + e
  {
  }

  lemma FlattenFour(z: bytes, a: bytes, b: bytes, c: bytes, d: bytes)
    ensures z + (a + b + c + d) == z + a + b + c + d
  {
  }
}
