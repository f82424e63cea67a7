// FastWriter: the compact writer, proved to produce the layout FastChunks, and the proof that this
// layout consists of exactly the tokens of the tree.
module FastWriter {
  import opened Bytes
  import opened Values
  import opened Layout
  import opened Documents
  import JsonStrings
  import Numbers
  import Scanner

  function AsChunks(toks: seq<Tok>): seq<Chunk> {
    if toks == [] then [] else [Tk(toks[0])] + AsChunks(toks[1..])
  }

  function ColonChunks(yaml: bool): seq<Chunk> {
    [Tk(Mark(Scanner.MemberSeparator))] + if yaml then [Space([SPACE])] else []
  }

  function CommaChunks(k: nat): seq<Chunk> {
    if k > 0 then [Tk(Mark(Scanner.ArraySeparator))] else []
  }

  function KeyChunks(key: Key, s: Spelling, yaml: bool): seq<Chunk>
    requires key.Name?
  {
    [Tk(Tok(Scanner.String, JsonStrings.Quoted(key.s, s.emitUTF8)))] + ColonChunks(yaml)
  }

  // The layout FastWriter produces.
  ghost function FastChunks(v: Value, s: Spelling, yaml: bool): seq<Chunk>
    requires Valid(v)
    decreases Depth(v)
  {
    match v
    case Array(_) => AsChunks(OPEN_ARRAY) + FastItems(Items(v), 0, s, yaml, Depth(v)) + AsChunks(CLOSE_ARRAY)
    case Obj(entries) =>
      AsChunks(OPEN_OBJECT) + FastMembers(entries, 0, s, yaml, Depth(v)) + AsChunks(CLOSE_OBJECT)
    case _ => AsChunks(ScalarTokens(v, s))
  }

  ghost function FastItems(items: seq<Value>, k: nat, s: Spelling, yaml: bool, bound: nat): seq<Chunk>
    requires k <= |items| && ItemsBelow(items, bound)
    decreases bound, |items| - k
  {
    if k == |items| then []
    else CommaChunks(k) + FastChunks(items[k], s, yaml) + FastItems(items, k + 1, s, yaml, bound)
  }

  ghost function FastMembers(entries: seq<Entry>, k: nat, s: Spelling, yaml: bool, bound: nat): seq<Chunk>
    requires k <= |entries| && EntriesBelow(entries, bound)
    decreases bound, |entries| - k
  {
    if k == |entries| then []
    else CommaChunks(k) + (KeyChunks(entries[k].key, s, yaml) + FastChunks(entries[k].value, s, yaml))
         + FastMembers(entries, k + 1, s, yaml, bound)
  }

  // ---------------------------------------------------------------- the same tokens

  lemma {:induction false} TokensOfChunks(toks: seq<Tok>)
    ensures Tokens(AsChunks(toks)) == toks
  {
    if toks != [] {
      TokensOfChunks(toks[1..]);
      ConsStep(Tk(toks[0]), AsChunks(toks[1..]));
    }
  }

  lemma SeparatorTokens(k: nat, yaml: bool)
    ensures Tokens(CommaChunks(k)) == if k > 0 then SEPARATOR else []
    ensures Tokens(ColonChunks(yaml)) == MEMBER_SEPARATOR
  {
    ConsStep(Tk(Mark(Scanner.ArraySeparator)), []);
    ConsStep(Tk(Mark(Scanner.MemberSeparator)), if yaml then [Space([SPACE])] else []);
    assert Tokens([Space([SPACE])]) == [];
  }

  lemma KeyTokensMatch(key: Key, s: Spelling, yaml: bool)
    requires key.Name?
    ensures Tokens(KeyChunks(key, s, yaml)) == KeyTokens(key, s)
  {
    SeparatorTokens(0, yaml);
    ConsStep(Tk(Tok(Scanner.String, JsonStrings.Quoted(key.s, s.emitUTF8))), ColonChunks(yaml));
  }

  lemma TokensOfThree(a: seq<Chunk>, b: seq<Chunk>, c: seq<Chunk>)
    ensures Tokens(a + b + c) == Tokens(a) + Tokens(b) + Tokens(c)
  {
    TokensConcat(a + b, c);
    TokensConcat(a, b);
  }

  lemma {:induction false} FastTokens(v: Value, s: Spelling, yaml: bool)
    requires Valid(v)
    ensures Tokens(FastChunks(v, s, yaml)) == ValueTokens(v, s)
    decreases Depth(v)
  {
    match v
    case Array(_) =>
      FastItemsTokens(Items(v), 0, s, yaml, Depth(v));
      TokensOfThree(AsChunks(OPEN_ARRAY), FastItems(Items(v), 0, s, yaml, Depth(v)), AsChunks(CLOSE_ARRAY));
      TokensOfChunks(OPEN_ARRAY);
      TokensOfChunks(CLOSE_ARRAY);
    case Obj(entries) =>
      FastMembersTokens(entries, 0, s, yaml, Depth(v));
      TokensOfThree(AsChunks(OPEN_OBJECT), FastMembers(entries, 0, s, yaml, Depth(v)), AsChunks(CLOSE_OBJECT));
      TokensOfChunks(OPEN_OBJECT);
      TokensOfChunks(CLOSE_OBJECT);
    case _ => TokensOfChunks(ScalarTokens(v, s));
  }

  lemma {:induction false} FastItemsTokens(items: seq<Value>, k: nat, s: Spelling, yaml: bool, bound: nat)
    requires k <= |items| && ItemsBelow(items, bound)
    ensures Tokens(FastItems(items, k, s, yaml, bound)) == ItemTokens(items, k, s, bound)
    decreases bound, |items| - k
  {
    if k < |items| {
      SeparatorTokens(k, yaml);
      FastTokens(items[k], s, yaml);
      FastItemsTokens(items, k + 1, s, yaml, bound);
      TokensOfThree(CommaChunks(k), FastChunks(items[k], s, yaml), FastItems(items, k + 1, s, yaml, bound));
    }
  }

  lemma {:induction false} FastMembersTokens(entries: seq<Entry>, k: nat, s: Spelling, yaml: bool, bound: nat)
    requires k <= |entries| && EntriesBelow(entries, bound)
    ensures Tokens(FastMembers(entries, k, s, yaml, bound)) == MemberTokens(entries, k, s, bound)
    decreases bound, |entries| - k
  {
    if k < |entries| {
      SeparatorTokens(k, yaml);
      KeyTokensMatch(entries[k].key, s, yaml);
      FastTokens(entries[k].value, s, yaml);
      FastMembersTokens(entries, k + 1, s, yaml, bound);
      var key, value := KeyChunks(entries[k].key, s, yaml), FastChunks(entries[k].value, s, yaml);
      TokensConcat(key, value);
      TokensOfThree(CommaChunks(k), key + value, FastMembers(entries, k + 1, s, yaml, bound));
    }
  }

  // ---------------------------------------------------------------- lexable

  predicate StartsSeparate(c: seq<Chunk>) { c == [] || Separates(c[0]) }

  lemma ScalarLexable(v: Value, s: Spelling)
    requires !IsContainer(v) && RealFree(v)
    ensures Lexable(AsChunks(ScalarTokens(v, s)))
  {
    var toks := ScalarTokens(v, s);
    if toks != [] {
      assert AsChunks(toks) == [Tk(toks[0])];
      ScalarTokOk(v, s);
    }
  }

  lemma ScalarTokOk(v: Value, s: Spelling)
    requires !IsContainer(v) && RealFree(v) && ScalarTokens(v, s) != []
    ensures TokOk(ScalarTokens(v, s)[0])
  {
    match v
    case Int(i) => NumeralOk(i as int);
    case UInt(u) => NumeralOk(u as int);
    case Str(t) => QuotedOk(t, s.emitUTF8);
    case _ =>
  }

  lemma NumeralOk(x: int)
    ensures IsNumeral(Numbers.DecimalInt(x))
  {
    Numbers.DecimalIsDigits(if x < 0 then -x else x);
    if x < 0 {
      assert Numbers.DecimalInt(x)[1..] == Numbers.Decimal(-x);
    } else {
      assert IsDigit(Numbers.Decimal(x)[0]);
    }
  }

  lemma QuotedOk(t: bytes, emitUTF8: bool)
    ensures IsQuoted(JsonStrings.Quoted(t, emitUTF8))
  {
    JsonStrings.EscapedIsClosed(t, emitUTF8);
    var q := JsonStrings.Quoted(t, emitUTF8);
    assert q[1..|q| - 1] == JsonStrings.EscapeBody(t, emitUTF8);
  }

  lemma {:induction false} FastLexable(v: Value, s: Spelling, yaml: bool)
    requires Valid(v) && RealFree(v)
    ensures Lexable(FastChunks(v, s, yaml))
    decreases Depth(v)
  {
    match v
    case Array(_) =>
      FastItemsLexable(Items(v), 0, s, yaml, Depth(v));
      Bracket(OPEN_ARRAY, FastItems(Items(v), 0, s, yaml, Depth(v)), CLOSE_ARRAY);
    case Obj(entries) =>
      FastMembersLexable(entries, 0, s, yaml, Depth(v));
      Bracket(OPEN_OBJECT, FastMembers(entries, 0, s, yaml, Depth(v)), CLOSE_OBJECT);
    case _ => ScalarLexable(v, s);
  }

  lemma Bracket(open: seq<Tok>, c: seq<Chunk>, close: seq<Tok>)
    requires |open| == |close| == 1 && TokOk(open[0]) && TokOk(close[0])
    requires IsPunctuation(open[0].kind) && IsPunctuation(close[0].kind) && Lexable(c)
    ensures Lexable(AsChunks(open) + c + AsChunks(close))
  {
    assert AsChunks(open) == [Tk(open[0])] && AsChunks(close) == [Tk(close[0])];
    LexableConcat([Tk(open[0])], c);
    LexableConcat([Tk(open[0])] + c, [Tk(close[0])]);
  }

  // A list whose first element, if k > 0, is preceded by a comma.
  lemma {:induction false} FastItemsLexable(items: seq<Value>, k: nat, s: Spelling, yaml: bool, bound: nat)
    requires k <= |items| && ItemsBelow(items, bound) && forall x :: x in items ==> RealFree(x)
    ensures Lexable(FastItems(items, k, s, yaml, bound))
    ensures k > 0 ==> StartsSeparate(FastItems(items, k, s, yaml, bound))
    decreases bound, |items| - k
  {
    if k < |items| {
      FastLexable(items[k], s, yaml);
      FastItemsLexable(items, k + 1, s, yaml, bound);
      Listed(k, FastChunks(items[k], s, yaml), FastItems(items, k + 1, s, yaml, bound));
    }
  }

  lemma Listed(k: nat, c: seq<Chunk>, rest: seq<Chunk>)
    requires Lexable(c) && Lexable(rest) && StartsSeparate(rest)
    ensures Lexable(CommaChunks(k) + c + rest)
    ensures k > 0 ==> StartsSeparate(CommaChunks(k) + c + rest)
  {
    LexableConcat(CommaChunks(k), c);
    LexableConcat(CommaChunks(k) + c, rest);
  }

  lemma KeyLexable(key: Key, s: Spelling, yaml: bool, c: seq<Chunk>)
    requires key.Name? && Lexable(c)
    ensures Lexable(KeyChunks(key, s, yaml) + c)
  {
    QuotedOk(key.s, s.emitUTF8);
    LexableConcat(KeyChunks(key, s, yaml), c);
  }

  lemma {:induction false} FastMembersLexable(entries: seq<Entry>, k: nat, s: Spelling, yaml: bool, bound: nat)
    requires k <= |entries| && EntriesBelow(entries, bound) && forall e :: e in entries ==> RealFree(e.value)
    ensures Lexable(FastMembers(entries, k, s, yaml, bound))
    ensures k > 0 ==> StartsSeparate(FastMembers(entries, k, s, yaml, bound))
    decreases bound, |entries| - k
  {
    if k < |entries| {
      var c, rest := FastChunks(entries[k].value, s, yaml), FastMembers(entries, k + 1, s, yaml, bound);
      var key := KeyChunks(entries[k].key, s, yaml);
      FastLexable(entries[k].value, s, yaml);
      FastMembersLexable(entries, k + 1, s, yaml, bound);
      KeyLexable(entries[k].key, s, yaml, c);
      Listed(k, key + c, rest);
    }
  }

  // ---------------------------------------------------------------- the writer

  // The text of a list from its k-th element on.
  ghost function ItemsText(items: seq<Value>, k: nat, s: Spelling, yaml: bool, bound: nat): bytes
    requires k <= |items| && ItemsBelow(items, bound)
  {
    Render(FastItems(items, k, s, yaml, bound))
  }

  ghost function MembersText(entries: seq<Entry>, k: nat, s: Spelling, yaml: bool, bound: nat): bytes
    requires k <= |entries| && EntriesBelow(entries, bound)
  {
    Render(FastMembers(entries, k, s, yaml, bound))
  }

  lemma RenderOfThree(a: seq<Chunk>, b: seq<Chunk>, c: seq<Chunk>)
    ensures Render(a + b + c) == Render(a) + Render(b) + Render(c)
  {
    RenderConcat(a + b, c);
    RenderConcat(a, b);
  }

  lemma RenderOne(t: Tok)
    ensures Render(AsChunks([t])) == t.text
    ensures Render([Tk(t)]) == t.text
  {
    assert AsChunks([t]) == [Tk(t)];
  }

  function CommaText(k: nat): bytes { if k > 0 then [COMMA] else [] }

  function ColonText(yaml: bool): bytes { if yaml then [COLON, SPACE] else [COLON] }

  lemma CommaRenders(k: nat)
    ensures Render(CommaChunks(k)) == CommaText(k)
  {
    RenderOne(Mark(Scanner.ArraySeparator));
  }

  lemma ItemsTextStep(done: bytes, items: seq<Value>, k: nat, s: Spelling, yaml: bool, bound: nat)
    requires k < |items| && ItemsBelow(items, bound)
    ensures done + ItemsText(items, k, s, yaml, bound)
            == done + CommaText(k) + Render(FastChunks(items[k], s, yaml)) + ItemsText(items, k + 1, s, yaml, bound)
  {
    var item, rest := FastChunks(items[k], s, yaml), FastItems(items, k + 1, s, yaml, bound);
    assert FastItems(items, k, s, yaml, bound) == CommaChunks(k) + item + rest;
    hide FastItems, FastChunks, CommaChunks, Render;
    RenderOfThree(CommaChunks(k), item, rest);
    CommaRenders(k);
    Regroup(done, CommaText(k), Render(item), Render(rest));
  }

  lemma KeyText(key: Key, s: Spelling, yaml: bool)
    requires key.Name?
    ensures Render(KeyChunks(key, s, yaml))
            == JsonStrings.Quoted(key.s, s.emitUTF8) + ColonText(yaml)
  {
    var k := Tok(Scanner.String, JsonStrings.Quoted(key.s, s.emitUTF8));
    ConsStep(Tk(k), ColonChunks(yaml));
    ConsStep(Tk(Mark(Scanner.MemberSeparator)), if yaml then [Space([SPACE])] else []);
    assert Render([Space([SPACE])]) == [SPACE];
  }

  // A member's name, colon and value.
  ghost function MemberText(e: Entry, s: Spelling, yaml: bool): bytes
    requires e.key.Name? && Valid(e.value)
  {
    JsonStrings.Quoted(e.key.s, s.emitUTF8) + ColonText(yaml) + Render(FastChunks(e.value, s, yaml))
  }

  lemma MembersTextStep(done: bytes, entries: seq<Entry>, k: nat, s: Spelling, yaml: bool, bound: nat)
    requires k < |entries| && EntriesBelow(entries, bound)
    ensures done + MembersText(entries, k, s, yaml, bound)
            == done + CommaText(k) + MemberText(entries[k], s, yaml) + MembersText(entries, k + 1, s, yaml, bound)
  {
    var key, value := KeyChunks(entries[k].key, s, yaml), FastChunks(entries[k].value, s, yaml);
    var rest := FastMembers(entries, k + 1, s, yaml, bound);
    assert FastMembers(entries, k, s, yaml, bound) == CommaChunks(k) + (key + value) + rest;
    hide FastMembers, FastChunks, CommaChunks, Render;
    RenderConcat(key, value);
    RenderOfThree(CommaChunks(k), key + value, rest);
    CommaRenders(k);
    KeyText(entries[k].key, s, yaml);
    Regroup(done, CommaText(k), MemberText(entries[k], s, yaml), Render(rest));
  }

  lemma BracketText(open: Tok, c: seq<Chunk>, close: Tok)
    ensures Render(AsChunks([open]) + c + AsChunks([close])) == open.text + Render(c) + close.text
  {
    RenderOfThree(AsChunks([open]), c, AsChunks([close]));
    RenderOne(open);
    RenderOne(close);
  }

  lemma ArrayText(v: Value, s: Spelling, yaml: bool)
    requires Valid(v) && v.Array?
    ensures Render(FastChunks(v, s, yaml)) == [LBRACKET] + ItemsText(Items(v), 0, s, yaml, Depth(v)) + [RBRACKET]
  {
    BracketText(Mark(Scanner.ArrayBegin), FastItems(Items(v), 0, s, yaml, Depth(v)), Mark(Scanner.ArrayEnd));
  }

  lemma ObjectText(v: Value, s: Spelling, yaml: bool)
    requires Valid(v) && v.Obj?
    ensures Render(FastChunks(v, s, yaml)) == [LBRACE] + MembersText(v.entries, 0, s, yaml, Depth(v)) + [RBRACE]
  {
    BracketText(Mark(Scanner.ObjectBegin), FastMembers(v.entries, 0, s, yaml, Depth(v)), Mark(Scanner.ObjectEnd));
  }

  lemma ScalarText(v: Value, s: Spelling, yaml: bool)
    requires Valid(v) && !IsContainer(v)
    ensures Render(FastChunks(v, s, yaml))
            == if ScalarTokens(v, s) == [] then [] else ScalarTokens(v, s)[0].text
  {
    if ScalarTokens(v, s) != [] {
      RenderOne(ScalarTokens(v, s)[0]);
    }
  }

  class FastWriter {
    var document: bytes
    var yamlCompatibilityEnabled: bool
    var dropNull: bool
    var omitEndingLineFeed: bool
    const show: Real -> bytes

    constructor (show: Real -> bytes)
      ensures this.show == show && document == []
      ensures !yamlCompatibilityEnabled && !dropNull && !omitEndingLineFeed
    {
      this.show := show;
      document, yamlCompatibilityEnabled, dropNull, omitEndingLineFeed := [], false, false, false;
    }

    method EnableYAMLCompatibility()
      modifies `yamlCompatibilityEnabled
      ensures yamlCompatibilityEnabled
    {
      yamlCompatibilityEnabled := true;
    }

    method DropNullPlaceholders()
      modifies `dropNull
      ensures dropNull
    {
      dropNull := true;
    }

    method OmitEndingLineFeed()
      modifies `omitEndingLineFeed
      ensures omitEndingLineFeed
    {
      omitEndingLineFeed := true;
    }

    function Spells(): Spelling
      reads this
    {
      Spelling(dropNull, false, show)
    }

    ghost function TextOf(v: Value): bytes
      reads this
      requires Valid(v)
    {
      Render(FastChunks(v, Spells(), yamlCompatibilityEnabled))
    }

    method Write(root: Value) returns (text: bytes)
      requires Valid(root)
      modifies `document
      ensures text == document == TextOf(root) + (if omitEndingLineFeed then [] else [LF])
    {
      document := [];
      WriteValue(root);
      if !omitEndingLineFeed {
        document := document + [LF];
      }
      text := document;
    }

    method WriteValue(value: Value)
      requires Valid(value)
      modifies `document
      ensures document == old(document) + TextOf(value)
      decreases Depth(value), 2
    {
      if value.Array? {
        WriteArray(value);
      } else if value.Obj? {
        WriteObject(value);
      } else {
        WriteScalar(value);
      }
    }

    method WriteScalar(value: Value)
      requires Valid(value) && !IsContainer(value)
      modifies `document
      ensures document == old(document) + TextOf(value)
    {
      ScalarText(value, Spells(), yamlCompatibilityEnabled);
      var text: bytes := [];
      if value.Null? {
        text := if dropNull then [] else NULL_TEXT;
      } else if value.Int? {
        text := Numbers.LargestIntToString(value.i);
      } else if value.UInt? {
        text := Numbers.LargestUIntToString(value.u);
      } else if value.Real? {
        text := show(value.r);
      } else if value.Str? {
        text := JsonStrings.ValueToQuotedStringN(value.s, false);
      } else {
        text := if value.b then TRUE_TEXT else FALSE_TEXT;
      }
      document := document + text;
    }

    method WriteArray(value: Value)
      requires Valid(value) && value.Array?
      modifies `document
      ensures document == old(document) + TextOf(value)
      decreases Depth(value), 1
    {
      document := document + [LBRACKET];
      WriteItems(value);
      document := document + [RBRACKET];
      ghost var items := ItemsText(Items(value), 0, Spells(), yamlCompatibilityEnabled, Depth(value));
      ArrayText(value, Spells(), yamlCompatibilityEnabled);
      Regroup(old(document), [LBRACKET], items, [RBRACKET]);
    }

    method WriteItems(value: Value)
      requires Valid(value) && value.Array?
      modifies `document
      ensures document == old(document) + ItemsText(Items(value), 0, Spells(), yamlCompatibilityEnabled, Depth(value))
      decreases Depth(value), 0
    {
      hide FastChunks, FastItems, Items, Slot;
      ghost var items, s, yaml, bound := Items(value), Spells(), yamlCompatibilityEnabled, Depth(value);
      var size := Size(value);
      var index := 0;
      while index < size
        invariant index <= size == |items|
        invariant document + ItemsText(items, index, s, yaml, bound)
               == old(document) + ItemsText(items, 0, s, yaml, bound)
      {
        ItemsTextStep(document, items, index, s, yaml, bound);
        ItemAt(value, index);
        document := document + CommaText(index);
        WriteValue(Slot(value, index));
        index := index + 1;
      }
      NoItemsLeft(items, s, yaml, bound);
    }

    method WriteMember(member: Entry)
      requires member.key.Name? && Valid(member.value)
      modifies `document
      ensures document == old(document) + MemberText(member, Spells(), yamlCompatibilityEnabled)
      decreases Depth(member.value), 3
    {
      var name := JsonStrings.ValueToQuotedStringN(member.key.s, false);
      Regroup(old(document), name, ColonText(yamlCompatibilityEnabled), TextOf(member.value));
      document := document + name;
      document := document + ColonText(yamlCompatibilityEnabled);
      WriteValue(member.value);
    }

    method WriteObject(value: Value)
      requires Valid(value) && value.Obj?
      modifies `document
      ensures document == old(document) + TextOf(value)
      decreases Depth(value), 1
    {
      document := document + [LBRACE];
      WriteMembers(value);
      document := document + [RBRACE];
      ghost var members := MembersText(value.entries, 0, Spells(), yamlCompatibilityEnabled, Depth(value));
      ObjectText(value, Spells(), yamlCompatibilityEnabled);
      Regroup(old(document), [LBRACE], members, [RBRACE]);
    }

    method WriteMembers(value: Value)
      requires Valid(value) && value.Obj?
      modifies `document
      ensures document == old(document) + MembersText(value.entries, 0, Spells(), yamlCompatibilityEnabled, Depth(value))
      decreases Depth(value), 0
    {
      hide FastChunks, FastMembers, MemberText;
      var members := value.entries;
      ghost var s, yaml, bound := Spells(), yamlCompatibilityEnabled, Depth(value);
      var it := 0;
      while it != |members|
        invariant it <= |members|
        invariant document + MembersText(members, it, s, yaml, bound)
               == old(document) + MembersText(members, 0, s, yaml, bound)
        decreases |members| - it
      {
        MembersTextStep(document, members, it, s, yaml, bound);
        document := document + CommaText(it);
        assert members[it] in members;
        WriteMember(members[it]);
        it := it + 1;
      }
      NoMembersLeft(members, s, yaml, bound);
    }
  }

  lemma NoItemsLeft(items: seq<Value>, s: Spelling, yaml: bool, bound: nat)
    requires ItemsBelow(items, bound)
    ensures ItemsText(items, |items|, s, yaml, bound) == []
  {
  }

  lemma NoMembersLeft(entries: seq<Entry>, s: Spelling, yaml: bool, bound: nat)
    requires EntriesBelow(entries, bound)
    ensures MembersText(entries, |entries|, s, yaml, bound) == []
  {
  }
}
