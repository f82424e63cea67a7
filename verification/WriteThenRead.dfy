// The round trips: what the reader makes of what the writers wrote.
module WriteThenRead {
  import opened Bytes
  import opened Values
  import opened Layout
  import opened Documents
  import opened Scanner
  import opened ReaderSpec
  import opened RoundTrip
  import opened NormalForm
  import opened StyledLayout
  import FastWriter
  import StyledWriter
  import JsonStrings
  import Utf8

  // A line feed, or whatever white space a writer ends its text with.
  function Ending(s: bytes): seq<Chunk> { if s == [] then [] else [Space(s)] }

  lemma EndedLays(chunks: seq<Chunk>, ending: bytes, f: Features)
    requires Lexable(chunks) && AllSpace(ending)
    ensures Lays(Render(chunks) + ending, 0, Tokens(chunks), f)
  {
    var d := Render(chunks) + ending;
    hide Lays, Tokens;
    LexableConcat(chunks, Ending(ending));
    EndingRenders(ending);
    RenderConcat(chunks, Ending(ending));
    TokensConcat(chunks, Ending(ending));
    assert d[0..] == Render(chunks + Ending(ending));
    assert Tokens(chunks + Ending(ending)) == Tokens(chunks);
    LexableLays(d, 0, chunks + Ending(ending), f);
  }

  lemma EndingRenders(ending: bytes)
    requires AllSpace(ending)
    ensures Render(Ending(ending)) == ending && Tokens(Ending(ending)) == [] && Lexable(Ending(ending))
  {
    if ending != [] {
      StyledWriter.RenderSpace(ending);
    }
  }

  // What FastWriter.Write returns.
  ghost function FastDocument(v: Value, s: Spelling, yaml: bool, lineFeed: bool): bytes
    requires Valid(v)
  {
    Render(FastWriter.FastChunks(v, s, yaml)) + if lineFeed then [LF] else []
  }

  // What BuiltStyledStreamWriter.Write appends to its stream.
  ghost function StyledDocument(v: Value, c: Style, ending: bytes): bytes
    requires Valid(v)
  {
    StyledWriter.StyledText(v, c, [], true) + ending
  }

  // What a reader that was given a document spelling `v` comes to.
  ghost predicate Recovers(r: Outcome, v: Value, emitUTF8: bool, end: nat, f: Features)
    requires Valid(v)
  {
    if NamesOk(v, emitUTF8, f.rejectDupKeys) then r == Expected(v, emitUTF8, end, f) else r.Read? ==> !r.ok
  }

  // Every real-free tree, of any depth and over any bytes, and every feature set: from the compact
  // text the reader recovers the tree's normal form, throws when it is deeper than the stack limit,
  // and fails when a name comes back too long or, where names must be distinct, twice.
  lemma FastRoundTrip(v: Value, s: Spelling, yaml: bool, lineFeed: bool, root: Value, f: Features, fl: Floats)
    requires Readable(v) && !s.dropNull
    ensures var d := FastDocument(v, s, yaml, lineFeed);
            Recovers(Parse(d, root, f, fl), v, s.emitUTF8, |d|, f)
  {
    hide Lays, Parse, Expected, Render, Tokens, NamesOk;
    FastWriter.FastLexable(v, s, yaml);
    FastWriter.FastTokens(v, s, yaml);
    EndedLays(FastWriter.FastChunks(v, s, yaml), if lineFeed then [LF] else [], f);
    DocumentReads(FastDocument(v, s, yaml, lineFeed), v, s, root, f, fl);
  }

  // The same from the styled text, for every white-space indentation and comment style.
  lemma StyledRoundTrip(v: Value, c: Style, ending: bytes, root: Value, f: Features, fl: Floats)
    requires Readable(v) && !c.spelling.dropNull
    requires AllSpace(c.indentation) && AllSpace(ending)
    ensures var d := StyledDocument(v, c, ending);
            Recovers(Parse(d, root, f, fl), v, c.spelling.emitUTF8, |d|, f)
  {
    hide Lays, Parse, Expected, Render, Tokens, NamesOk;
    StyledLexable(v, c, [], true);
    StyledTokens(v, c, [], true);
    EndedLays(Styled(v, c, [], true), ending, f);
    DocumentReads(StyledDocument(v, c, ending), v, c.spelling, root, f, fl);
  }

  // One of the two writers with its settings.
  datatype Writer =
    | OneLine(plain: Spelling, yaml: bool, lineFeed: bool)
    | Indenting(style: Style, ending: bytes)
  {
    function Spells(): Spelling { if OneLine? then plain else style.spelling }

    predicate Suitable() { !Spells().dropNull && (Indenting? ==> AllSpace(style.indentation) && AllSpace(ending)) }

    ghost function Document(v: Value): bytes
      requires Valid(v)
    {
      if OneLine? then FastDocument(v, plain, yaml, lineFeed) else StyledDocument(v, style, ending)
    }
  }

  lemma WrittenRoundTrip(v: Value, w: Writer, root: Value, f: Features, fl: Floats)
    requires Readable(v) && w.Suitable()
    ensures var d := w.Document(v);
            Recovers(Parse(d, root, f, fl), v, w.Spells().emitUTF8, |d|, f)
  {
    hide Parse, Recovers, FastDocument, StyledDocument;
    match w
    case OneLine(s, yaml, lineFeed) => FastRoundTrip(v, s, yaml, lineFeed, root, f, fl);
    case Indenting(c, ending) => StyledRoundTrip(v, c, ending, root, f, fl);
  }

  // A tree is read back without an error exactly when its names are acceptable, it is not too deep
  // and it is a container where one is called for.
  lemma SucceedsExactlyWhen(v: Value, w: Writer, root: Value, f: Features, fl: Floats)
    requires Readable(v) && w.Suitable()
    ensures var r := Parse(w.Document(v), root, f, fl);
            r.Read? && r.ok <==> NamesOk(v, w.Spells().emitUTF8, f.rejectDupKeys) && Depth(v) <= f.stackLimit
                                 && (f.strictRoot ==> IsContainer(v))
  {
    hide Parse, FastDocument, StyledDocument, NamesOk, Norm;
    WrittenRoundTrip(v, w, root, f, fl);
  }

  // Names that survive are as short and as distinct as they were.
  lemma {:induction false} SurvivingNamesOk(v: Value, emitUTF8: bool, distinct: bool)
    requires Valid(v) && TextsSurvive(v, emitUTF8)
    ensures NamesOk(v, emitUTF8, distinct)
    decreases Depth(v)
  {
    if IsContainer(v) {
      forall e | e in v.entries ensures NamesOk(e.value, emitUTF8, distinct) {
        assert EntryDepth(e) <= MaxDepth(v.entries);
        SurvivingNamesOk(e.value, emitUTF8, distinct);
      }
      if v.Obj? {
        OwnNamesSurvive(v, emitUTF8, distinct);
      }
    }
  }

  lemma OwnNamesSurvive(v: Value, emitUTF8: bool, distinct: bool)
    requires Valid(v) && v.Obj? && TextsSurvive(v, emitUTF8)
    ensures OwnNamesOk(v.entries, emitUTF8, distinct)
  {
    forall i | 0 <= i < |v.entries| ensures v.entries[i].key == Name(NameRead(v.entries[i], emitUTF8)) {
      assert v.entries[i] in v.entries;
      TextSurvives(v.entries[i].key.s, emitUTF8);
    }
    forall i, j | 0 <= i < j < |v.entries| ensures v.entries[i].key != v.entries[j].key {
      KeyTrichotomy(v.entries[i].key, v.entries[j].key);
    }
    forall e | e in v.entries ensures |NameRead(e, emitUTF8)| <= MAX_KEY_LENGTH {
      var i :| 0 <= i < |v.entries| && v.entries[i] == e;
    }
  }

  // With no damaged text, under any features, the default and the strict ones among them: a tree
  // within the stack limit, and a container where one is called for, is read back without an error
  // as its canonical form; as itself, if and only if it is compact.
  lemma WellFormedRoundTrip(v: Value, w: Writer, root: Value, f: Features, fl: Floats)
    requires Readable(v) && w.Suitable()
    requires TextsSurvive(v, w.Spells().emitUTF8) && Depth(v) <= f.stackLimit && (f.strictRoot ==> IsContainer(v))
    ensures var d := w.Document(v);
            && Parse(d, root, f, fl) == Read(true, |d|, Canonical(v), [])
            && (Canonical(v) == v <==> Compact(v))
  {
    hide Parse, FastDocument, StyledDocument, NamesOk;
    SurvivingNamesOk(v, w.Spells().emitUTF8, f.rejectDupKeys);
    WrittenRoundTrip(v, w, root, f, fl);
    NormIsCanonical(v, w.Spells().emitUTF8);
    ComesBackUnchanged(v, w.Spells().emitUTF8);
  }

  // The two feature sets the library offers: every tree, and every container when they are strict.
  lemma DefaultAndStrictRoundTrip(v: Value, w: Writer, root: Value, fl: Floats)
    requires Readable(v) && w.Suitable() && TextsSurvive(v, w.Spells().emitUTF8) && Depth(v) <= 1000
    ensures var d := w.Document(v);
            && Parse(d, root, DEFAULT_FEATURES, fl) == Read(true, |d|, Canonical(v), [])
            && (IsContainer(v) ==> Parse(d, root, STRICT_FEATURES, fl) == Read(true, |d|, Canonical(v), []))
  {
    hide Parse, FastDocument, StyledDocument, Canonical;
    WellFormedRoundTrip(v, w, root, DEFAULT_FEATURES, fl);
    if IsContainer(v) {
      WellFormedRoundTrip(v, w, root, STRICT_FEATURES, fl);
    }
  }

  // ---------------------------------------------------------------- two trips

  // Writing what was read and reading it again gives the same tree, whatever bytes went in first and
  // whichever writers are used, if and only if the second writer does not escape what the first one
  // left damaged; which it never does unless the first passed bytes through raw and it does not.
  lemma SecondRoundTrip(v: Value, first: Writer, second: Writer, root: Value, f: Features, fl: Floats)
    requires Readable(v) && first.Suitable() && second.Suitable()
    ensures var once := Parse(first.Document(v), root, f, fl);
            once.Read? && once.ok ==>
              && Valid(once.value)
              && var d := second.Document(once.value);
                 && (Parse(d, root, f, fl) == Read(true, |d|, once.value, [])
                     <==> TextsSurvive(once.value, second.Spells().emitUTF8))
                 && ((first.Spells().emitUTF8 ==> second.Spells().emitUTF8)
                     ==> TextsSurvive(once.value, second.Spells().emitUTF8))
  {
    hide Parse, Norm, NamesOk, FastDocument, StyledDocument;
    WrittenRoundTrip(v, first, root, f, fl);
    var once := Parse(first.Document(v), root, f, fl);
    if once.Read? && once.ok {
      var e := second.Spells().emitUTF8;
      NormIsReadable(v, first.Spells().emitUTF8, f.rejectDupKeys);
      WrittenRoundTrip(once.value, second, root, f, fl);
      ComesBackUnchanged(once.value, e);
      if TextsSurvive(once.value, e) {
        SurvivingNamesOk(once.value, e, f.rejectDupKeys);
      }
    }
  }

  lemma {:induction false} DistinctIsStricter(v: Value, emitUTF8: bool, distinct: bool)
    requires Valid(v) && NamesOk(v, emitUTF8, distinct)
    ensures NamesOk(v, emitUTF8, false)
    decreases Depth(v)
  {
    if IsContainer(v) {
      forall e | e in v.entries ensures NamesOk(e.value, emitUTF8, false) {
        assert EntryDepth(e) <= MaxDepth(v.entries);
        DistinctIsStricter(e.value, emitUTF8, distinct);
      }
    }
  }

  lemma NormIsReadable(v: Value, emitUTF8: bool, distinct: bool)
    requires Readable(v) && NamesOk(v, emitUTF8, distinct)
    ensures NamesOk(v, emitUTF8, false)
    ensures Readable(Norm(v, emitUTF8)) && Depth(Norm(v, emitUTF8)) <= Depth(v)
    ensures Compact(Norm(v, emitUTF8)) && TextsSurvive(Norm(v, emitUTF8), emitUTF8)
    ensures IsContainer(Norm(v, emitUTF8)) == IsContainer(v)
  {
    DistinctIsStricter(v, emitUTF8, distinct);
    NormIsNormal(v, emitUTF8, Legible);
  }

  // ---------------------------------------------------------------- single strings

  // Any byte string, escaped and followed by anything at all, is taken as exactly one string token,
  // which is decoded without error through its last byte: to the very string when bytes are passed
  // through raw, and otherwise from pure ASCII to well-formed UTF-8.
  lemma StringRoundTrip(s: bytes, emitUTF8: bool, rest: bytes, f: Features)
    ensures var q := JsonStrings.Quoted(s, emitUTF8);
            var t := ReadToken(q + rest, 0, f);
            && t == Token(String, 0, |q|)
            && StringOf(q + rest, t) == JsonStrings.Text(JsonStrings.Reread(s, emitUTF8), |q| - 2)
            && (emitUTF8 ==> JsonStrings.Reread(s, emitUTF8) == s)
            && (!emitUTF8 ==> JsonStrings.Printable(q) && Utf8.WellFormed(JsonStrings.Reread(s, emitUTF8)))
  {
    var q := JsonStrings.Quoted(s, emitUTF8);
    assert (q + rest)[0..|q|] == q;
    FastWriter.QuotedOk(s, emitUTF8);
    TokenLexes(q + rest, 0, Tok(String, q), f);
    ScalarString(q + rest, Token(String, 0, |q|), s, emitUTF8);
    JsonStrings.EscapedIsPrintable(s);
    JsonStrings.TotalEscaping(s);
  }

  lemma StringTokenEnds(d: bytes, p: nat, f: Features)
    requires p <= |d|
    requires var t := ReadToken(d, p, f); t.kind == String && d[t.start] == QUOTE
    ensures var t := ReadToken(d, p, f); t.start + 2 <= t.end && StringEnd(d, t.start + 1, QUOTE) == Scan(true, t.end)
  {
  }

  // Any double-quoted string token the tokenizer finds, in any document, is decoded through its
  // last byte or fails for a reason other than a dangling backslash.
  lemma StringTokensAreReadThrough(d: bytes, p: nat, f: Features)
    requires p <= |d|
    requires var t := ReadToken(d, p, f); t.kind == String && d[t.start] == QUOTE
    ensures var t := ReadToken(d, p, f);
            match StringOf(d, t)
            case Text(_, used) => t.start + 2 + used == t.end
            case Failed(e) => e != JsonStrings.EmptyEscape
  {
    hide ReadToken, StringEnd, JsonStrings.DecodeBody, JsonStrings.Closed;
    var t := ReadToken(d, p, f);
    StringTokenEnds(d, p, f);
    StringBodyIsClosed(d, t.start + 1);
    JsonStrings.ClosedBodyIsReadThrough(d[t.start + 1..t.end - 1]);
  }
}
