// What the styled layout looks like: a style guide as an automaton over tokens and white space, which
// says nothing of trees, and the proof that every layout follows it. White space is a line break with
// its indentation, or one blank.
module Indentation {
  import opened Bytes
  import opened Values
  import opened Layout
  import opened Documents
  import opened StyledLayout
  import opened Fast = FastWriter
  import JsonStrings
  import Scanner
  import StyledWriter

  // The indentation of the outermost line and of each container, whether colons are written as in
  // YAML, and whether the place of a value may stay empty.
  datatype Guide = Guide(start: bytes, unit: bytes, yaml: bool, gaps: bool)

  // What stands last; `first` lines start a member or an item.
  datatype Last = Other | Blank | Opened | Separated | Coloned | Line(indent: bytes, first: bool)

  // The containers that are open, and which of them are broken into lines.
  datatype State = State(multi: seq<bool>, last: Last)

  function Copies(unit: bytes, k: nat): bytes { if k == 0 then [] else Copies(unit, k - 1) + unit }

  function Broken(multi: seq<bool>): nat {
    if multi == [] then 0 else Broken(multi[..|multi| - 1]) + (if multi[|multi| - 1] then 1 else 0)
  }

  // A line inside is indented once for every open container that is broken into lines.
  function IndentOf(multi: seq<bool>, g: Guide): bytes { g.start + Copies(g.unit, Broken(multi)) }

  predicate InLines(st: State) { st.multi != [] && st.multi[|st.multi| - 1] }

  predicate OnOneLine(st: State) { st.multi != [] && !st.multi[|st.multi| - 1] }

  function Outer(st: State): seq<bool>
    requires st.multi != []
  {
    st.multi[..|st.multi| - 1]
  }

  predicate Opens(k: Scanner.Kind) { k == Scanner.ObjectBegin || k == Scanner.ArrayBegin }

  predicate Closes(k: Scanner.Kind) { k == Scanner.ObjectEnd || k == Scanner.ArrayEnd }

  // A line break: after an opening bracket, which makes the container one of lines; in such a
  // container after every comma, before the closing bracket, and before an opening one after a colon.
  function Break(st: State, indent: bytes): Option<State> {
    match st.last
    case Opened => Some(State(st.multi + [true], Line(indent, true)))
    case Separated => if InLines(st) then Some(State(st.multi, Line(indent, true))) else None
    case Other => if InLines(st) then Some(State(st.multi, Line(indent, false))) else None
    case Blank => if InLines(st) then Some(State(st.multi, Line(indent, false))) else None
    case _ => None
  }

  // A blank: inside the brackets and after the commas of a container on one line, and around colons.
  function Pause(st: State): Option<State> {
    match st.last
    case Opened => Some(State(st.multi + [false], Blank))
    case Separated => if OnOneLine(st) then Some(State(st.multi, Blank)) else None
    case Coloned => Some(State(st.multi, Blank))
    case Other => Some(State(st.multi, Blank))
    case _ => None
  }

  function Close(st: State): Option<State> {
    match st.last
    case Opened => Some(State(st.multi, Other))
    case Line(indent, first) => None
    case Blank => if OnOneLine(st) then Some(State(Outer(st), Other)) else None
    case _ => None
  }

  // A closing bracket on a line of its own has the indentation of what is around its container.
  function CloseLine(st: State, indent: bytes, g: Guide): Option<State> {
    if InLines(st) && indent == IndentOf(Outer(st), g) then Some(State(Outer(st), Other)) else None
  }

  // Where a value or a name may start.
  predicate Ready(st: State, opens: bool, g: Guide) {
    match st.last
    case Line(indent, first) => indent == IndentOf(st.multi, g) && (first || opens)
    case Blank => true
    case Other => st.multi == []
    case _ => false
  }

  // What comes behind a value.
  predicate EndsValue(st: State, c: Chunk) {
    match c
    case Space(s) => s != [] && (s[0] == LF || (s == [SPACE] && OnOneLine(st)))
    case Tk(t) => t.kind == Scanner.ArraySeparator
  }

  // Where the place of a value stays empty, what comes behind it follows at once.
  function Step(st: State, c: Chunk, g: Guide): Option<State> {
    if Put(st, c, g).None? && g.gaps && Ready(st, false, g) && EndsValue(st, c) then Put(State(st.multi, Other), c, g)
    else Put(st, c, g)
  }

  function Put(st: State, c: Chunk, g: Guide): Option<State> {
    match c
    case Space(s) =>
      if s == [SPACE] then Pause(st)
      else if s != [] && s[0] == LF then Break(st, s[1..])
      else None
    case Tk(t) =>
      if Closes(t.kind) then
        if st.last.Line? && !st.last.first then CloseLine(st, st.last.indent, g) else Close(st)
      else if t.kind == Scanner.MemberSeparator then
        if InLines(st) && st.last == (if g.yaml then Other else Blank) then Some(State(st.multi, Coloned)) else None
      else if t.kind == Scanner.ArraySeparator then
        if st.multi != [] && st.last == Other then Some(State(st.multi, Separated)) else None
      else if Ready(st, Opens(t.kind), g) then Some(State(st.multi, if Opens(t.kind) then Opened else Other))
      else None
  }

  function Follow(st: State, cs: seq<Chunk>, g: Guide): Option<State>
    decreases |cs|
  {
    if cs == [] then Some(st) else
    match Step(st, cs[0], g)
    case Some(next) => Follow(next, cs[1..], g)
    case None => None
  }

  // A whole layout.
  predicate FollowsGuide(cs: seq<Chunk>, g: Guide) { Follow(State([], Other), cs, g) == Some(State([], Other)) }

  // ---------------------------------------------------------------- composition

  lemma {:induction false} FollowConcat(st: State, a: seq<Chunk>, b: seq<Chunk>, g: Guide)
    ensures Follow(st, a + b, g) == match Follow(st, a, g) case Some(next) => Follow(next, b, g) case None => None
    decreases |a|
  {
    hide Step;
    if a == [] {
      assert a + b == b;
    } else {
      assert (a + b)[1..] == a[1..] + b;
      match Step(st, a[0], g)
      case Some(next) => FollowConcat(next, a[1..], b, g);
      case None =>
    }
  }

  lemma FollowOne(st: State, c: Chunk, g: Guide)
    ensures Follow(st, [c], g) == Step(st, c, g)
  {
    hide Step;
  }

  // `a` then `b`, where the states in between are known.
  lemma FollowBoth(st: State, a: seq<Chunk>, mid: State, b: seq<Chunk>, g: Guide)
    requires Follow(st, a, g) == Some(mid)
    ensures Follow(st, a + b, g) == Follow(mid, b, g)
  {
    FollowConcat(st, a, b, g);
  }

  lemma DeeperIndent(multi: seq<bool>, lines: bool, g: Guide)
    ensures IndentOf(multi + [lines], g) == IndentOf(multi, g) + if lines then g.unit else []
  {
    assert (multi + [lines])[..|multi|] == multi;
    assert Copies(g.unit, Broken(multi) + 1) == Copies(g.unit, Broken(multi)) + g.unit;
  }

  // ---------------------------------------------------------------- every layout follows the guide

  function GuideOf(c: Style, start: bytes): Guide { Guide(start, c.indentation, c.yaml, c.spelling.dropNull) }

  // A value's place: at the very start, on a line of its own, behind a colon, or among others on a line.
  predicate Placed(st: State, indented: bool, g: Guide) {
    if indented then
      (st.last == Other && st.multi == []) || (st.last == Blank && OnOneLine(st)) || st.last == Line(IndentOf(st.multi, g), true)
    else st.last == Blank && InLines(st)
  }

  // The state behind a value: a dropped null changes nothing.
  function After(v: Value, s: Spelling, st: State): State {
    if v.Null? && s.dropNull then st else State(st.multi, Other)
  }

  // Behind a value, or an empty place.
  predicate Finished(st: State, g: Guide) {
    st.last == Other || (g.gaps && (Placed(st, true, g) || Placed(st, false, g)))
  }

  lemma AfterIsFinished(v: Value, c: Style, st: State, indented: bool, start: bytes)
    requires Placed(st, indented, GuideOf(c, start))
    ensures Finished(After(v, c.spelling, st), GuideOf(c, start)) && After(v, c.spelling, st).multi == st.multi
  {
    hide IndentOf;
  }

  // Behind an empty place it goes on as behind a value.
  lemma FinishedEnds(st: State, c: Chunk, g: Guide)
    requires Finished(st, g) && st.multi != [] && EndsValue(st, c)
    ensures Step(st, c, g) == Step(State(st.multi, Other), c, g)
  {
    hide IndentOf;
  }

  lemma InlineFollows(v: Value, s: Spelling, st: State, indented: bool, g: Guide)
    requires Valid(v) && IsInline(v) && Placed(st, indented, g)
    ensures Follow(st, InlineChunks(v, s), g) == Some(After(v, s, st))
  {
    var cs := InlineChunks(v, s);
    match v
    case Array(_) =>
      FollowTwo(st, Tk(Mark(Scanner.ArrayBegin)), Tk(Mark(Scanner.ArrayEnd)), g);
      assert cs == [Tk(Mark(Scanner.ArrayBegin)), Tk(Mark(Scanner.ArrayEnd))];
    case Obj(_) =>
      FollowTwo(st, Tk(Mark(Scanner.ObjectBegin)), Tk(Mark(Scanner.ObjectEnd)), g);
      assert cs == [Tk(Mark(Scanner.ObjectBegin)), Tk(Mark(Scanner.ObjectEnd))];
    case _ => ScalarFollows(v, s, st, indented, g);
  }

  lemma ScalarFollows(v: Value, s: Spelling, st: State, indented: bool, g: Guide)
    requires !IsContainer(v) && Placed(st, indented, g)
    ensures Follow(st, AsChunks(ScalarTokens(v, s)), g) == Some(After(v, s, st))
  {
    var toks := ScalarTokens(v, s);
    assert AsChunks([]) == [];
    if toks != [] {
      assert toks == [toks[0]];
      assert AsChunks(toks) == [Tk(toks[0])];
      FollowOne(st, Tk(toks[0]), g);
      hide Follow;
    }
  }

  lemma FollowTwo(st: State, a: Chunk, b: Chunk, g: Guide)
    ensures Follow(st, [a, b], g) == match Step(st, a, g) case Some(next) => Step(next, b, g) case None => None
  {
    hide Step;
    assert [a, b][1..] == [b];
    match Step(st, a, g)
    case Some(next) => FollowOne(next, b, g);
    case None =>
  }

  // The line break before a container that comes after a colon.
  lemma LeadFollows(st: State, c: Style, indented: bool, g: Guide)
    requires c.indentation != [] && Placed(st, indented, g)
    ensures var lead := Lead(c, IndentOf(st.multi, g), indented);
            exists mid: State :: Follow(st, lead, g) == Some(mid) && mid.multi == st.multi && Ready(mid, true, g)
  {
    var indent := IndentOf(st.multi, g);
    if !indented {
      FollowOne(st, Space([LF] + indent), g);
      assert ([LF] + indent)[1..] == indent;
      var mid := State(st.multi, Line(indent, false));
      assert Follow(st, Lead(c, indent, indented), g) == Some(mid) && mid.multi == st.multi && Ready(mid, true, g);
    } else {
      assert Follow(st, Lead(c, indent, indented), g) == Some(st) && Ready(st, true, g);
    }
  }

  // A container from its opening bracket on, given what its body does.
  lemma FramedFollows(st: State, lead: seq<Chunk>, open: Tok, body: seq<Chunk>, gap: seq<Chunk>, close: Tok,
      mid: State, last: State, lines: bool, g: Guide)
    requires Follow(st, lead, g) == Some(mid) && mid.multi == st.multi && Ready(mid, true, g)
    requires Opens(open.kind) && Closes(close.kind)
    requires Follow(State(st.multi, Opened), body, g) == Some(last) && last.multi == st.multi + [lines] && Finished(last, g)
    requires gap == [Space(if lines then [LF] + IndentOf(st.multi, g) else [SPACE])]
    ensures Follow(st, Framed(lead, open, body, gap, close), g) == Some(State(st.multi, Other))
  {
    var inner := State(st.multi + [lines], Other);
    assert inner.multi[..|st.multi|] == st.multi;
    FollowTwo(inner, gap[0], Tk(close), g);
    assert gap + [Tk(close)] == [gap[0], Tk(close)];
    assert ([LF] + IndentOf(st.multi, g))[1..] == IndentOf(st.multi, g);
    assert Follow(inner, gap + [Tk(close)], g) == Some(State(st.multi, Other));
    FinishedEnds(last, gap[0], g);
    FollowTwo(last, gap[0], Tk(close), g);
    FollowOne(mid, Tk(open), g);
    FollowBoth(State(st.multi, Opened), body, last, gap + [Tk(close)], g);
    FollowBoth(mid, [Tk(open)], State(st.multi, Opened), body + (gap + [Tk(close)]), g);
    assert [Tk(open)] + body + (gap + [Tk(close)]) == [Tk(open)] + (body + (gap + [Tk(close)]));
    FollowBoth(st, lead, mid, [Tk(open)] + body + (gap + [Tk(close)]), g);
  }

  lemma {:induction false} StyledFollows(v: Value, c: Style, start: bytes, indented: bool, st: State)
    requires Valid(v) && c.indentation != [] && Placed(st, indented, GuideOf(c, start))
    ensures Follow(st, Styled(v, c, IndentOf(st.multi, GuideOf(c, start)), indented), GuideOf(c, start))
            == Some(After(v, c.spelling, st))
    decreases Depth(v), 2, 0
  {
    var g := GuideOf(c, start);
    var ind := IndentOf(st.multi, g);
    if IsInline(v) {
      InlineFollows(v, c.spelling, st, indented, g);
    } else if v.Obj? {
      MembersAreBelow(v);
      LeadFollows(st, c, indented, g);
      var last := MembersFollow(v.entries, 0, c, start, st.multi, Depth(v));
      var mid: State :| Follow(st, Lead(c, ind, indented), g) == Some(mid) && mid.multi == st.multi && Ready(mid, true, g);
      hide StyledMembers, Ready, Follow;
      FramedFollows(st, Lead(c, ind, indented), Mark(Scanner.ObjectBegin), StyledMembers(v.entries, 0, c, ind + c.indentation, Depth(v)),
                    Newline(c, ind), Mark(Scanner.ObjectEnd), mid, last, true, g);
    } else {
      ArrayFollows(v, c, start, indented, st);
    }
  }

  lemma {:induction false} ArrayFollows(v: Value, c: Style, start: bytes, indented: bool, st: State)
    requires Valid(v) && v.Array? && v.entries != []
    requires c.indentation != [] && Placed(st, indented, GuideOf(c, start))
    ensures Follow(st, Styled(v, c, IndentOf(st.multi, GuideOf(c, start)), indented), GuideOf(c, start))
            == Some(State(st.multi, Other))
    decreases Depth(v), 1, 0
  {
    var g, items, lines := GuideOf(c, start), Items(v), Multiline(Items(v), c);
    var ind, inner := IndentOf(st.multi, g), IndentOf(st.multi + [lines], g);
    var body := StyledItems(items, 0, c, inner, GapOf(c, lines, inner), Depth(v));
    var lead := if lines then Lead(c, ind, indented) else [];
    DeeperIndent(st.multi, lines, g);
    ArrayIsFramed(v, c, ind, indented);
    hide Styled, StyledItems, Follow, Multiline, IndentOf, Ready, Items;
    var last := ItemsFollow(items, 0, c, start, st.multi, lines, Depth(v));
    ArrayLeadFollows(st, c, indented, lines, g);
    var mid: State :| Follow(st, lead, g) == Some(mid) && mid.multi == st.multi && Ready(mid, true, g);
    FramedFollows(st, lead, Mark(Scanner.ArrayBegin), body, if lines then Newline(c, ind) else Pad(c),
                  Mark(Scanner.ArrayEnd), mid, last, lines, g);
  }

  lemma ArrayIsFramed(v: Value, c: Style, ind: bytes, indented: bool)
    requires Valid(v) && v.Array? && v.entries != []
    ensures var lines := Multiline(Items(v), c);
            var inner := ind + if lines then c.indentation else [];
            Styled(v, c, ind, indented)
            == Framed(if lines then Lead(c, ind, indented) else [], Mark(Scanner.ArrayBegin),
                      StyledItems(Items(v), 0, c, inner, GapOf(c, lines, inner), Depth(v)),
                      if lines then Newline(c, ind) else Pad(c), Mark(Scanner.ArrayEnd))
  {
    hide StyledItems, Multiline, Items, Framed;
    assert ind + [] == ind;
  }

  lemma ArrayLeadFollows(st: State, c: Style, indented: bool, lines: bool, g: Guide)
    requires c.indentation != [] && Placed(st, indented, g)
    ensures var lead := if lines then Lead(c, IndentOf(st.multi, g), indented) else [];
            exists mid: State :: Follow(st, lead, g) == Some(mid) && mid.multi == st.multi && Ready(mid, true, g)
  {
    if lines {
      LeadFollows(st, c, indented, g);
    } else {
      assert Follow(st, [], g) == Some(st) && Ready(st, true, g);
    }
  }

  // The state behind the k-th member or item of a container.
  function Behind(multi: seq<bool>, lines: bool, k: nat): State {
    if k == 0 then State(multi, Opened) else State(multi + [lines], Other)
  }

  // The white space in front of each item.
  function GapOf(c: Style, lines: bool, inner: bytes): seq<Chunk> { if lines then Newline(c, inner) else Pad(c) }

  // The items from the k-th on, each on a line of its own or all on one.
  lemma {:induction false} ItemsFollow(items: seq<Value>, k: nat, c: Style, start: bytes, multi: seq<bool>, lines: bool,
      bound: nat) returns (last: State)
    requires k < |items| && ItemsBelow(items, bound) && c.indentation != []
    ensures var g := GuideOf(c, start);
            var inner := IndentOf(multi + [lines], g);
            && Follow(Behind(multi, lines, k), StyledItems(items, k, c, inner, GapOf(c, lines, inner), bound), g) == Some(last)
            && last.multi == multi + [lines] && Finished(last, g)
    decreases bound, 0, |items| - k
  {
    var g := GuideOf(c, start);
    var inner := IndentOf(multi + [lines], g);
    var gap := GapOf(c, lines, inner);
    var st := State(multi + [lines], if lines then Line(inner, true) else Blank);
    var after := After(items[k], c.spelling, st);
    hide *;
    ItemIsPlaced(multi, lines, g);
    ItemsStep(items, k, c, inner, gap, bound);
    var item, rest := Styled(items[k], c, inner, true), StyledItems(items, k + 1, c, inner, gap, bound);
    StyledFollows(items[k], c, start, true, st);
    AfterIsFinished(items[k], c, st, true, start);
    GapFollows(multi, lines, k, c, g);
    PartsFollow(Behind(multi, lines, k), CommaChunks(k), gap, st, item, after, rest, g);
    if k + 1 == |items| {
      last := after;
      ItemsStop(items, c, inner, gap, bound);
      NothingFollows(after, rest, g);
    } else {
      last := ItemsFollow(items, k + 1, c, start, multi, lines, bound);
      NextIsBehind(multi, lines, k);
      ItemsGoOn(items, k + 1, c, inner, gap, bound);
      CommaFollows(after, rest, g);
    }
  }

  lemma ItemsStop(items: seq<Value>, c: Style, ind: bytes, gap: seq<Chunk>, bound: nat)
    requires ItemsBelow(items, bound)
    ensures StyledItems(items, |items|, c, ind, gap, bound) == []
  {
  }

  lemma ItemsGoOn(items: seq<Value>, k: nat, c: Style, ind: bytes, gap: seq<Chunk>, bound: nat)
    requires 0 < k < |items| && ItemsBelow(items, bound)
    ensures var rest := StyledItems(items, k, c, ind, gap, bound); rest != [] && rest[0] == Tk(Mark(Scanner.ArraySeparator))
  {
    ItemsStep(items, k, c, ind, gap, bound);
    hide Styled, StyledItems;
    assert CommaChunks(k) == [Tk(Mark(Scanner.ArraySeparator))];
  }

  lemma NothingFollows(st: State, rest: seq<Chunk>, g: Guide)
    requires rest == []
    ensures Follow(st, rest, g) == Some(st)
  {
  }

  // A comma follows an empty place as it follows a value.
  lemma CommaFollows(st: State, rest: seq<Chunk>, g: Guide)
    requires Finished(st, g) && st.multi != [] && rest != [] && rest[0] == Tk(Mark(Scanner.ArraySeparator))
    ensures Follow(st, rest, g) == Follow(State(st.multi, Other), rest, g)
  {
    FinishedEnds(st, rest[0], g);
    hide Step, Finished;
  }

  lemma ItemsStep(items: seq<Value>, k: nat, c: Style, ind: bytes, gap: seq<Chunk>, bound: nat)
    requires k < |items| && ItemsBelow(items, bound)
    ensures Valid(items[k]) && Depth(items[k]) < bound
    ensures StyledItems(items, k, c, ind, gap, bound)
            == CommaChunks(k) + (gap + Styled(items[k], c, ind, true)) + StyledItems(items, k + 1, c, ind, gap, bound)
  {
    assert items[k] in items;
    hide Styled;
  }

  lemma ItemIsPlaced(multi: seq<bool>, lines: bool, g: Guide)
    ensures Placed(State(multi + [lines], if lines then Line(IndentOf(multi + [lines], g), true) else Blank), true, g)
  {
    hide IndentOf;
  }

  lemma NextIsBehind(multi: seq<bool>, lines: bool, k: nat)
    ensures Behind(multi, lines, k + 1) == State(multi + [lines], Other)
  {
  }

  lemma PartsFollow(st: State, comma: seq<Chunk>, gap: seq<Chunk>, mid: State, item: seq<Chunk>, after: State,
      rest: seq<Chunk>, g: Guide)
    requires Follow(st, comma + gap, g) == Some(mid) && Follow(mid, item, g) == Some(after)
    ensures Follow(st, comma + (gap + item) + rest, g) == Follow(after, rest, g)
  {
    hide Follow;
    FollowBoth(st, comma + gap, mid, item + rest, g);
    FollowBoth(mid, item, after, rest, g);
    assert comma + (gap + item) + rest == comma + gap + (item + rest);
  }

  // The comma and the white space in front of the k-th item.
  lemma GapFollows(multi: seq<bool>, lines: bool, k: nat, c: Style, g: Guide)
    requires c.indentation != []
    ensures var inner := IndentOf(multi + [lines], g);
            Follow(Behind(multi, lines, k), CommaChunks(k) + GapOf(c, lines, inner), g)
            == Some(State(multi + [lines], if lines then Line(inner, true) else Blank))
  {
    var inner := IndentOf(multi + [lines], g);
    var gap := if lines then Space([LF] + inner) else Space([SPACE]);
    assert ([LF] + inner)[1..] == inner;
    assert GapOf(c, lines, inner) == [gap];
    if k == 0 {
      FollowOne(State(multi, Opened), gap, g);
      assert CommaChunks(0) + [gap] == [gap];
    } else {
      FollowTwo(State(multi + [lines], Other), Tk(Mark(Scanner.ArraySeparator)), gap, g);
      assert CommaChunks(k) + [gap] == [Tk(Mark(Scanner.ArraySeparator)), gap];
    }
  }

  // The members from the k-th on, each on a line of its own.
  lemma {:induction false} MembersFollow(entries: seq<Entry>, k: nat, c: Style, start: bytes, multi: seq<bool>, bound: nat)
      returns (last: State)
    requires k < |entries| && EntriesBelow(entries, bound) && c.indentation != []
    ensures var g := GuideOf(c, start);
            && Follow(Behind(multi, true, k), StyledMembers(entries, k, c, IndentOf(multi, g) + c.indentation, bound), g)
               == Some(last)
            && last.multi == multi + [true] && Finished(last, g)
    decreases bound, 0, |entries| - k
  {
    var g := GuideOf(c, start);
    var inner := IndentOf(multi + [true], g);
    DeeperIndent(multi, true, g);
    var e := entries[k];
    var st, named := State(multi + [true], Line(inner, true)), State(multi + [true], Blank);
    var after := After(e.value, c.spelling, named);
    hide *;
    MembersStep(entries, k, c, inner, bound);
    var key, value, rest := StyledKey(e.key, c), Styled(e.value, c, inner, false), StyledMembers(entries, k + 1, c, inner, bound);
    ValueIsPlaced(multi, g);
    StyledFollows(e.value, c, start, false, named);
    AfterIsFinished(e.value, c, named, false, start);
    GapFollows(multi, true, k, c, g);
    GapOfLines(c, inner);
    LineIsOpen(multi, inner);
    KeyFollows(e.key, c, st, g);
    FollowBoth(st, key, named, value, g);
    PartsFollow(Behind(multi, true, k), CommaChunks(k), Newline(c, inner), st, key + value, after, rest, g);
    if k + 1 == |entries| {
      last := after;
      MembersStop(entries, c, inner, bound);
      NothingFollows(after, rest, g);
    } else {
      last := MembersFollow(entries, k + 1, c, start, multi, bound);
      NextIsBehind(multi, true, k);
      MembersGoOn(entries, k + 1, c, inner, bound);
      CommaFollows(after, rest, g);
    }
  }

  lemma MembersStep(entries: seq<Entry>, k: nat, c: Style, ind: bytes, bound: nat)
    requires k < |entries| && EntriesBelow(entries, bound)
    ensures var e := entries[k];
            && e.key.Name? && Valid(e.value) && Depth(e.value) < bound
            && StyledMembers(entries, k, c, ind, bound)
               == CommaChunks(k) + (Newline(c, ind) + (StyledKey(e.key, c) + Styled(e.value, c, ind, false)))
                  + StyledMembers(entries, k + 1, c, ind, bound)
  {
    assert entries[k] in entries;
    hide Styled, StyledKey;
  }

  lemma MembersStop(entries: seq<Entry>, c: Style, ind: bytes, bound: nat)
    requires EntriesBelow(entries, bound)
    ensures StyledMembers(entries, |entries|, c, ind, bound) == []
  {
  }

  lemma MembersGoOn(entries: seq<Entry>, k: nat, c: Style, ind: bytes, bound: nat)
    requires 0 < k < |entries| && EntriesBelow(entries, bound)
    ensures var rest := StyledMembers(entries, k, c, ind, bound); rest != [] && rest[0] == Tk(Mark(Scanner.ArraySeparator))
  {
    MembersStep(entries, k, c, ind, bound);
    hide Styled, StyledMembers, StyledKey;
    assert CommaChunks(k) == [Tk(Mark(Scanner.ArraySeparator))];
  }

  lemma ValueIsPlaced(multi: seq<bool>, g: Guide)
    ensures Placed(State(multi + [true], Blank), false, g)
  {
  }

  lemma GapOfLines(c: Style, inner: bytes)
    ensures GapOf(c, true, inner) == Newline(c, inner)
  {
  }

  lemma LineIsOpen(multi: seq<bool>, inner: bytes)
    ensures InLines(State(multi + [true], Line(inner, true)))
  {
  }

  lemma KeyFollows(key: Key, c: Style, st: State, g: Guide)
    requires key.Name? && c.indentation != [] && g.yaml == c.yaml
    requires InLines(st) && st.last == Line(IndentOf(st.multi, g), true)
    ensures Follow(st, StyledKey(key, c), g) == Some(State(st.multi, Blank))
  {
    var name, colon, blank := StyledKey(key, c)[0], Tk(Mark(Scanner.MemberSeparator)), Space([SPACE]);
    var after := State(st.multi, Other);
    FollowOne(st, name, g);
    if c.yaml {
      FollowTwo(after, colon, blank, g);
      FollowBoth(st, [name], after, [colon, blank], g);
    } else {
      FollowTwo(State(st.multi, Blank), colon, blank, g);
      FollowOne(after, blank, g);
      FollowBoth(after, [blank], State(st.multi, Blank), [colon, blank], g);
      assert [blank] + [colon, blank] == [blank, colon, blank];
      FollowBoth(st, [name], after, [blank, colon, blank], g);
    }
    assert StyledKey(key, c) == [name] + StyledColon(c);
  }

  // The layout of a whole tree.
  lemma StyledFollowsGuide(v: Value, c: Style)
    requires Valid(v) && c.indentation != []
    ensures FollowsGuide(Styled(v, c, [], true), Guide([], c.indentation, c.yaml, c.spelling.dropNull))
  {
    StyledFollows(v, c, [], true, State([], Other));
    assert IndentOf([], GuideOf(c, [])) == [];
  }

  // ---------------------------------------------------------------- compact text

  // Tokens one after the other, in YAML's manner with a blank behind each colon.
  function Tight(toks: seq<Tok>, yaml: bool): seq<Chunk> {
    if toks == [] then []
    else
      [Tk(toks[0])] + (if yaml && toks[0].kind == Scanner.MemberSeparator then [Space([SPACE])] else [])
      + Tight(toks[1..], yaml)
  }

  predicate IsTight(cs: seq<Chunk>, yaml: bool) { cs == Tight(Tokens(cs), yaml) }

  lemma {:induction false} TightConcat(a: seq<Tok>, b: seq<Tok>, yaml: bool)
    ensures Tight(a + b, yaml) == Tight(a, yaml) + Tight(b, yaml)
  {
    if a == [] {
      assert a + b == b;
    } else {
      assert (a + b)[1..] == a[1..] + b;
      TightConcat(a[1..], b, yaml);
    }
  }

  lemma TightBoth(a: seq<Chunk>, b: seq<Chunk>, yaml: bool)
    requires IsTight(a, yaml) && IsTight(b, yaml)
    ensures IsTight(a + b, yaml)
  {
    TokensConcat(a, b);
    TightConcat(Tokens(a), Tokens(b), yaml);
  }

  lemma {:induction false} TokensAreTight(toks: seq<Tok>, yaml: bool)
    requires forall t :: t in toks ==> t.kind != Scanner.MemberSeparator
    ensures IsTight(AsChunks(toks), yaml)
  {
    TokensOfChunks(toks);
    if toks != [] {
      TokensAreTight(toks[1..], yaml);
      TokensOfChunks(toks[1..]);
    }
  }

  lemma PiecesAreTight(k: nat, key: Key, s: Spelling, yaml: bool)
    requires key.Name?
    ensures IsTight(CommaChunks(k), yaml) && IsTight(KeyChunks(key, s, yaml), yaml)
  {
    SeparatorTokens(k, yaml);
    KeyTokensMatch(key, s, yaml);
    assert SEPARATOR[1..] == [] && MEMBER_SEPARATOR[1..] == [];
    var name := Tok(Scanner.String, JsonStrings.Quoted(key.s, s.emitUTF8));
    assert KeyTokens(key, s) == [name] + MEMBER_SEPARATOR;
    TightConcat([name], MEMBER_SEPARATOR, yaml);
  }

  // The compact layout has no white space, but for the blank behind a colon in YAML's manner.
  lemma {:induction false} FastIsTight(v: Value, s: Spelling, yaml: bool)
    requires Valid(v)
    ensures FastChunks(v, s, yaml) == Tight(ValueTokens(v, s), yaml)
    decreases Depth(v), 1
  {
    FastTokens(v, s, yaml);
    match v
    case Array(_) =>
      FastItemsAreTight(Items(v), 0, s, yaml, Depth(v));
      BracketsAreTight(yaml);
      TightBoth(AsChunks(OPEN_ARRAY), FastItems(Items(v), 0, s, yaml, Depth(v)), yaml);
      TightBoth(AsChunks(OPEN_ARRAY) + FastItems(Items(v), 0, s, yaml, Depth(v)), AsChunks(CLOSE_ARRAY), yaml);
    case Obj(entries) =>
      FastMembersAreTight(entries, 0, s, yaml, Depth(v));
      BracketsAreTight(yaml);
      TightBoth(AsChunks(OPEN_OBJECT), FastMembers(entries, 0, s, yaml, Depth(v)), yaml);
      TightBoth(AsChunks(OPEN_OBJECT) + FastMembers(entries, 0, s, yaml, Depth(v)), AsChunks(CLOSE_OBJECT), yaml);
    case _ => TokensAreTight(ScalarTokens(v, s), yaml); TokensOfChunks(ScalarTokens(v, s));
  }

  lemma BracketsAreTight(yaml: bool)
    ensures IsTight(AsChunks(OPEN_ARRAY), yaml) && IsTight(AsChunks(CLOSE_ARRAY), yaml)
    ensures IsTight(AsChunks(OPEN_OBJECT), yaml) && IsTight(AsChunks(CLOSE_OBJECT), yaml)
  {
    TokensAreTight(OPEN_ARRAY, yaml);
    TokensAreTight(CLOSE_ARRAY, yaml);
    TokensAreTight(OPEN_OBJECT, yaml);
    TokensAreTight(CLOSE_OBJECT, yaml);
  }

  lemma {:induction false} FastItemsAreTight(items: seq<Value>, k: nat, s: Spelling, yaml: bool, bound: nat)
    requires k <= |items| && ItemsBelow(items, bound)
    ensures IsTight(FastItems(items, k, s, yaml, bound), yaml)
    decreases bound, 0, |items| - k
  {
    if k < |items| {
      assert items[k] in items;
      FastIsTight(items[k], s, yaml);
      FastTokens(items[k], s, yaml);
      FastItemsAreTight(items, k + 1, s, yaml, bound);
      PiecesAreTight(k, Name([]), s, yaml);
      var item, rest := FastChunks(items[k], s, yaml), FastItems(items, k + 1, s, yaml, bound);
      assert FastItems(items, k, s, yaml, bound) == CommaChunks(k) + item + rest;
      hide IsTight, FastItems, FastChunks, CommaChunks, Tight, Tokens;
      TightIs(item, yaml);
      TightBoth(CommaChunks(k), item, yaml);
      TightBoth(CommaChunks(k) + item, rest, yaml);
    } else {
      assert Tokens([]) == [];
    }
  }

  lemma TightIs(cs: seq<Chunk>, yaml: bool)
    ensures IsTight(cs, yaml) <==> cs == Tight(Tokens(cs), yaml)
  {
  }

  lemma {:induction false} FastMembersAreTight(entries: seq<Entry>, k: nat, s: Spelling, yaml: bool, bound: nat)
    requires k <= |entries| && EntriesBelow(entries, bound)
    ensures IsTight(FastMembers(entries, k, s, yaml, bound), yaml)
    decreases bound, 0, |entries| - k
  {
    if k < |entries| {
      var e := entries[k];
      assert e in entries;
      FastIsTight(e.value, s, yaml);
      FastTokens(e.value, s, yaml);
      FastMembersAreTight(entries, k + 1, s, yaml, bound);
      PiecesAreTight(k, e.key, s, yaml);
      var key, value, rest := KeyChunks(e.key, s, yaml), FastChunks(e.value, s, yaml), FastMembers(entries, k + 1, s, yaml, bound);
      assert FastMembers(entries, k, s, yaml, bound) == CommaChunks(k) + (key + value) + rest;
      hide IsTight, FastMembers, FastChunks, CommaChunks, KeyChunks, Tight, Tokens;
      TightIs(value, yaml);
      TightBoth(key, value, yaml);
      TightBoth(CommaChunks(k), key + value, yaml);
      TightBoth(CommaChunks(k) + (key + value), rest, yaml);
    } else {
      assert Tokens([]) == [];
    }
  }

  // Without an indentation the styled writer writes the compact layout.
  lemma {:induction false} CompactWithoutIndentation(v: Value, c: Style, ind: bytes, indented: bool)
    requires Valid(v) && c.indentation == []
    ensures Styled(v, c, ind, indented) == FastChunks(v, c.spelling, c.yaml)
    decreases Depth(v), 1
  {
    if IsInline(v) {
      InlineIsCompact(v, c);
    } else if v.Obj? {
      MembersAreBelow(v);
      assert ind + [] == ind;
      CompactMembers(v.entries, 0, c, ind, Depth(v));
      BracketsAlone();
      hide StyledMembers, FastMembers;
    } else {
      assert ind + [] == ind;
      CompactItems(Items(v), 0, c, ind, Depth(v));
      BracketsAlone();
      hide StyledItems, FastItems, Multiline;
    }
  }

  lemma BracketsAlone()
    ensures AsChunks(OPEN_ARRAY) == [Tk(Mark(Scanner.ArrayBegin))] && AsChunks(CLOSE_ARRAY) == [Tk(Mark(Scanner.ArrayEnd))]
    ensures AsChunks(OPEN_OBJECT) == [Tk(Mark(Scanner.ObjectBegin))] && AsChunks(CLOSE_OBJECT) == [Tk(Mark(Scanner.ObjectEnd))]
  {
    assert AsChunks([]) == [];
  }

  lemma InlineIsCompact(v: Value, c: Style)
    requires Valid(v) && IsInline(v)
    ensures InlineChunks(v, c.spelling) == FastChunks(v, c.spelling, c.yaml)
  {
    match v
    case Array(_) => assert FastItems(Items(v), 0, c.spelling, c.yaml, Depth(v)) == [];
    case Obj(entries) =>
      MembersAreBelow(v);
      assert FastMembers(entries, 0, c.spelling, c.yaml, Depth(v)) == [];
    case _ =>
  }

  lemma {:induction false} CompactItems(items: seq<Value>, k: nat, c: Style, ind: bytes, bound: nat)
    requires k <= |items| && ItemsBelow(items, bound) && c.indentation == []
    ensures StyledItems(items, k, c, ind, [], bound) == FastItems(items, k, c.spelling, c.yaml, bound)
    decreases bound, 0, |items| - k
  {
    if k < |items| {
      assert items[k] in items;
      CompactWithoutIndentation(items[k], c, ind, true);
      CompactItems(items, k + 1, c, ind, bound);
      hide Styled, FastChunks;
      assert [] + Styled(items[k], c, ind, true) == Styled(items[k], c, ind, true);
    }
  }

  lemma {:induction false} CompactMembers(entries: seq<Entry>, k: nat, c: Style, ind: bytes, bound: nat)
    requires k <= |entries| && EntriesBelow(entries, bound) && c.indentation == []
    ensures StyledMembers(entries, k, c, ind, bound) == FastMembers(entries, k, c.spelling, c.yaml, bound)
    decreases bound, 0, |entries| - k
  {
    if k < |entries| {
      assert entries[k] in entries;
      CompactWithoutIndentation(entries[k].value, c, ind, false);
      CompactMembers(entries, k + 1, c, ind, bound);
      hide Styled, FastChunks;
      assert StyledColon(c) == ColonChunks(c.yaml);
      assert StyledMember(entries[k], c, ind)
             == KeyChunks(entries[k].key, c.spelling, c.yaml) + FastChunks(entries[k].value, c.spelling, c.yaml);
    }
  }

  // ---------------------------------------------------------------- which arrays take one line

  // An array of scalars and empty containers on one line.
  ghost function OneLine(v: Value, c: Style, ind: bytes): seq<Chunk>
    requires Valid(v) && v.Array?
  {
    Framed([], Mark(Scanner.ArrayBegin), StyledItems(Items(v), 0, c, ind, Pad(c), Depth(v)), Pad(c), Mark(Scanner.ArrayEnd))
  }

  lemma {:induction false} ItemsLength(items: seq<Value>, k: nat, c: Style, ind: bytes, bound: nat)
    requires k <= |items| && ItemsBelow(items, bound) && AllInline(items) && c.indentation != []
    ensures |Render(StyledItems(items, k, c, ind, Pad(c), bound))| + InlineLength(items, k, c.spelling)
            == InlineLength(items, |items|, c.spelling) + 2 * (|items| - k) - (if k == 0 && items != [] then 1 else 0)
    decreases |items| - k
  {
    hide *;
    if k == |items| {
      NoItemsLength(items, c, ind, bound);
    } else {
      ItemsLength(items, k + 1, c, ind, bound);
      ItemsStep(items, k, c, ind, Pad(c), bound);
      InlineStep(items, k, c, ind);
      PartsLength(k, c, Styled(items[k], c, ind, true), StyledItems(items, k + 1, c, ind, Pad(c), bound));
    }
  }

  lemma NoItemsLength(items: seq<Value>, c: Style, ind: bytes, bound: nat)
    requires ItemsBelow(items, bound)
    ensures Render(StyledItems(items, |items|, c, ind, Pad(c), bound)) == []
  {
  }

  lemma InlineStep(items: seq<Value>, k: nat, c: Style, ind: bytes)
    requires k < |items| && AllInline(items) && Valid(items[k])
    ensures InlineLength(items, k + 1, c.spelling)
            == InlineLength(items, k, c.spelling) + |Render(Styled(items[k], c, ind, true))|
  {
    assert items[k] in items;
    hide InlineChunks, Render;
  }

  lemma PartsLength(k: nat, c: Style, item: seq<Chunk>, rest: seq<Chunk>)
    requires c.indentation != []
    ensures |Render(CommaChunks(k) + (Pad(c) + item) + rest)| == (if k > 0 then 2 else 1) + |Render(item)| + |Render(rest)|
  {
    PiecesLength(k, c);
    hide Render;
    RenderConcat(CommaChunks(k) + (Pad(c) + item), rest);
    RenderConcat(CommaChunks(k), Pad(c) + item);
    RenderConcat(Pad(c), item);
  }

  lemma PiecesLength(k: nat, c: Style)
    requires c.indentation != []
    ensures |Render(CommaChunks(k))| == (if k > 0 then 1 else 0) && |Render(Pad(c))| == 1
  {
    RenderOne(Mark(Scanner.ArraySeparator));
    StyledWriter.RenderSpace([SPACE]);
  }

  lemma OneLineLength(v: Value, c: Style, ind: bytes)
    requires Valid(v) && v.Array? && v.entries != [] && AllInline(Items(v)) && c.indentation != []
    ensures |Render(OneLine(v, c, ind))| == 4 + (|Items(v)| - 1) * 2 + InlineLength(Items(v), |Items(v)|, c.spelling)
  {
    var body := StyledItems(Items(v), 0, c, ind, Pad(c), Depth(v));
    var open, close := [Tk(Mark(Scanner.ArrayBegin))], [Tk(Mark(Scanner.ArrayEnd))];
    ItemsLength(Items(v), 0, c, ind, Depth(v));
    PiecesLength(0, c);
    RenderOne(Mark(Scanner.ArrayBegin));
    RenderOne(Mark(Scanner.ArrayEnd));
    hide StyledItems, InlineLength, Items;
    RenderConcat(open + body, Pad(c) + close);
    RenderConcat(open, body);
    RenderConcat(Pad(c), close);
    assert OneLine(v, c, ind) == open + body + (Pad(c) + close);
  }

  // Arrays that are not empty take one line exactly when all items are scalars or empty, there are
  // fewer than 25 of them, and the line they take is shorter than 74 characters; or never, where
  // comments of all kinds are written. Numbers are those of 32 bits.
  lemma OneLineWhenItFits(v: Value, c: Style, ind: bytes)
    requires Valid(v) && v.Array? && v.entries != [] && c.indentation != []
    ensures !Multiline(Items(v), c) <==>
              && !c.comments.AllComments? && AllInline(Items(v)) && |Items(v)| * 3 % 0x1_0000_0000 < 74
              && |Render(OneLine(v, c, ind))| % 0x1_0000_0000 < 74
    ensures !Multiline(Items(v), c) ==> Styled(v, c, ind, true) == Styled(v, c, ind, false) == OneLine(v, c, ind)
  {
    hide *;
    if AllInline(Items(v)) {
      OneLineLength(v, c, ind);
    }
    OneLineIs(v, c, ind);
    ItemsAreThere(v);
    MultilineIs(Items(v), c);
  }

  lemma ItemsAreThere(v: Value)
    requires Valid(v) && v.Array? && v.entries != []
    ensures Items(v) != []
  {
  }

  lemma OneLineIs(v: Value, c: Style, ind: bytes)
    requires Valid(v) && v.Array? && v.entries != []
    ensures !Multiline(Items(v), c) ==> Styled(v, c, ind, true) == Styled(v, c, ind, false) == OneLine(v, c, ind)
  {
    hide Items, StyledItems, Multiline;
  }

  lemma MultilineIs(items: seq<Value>, c: Style)
    requires items != []
    ensures Multiline(items, c) <==>
              || c.comments.AllComments? || !AllInline(items) || |items| * 3 % 0x1_0000_0000 >= 74
              || (4 + (|items| - 1) * 2 + InlineLength(items, |items|, c.spelling)) % 0x1_0000_0000 >= 74
  {
    hide InlineLength, AllInline;
  }
}
