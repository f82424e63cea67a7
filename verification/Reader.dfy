// OurReader: the recursive-descent reader with its cursor, its stack of nodes and its error list,
// every method proved against the functions of Scanner and ReaderSpec.
module Reader {
  import opened Bytes
  import opened Scanner
  import opened Values
  import JsonStrings
  import Numbers
  import StringDecoder
  import Spec = ReaderSpec

  // How a method of the reader ends: with a verdict, or with an exception on its way to the caller.
  datatype Completion = Returned(ok: bool) | Thrown(exception: Spec.Exception)

  // How one turn of the object or the array loop ends.
  datatype Turn = Leave(completion: Completion) | Again

  class OurReader {
    const features: Features
    const floats: Spec.Floats
    var document: bytes
    var begin: nat
    var current: nat
    var nodes: seq<Value>
    var errors: seq<Spec.ErrorInfo>

    constructor (features: Features, floats: Spec.Floats)
      ensures this.features == features && this.floats == floats
      ensures Inside() && nodes == []
    {
      this.features := features;
      this.floats := floats;
      document, begin, current, nodes, errors := [], 0, 0, [], [];
    }

    // The cursor is inside the document and the stack of nodes is not above its bound.
    ghost predicate Inside()
      reads this
    {
      begin <= current <= |document| && |nodes| <= features.stackLimit + 1
    }

    // ------------------------------------------------------------ the tokenizer

    method GetNextChar() returns (c: byte)
      requires current <= |document|
      modifies `current
      ensures old(current) == |document| ==> c == 0 && current == old(current)
      ensures old(current) < |document| ==> c == document[old(current)] && current == old(current) + 1
    {
      if current == |document| {
        return 0;
      }
      c := document[current];
      current := current + 1;
    }

    method SkipSpaces()
      requires current <= |document|
      modifies `current
      ensures current == Scanner.SkipSpaces(document, old(current))
    {
      while current != |document|
        invariant current <= |document|
        invariant Scanner.SkipSpaces(document, current) == Scanner.SkipSpaces(document, old(current))
        decreases |document| - current
      {
        var c := document[current];
        if c == SPACE || c == TAB || c == CR || c == LF {
          current := current + 1;
        } else {
          break;
        }
      }
    }

    method Match(pattern: bytes) returns (ok: bool)
      requires current <= |document|
      modifies `current
      ensures Scanner.Match(document, old(current), pattern) == Scan(ok, current)
    {
      if |document| - current < |pattern| {
        return false;
      }
      var index := |pattern|;
      while index > 0
        invariant 0 <= index <= |pattern| <= |document| - current && current == old(current)
        invariant forall i :: index <= i < |pattern| ==> document[current + i] == pattern[i]
      {
        index := index - 1;
        if document[current + index] != pattern[index] {
          assert document[current..current + |pattern|][index] != pattern[index];
          return false;
        }
      }
      assert document[current..current + |pattern|] == pattern;
      current := current + |pattern|;
      ok := true;
    }

    // The tokenizer's step of a look-ahead pointer `p`: the cursor moves to `p`, and `p` moves on
    // past the character it stands at, which is NUL at the end.
    method StepTo(p: nat) returns (c: byte, p': nat)
      requires p <= |document|
      modifies `current
      ensures current == p <= p' <= |document|
      ensures p < |document| ==> c == document[p] && p' == p + 1
      ensures p == |document| ==> c == 0 && p' == p
    {
      current := p;
      if p < |document| {
        c, p' := document[p], p + 1;
      } else {
        c, p' := 0, p;
      }
    }

    // Steps over the digits from `p` on; stops with the cursor at the first other character.
    method StepOverDigits(p: nat) returns (c: byte, p': nat)
      requires p <= |document|
      modifies `current
      ensures current == Scanner.SkipDigits(document, p) <= p' <= |document|
      ensures current < |document| ==> c == document[current] && p' == current + 1
      ensures current == |document| ==> c == 0 && p' == current
    {
      c, p' := StepTo(p);
      while c >= ZERO && c <= NINE
        invariant current <= p' <= |document|
        invariant current < |document| ==> c == document[current] && p' == current + 1
        invariant current == |document| ==> c == 0 && p' == current
        invariant Scanner.SkipDigits(document, current) == Scanner.SkipDigits(document, p)
        decreases |document| - current
      {
        c, p' := StepTo(p');
      }
    }

    method ReadNumber(checkInf: bool) returns (ok: bool)
      requires current <= |document|
      modifies `current
      ensures ok <==> !(checkInf && old(current) < |document| && document[old(current)] == UPPER_I)
      ensures current == if ok then NumberEnd(document, old(current)) else old(current) + 1
    {
      var p := current;
      if checkInf && p != |document| && document[p] == UPPER_I {
        current := p + 1;
        return false;
      }
      var c: byte;
      c, p := StepOverDigits(p);
      if c == DOT {
        c, p := StepOverDigits(p);
      }
      StepOverExponent(c, p);
      ok := true;
    }

    // The exponent part of readNumber; `c` is the character at the cursor.
    method StepOverExponent(c: byte, p: nat)
      requires current <= |document|
      requires current < |document| ==> c == document[current] && p == current + 1
      requires current == |document| ==> c == 0 && p == current
      modifies `current
      ensures current == ExponentEnd(document, old(current))
    {
      if c == LOWER_E || c == UPPER_E {
        var c', p' := StepTo(p);
        if c' == PLUS || c' == MINUS {
          c', p' := StepTo(p');
        }
        c', p' := StepOverDigits(current);
      }
    }

    // readString and readStringSingleQuote differ only in the quote.
    method ReadString(quote: byte) returns (ok: bool)
      requires current <= |document| && quote != NUL && quote != BACKSLASH
      modifies `current
      ensures StringEnd(document, old(current), quote) == Scan(ok, current)
    {
      var c: byte := 0;
      while current != |document|
        invariant current <= |document| && c != quote
        invariant StringEnd(document, current, quote) == StringEnd(document, old(current), quote)
        decreases |document| - current
      {
        c := GetNextChar();
        if c == BACKSLASH {
          var _ := GetNextChar();
        } else if c == quote {
          break;
        }
      }
      ok := c == quote;
    }

    method ReadCStyleComment() returns (ok: bool)
      requires current <= |document|
      modifies `current
      ensures CStyleEnd(document, old(current)) == Scan(ok, current)
    {
      while current + 1 < |document|
        invariant current <= |document|
        invariant CStyleEnd(document, current) == CStyleEnd(document, old(current))
        decreases |document| - current
      {
        var c := GetNextChar();
        if c == STAR && document[current] == SLASH {
          c := GetNextChar();
          return c == SLASH;
        }
      }
      var last := GetNextChar();
      ok := last == SLASH;
    }

    method ReadCppStyleComment() returns (ok: bool)
      requires current <= |document|
      modifies `current
      ensures ok && current == CppStyleEnd(document, old(current))
    {
      ok := true;
      while current != |document|
        invariant current <= |document|
        invariant CppStyleEnd(document, current) == CppStyleEnd(document, old(current))
        decreases |document| - current
      {
        var c := GetNextChar();
        if c == LF {
          return;
        }
        if c == CR {
          if current != |document| && document[current] == LF {
            var _ := GetNextChar();
          }
          return;
        }
      }
    }

    method ReadComment() returns (ok: bool)
      requires current <= |document|
      modifies `current
      ensures CommentEnd(document, old(current)) == Scan(ok, current)
    {
      var c := GetNextChar();
      if c == STAR {
        ok := ReadCStyleComment();
      } else if c == SLASH {
        ok := ReadCppStyleComment();
      } else {
        ok := false;
      }
    }

    // The sign cases of readToken's switch.
    method ReadSigned(infinity: Kind) returns (kind: Kind)
      requires current <= |document|
      modifies `current
      ensures SignedEnd(document, old(current), features, infinity) == (kind, current)
    {
      var isNumber := ReadNumber(true);
      if isNumber {
        kind := Number;
      } else {
        var ok := features.allowSpecialFloats;
        if ok {
          ok := Match(NFINITY);
        }
        kind := if ok then infinity else Error;
      }
    }

    method ReadWord(kind: Kind, rest: bytes) returns (kind': Kind)
      requires current <= |document|
      modifies `current
      ensures Word(document, old(current), kind, rest) == (kind', current)
    {
      var ok := Match(rest);
      kind' := if ok then kind else Error;
    }

    // The cases of the switch whose token is more than one character long.
    method ReadLongToken(c: byte) returns (kind: Kind)
      requires current <= |document|
      modifies `current
      ensures LongToken(document, c, old(current), features) == (kind, current)
    {
      var ok := true;
      if c == QUOTE {
        ok := ReadString(QUOTE);
        kind := if ok then String else Error;
      } else if c == APOSTROPHE {
        if features.allowSingleQuotes {
          ok := ReadString(APOSTROPHE);
        } else {
          ok := false;
        }
        kind := if ok then String else Error;
      } else if c == SLASH {
        ok := ReadComment();
        kind := if ok then Comment else Error;
      } else if IsDigit(c) {
        ok := ReadNumber(false);
        kind := Number;
      } else if c == MINUS {
        kind := ReadSigned(NegInf);
      } else if c == PLUS {
        kind := ReadSigned(PosInf);
      } else {
        kind := ReadLetters(c);
      }
    }

    method ReadLetters(c: byte) returns (kind: Kind)
      requires current <= |document|
      requires c !in {QUOTE, APOSTROPHE, SLASH, MINUS, PLUS} && !IsDigit(c)
      modifies `current
      ensures LongToken(document, c, old(current), features) == (kind, current)
    {
      if c == LOWER_T {
        kind := ReadWord(True, RUE);
      } else if c == LOWER_F {
        kind := ReadWord(False, ALSE);
      } else if c == LOWER_N {
        kind := ReadWord(Kind.Null, ULL);
      } else if c == UPPER_N && features.allowSpecialFloats {
        kind := ReadWord(Kind.NaN, A_N);
      } else if c == UPPER_I && features.allowSpecialFloats {
        kind := ReadWord(PosInf, NFINITY);
      } else {
        kind := Error;
      }
    }

    method ReadToken() returns (token: Token)
      requires current <= |document|
      modifies `current
      ensures token == Scanner.ReadToken(document, old(current), features)
      ensures current == token.end
    {
      SkipSpaces();
      var start := current;
      var c := GetNextChar();
      var kind: Kind;
      var punctuation := Punctuation(c);
      if punctuation.Some? {
        kind := punctuation.value;
      } else {
        kind := ReadLongToken(c);
      }
      token := Token(kind, start, current);
    }

    // `while (token.type_ == tokenComment && ok) ok = readToken(token)`, and the loop of
    // skipCommentTokens; a failed token is never a comment.
    method SkipComments(first: Token) returns (token: Token)
      requires first.end == current <= |document|
      modifies `current
      ensures first.kind == Comment ==> token == NextToken(document, old(current), features)
      ensures first.kind != Comment ==> token == first
      ensures current == token.end <= |document|
    {
      token := first;
      while token.kind == Comment
        invariant current == token.end <= |document|
        invariant token.kind == Comment ==> first.kind == Comment
        invariant token.kind == Comment ==>
                    NextToken(document, current, features) == NextToken(document, old(current), features)
        invariant token.kind != Comment ==>
                    token == if first.kind == Comment then NextToken(document, old(current), features) else first
        decreases |document| - current, token.kind == Comment
      {
        token := ReadToken();
      }
    }

    method ReadNextToken() returns (token: Token)
      requires current <= |document|
      modifies `current
      ensures token == NextToken(document, old(current), features)
      ensures current == token.end <= |document|
    {
      token := ReadToken();
      token := SkipComments(token);
    }

    method SkipCommentTokens() returns (token: Token)
      requires current <= |document|
      modifies `current
      ensures token == FirstToken(document, old(current), features)
      ensures current == token.end <= |document|
    {
      if features.allowComments {
        token := ReadNextToken();
      } else {
        token := ReadToken();
      }
    }

    // ------------------------------------------------------------ errors and nodes

    method AddError(kind: Spec.ErrorKind, token: Token) returns (ok: bool)
      modifies `errors
      ensures !ok && errors == old(errors) + [Spec.ErrorInfo(kind, token)]
    {
      errors := errors + [Spec.ErrorInfo(kind, token)];
      ok := false;
    }

    method RecoverFromError(skipUntil: Kind) returns (ok: bool)
      requires current <= |document|
      modifies `current, `errors
      ensures !ok && errors == old(errors)
      ensures current == Recover(document, old(current), skipUntil, features)
    {
      var errorCount := |errors|;
      while true
        invariant current <= |document| && errors == old(errors)
        invariant Recover(document, current, skipUntil, features) == Recover(document, old(current), skipUntil, features)
        decreases |document| - current
      {
        var skip := ReadToken();
        if skip.kind == Error {
          errors := errors[..errorCount];
        }
        if skip.kind == skipUntil || skip.kind == EndOfStream {
          break;
        }
      }
      errors := errors[..errorCount];
      ok := false;
    }

    method AddErrorAndRecover(kind: Spec.ErrorKind, token: Token, skipUntil: Kind) returns (ok: bool)
      requires current <= |document|
      modifies `current, `errors
      ensures !ok && errors == old(errors) + [Spec.ErrorInfo(kind, token)]
      ensures current == Recover(document, old(current), skipUntil, features)
    {
      var _ := AddError(kind, token);
      ok := RecoverFromError(skipUntil);
    }

    // The top of the stack; what lies beneath it is passed to the methods below as a ghost.
    function CurrentValue(): Value
      reads this
      requires nodes != []
    {
      nodes[|nodes| - 1]
    }

    method SetCurrentValue(ghost below: seq<Value>, v: Value)
      requires |nodes| == |below| + 1 && nodes[..|below|] == below
      modifies `nodes
      ensures nodes == below + [v]
    {
      nodes := nodes[..|nodes| - 1] + [v];
    }

    // The only place where the stack grows.
    method PushNode(v: Value)
      requires |nodes| <= features.stackLimit
      modifies `nodes
      ensures nodes == old(nodes) + [v]
    {
      nodes := nodes + [v];
    }

    method PopNode() returns (v: Value)
      requires nodes != []
      modifies `nodes
      ensures old(nodes) == nodes + [v]
    {
      v := nodes[|nodes| - 1];
      nodes := nodes[..|nodes| - 1];
    }

    // `completion` is what `r` says; the stack is back to `below` plus the value that was read.
    ghost predicate Matches(r: Spec.Outcome, completion: Completion, below: seq<Value>, before: seq<Spec.ErrorInfo>)
      reads this
    {
      match completion
      case Thrown(x) => r == Spec.Threw(x)
      case Returned(ok) =>
        r.Read? && r.ok == ok && r.pos == current && nodes == below + [r.value] && errors == before + r.errors
    }

    // ------------------------------------------------------------ values

    method DecodeNumber(token: Token) returns (ok: bool, decoded: Value)
      requires token.start <= token.end <= |document|
      modifies `errors
      ensures match Spec.NumberValue(Spec.Text(document, token), floats)
              case Some(v) => ok && decoded == v && errors == old(errors)
              case None => !ok && errors == old(errors) + [Spec.ErrorInfo(Spec.NotANumber, token)]
    {
      var number := Numbers.DecodeNumber(document[token.start..token.end]);
      ok, decoded := true, Value.Null;
      match number {
        case Signed(i) => decoded := Int(i);
        case Unsigned(u) => decoded := UInt(u);
        case NotAnInteger =>
          var parsed := floats.parse(document[token.start..token.end]);
          if parsed.Some? {
            decoded := Value.Real(parsed.value);
          } else {
            ok := AddError(Spec.NotANumber, token);
          }
      }
    }

    method DecodeString(token: Token) returns (ok: bool, decoded: bytes)
      requires token.start + 2 <= token.end <= |document|
      modifies `errors
      ensures match Spec.StringOf(document, token)
              case Text(s, _) => ok && decoded == s && errors == old(errors)
              case Failed(e) => !ok && errors == old(errors) + [Spec.ErrorInfo(Spec.BadString(e), token)]
    {
      hide JsonStrings.DecodeBody;
      assert document[token.start + 1..token.end - 1] == Spec.Body(document, token);
      var r := StringDecoder.DecodeString(document[token.start + 1..token.end - 1]);
      match r {
        case Text(s, _) => ok, decoded := true, s;
        case Failed(e) =>
          decoded := [];
          ok := AddError(Spec.BadString(e), token);
      }
    }

    // The cases of readValue's switch that open no container.
    method ReadScalar(token: Token, ghost below: seq<Value>, ghost prior: Value) returns (ok: bool)
      requires nodes == below + [prior] && token.start <= token.end == current <= |document|
      requires token.kind != EndOfStream ==> token.start < token.end
      requires token.kind == String ==> token.start + 2 <= token.end
      modifies `current, `nodes, `errors
      ensures Matches(Spec.ScalarOutcome(document, token, prior, features, floats), Returned(ok), below, old(errors))
    {
      ok := true;
      if features.allowDroppedNullPlaceholders
         && (token.kind == ArraySeparator || token.kind == ObjectEnd || token.kind == ArrayEnd) {
        current := current - 1;
        SetCurrentValue(below, Value.Null);
      } else if token.kind == Number {
        var decoded: Value;
        ok, decoded := DecodeNumber(token);
        if ok {
          SetCurrentValue(below, decoded);
        }
      } else if token.kind == String {
        var decoded: bytes;
        ok, decoded := DecodeString(token);
        if ok {
          SetCurrentValue(below, Str(decoded));
        }
      } else {
        ok := ReadConstant(token, below, prior);
      }
    }

    method ReadConstant(token: Token, ghost below: seq<Value>, ghost prior: Value) returns (ok: bool)
      requires nodes == below + [prior] && token.start <= token.end == current <= |document|
      requires token.kind != EndOfStream ==> token.start < token.end
      requires token.kind != Number && token.kind != String
      requires !(features.allowDroppedNullPlaceholders
                 && (token.kind == ArraySeparator || token.kind == ObjectEnd || token.kind == ArrayEnd))
      modifies `nodes, `errors
      ensures Matches(Spec.ScalarOutcome(document, token, prior, features, floats), Returned(ok), below, old(errors))
    {
      ok := true;
      if token.kind == True {
        SetCurrentValue(below, Bool(true));
      } else if token.kind == False {
        SetCurrentValue(below, Bool(false));
      } else if token.kind == Kind.Null {
        SetCurrentValue(below, Value.Null);
      } else if token.kind == Kind.NaN {
        SetCurrentValue(below, Value.Real(Values.NaN));
      } else if token.kind == PosInf {
        SetCurrentValue(below, Value.Real(Values.PosInfinity));
      } else if token.kind == NegInf {
        SetCurrentValue(below, Value.Real(Values.NegInfinity));
      } else {
        ok := AddError(Spec.ValueExpected, token);
      }
    }

    method ReadValue(ghost below: seq<Value>, ghost prior: Value) returns (completion: Completion)
      requires nodes == below + [prior] && Inside()
      modifies `current, `nodes, `errors
      ensures Inside()
      ensures Matches(Spec.ReadValue(document, old(current), |below| + 1, prior, features, floats),
                      completion, below, old(errors))
      decreases |document| - current, 1
    {
      if |nodes| > features.stackLimit {
        return Thrown(Spec.StackLimitExceeded);
      }
      Spec.FirstStringHasQuotes(document, current, features);
      var token := SkipCommentTokens();
      if token.kind == ObjectBegin {
        completion := ReadObject(below);
      } else if token.kind == ArrayBegin {
        completion := ReadArray(below);
      } else {
        var ok := ReadScalar(token, below, prior);
        completion := Returned(ok);
      }
    }

    // A node: pushed, read and popped. `r` is what reading it amounts to.
    method ReadChild(initial: Value) returns (completion: Completion, value: Value, ghost r: Spec.Outcome)
      requires Inside() && |nodes| <= features.stackLimit
      modifies `current, `nodes, `errors
      ensures Inside()
      ensures r == Spec.ReadValue(document, old(current), |old(nodes)| + 1, initial, features, floats)
      ensures match completion
              case Thrown(x) => r == Spec.Threw(x)
              case Returned(ok) => r.Read? && r.ok == ok && r.pos == current && r.value == value && nodes == old(nodes)
                                   && errors == old(errors) + r.errors
      decreases |document| - current, 2
    {
      r := Spec.ReadValue(document, current, |nodes| + 1, initial, features, floats);
      value := Value.Null;
      PushNode(initial);
      completion := ReadValue(old(nodes), initial);
      if completion.Returned? {
        assert (old(nodes) + [r.value])[..|old(nodes)|] == old(nodes);
        value := PopNode();
      }
    }

    // ------------------------------------------------------------ objects

    method ReadObject(ghost below: seq<Value>) returns (completion: Completion)
      requires |nodes| == |below| + 1 && nodes[..|below|] == below
      requires Inside() && |nodes| <= features.stackLimit
      modifies `current, `nodes, `errors
      ensures Inside()
      ensures Matches(Spec.ReadMembers(document, old(current), |below| + 1, [], [], features, floats),
                      completion, below, old(errors))
      decreases |document| - current, 5
    {
      var name: bytes := [];
      ghost var entries: seq<Entry> := [];
      ghost var whole := Spec.ReadMembers(document, current, |nodes|, [], [], features, floats);
      SetCurrentValue(below, Obj([]));
      while true
        invariant begin <= old(current) <= current
        invariant ObjectGoesOn(whole, entries, name, below, old(errors))
        decreases |document| - current
      {
        var turn: Turn;
        turn, name, entries := ReadMember(below, entries, name);
        if turn.Leave? {
          return turn.completion;
        }
      }
    }

    // The loop goes round again with `entries` in the current object: what is left to read from
    // here on is the whole of what was left.
    ghost predicate ObjectGoesOn(whole: Spec.Outcome, entries: seq<Entry>, name: bytes, below: seq<Value>,
        before: seq<Spec.ErrorInfo>)
      reads this
    {
      && current <= |document| && errors == before
      && nodes == below + [Obj(entries)] && KeysOf(entries, false)
      && Spec.ReadMembers(document, current, |below| + 1, entries, name, features, floats) == whole
    }

    // One turn of the object loop.
    method ReadMember(ghost below: seq<Value>, ghost entries: seq<Entry>, lastName: bytes)
      returns (turn: Turn, name: bytes, ghost entries': seq<Entry>)
      requires nodes == below + [Obj(entries)] && KeysOf(entries, false)
      requires Inside() && |nodes| <= features.stackLimit
      modifies `current, `nodes, `errors
      ensures Inside()
      ensures var whole := Spec.ReadMembers(document, old(current), |below| + 1, entries, lastName, features, floats);
              match turn
              case Leave(completion) => Matches(whole, completion, below, old(errors))
              case Again => current > old(current) && ObjectGoesOn(whole, entries', name, below, old(errors))
      decreases |document| - current, 4
    {
      entries' := entries;
      var token := ReadNextToken();
      if token.kind == ObjectEnd && (lastName == [] || features.allowTrailingCommas) {
        return Leave(Returned(true)), [], entries;
      }
      Spec.NextStringHasQuotes(document, old(current), features);
      var ok: bool;
      ok, name := ReadName(token);
      if !ok {
        ok := RecoverFromError(ObjectEnd);
        return Leave(Returned(false)), name, entries;
      }
      if |name| >= 0x4000_0000 {
        return Leave(Thrown(Spec.KeyTooLong)), name, entries;
      }
      if features.rejectDupKeys && Has(CurrentValue().entries, Name(name)) {
        ok := AddErrorAndRecover(Spec.DuplicateKey, token, ObjectEnd);
        return Leave(Returned(false)), name, entries;
      }
      turn, entries' := ReadNamedMember(below, entries, name);
    }

    method ReadName(token: Token) returns (ok: bool, name: bytes)
      requires token.start <= token.end <= |document|
      requires token.kind == String ==> token.start + 2 <= token.end
      modifies `errors
      ensures match Spec.NameOf(document, token, features, floats)
              case MemberName(key) => ok && name == key && errors == old(errors)
              case NoName(kind) => !ok && errors == old(errors) + [Spec.ErrorInfo(kind, token)]
    {
      if token.kind == String {
        ok, name := DecodeString(token);
      } else if token.kind == Number && features.allowNumericKeys {
        var number: Value;
        ok, number := DecodeNumber(token);
        name := Spec.NumberName(number, floats);
      } else {
        name := [];
        ok := AddError(Spec.MissingMemberName, token);
      }
    }

    // The rest of the turn, from the colon on.
    method ReadNamedMember(ghost below: seq<Value>, ghost entries: seq<Entry>, name: bytes)
      returns (turn: Turn, ghost entries': seq<Entry>)
      requires nodes == below + [Obj(entries)] && KeysOf(entries, false)
      requires Inside() && |nodes| <= features.stackLimit
      modifies `current, `nodes, `errors
      ensures Inside()
      ensures var whole := Spec.NamedMember(document, old(current), |below| + 1, entries, name, features, floats);
              match turn
              case Leave(completion) => Matches(whole, completion, below, old(errors))
              case Again => current >= old(current) && ObjectGoesOn(whole, entries', name, below, old(errors))
      decreases |document| - current, 4
    {
      var colon := ReadToken();
      if colon.kind != MemberSeparator {
        var ok := AddErrorAndRecover(Spec.MissingColon, colon, ObjectEnd);
        return Leave(Returned(false)), entries;
      }
      var completion, value, r := ReadChild(Get(CurrentValue().entries, Name(name)));
      if completion.Thrown? {
        return Leave(completion), entries;
      }
      entries' := Put(entries, Name(name), value);
      SetCurrentValue(below, Obj(Put(CurrentValue().entries, Name(name), value)));
      turn := AfterMember(below, entries', name, completion.ok, colon.end, r, old(errors));
    }

    // What follows a member's value.
    method AfterMember(ghost below: seq<Value>, ghost entries: seq<Entry>, name: bytes, ok: bool, ghost from: nat,
        ghost r: Spec.Outcome, ghost before: seq<Spec.ErrorInfo>)
      returns (turn: Turn)
      requires nodes == below + [Obj(entries)] && KeysOf(entries, false)
      requires Inside() && from <= current && r.Read? && r.ok == ok && r.pos == current
      requires r.ok <==> r.errors == []
      requires errors == before + r.errors
      modifies `current, `errors
      ensures Inside() && current >= old(current)
      ensures var whole := Spec.AfterMember(document, from, |below| + 1, entries, name, features, floats, r);
              match turn
              case Leave(completion) => Matches(whole, completion, below, before)
              case Again => ObjectGoesOn(whole, entries, name, below, before)
    {
      if !ok {
        var _ := RecoverFromError(ObjectEnd);
        return Leave(Returned(false));
      }
      var comma := ReadToken();
      if comma.kind != ObjectEnd && comma.kind != ArraySeparator && comma.kind != Comment {
        var _ := AddErrorAndRecover(Spec.MissingObjectComma, comma, ObjectEnd);
        return Leave(Returned(false));
      }
      comma := SkipComments(comma);
      turn := if comma.kind == ObjectEnd then Leave(Returned(true)) else Again;
    }

    // ------------------------------------------------------------ arrays

    method ReadArray(ghost below: seq<Value>) returns (completion: Completion)
      requires |nodes| == |below| + 1 && nodes[..|below|] == below
      requires Inside() && |nodes| <= features.stackLimit
      modifies `current, `nodes, `errors
      ensures Inside()
      ensures Matches(Spec.ReadItems(document, old(current), |below| + 1, [], 0, features, floats),
                      completion, below, old(errors))
      decreases |document| - current, 5
    {
      var index: nat := 0;
      ghost var entries: seq<Entry> := [];
      ghost var whole := Spec.ReadItems(document, current, |nodes|, [], 0, features, floats);
      SetCurrentValue(below, Array([]));
      while true
        invariant begin <= old(current) <= current
        invariant ArrayGoesOn(whole, entries, index, below, old(errors))
        decreases |document| - current
      {
        var turn: Turn;
        turn, entries := ReadItem(below, entries, index);
        if turn.Leave? {
          return turn.completion;
        }
        index := index + 1;
      }
    }

    ghost predicate ArrayGoesOn(whole: Spec.Outcome, entries: seq<Entry>, index: nat, below: seq<Value>,
        before: seq<Spec.ErrorInfo>)
      reads this
    {
      && current <= |document| && errors == before
      && nodes == below + [Array(entries)] && KeysOf(entries, true)
      && Spec.ReadItems(document, current, |below| + 1, entries, index, features, floats) == whole
    }

    // One turn of the array loop.
    method ReadItem(ghost below: seq<Value>, ghost entries: seq<Entry>, index: nat)
      returns (turn: Turn, ghost entries': seq<Entry>)
      requires nodes == below + [Array(entries)] && KeysOf(entries, true)
      requires Inside() && |nodes| <= features.stackLimit
      modifies `current, `nodes, `errors
      ensures Inside()
      ensures var whole := Spec.ReadItems(document, old(current), |below| + 1, entries, index, features, floats);
              match turn
              case Leave(completion) => Matches(whole, completion, below, old(errors))
              case Again => current > old(current) && ArrayGoesOn(whole, entries', index + 1, below, old(errors))
      decreases |document| - current, 4
    {
      SkipSpaces();
      if current != |document| && document[current] == RBRACKET
         && (index == 0 || (features.allowTrailingCommas && !features.allowDroppedNullPlaceholders)) {
        var endArray := ReadToken();
        return Leave(Returned(true)), entries;
      }
      turn, entries' := ReadNextItem(below, entries, index);
    }

    method ReadNextItem(ghost below: seq<Value>, ghost entries: seq<Entry>, index: nat)
      returns (turn: Turn, ghost entries': seq<Entry>)
      requires nodes == below + [Array(entries)] && KeysOf(entries, true)
      requires Inside() && |nodes| <= features.stackLimit
      modifies `current, `nodes, `errors
      ensures Inside()
      ensures var whole := Spec.NextItem(document, old(current), |below| + 1, entries, index, features, floats);
              match turn
              case Leave(completion) => Matches(whole, completion, below, old(errors))
              case Again => current > old(current) && ArrayGoesOn(whole, entries', index + 1, below, old(errors))
      decreases |document| - current, 3
    {
      ghost var from := current;
      var completion, value, r := ReadChild(Get(CurrentValue().entries, Index(index)));
      if completion.Thrown? {
        return Leave(completion), entries;
      }
      entries' := Put(entries, Index(index), value);
      SetCurrentValue(below, Array(Put(CurrentValue().entries, Index(index), value)));
      turn := AfterItem(below, entries', index, completion.ok, from, r, old(errors));
    }

    // What follows an item.
    method AfterItem(ghost below: seq<Value>, ghost entries: seq<Entry>, ghost index: nat, ok: bool,
        ghost from: nat, ghost r: Spec.Outcome, ghost before: seq<Spec.ErrorInfo>)
      returns (turn: Turn)
      requires nodes == below + [Array(entries)] && KeysOf(entries, true)
      requires Inside() && from <= current && r.Read? && r.ok == ok && r.pos == current
      requires r.ok <==> r.errors == []
      requires errors == before + r.errors
      modifies `current, `errors
      ensures Inside() && current >= old(current)
      ensures var whole := Spec.AfterItem(document, from, |below| + 1, entries, index, features, floats, r);
              match turn
              case Leave(completion) => Matches(whole, completion, below, before)
              case Again => current > old(current) && ArrayGoesOn(whole, entries, index + 1, below, before)
    {
      if !ok {
        var _ := RecoverFromError(ArrayEnd);
        return Leave(Returned(false));
      }
      var token := ReadNextToken();
      if token.kind != ArraySeparator && token.kind != ArrayEnd {
        var _ := AddErrorAndRecover(Spec.MissingArrayComma, token, ArrayEnd);
        return Leave(Returned(false));
      }
      turn := if token.kind == ArrayEnd then Leave(Returned(true)) else Again;
    }

    // ------------------------------------------------------------ documents

    method SkipBom()
      requires current == begin == 0
      modifies `begin, `current
      ensures current == begin == Scanner.SkipBom(document, features)
    {
      if features.skipBom {
        if |document| - begin >= 3 && document[begin..begin + 3] == BOM {
          begin := begin + 3;
          current := begin;
        }
      }
    }

    // OurReader::parse without comment collection. It terminates on every document; when nothing
    // is thrown the stack of nodes is empty again, the cursor is inside the document, the result
    // is the one of the specification, and the verdict is true exactly when no error is left. What
    // the root holds after an exception is left open.
    method Parse(d: bytes, root: Value) returns (completion: Completion, root': Value)
      modifies this
      ensures document == d && Inside()
      ensures var r := Spec.Parse(d, root, features, floats);
              match completion
              case Thrown(x) => r == Spec.Threw(x)
              case Returned(ok) => nodes == [] && r == Spec.Read(ok, current, root', errors)
      ensures completion.Returned? ==> (completion.ok <==> errors == [])
    {
      document, begin, current, nodes, errors := d, 0, 0, [], [];
      SkipBom();
      ghost var r: Spec.Outcome;
      completion, root', r := ReadChild(root);
      if completion.Thrown? {
        root' := root;
      } else {
        assert errors == r.errors;
        var ok := FinishParse(completion.ok, root');
        completion := Returned(ok);
      }
    }

    // The checks after the value: nothing but white space may follow it, and it must be a
    // container, where the features say so.
    method FinishParse(successful: bool, root: Value) returns (ok: bool)
      requires Inside()
      modifies `current, `errors
      ensures Inside()
      ensures Spec.Finish(document, Spec.Read(successful, old(current), root, old(errors)), features)
              == Spec.Read(ok, current, root, errors)
    {
      var token := SkipCommentTokens();
      if features.failIfExtra && token.kind != EndOfStream {
        ok := AddError(Spec.ExtraAfterValue, token);
        return;
      }
      if features.strictRoot {
        if !root.Array? && !root.Obj? {
          token := Token(Error, 0, |document|);
          ok := AddError(Spec.ContainerExpected, token);
          return;
        }
      }
      ok := successful;
    }
  }
}
