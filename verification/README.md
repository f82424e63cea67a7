# ModuleFlow verification model

A Dafny model of the most intricate parts of ModuleFlow and of the two libraries it carries:

- the JSON codec of `3rdparty/jsoncpp`: string escaping and decoding, integers, the reader
  `OurReader`, the writers `FastWriter` and `BuiltStyledStreamWriter`, and `Value` as a tree, as an
  ordered type and as an array;
- the signal tables of ModuleFlow's `Object` and the registry of `ObjectManager`;
- the wake-up protocol of evpp's `EventLoop` and the worker protocol of `ThreadPoolLoopObject`, as
  state machines over their atomic steps;
- evpp's `Buffer` and the output path of `TCPConn`.

Code that updates state in place is modelled by classes and methods with loops; each method is proved
against a function or against a statement of its whole effect, and the laws are proved about those.
The main results:

1. **Round trip.** For every real-free tree, of any depth, with any bytes in its strings and names and
   with arrays of at most 2^31-1 items (the reader counts them in an `int`), for every spelling the two writers offer except dropped nulls, and for every feature set of the reader:
   `OurReader` reads the written text without an error if and only if the tree nests no more deeply than
   `stackLimit`, it is a container where one is called for, and no name comes back too long or, with
   `rejectDupKeys`, twice. It then reads up to the end of the text and recovers the normal form of the
   tree. The normal form is the tree itself if and only if the tree is compact (no hole in an array, no
   unsigned number that a signed one could hold) and its texts are well-formed UTF-8; a second trip
   with the same spelling of texts never changes anything.
2. **Layout.** The styled layout has the token sequence of the compact one, for every white-space
   indentation and comment style, and follows a style guide that knows nothing of trees: where lines
   break, how far each is indented, where blanks stand. An array takes one line exactly when that line
   is short enough. Without an indentation the text is the compact one, which is tokens and nothing else.
3. **The reader accepts exactly a grammar.** On every byte string and feature set the reader terminates,
   stays inside the document, and keeps its stack of nodes balanced and bounded. It succeeds exactly on
   the sentences of a grammar over tokens, with the value the grammar gives them; otherwise it reports
   exactly what is wrong at the first place where the document leaves the grammar, which is always one
   place and never none. Tokens, strings and escapes have grammars of their own. The grammar has two
   oddities: after a comment any token passes for the comma between members, and after an empty name a
   trailing comma is accepted under any features.
4. **No lost wake-up**, exactly-once execution, exact counting and order of the event loop's functors,
   and progress: the work left in any run is bounded by what was asked of it, and when none is left all
   functors are done. With the flag set after the notification, a deaf loop is reachable and stays deaf
   for good.
5. **Work conservation** in the thread pool, with its idle counter accounted for, and progress: every run
   is bounded by what is submitted, and when no worker or submitter has a step left all tasks are taken.
6. **No dangling observers** over connect, disconnect, emit, and deletion of objects and of managers
   with everything they contain, and a consistent registry; an emission runs every action registered for
   the signal, as often as it was connected, observer by observer; with the exact condition under which a user's
   connection, disconnection, addition or removal breaks either. The tables also break when an object
   that lives on emits DELETE, unless it is hooked to no other object: the others forget it, it does not
   forget them.
7. **The order on values** is the one described: kinds in their order of declaration, numbers by size,
   strings by their first differing byte, containers by size and first differing entry.
8. **A buffer that is a byte queue** through growth and compaction, and a connection that neither loses
   nor reorders what it is given to send.

`dafny verify dfyconfig.toml` checks the whole project. Masks and shifts of the codec are written with
`%`, `/` and `*` on numbers; those of the network-order integers are bit-vector operations.

## Files

| files | contents |
|---|---|
| Bytes, Utf8, JsonStrings, StringDecoder, Numbers | byte strings, UTF-8, string escapes, integers |
| StringGrammar | string literals by RFC 8259, and what decoder and escaper have to do with them |
| Values, ValueOrder, ValueArrays | `Value`: maps as sorted sequences, order and equality, array operations |
| Scanner, ReaderSpec, Reader | the tokenizer and the parser as functions, and `OurReader` against them |
| TokenGrammar, Grammar, Acceptance | tokens by their text, the language over tokens, and that it is the one accepted |
| Layout, Documents, FastWriter, StyledLayout, StyledWriter | text as tokens and white space; the writers |
| Indentation | what the layouts look like |
| RoundTrip, NormalForm, WriteThenRead | what reading the written text yields |
| EventLoop, ThreadPool | the concurrency protocols |
| ObjectGraph | `Object`, `ObjectManager` |
| NetworkOrder, Buffer, TcpConn | evpp's buffer and connection |

## Model

| member | source | states |
|---|---|---|
| Utf8.EncodedIsOneChar | 3rdparty/jsoncpp/jsoncpp.cpp:125-151 | the encoder produces exactly one UTF8-char of section 4 of RFC 3629 for every scalar value, whatever follows |
| Utf8.DecodeEncodeChar | 3rdparty/jsoncpp/jsoncpp.cpp:4262-4325 | the lax decoder reads any well-formed character to a scalar value that encodes to the same octets |
| Utf8.Utf8ToCodepoint | 3rdparty/jsoncpp/jsoncpp.cpp:4262-4325 | on any bytes: progress within the string, never a surrogate, ASCII exactly for ASCII lead bytes |
| Utf8.MalformedIsReplaced | 3rdparty/jsoncpp/jsoncpp.cpp:4262-4325 | characters cut short cost one octet, overlong forms and encoded surrogates all that was announced, and all read as U+FFFD |
| JsonStrings.ValueToQuotedStringN | 3rdparty/jsoncpp/jsoncpp.cpp:4349-4424 | early exit and loop both yield the quoted, escaped form of the string |
| JsonStrings.PlainTextIsUntouched | 3rdparty/jsoncpp/jsoncpp.cpp:4254-4260 | text in which nothing requires escaping is its own escaped form |
| JsonStrings.EscapeThenDecode | 3rdparty/jsoncpp/jsoncpp.cpp:4349-4424 | decoding the escaped form never fails, reads all of it and gives the string, or its sanitized form without emitUTF8 |
| JsonStrings.TotalEscaping | 3rdparty/jsoncpp/jsoncpp.cpp:4349-4424 | for every byte string: the result is well-formed UTF-8, it is the string itself if and only if that was well-formed, and a second pass changes nothing |
| JsonStrings.EscapedIsPrintable | 3rdparty/jsoncpp/jsoncpp.cpp:4393-4420 | without emitUTF8 the quoted form consists of octets from 0x20 to 0x7F |
| JsonStrings.ClosedBodyIsReadThrough | 3rdparty/jsoncpp/jsoncpp.cpp:1918-1969 | on a body the tokenizer delimited, the decoder reads through the last byte or fails, but never with the empty-escape error |
| StringGrammar.HexValueIs | 3rdparty/jsoncpp/jsoncpp.cpp:2003-2016 | exactly the sixteen digits of either case have a value, each its own |
| StringGrammar.DigitsDecode | 3rdparty/jsoncpp/jsoncpp.cpp:1996-2020 | four digits decode to a number exactly when they spell it, in whichever case, and to an error exactly when they spell none |
| StringGrammar.ShortEscapesAre | 3rdparty/jsoncpp/jsoncpp.cpp:1927-1957 | the whole table of two-character escapes |
| StringGrammar.DecodesTheGrammar | 3rdparty/jsoncpp/jsoncpp.cpp:1918-1994 | every body is a sequence of characters of the grammar up to its end, a quote or a place where there is none; it decodes to their meaning, or to the error that describes that place |
| StringGrammar.EscapesTheGrammar | 3rdparty/jsoncpp/jsoncpp.cpp:4349-4424 | which character of the grammar the escaper writes for what stands next: short escapes for seven characters, lower-case digits, plain text otherwise |
| StringDecoder.DecodeUnicodeEscapeSequence | 3rdparty/jsoncpp/jsoncpp.cpp:1996-2020 | the four-digit loop computes the value that StringGrammar.DigitsDecode characterises, or the right error |
| StringDecoder.DecodeUnicodeCodePoint | 3rdparty/jsoncpp/jsoncpp.cpp:1971-1994 | surrogate pairs are joined as the decoding function says |
| StringDecoder.DecodeString | 3rdparty/jsoncpp/jsoncpp.cpp:1918-1969 | the loop computes the decoding that StringGrammar.DecodesTheGrammar characterises: text, how much was read, or the error |
| Numbers.UIntToString | 3rdparty/jsoncpp/jsoncpp.cpp:153-173 | the backwards digit loop leaves the decimal numeral and a NUL at the end of the buffer and never runs below its second byte |
| Numbers.LargestIntToString | 3rdparty/jsoncpp/jsoncpp.cpp:4168-4182 | the numeral of every int64, the least one included |
| Numbers.LargestUIntToString | 3rdparty/jsoncpp/jsoncpp.cpp:4184-4190 | the numeral of every uint64 |
| Numbers.DecodeMagnitude | 3rdparty/jsoncpp/jsoncpp.cpp:1800-1862 | accepts exactly the digit strings whose value fits, computes that value, with no 64-bit overflow on the way |
| Numbers.DecodeNumber | 3rdparty/jsoncpp/jsoncpp.cpp:1800-1878 | an integer if and only if the token is one in [-2^63, 2^64-1], that one exactly, signed where it fits; otherwise it is left to the floating-point decoder |
| Numbers.IntegerRoundTrip | 3rdparty/jsoncpp/jsoncpp.cpp:4168-4190 | printing and decoding is the identity on every int64 and uint64 |
| Numbers.NoLeadingZero | 3rdparty/jsoncpp/jsoncpp.cpp:153-173 | a printed numeral has no leading zero |
| Values.StrictTotalOrder | 3rdparty/jsoncpp/jsoncpp.cpp:2908-3012 | on real-free trees `<` is a strict total order, `==` is identity, and compare is -1, 0 or 1 accordingly |
| ValueOrder.LessIsBelow | 3rdparty/jsoncpp/jsoncpp.cpp:2908-2962 | `<` holds exactly as kinds precede each other, numbers and booleans are smaller, strings differ first in a smaller byte or end, containers are smaller or differ first in a lower key or, under the same key, a lower value |
| Values.EqualIsIdentity | 3rdparty/jsoncpp/jsoncpp.cpp:2972-3012 | operator== holds exactly of identical trees |
| Values.KeyTrichotomy | 3rdparty/jsoncpp/jsoncpp.cpp:2721-2750 | exactly one of less, equal, greater for keys of the same kind, and key equality is identity |
| Values.PutKeepsSorted | 3rdparty/jsoncpp/jsoncpp.cpp:3351-3365 | inserting at the lower bound keeps the map's order |
| Values.PutThenGet | 3rdparty/jsoncpp/jsoncpp.cpp:3351-3365 | what is found under each key after an insertion |
| ValueArrays.ArrayValue.Element | 3rdparty/jsoncpp/jsoncpp.cpp:3351-3365 | operator[] fills with nulls up to the index and returns the item, a hole as null |
| ValueArrays.ArrayValue.MoveAssign | 3rdparty/jsoncpp/jsoncpp.cpp:2877-2880 | move-assignment between two elements, or from one to itself, swaps them |
| ValueArrays.Swapped | 3rdparty/jsoncpp/jsoncpp.cpp:2877-2880 | after the swap both positions are entries, hold each other's value, and no other position changes |
| ValueArrays.ArrayValue.Append | 3rdparty/jsoncpp/jsoncpp.cpp:3554-3561 | sequence append, holes read as null; full arrays stay full |
| ValueArrays.ArrayValue.Insert | 3rdparty/jsoncpp/jsoncpp.cpp:3567-3579 | fails exactly past the end, without effect; otherwise sequence insertion, holes read as null; full arrays stay full |
| ValueArrays.InsertedView | 3rdparty/jsoncpp/jsoncpp.cpp:3567-3579 | once the null entry has travelled down to the index, storing there is sequence insertion |
| ValueArrays.ArrayValue.RemoveIndex | 3rdparty/jsoncpp/jsoncpp.cpp:3624-3646 | fails exactly on non-arrays and absent positions, without effect; otherwise returns the item and every later position moves down by one |
| ValueArrays.RemovedView | 3rdparty/jsoncpp/jsoncpp.cpp:3624-3646 | the result is sequence removal if and only if the item was not the last, or was the first, or its predecessor is present; full arrays stay full |
| ValueArrays.ArrayValue.Resize | 3rdparty/jsoncpp/jsoncpp.cpp:3332-3349 | truncation or extension with nulls; the assertion on the new size fails exactly when shrinking to just above a hole |
| ValueArrays.CutView | 3rdparty/jsoncpp/jsoncpp.cpp:3340-3348 | after the erasing loop the size is the new size if and only if the position below it is present, and then the items are the prefix |
| ValueArrays.HolesAreLost | 3rdparty/jsoncpp/jsoncpp.cpp:3332-3349 | an array of two holes and an item, where removing the item, or shrinking to the holes, leaves an empty array |
| ValueArrays.FullIsDense | 3rdparty/jsoncpp/jsoncpp.cpp:3285-3302 | an array has no hole exactly when its keys are 0, 1, 2 and so on |
| Reader.OurReader.SkipSpaces | 3rdparty/jsoncpp/jsoncpp.cpp:1507-1515 | stops where the scanning function says |
| Reader.OurReader.Match | 3rdparty/jsoncpp/jsoncpp.cpp:1527-1536 | the backwards comparison finds the pattern exactly where it stands |
| Reader.OurReader.ReadNumber | 3rdparty/jsoncpp/jsoncpp.cpp:1634-1659 | digits, fraction and exponent, or the sign of an infinity |
| Reader.OurReader.ReadString | 3rdparty/jsoncpp/jsoncpp.cpp:1660-1682 | runs to the first unescaped quote |
| Reader.OurReader.ReadComment | 3rdparty/jsoncpp/jsoncpp.cpp:1538-1632 | where comments of both styles end, the end-of-document case included |
| Reader.OurReader.ReadToken | 3rdparty/jsoncpp/jsoncpp.cpp:1396-1505 | kind, start and end of the next token |
| Reader.OurReader.SkipCommentTokens | 3rdparty/jsoncpp/jsoncpp.cpp:1386-1394 | the first token that counts |
| Reader.OurReader.RecoverFromError | 3rdparty/jsoncpp/jsoncpp.cpp:2031-2042 | skips to the wanted token or the end and leaves the error list as it was |
| Reader.OurReader.DecodeNumber | 3rdparty/jsoncpp/jsoncpp.cpp:1790-1878 | the number or one more error |
| Reader.OurReader.ReadValue | 3rdparty/jsoncpp/jsoncpp.cpp:1294-1384 | outcome, cursor, error list and stack of nodes are those of the specification; the stack is balanced |
| Reader.OurReader.ReadObject | 3rdparty/jsoncpp/jsoncpp.cpp:1684-1746 | the member loop, with every error path and its recovery |
| Reader.OurReader.ReadArray | 3rdparty/jsoncpp/jsoncpp.cpp:1748-1788 | the item loop, with every error path and its recovery, is the one proved to accept exactly the grammar |
| Reader.OurReader.PushNode | 3rdparty/jsoncpp/jsoncpp.cpp:1294-1297 | the only growth of the stack, called only at or below the limit |
| Reader.OurReader.Parse | 3rdparty/jsoncpp/jsoncpp.cpp:1248-1292 | terminates on every document; nothing thrown means an empty stack, a cursor inside the document, the specified result, and true exactly when no error is left |
| ReaderSpec.Parse | 3rdparty/jsoncpp/jsoncpp.cpp:1248-1292 | the cursor moves forward inside the document and the verdict agrees with the error list |
| ReaderSpec.ReadMembers | 3rdparty/jsoncpp/jsoncpp.cpp:1684-1746 | the same from any turn of the object loop, by recursion on the bytes left |
| ReaderSpec.ReadItems | 3rdparty/jsoncpp/jsoncpp.cpp:1748-1788 | the cursor moves forward inside the document and the verdict agrees with the error list, from any turn of the array loop |
| ReaderSpec.ScalarOutcome | 3rdparty/jsoncpp/jsoncpp.cpp:1316-1374 | a value that opens no container ends at its token's end, or one character before it where the token is un-read, and fails exactly with an error |
| TokenGrammar.NumeralIsToken | 3rdparty/jsoncpp/jsoncpp.cpp:1634-1659 | a sign, digits, a point with digits and an exponent, each part optional, followed by nothing that goes on with it, are one number token |
| TokenGrammar.BlockComment | 3rdparty/jsoncpp/jsoncpp.cpp:1604-1616 | a comment ends at its first `*/`; without one it goes to the end of the document and is accepted if that ends with a slash |
| TokenGrammar.LineComment | 3rdparty/jsoncpp/jsoncpp.cpp:1618-1632 | a comment of the other style ends with the first line break of any kind |
| TokenGrammar.StringIsToken | 3rdparty/jsoncpp/jsoncpp.cpp:1660-1682 | a string token ends at the first unescaped quote of its own kind |
| TokenGrammar.WordIsToken | 3rdparty/jsoncpp/jsoncpp.cpp:1460-1471 | `true`, `false` and `null` are there as a whole, or their first character is an error by itself |
| TokenGrammar.SpecialWords | 3rdparty/jsoncpp/jsoncpp.cpp:1444-1489 | NaN and the infinities are tokens exactly where the features allow them |
| TokenGrammar.MarkOrError | 3rdparty/jsoncpp/jsoncpp.cpp:1396-1505 | each mark is a token by itself, and a character that starts no token an error by itself |
| TokenGrammar.BlanksAreSkipped | 3rdparty/jsoncpp/jsoncpp.cpp:1507-1515 | four characters are white space and no others |
| TokenGrammar.ByteOrderMark | 3rdparty/jsoncpp/jsoncpp.cpp:1517-1525 | three octets are skipped where the features say so |
| Acceptance.AcceptsTheLanguage | 3rdparty/jsoncpp/jsoncpp.cpp:1248-1384 | a document is accepted exactly when it is one of the grammar, and then the root is what the grammar says it means |
| Acceptance.ValueReads | 3rdparty/jsoncpp/jsoncpp.cpp:1294-1384 | every sentence of the grammar, at any depth the limit allows, is read to its end with its meaning |
| Acceptance.ExplainValue | 3rdparty/jsoncpp/jsoncpp.cpp:1294-1384 | whatever the document, readValue has read a sentence, or reports a fault that is there |
| Acceptance.FaultReads | 3rdparty/jsoncpp/jsoncpp.cpp:1684-1788 | a fault (a missing value, comma, colon or name, a repeated or overlong name, too many levels) is reported at its token, the reader resumes where stated, and the value holds all that was read before |
| Acceptance.ReportsTheFault | 3rdparty/jsoncpp/jsoncpp.cpp:1248-1292 | the fault of a document is the first thing parse reports, and what its exception says |
| Acceptance.SentenceOrFault | 3rdparty/jsoncpp/jsoncpp.cpp:1248-1384 | every document has a sentence or a fault, never both |
| Acceptance.LastMemberCounts | 3rdparty/jsoncpp/jsoncpp.cpp:1684-1746 | of members with the same name the last one counts |
| Acceptance.ItemsCount | 3rdparty/jsoncpp/jsoncpp.cpp:1748-1788 | an array has the items of the document at their positions |
| Acceptance.RecoverStops | 3rdparty/jsoncpp/jsoncpp.cpp:2031-2042 | recovery resumes behind the first token of the wanted kind, or at the end |
| Acceptance.OddRecordIsAccepted | 3rdparty/jsoncpp/jsoncpp.cpp:1727-1746 | a document without a comma between members, or a name behind the last, that is accepted under every feature set |
| Layout.TokenLexes | 3rdparty/jsoncpp/jsoncpp.cpp:1396-1505 | the tokenizer takes a proper token as it stands, provided a number does not run on |
| Layout.LexableLays | 3rdparty/jsoncpp/jsoncpp.cpp:1396-1515 | lexable text is tokenized into exactly the tokens it was laid out from |
| Layout.StringBodyIsClosed | 3rdparty/jsoncpp/jsoncpp.cpp:1660-1670 | what the tokenizer takes for a string has no unescaped quote and no dangling backslash in its body |
| FastWriter.FastWriter.Write | 3rdparty/jsoncpp/jsoncpp.cpp:4441-4453 | the document is exactly the rendered layout, and the line feed unless omitted |
| FastWriter.FastWriter.WriteValue | 3rdparty/jsoncpp/jsoncpp.cpp:4455-4506 | appends exactly the layout of the value |
| FastWriter.FastTokens | 3rdparty/jsoncpp/jsoncpp.cpp:4455-4506 | the compact layout has the tokens of the tree and no others |
| FastWriter.FastLexable | 3rdparty/jsoncpp/jsoncpp.cpp:4455-4506 | every chunk is white space or a proper token, and a number is always followed by a separator |
| Indentation.FastIsTight | 3rdparty/jsoncpp/jsoncpp.cpp:4455-4506 | the compact layout is the tokens of the tree one after the other, with a blank behind colons in YAML's manner and no other white space |
| StyledLayout.StyledTokens | 3rdparty/jsoncpp/jsoncpp.cpp:5015-5126 | the styled layout has the tokens of the tree and no others, for every indentation, comment style and starting position |
| StyledLayout.StyledLexable | 3rdparty/jsoncpp/jsoncpp.cpp:5015-5126 | with a white-space indentation it is lexable |
| Indentation.StyledFollowsGuide | 3rdparty/jsoncpp/jsoncpp.cpp:5015-5186 | with an indentation: every member, every item of a broken array and every closing bracket of a broken container starts a line, indented once for each broken container around it; there are no other line breaks, and blanks only around colons and inside arrays on one line; the place of a dropped null stays empty |
| Indentation.OneLineWhenItFits | 3rdparty/jsoncpp/jsoncpp.cpp:5128-5153 | an array takes one line exactly when its items are scalars or empty, fewer than 25, and that line is shorter than 74 characters; never when all comments are written |
| Indentation.CompactWithoutIndentation | 3rdparty/jsoncpp/jsoncpp.cpp:5168-5181 | without an indentation there is no line break and the layout is the compact one |
| StyledWriter.BuiltStyledStreamWriter.Write | 3rdparty/jsoncpp/jsoncpp.cpp:5000-5014 | the stream gains exactly the rendered styled layout and the ending |
| StyledWriter.BuiltStyledStreamWriter.WriteValue | 3rdparty/jsoncpp/jsoncpp.cpp:5015-5076 | collects exactly one child text, or writes exactly the layout and leaves the indentation as it was |
| StyledWriter.BuiltStyledStreamWriter.WriteObjectValue | 3rdparty/jsoncpp/jsoncpp.cpp:5048-5074 | braces, members one per line, indentation restored |
| StyledWriter.BuiltStyledStreamWriter.WriteItems | 3rdparty/jsoncpp/jsoncpp.cpp:5078-5126 | the array on one line or on several, from child texts or from the values |
| StyledWriter.BuiltStyledStreamWriter.WriteOneLine | 3rdparty/jsoncpp/jsoncpp.cpp:5110-5125 | the assertion that there is one child text per item holds, and the line is the layout |
| StyledWriter.BuiltStyledStreamWriter.IsMultilineArray | 3rdparty/jsoncpp/jsoncpp.cpp:5128-5153 | decides as specified, in 32-bit arithmetic, and leaves no child text or one for every item |
| StyledWriter.BuiltStyledStreamWriter.Unindent | 3rdparty/jsoncpp/jsoncpp.cpp:5183-5186 | the assertion on the indentation's length holds and the outer indentation is back |
| RoundTrip.ReadsValue | 3rdparty/jsoncpp/jsoncpp.cpp:1294-1384 | from any place where a tree's tokens are laid out, the reader recovers its normal form and stops where the rest begins, throws when the tree is too deep, and does not succeed when a name is not acceptable |
| RoundTrip.MembersNamedStep | 3rdparty/jsoncpp/jsoncpp.cpp:1712-1718 | the members still to come are acceptable exactly when the next one is and the others are once it is in |
| RoundTrip.DocumentReads | 3rdparty/jsoncpp/jsoncpp.cpp:1248-1292 | any document consisting of a tree's tokens is read as its normal form, or throws for depth, or lacks a container root, exactly as stated; with a name that is not acceptable it does not succeed |
| NormalForm.NormIsCanonical | 3rdparty/jsoncpp/jsoncpp.cpp:1684-1788 | where no text is damaged the normal form is the tree with small unsigned numbers signed and holes null |
| NormalForm.CanonicalKeepsItems | 3rdparty/jsoncpp/jsoncpp.cpp:3374-3385 | every position of an array reads the same, holes as null |
| NormalForm.CanonicalKeepsMembers | 3rdparty/jsoncpp/jsoncpp.cpp:3508-3520 | every name is found exactly when it was |
| NormalForm.ComesBackUnchanged | 3rdparty/jsoncpp/jsoncpp.cpp:1294-1384 | a tree, whatever its names, is its own normal form if and only if it is compact and its texts survive |
| NormalForm.SecondTripChangesNothing | 3rdparty/jsoncpp/jsoncpp.cpp:1294-1384 | the normal form of a normal form is itself, for any bytes, where no name grows too long to be stored |
| WriteThenRead.FastRoundTrip | 3rdparty/jsoncpp/jsoncpp.cpp:4447-4506 | what reading FastWriter's text comes to, for every tree and feature set |
| WriteThenRead.StyledRoundTrip | 3rdparty/jsoncpp/jsoncpp.cpp:5000-5126 | the same for BuiltStyledStreamWriter's text, every white-space indentation and comment style |
| WriteThenRead.SucceedsExactlyWhen | 3rdparty/jsoncpp/jsoncpp.cpp:1248-1292 | what either writer wrote is read back successfully if and only if the names are acceptable, the tree is not too deep, and it is a container where the root must be one |
| WriteThenRead.WellFormedRoundTrip | 3rdparty/jsoncpp/jsoncpp.cpp:4447-5126 | with either writer and well-formed texts: success under every feature set, the canonical tree, the tree itself if and only if compact |
| WriteThenRead.DefaultAndStrictRoundTrip | 3rdparty/jsoncpp/jsoncpp.cpp:2184-2217 | in particular under the default features, and for containers under the strict ones |
| WriteThenRead.SecondRoundTrip | 3rdparty/jsoncpp/jsoncpp.cpp:4447-4506 | for any first and second writer and settings: writing what was read and reading it again gives the same tree if and only if its texts survive the second writer, which they do unless only the first passes bytes through raw |
| WriteThenRead.StringRoundTrip | 3rdparty/jsoncpp/jsoncpp.cpp:4349-4424 | any string is one token, decoded through its last byte: to itself raw, from ASCII to well-formed UTF-8 otherwise |
| WriteThenRead.StringTokensAreReadThrough | 3rdparty/jsoncpp/jsoncpp.cpp:1660-1670 | any double-quoted token in any document is decoded through its last byte or fails otherwise than by an empty escape |
| EventLoop.NoLostWakeUp | 3rdparty/evpp/evpp/event_loop.cc:228-269 | in every reachable state a pending functor has a byte in the pipe, a thread inside QueueInLoop or the loop before its swap; queued functors are those pending, held and done; the counter is exact |
| EventLoop.QuietMeansDone | 3rdparty/evpp/evpp/event_loop.cc:302-335 | when the loop sleeps on an empty pipe and nobody is queueing, everything queued has run once and the counter is zero |
| EventLoop.RunsAreBounded | 3rdparty/evpp/evpp/event_loop.cc:228-335 | a run of any interleaving is no longer than a measure of its first state plus eleven steps for every functor queued and four for every nested call |
| EventLoop.EverythingGetsDone | 3rdparty/evpp/evpp/event_loop.cc:228-335 | from every reachable state, steps of the threads inside QueueInLoop and of the loop alone, no more than the measure, lead to one in which everything queued is done once and the counter is zero |
| EventLoop.StandstillMeansDone | 3rdparty/evpp/evpp/event_loop.cc:228-335 | once no step but queueing or a nested call is possible, everything queued is done once and the counter is zero |
| EventLoop.StepKeepsWakeUps | 3rdparty/evpp/evpp/event_watcher.cc:152-181 | each atomic step of queueing, notifying, receiving and swapping keeps the wake-up invariant |
| EventLoop.StepKeepsAccounts | 3rdparty/evpp/evpp/event_loop.cc:320-333 | each step keeps the multiset of functors and the counter, nested batches included |
| EventLoop.FirstQueuedFirstRun | 3rdparty/evpp/evpp/event_loop.cc:320-333 | without StopInLoop functors are done in the order of their queueing |
| EventLoop.StopInLoopOvertakes | 3rdparty/evpp/evpp/event_loop.cc:121-146 | with StopInLoop a later functor can be done before an earlier one: a run that shows it |
| EventLoop.NotifyingFirstCanGoDeaf | 3rdparty/evpp/evpp/event_loop.cc:248-254 | with notification before the flag, a state is reachable in which a functor waits and nobody comes |
| EventLoop.DeafForGood | 3rdparty/evpp/evpp/event_loop.cc:248-254 | from there no further steps of any threads ever run another functor |
| EventLoop.SettingFirstIsNeverDeaf | 3rdparty/evpp/evpp/event_loop.cc:244-263 | in the order of the code, in every reachable state, a raised flag has a byte in the pipe, a thread about to notify, or the loop about to clear it |
| ThreadPool.StepKeepsInv | include/framework/threadpool_loop.h:36-51 | each step of submitters and workers keeps work conservation, the counts, and the order of tasks |
| ThreadPool.PoolIsSound | src/framework/threadpool_loop.cpp:50-72 | in every reachable state: sleepers only beside covered tasks, at most 16 workers all accounted for, tasks taken once and in order |
| ThreadPool.RestMeansDone | src/framework/threadpool_loop.cpp:56-68 | when nobody submits and every worker sleeps, every task has been taken and the idle counter equals the pool |
| ThreadPool.CheckAddsWhenNoneIsFree | include/framework/threadpool_loop.h:46-48 | a worker is added exactly when all are running tasks and the pool is not full |
| ThreadPool.WorkersComeToRest | src/framework/threadpool_loop.cpp:56-68 | runs of worker steps alone are bounded |
| ThreadPool.RunsAreBounded | src/framework/threadpool_loop.cpp:50-72 | a run of any interleaving is no longer than a measure of its first state plus ten steps for every task submitted and two for every spurious wake-up |
| ThreadPool.EverythingGetsTaken | src/framework/threadpool_loop.cpp:50-72 | from every reachable state, steps of workers and of submitters inside `submit` alone, no more than the measure, lead to one in which every task submitted is taken and the idle counter equals the pool |
| ThreadPool.StandstillMeansDone | src/framework/threadpool_loop.cpp:50-72 | once no step but a submission or a spurious wake-up is possible, every task has been taken |
| ObjectGraph.ConnectKeepsSound | src/basic/object.cpp:37-49 | a connection keeps tables free of dead observers and DELETE hooks mutual if and only if it is not one to DELETE for another object that is not yet hooked |
| ObjectGraph.EraseKeepsSound | src/basic/object.cpp:51-53 | disconnecting one signal keeps them too if and only if it does not take a hook away |
| ObjectGraph.ForgettingKeepsSound | src/basic/object.cpp:54-56 | disconnecting an observer from every signal by hand keeps them if and only if there was no hook for it |
| ObjectGraph.RemoveKeepsSound | src/basic/object.cpp:54-56 | taking a deleted object out of every table keeps them for the rest and removes nothing else |
| ObjectGraph.ObserversAreHooked | src/basic/object.cpp:45-48 | whoever mentions another object under any signal is in that object's DELETE hooks |
| ObjectGraph.Object.Connect | src/basic/object.cpp:37-49 | the tables afterwards, hooks included, and exactly when they stay sound |
| ObjectGraph.Object.Disconnect | src/basic/object.cpp:51-53 | exactly one entry goes, and exactly when the tables stay sound |
| ObjectGraph.EmitKeepsSound | src/basic/object.cpp:57-64 | emitting DELETE on an object that lives on keeps the tables if and only if it is hooked to no other object |
| ObjectGraph.Object.Emit | src/basic/object.cpp:57-64 | runs exactly the actions registered for the signal, each observer's in the order of registration, the observers one after the other, and none when there is no entry; on DELETE exactly the mentions of the emitter go, through hooks on live objects only; on other signals no table changes; and exactly when the tables stay sound |
| ObjectGraph.InTurnIsAll | src/basic/object.cpp:57-64 | in whichever order the observers come, every action is run as often as it is registered |
| ObjectGraph.ConnectedIsDue | src/basic/object.cpp:37-49 | an action that was connected k times is run k times more |
| ObjectGraph.EraseTakes | src/basic/object.cpp:51-53 | a disconnected observer's actions, and no others, are no longer run |
| ObjectGraph.EmittingDeleteTears | src/basic/object.cpp:57-64 | two connected objects of which the first emits DELETE: the second forgets it, the first does not |
| ObjectGraph.Object.Depart | src/basic/object.cpp:24-28 | the destructor: the object leaves tables and registry, all else is kept |
| ObjectGraph.Object.DeleteItems | src/basic/object.cpp:68-74 | a manager's items die with everything in them and nothing else |
| ObjectGraph.Object.Delete | src/basic/object.cpp:24-28 | deletion leaves no mention of the dead, kills only what is contained, and keeps both invariants |
| ObjectGraph.Object.Add | src/basic/object.cpp:76-85 | for any object that does not contain the manager, the whole registry afterwards: one more entry, or a refusal with or without deletion, even of the manager's own item, and the tables without the deleted; it is consistent if and only if the object was refused or had no manager |
| ObjectGraph.Object.Detach | src/basic/object.cpp:87-103 | the registry stays consistent if and only if no other object has the name |
| ObjectGraph.DetachingAStrangerTears | src/basic/object.cpp:87-103 | two objects of one name, of which the manager loses the first when asked to remove the second |
| ObjectGraph.Object.Remove | src/basic/object.cpp:87-103 | the whole registry afterwards: exactly one entry is taken out, under the object's name, and the object deleted on request with what it contains, even one that is not registered here; the tables stay sound, the registry consistent if and only if no other object has the name |
| ObjectGraph.Object.RemoveByName | src/basic/object.cpp:105-111 | the same for whatever the name stands for |
| ObjectGraph.Object.Fix | src/basic/object.cpp:116-118 | every object in the map gets the manager as parent and a key of its own as name, and no other object changes; all names are the keys if and only if no object is under two |
| ObjectGraph.NewObjectKeepsReady | src/basic/object.cpp:20-22 | a new object joins without disturbing either invariant |
| Buffer.Buffer.Skip | 3rdparty/evpp/evpp/buffer.h:44-50 | drops a prefix, all of it when longer |
| Buffer.Buffer.Truncate | 3rdparty/evpp/evpp/buffer.h:61-68 | keeps a prefix, all of it when shorter |
| Buffer.Buffer.Next | 3rdparty/evpp/evpp/buffer.h:244-260 | what is returned and what is left make up what was there |
| Buffer.Buffer.Grow | 3rdparty/evpp/evpp/buffer.h:402-424 | contents unchanged in both branches, enough room afterwards, the assertions hold |
| Buffer.Buffer.Reserve | 3rdparty/evpp/evpp/buffer.h:80-87 | capacity for the length beside the reserved part, contents unchanged |
| Buffer.Buffer.EnsureWritableBytes | 3rdparty/evpp/evpp/buffer.h:90-96 | the assertion holds, contents unchanged, nothing moved when there was room |
| Buffer.Buffer.Write | 3rdparty/evpp/evpp/buffer.h:118-123 | appends |
| Buffer.Buffer.Prepend | 3rdparty/evpp/evpp/buffer.h:178-183 | puts in front |
| Buffer.Buffer.UnreadBytes | 3rdparty/evpp/evpp/buffer.h:284-289 | the last octets that were read are in front of the contents again, if and only if they still stand there in the storage |
| Buffer.ReadAndUnread | 3rdparty/evpp/evpp/buffer.h:244-289 | for any two lengths, reading and then unreading puts the last octets read in front again if and only if the read left something, or the reserved part happens to end with the same octets |
| Buffer.UnreadAfterReadingAll | 3rdparty/evpp/evpp/buffer.h:244-289 | after a read that leaves nothing, unreading can bring back another octet than the last one read: two octets for which it does |
| Buffer.Buffer.ToText | 3rdparty/evpp/evpp/buffer.h:100-103 | a NUL behind unchanged contents |
| Buffer.Buffer.Shrink | 3rdparty/evpp/evpp/buffer.h:230-234 | unchanged contents, the given room, the default reserved part |
| Buffer.Buffer.ReadFromFD | 3rdparty/evpp/evpp/buffer.cc:22-46 | what was received is appended, through the extra buffer or not |
| Buffer.Buffer.AppendInt | 3rdparty/evpp/evpp/buffer.h:138-155 | appends the wire form |
| Buffer.Buffer.ReadInt | 3rdparty/evpp/evpp/buffer.h:198-220 | reads and drops the first integer |
| Buffer.PrependedIsReadFirst | 3rdparty/evpp/evpp/buffer.h:158-176 | a prepended integer is the next one read |
| NetworkOrder.SwapTwice | 3rdparty/evpp/evpp/buffer.h:106-114 | byte swapping is an involution at each width |
| NetworkOrder.WireIsBigEndian | 3rdparty/evpp/evpp/buffer.h:138-141 | the most significant octet of a 64-bit integer comes first |
| NetworkOrder.ShorterWireIsBigEndian | 3rdparty/evpp/evpp/buffer.h:138-155 | and so do those of 32, 16 and 8 bits |
| NetworkOrder.AppendedAreReadBack | 3rdparty/evpp/evpp/buffer.h:138-220 | any sequence of integers of any widths is read back in order, leaving what follows |
| TcpConn.TCPConn.SendInLoop | 3rdparty/evpp/evpp/tcp_conn.cc:119-173 | accepted octets followed by the output buffer are all that was given; write interest exactly while octets wait; which callbacks are queued; closed exactly on a broken peer |
| TcpConn.TCPConn.ReportedOnce | 3rdparty/evpp/evpp/tcp_conn.cc:158-164 | in however many parts the buffer grows over the high-water mark, that is reported once, with the size it then has |
| TcpConn.TCPConn.HandleWrite | 3rdparty/evpp/evpp/tcp_conn.cc:212-236 | the same across a write event; closed exactly on an error that is not retriable |
| TcpConn.TCPConn.HandleClose | 3rdparty/evpp/evpp/tcp_conn.cc:246-284 | closing ends write interest, and closing again changes nothing |

## Left out

- Floating-point numbers: `decodeDouble` and `valueToString(double)` depend on streams and printf; the reader's
  decoder is an arbitrary partial function of the text, and trees with reals are outside the round trips and the order.
- JSON comments kept with values (`collectComments`, `commentStyle`): no value has a comment, so the comment writers
  do nothing and only the branches they steer remain; comments in documents are skipped as the tokenizer skips them.
- Error texts, line and column reporting, and the offsets stored in values.
- `StyledWriter`, `StyledStreamWriter` and the deprecated `Reader`, near copies of what is modelled.
- Round trips with dropped null placeholders: `[null]` is printed as `[]`.
- Reader.OurReader.Parse: what the root holds after an exception is left open.
- Reader.OurReader.ReadArray: indices past the range of `int` are not wrapped, which takes a document of 2 GiB; the
  round trips ask for arrays that can be counted.
- FastWriter.FastWriter.WriteMembers: members are visited in the map's order directly, where the code goes through
  `getMemberNames` and looks each name up again.
- ValueArrays.ArrayValue.Element: the index 2^32-1, at which `size()` wraps to zero, is excluded.
- ValueArrays.ArrayValue.Append: an array of 2^32-1 items, for the same reason.
- ValueArrays.ArrayValue.Insert: an array of 2^32-1 items, for the same reason.
- EventLoop.NoLostWakeUp: the queue guarded by the mutex is the one modelled, not the lock-free variants selected at
  build time; starting, stopping and the time after the watcher is released are not steps of the model.
- ThreadPool.PoolIsSound: shutdown is not modelled, and one submitter at a time is in the part of `submit` that touches
  the pool, which the code does not protect.
- ObjectGraph.Object.Emit: actions that change tables while a signal is emitted are outside the model, except the hooks.
- ObjectGraph.Object.Add: `setParent` is used by managers only, and no manager is added to itself or to anything it
  contains: containment is acyclic, which levels kept beside the state witness.
- ObjectGraph.Object.Remove: an object that contains the manager is not deleted through it while another one is under
  its name there, for the manager would go with it.
- ObjectGraph.Object.Fix: how entries get into a manager's map directly is not modelled.
- Buffer.Buffer.Grow: sizes do not overflow.
- `Buffer::FindCRLF` and `FindEOL`, which hand out pointers into the storage.
- TcpConn.TCPConn.HandleClose: the user's callbacks, the delayed close and the channel's registration are not part of
  this model; what is still buffered when the connection closes is dropped, as in the code.
- TCP servers and clients, connectors, DNS, HTTP, UDP, timers and logging: I/O around foreign callbacks.
