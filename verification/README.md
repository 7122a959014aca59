# java-terminal console engine, modelled in Dafny

This project models the text-and-input engine of java-terminal, a Swing terminal emulator, and
proves properties of it. The model covers:

- **ANSI colour decoding in the console panes** (`appendANSI` of both `ColorPane` classes). Text
  is cut into coloured runs at each `ESC ... m` sequence. An unterminated sequence at the end of
  a call is withheld and joined to the next call. An unsupported sequence throws.
- **The tui console document** (`ConsoleDocument`). It is a list of coloured characters with a
  `limit`, which separates committed output from the line the user is editing, and a caret. The
  model covers both `write` methods, `getUserInput`, the guarded `remove` and `makeCursorValid`.
- **The console key handlers** of the tui `Console` and of the legacy `Console`:
  - Tab completes the line.
  - Up and Down browse the command history.
  - Enter records the line, tokenises it with `parseLine` and hands it to the input processors.
- The print methods, `cls`, and the prompt setters.
- **`DefaultCompletionSource`**: case-insensitive prefix completion over a fixed list of terms.
- **`ColorUtil`**:
  - the table of 25 supported SGR sequences, `ansiToColor` and `getSupportedAnsiColors`;
  - `hex` (the `0xRRGGBB` directive);
  - `colorToANSI` (nearest entry under a distance);
  - `replaceAllAnsiWithHex`, a regex rewrite done with `Matcher.find`.
- **The `print`/`printf` engine of `TuiParent` and of `console/Tui`**. ANSI sequences are first
  rewritten into hex directives. The text is then walked: each directive sets the console
  foreground, and the text between directives is printed whole, or one character at a time
  when a print delay is set. The calls made on the console are recorded in order.
- **`ConsoleHandler`**:
  - the static table of handlers (one per frame, with distinct IDs and one input log each);
  - `setConsoleSettings`: the completion vocabulary in ascending string order, the two
    processors, the dispatcher that logs a line and then runs the matching command, and the
    three-way background decision;
  - `setBackgroundTransitions`.

The modules follow the Java packages:
- `Text` holds the `java.lang.String` operations the code relies on (`indexOf`, `trim`,
  `toLowerCase`, `join`, `replace`).
- `ColorUtil` models `util/ColorUtil`.
- `AnsiDecoder` holds the streaming decoder as functions, with a character-by-character
  reference.
- `TuiDocument` holds the tui `ColorPane` and `ConsoleDocument`.
- `History`, `LineParser` and `Completion` hold the history cursor, `parseLine` and the
  completion source. Both consoles use them.
- `ConsoleKeys` states what the Tab, Up and Down keys do to a document.
- `TuiConsole` models the tui `Console`.
- `LegacyColorPane` and `LegacyConsole` model the older classes.
- `HexPrint` models the `print` engine.
- `ConsoleHandling` models `ConsoleHandler`.

Where the code and its documentation disagree, the model follows the code:
- `cls` writes no new prompt.
- Enter does not clear the saved `currentCommand`.
- The colour `write` of the tui document inserts the text before the first ESC, then hands the
  whole text, prefix included, to `appendANSI`, so that prefix appears twice.
- An unsupported SGR sequence in `appendANSI` throws out of `ansiToColor`:
  - `write(text, attrs, updateLimit)` lets the exception escape;
  - the colour `write` swallows it in its catch-all.
- The documentation of the `print` methods of `TuiParent` says that, without the colour
  reset, the last ANSI or hex code printed becomes the default foreground. The code sets the
  default only from an explicit `color` argument (`HexPrint.Tui.Print`).
- The regex `ESC\[.{1,4}m` is greedy. In `ESC[31mam` it matches all seven characters, which are
  no key of the table, so they are removed (`ColorUtil.DimKeySwallowsTwo`).

## Model

| member | source | states |
|---|---|---|
| `Text.Trim` | src/main/java/com/bennavetta/jconsole/tui/console/Console.java:384 | `String.trim`: the result is the slice of the input after its leading blanks (chars at or below U+0020), it neither starts nor ends with a blank, and everything after it is blank |
| `Text.TrimKeepsNonBlank` | src/main/java/com/bennavetta/jconsole/tui/console/Console.java:384 | only blanks are dropped: every non-blank character of the line lies inside the trimmed result, which is then non-empty |
| `Text.TrimIdempotent` | src/main/java/com/bennavetta/jconsole/tui/console/Console.java:384 | trimming the line twice gives what trimming it once gives |
| `Text.ToLower` | src/main/java/com/bennavetta/jconsole/completion/DefaultCompletionSource.java:41 | `toLowerCase` under ASCII folding: the length is kept and each character is folded on its own |
| `ColorUtil.AnsiToColor` | src/main/java/com/bennavetta/jconsole/util/ColorUtil.java:88-94 | succeeds exactly when the sequence is a key of the table and then returns that key's colour; otherwise fails with the unsupported sequence |
| `ColorUtil.Lookup` | src/main/java/com/bennavetta/jconsole/util/ColorUtil.java:88-94 | `Map.get` on the table: None exactly when no entry has the key, otherwise the colour of an entry with it |
| `ColorUtil.AnsiColorMapKeysDistinct` | src/main/java/com/bennavetta/jconsole/util/ColorUtil.java:40-66 | the table has 25 entries and no key twice, so insertion order is the listing order |
| `ColorUtil.AnsiColorMapLayout` | src/main/java/com/bennavetta/jconsole/util/ColorUtil.java:40-66 | entries 0-7 are `ESC[3Xm`, 8-15 `ESC[0;3Xm` with the same dim colours, 16-23 `ESC[1;3Xm` with the bright colours, and 24 is the reset |
| `ColorUtil.AnsiToColorTable` | src/main/java/com/bennavetta/jconsole/util/ColorUtil.java:40-66 | `ESC[3Xm` and `ESC[0;3Xm` give the same dim colour, `ESC[1;3Xm` the bright one, and `ESC[0m` the reset colour |
| `ColorUtil.ShownKeys` | src/main/java/com/bennavetta/jconsole/util/ColorUtil.java:74-80 | the keys in table order; with the flag set, each listed key is the table key with every ESC replaced by the six characters `\u001B`, so no listed key holds a raw ESC |
| `ColorUtil.SupportedAnsiColors` | src/main/java/com/bennavetta/jconsole/util/ColorUtil.java:74-80 | the listing opens with the first key and the delimiter: a raw `ESC[30m` without the flag, the six characters `\u001B` and `[30m` with it |
| `ColorUtil.SupportedAnsiColorsReadable` | src/main/java/com/bennavetta/jconsole/util/ColorUtil.java:74-80 | with the escape flag and an ESC-free delimiter, the joined listing holds no ESC |
| `ColorUtil.HexString` | src/main/java/com/bennavetta/jconsole/util/ColorUtil.java:172-174 | `%x` digits: at least one, all lowercase hex, and at most two for a value below 256 |
| `ColorUtil.HexStringValue` | src/main/java/com/bennavetta/jconsole/util/ColorUtil.java:172-174 | the `%x` digits read back in base 16 give the number |
| `ColorUtil.Format02x` | src/main/java/com/bennavetta/jconsole/util/ColorUtil.java:172-174 | `%02x` gives at least two lowercase hex digits, exactly two for a channel value |
| `ColorUtil.Format02xValue` | src/main/java/com/bennavetta/jconsole/util/ColorUtil.java:172-174 | `%02x` of a Java int reads back as its unsigned 32-bit value, negative arguments included |
| `ColorUtil.HexOf` | src/main/java/com/bennavetta/jconsole/util/ColorUtil.java:172-174 | `hex(r, g, b)` starts with `0x` and has at least 8 characters |
| `ColorUtil.HexRoundTrip` | src/main/java/com/bennavetta/jconsole/util/ColorUtil.java:172-174 | for channels 0-255 the result is exactly one 8-character `0x[0-9a-f]{6}` directive that decodes back to those channels |
| `ColorUtil.Hex` | src/main/java/com/bennavetta/jconsole/util/ColorUtil.java:161-163 | `hex(Color)` is an 8-character directive that `Color.decode` turns back into the colour |
| `ColorUtil.ColorToAnsi` | src/main/java/com/bennavetta/jconsole/util/ColorUtil.java:102-114 | whatever the distance, the answer is a key of the table whose colour is at least as close as every entry's |
| `ColorUtil.MatchLen` | src/main/java/com/bennavetta/jconsole/util/ColorUtil.java:330 | a match of `ESC\[.{1,4}m` is 4 to 7 characters long and lies inside the text |
| `ColorUtil.MatchLenIsGreedy` | src/main/java/com/bennavetta/jconsole/util/ColorUtil.java:330 | the match found is a real match, no longer one exists, and there is none exactly when no length 1-4 matches |
| `ColorUtil.Find` | src/main/java/com/bennavetta/jconsole/util/ColorUtil.java:335 | `Matcher.find` from a position stops at the first match at or after it, or at the end |
| `ColorUtil.RewriteFromCopies` | src/main/java/com/bennavetta/jconsole/util/ColorUtil.java:336 | text with no match starting in it is copied verbatim |
| `ColorUtil.RewriteFromAdvance` | src/main/java/com/bennavetta/jconsole/util/ColorUtil.java:335-345 | one round of the find/append loop moves the rewritten prefix to the end of the next match |
| `ColorUtil.RewriteFromFinish` | src/main/java/com/bennavetta/jconsole/util/ColorUtil.java:347-350 | appending the rest after the last match completes the rewrite |
| `ColorUtil.ReplaceAll` | src/main/java/com/bennavetta/jconsole/util/ColorUtil.java:329-351 | the matcher loop builds exactly the leftmost-match rewrite of the text |
| `ColorUtil.ReplaceAllAnsiWithHex` | src/main/java/com/bennavetta/jconsole/util/ColorUtil.java:329-351 | the result is the rewrite in which each supported sequence becomes its colour's hex and each unsupported one is deleted |
| `ColorUtil.ReplaceAllAnsiWithHexReset` | src/main/java/com/bennavetta/jconsole/util/ColorUtil.java:360-382 | the same rewrite, with `ESC[0m` becoming the hex of the given reset colour |
| `ColorUtil.NoEscUnchanged` | src/main/java/com/bennavetta/jconsole/util/ColorUtil.java:329-382 | a text without ESC comes back unchanged from both forms |
| `ColorUtil.RewriteFromAgree` | src/main/java/com/bennavetta/jconsole/util/ColorUtil.java:329-382 | two replacement rules that agree on every sequence give the same rewrite |
| `ColorUtil.OneArgIsResetWhite` | src/main/java/com/bennavetta/jconsole/util/ColorUtil.java:329-382 | the one-argument form equals the two-argument form with the table's reset colour |
| `ColorUtil.ReplacementCases` | src/main/java/com/bennavetta/jconsole/util/ColorUtil.java:370-375 | an unsupported sequence becomes nothing, `ESC[0m` the reset colour's hex, and any other key its table colour's hex |
| `ColorUtil.RewriteFromEscFreeTail` | src/main/java/com/bennavetta/jconsole/util/ColorUtil.java:347-348 | an ESC-free rest of the text is copied as it is |
| `ColorUtil.DimKeyMatch` | src/main/java/com/bennavetta/jconsole/util/ColorUtil.java:330 | `ESC[3Xm` is matched on its own when neither following character is an `m` |
| `ColorUtil.DimKeyThenText` | src/main/java/com/bennavetta/jconsole/util/ColorUtil.java:329-351 | a dim colour sequence followed by such ESC-free text becomes the colour's hex followed by the text |
| `ColorUtil.SevenCharKeys` | src/main/java/com/bennavetta/jconsole/util/ColorUtil.java:40-66 | every 7-character key has the intensity digit 0 or 1 after `ESC[` |
| `ColorUtil.SevenCharNoKey` | src/main/java/com/bennavetta/jconsole/util/ColorUtil.java:330 | `ESC[3Xm`, any character and an `m` form one 7-character match, which is no key |
| `ColorUtil.DimKeySwallowsTwo` | src/main/java/com/bennavetta/jconsole/util/ColorUtil.java:329-351 | the greedy regex removes `ESC[3Xm` together with the next two characters when the second is an `m` |
| `AnsiDecoder.Paint` | src/main/java/com/bennavetta/jconsole/tui/console/ColorPane.java:25-33 | an append inserts each character of the text, in order, in the one colour |
| `AnsiDecoder.ScanIsRef` | src/main/java/com/bennavetta/jconsole/tui/console/ColorPane.java:63-91 | the pane's loop from an ESC paints what the character-by-character reference paints, with the same colour, withheld tail and failure |
| `AnsiDecoder.EmitIsRef` | src/main/java/com/bennavetta/jconsole/tui/console/ColorPane.java:74-89 | the text appended after a sequence, up to the next ESC, is what the reference paints from there |
| `AnsiDecoder.DecodeIsRef` | src/main/java/com/bennavetta/jconsole/tui/console/ColorPane.java:35-93 | appendANSI paints exactly what the reference paints and leaves the same colour, withheld tail and failure |
| `AnsiDecoder.RefFromPlain` | src/main/java/com/bennavetta/jconsole/tui/console/ColorPane.java:49-57 | ESC-free text is painted as it stands in the current colour |
| `AnsiDecoder.RefFromSplit` | src/main/java/com/bennavetta/jconsole/tui/console/ColorPane.java:44-45 | decoding a joined text equals decoding the first part and resuming from its colour and withheld tail with the second |
| `AnsiDecoder.DecodeChunked` | src/main/java/com/bennavetta/jconsole/tui/console/ColorPane.java:44-45 | two appendANSI calls, the second starting from the first one's colour and tail, paint what one call on the joined text paints |
| `AnsiDecoder.RefFromShape` | src/main/java/com/bennavetta/jconsole/tui/console/ColorPane.java:63-68 | no ESC is ever painted, and the withheld tail is empty or an ESC-led suffix without `m` |
| `AnsiDecoder.DecodeShape` | src/main/java/com/bennavetta/jconsole/tui/console/ColorPane.java:35-93 | the appends of one call hold no ESC, and what it withholds is an unterminated sequence at the end |
| `AnsiDecoder.DecodePlain` | src/main/java/com/bennavetta/jconsole/tui/console/ColorPane.java:47-52 | a non-empty text without ESC is one append in the current colour with nothing withheld |
| `AnsiDecoder.DecodeUnsupported` | src/main/java/com/bennavetta/jconsole/tui/console/ColorPane.java:71-72 | an unsupported sequence stops the scan with the exception `ansiToColor` throws |
| `TuiDocument.CaretAfterRemoveBounds` | src/main/java/com/bennavetta/jconsole/tui/console/ConsoleDocument.java:127 | after a removal the caret stays in the document, never moves right, and is untouched when before the removed span |
| `TuiDocument.ColorPane.constructor` | src/main/java/com/bennavetta/jconsole/tui/console/ColorPane.java:20-23 | the current colour starts as the foreground and nothing is withheld |
| `TuiDocument.ColorPane.SetColorCurrent` | src/main/java/com/bennavetta/jconsole/tui/console/ColorPane.java:95-97 | only the current colour changes |
| `TuiDocument.ColorPane.Append` | src/main/java/com/bennavetta/jconsole/tui/console/ColorPane.java:25-33 | the text is added at the end in `c`; the current colour, caret colour and attributes take `c`; the caret goes to the end; the limit stays |
| `TuiDocument.ColorPane.AppendAnsi` | src/main/java/com/bennavetta/jconsole/tui/console/ColorPane.java:35-93 | the document grows by the decoded runs of the withheld tail plus the text (from the foreground when colours reset); colour, tail, caret and attributes follow the decode; false exactly when an unsupported sequence threw |
| `TuiDocument.ColorPane.AppendScanned` | src/main/java/com/bennavetta/jconsole/tui/console/ColorPane.java:47-60 | the body of appendANSI after the reset: the same decode for any lookup |
| `TuiDocument.ColorPane.ScanLoop` | src/main/java/com/bennavetta/jconsole/tui/console/ColorPane.java:62-91 | the while loop completes the decode its start state promises |
| `TuiDocument.ColorPane.ScanStep` | src/main/java/com/bennavetta/jconsole/tui/console/ColorPane.java:64-73 | one pass withholds the tail, throws, or sets the colour and goes on |
| `TuiDocument.ColorPane.EmitAfter` | src/main/java/com/bennavetta/jconsole/tui/console/ColorPane.java:74-89 | the text after a sequence, up to the next ESC or the end, is appended in the new colour |
| `TuiDocument.ColorPane.AppendRun` | src/main/java/com/bennavetta/jconsole/tui/console/ColorPane.java:81 | one more append adds its cells after the earlier ones |
| `TuiDocument.ConsoleDocument.constructor` | src/main/java/com/bennavetta/jconsole/tui/console/ConsoleDocument.java:41-44 | an empty document with limit and caret at 0 |
| `TuiDocument.ConsoleDocument.SetDot` | src/main/java/com/bennavetta/jconsole/tui/console/ConsoleDocument.java:60 | only the caret moves |
| `TuiDocument.ConsoleDocument.InsertString` | src/main/java/com/bennavetta/jconsole/tui/console/ConsoleDocument.java:55 | the text is added at the end in the colour; a caret at the end follows it |
| `TuiDocument.ConsoleDocument.Write` | src/main/java/com/bennavetta/jconsole/tui/console/ConsoleDocument.java:46-69 | the document and the pane's state become what `WriteResult` says; on success the caret is at the end and the limit there when asked; after a throw the limit stays |
| `TuiDocument.ConsoleDocument.WriteColor` | src/main/java/com/bennavetta/jconsole/tui/console/ConsoleDocument.java:71-110 | the cells added are the prefix before the first ESC in `color` followed by the decode of the whole text (or the text in `color`); it completes unless appendANSI threw; the pane's colour, withheld tail, caret colour and the attributes become `ColorWriteInk`: the decode's colour and tail and the last append's colour on the ANSI path, otherwise `color` and the old tail, and the foreground after a completed write when colours reset |
| `TuiDocument.ConsoleDocument.InsertColored` | src/main/java/com/bennavetta/jconsole/tui/console/ConsoleDocument.java:76-91 | the insertion part of the colour write adds exactly the colour-write cells, leaves the limit, and leaves the pane and attributes as `ColorInsertInk` states |
| `TuiDocument.ConsoleDocument.InsertThenDecode` | src/main/java/com/bennavetta/jconsole/tui/console/ConsoleDocument.java:77-81 | the ESC-free prefix is inserted, then the whole text is decoded after it; the pane takes the decode's colour and tail, and the caret colour and attributes the last append's colour |
| `TuiDocument.ConsoleDocument.GetUserInput` | src/main/java/com/bennavetta/jconsole/tui/console/ConsoleDocument.java:112-120 | the characters after the limit, always present for a valid document |
| `TuiDocument.ConsoleDocument.Remove` | src/main/java/com/bennavetta/jconsole/tui/console/ConsoleDocument.java:122-128 | committed text never changes; a removal below the limit, of nothing, or past the end changes nothing; the result says whether it succeeded |
| `TuiDocument.ConsoleDocument.MakeCursorValid` | src/main/java/com/bennavetta/jconsole/tui/console/ConsoleDocument.java:143-146 | a caret before the limit moves to it, otherwise it stays; afterwards the cursor is valid |
| `TuiDocument.WriteLiteral` | src/main/java/com/bennavetta/jconsole/tui/console/ConsoleDocument.java:54-56 | with ANSI off a write inserts exactly its text, succeeds and leaves the state alone |
| `TuiDocument.WriteNoEscape` | src/main/java/com/bennavetta/jconsole/tui/console/ConsoleDocument.java:48-53 | with ANSI on no ESC reaches the document and only an unterminated sequence is withheld |
| `TuiDocument.WriteWithoutEscape` | src/main/java/com/bennavetta/jconsole/tui/console/ConsoleDocument.java:48-53 | with ANSI on, an ESC-free text is written whole in the starting colour |
| `TuiDocument.WriteChunked` | src/main/java/com/bennavetta/jconsole/tui/console/ConsoleDocument.java:48-53 | without the colour reset, two writes paint what one write of the joined text paints, so a sequence split between two prints still takes effect |
| `TuiDocument.ColorWriteIsPrefixThenWrite` | src/main/java/com/bennavetta/jconsole/tui/console/ConsoleDocument.java:76-82 | with ANSI on and an ESC in the text, the colour write is the prefix in `color` followed by a plain write begun in `color`: same cells, same outcome and, without the colour reset, the same state afterwards |
| `TuiDocument.ColorWriteWithholds` | src/main/java/com/bennavetta/jconsole/tui/console/ConsoleDocument.java:76-91 | after a colour write the pane withholds only an unterminated sequence at the end of the old tail and the text (ANSI path), or keeps the old tail |
| `History.Up` | src/main/java/com/bennavetta/jconsole/tui/console/Console.java:294-331 | at the oldest entry the cursor clamps to 0 with a beep; otherwise the cursor steps back by one from the newest position (when typing) or from where it was, and the line is replaced by the entry there |
| `History.Down` | src/main/java/com/bennavetta/jconsole/tui/console/Console.java:334-364 | when not browsing it beeps and changes nothing; otherwise the cursor steps forward by one and the line is replaced by the saved input when the cursor reaches the not-browsing position, else by the entry there |
| `History.Submit` | src/main/java/com/bennavetta/jconsole/tui/console/Console.java:386-387 | the line is appended, even when empty, browsing ends, and the saved line is kept |
| `History.UpValid` | src/main/java/com/bennavetta/jconsole/tui/console/Console.java:294-331 | Up keeps the cursor in range and the entries as they were, and saves the input only when browsing begins |
| `History.DownValid` | src/main/java/com/bennavetta/jconsole/tui/console/Console.java:334-364 | Down keeps the cursor in range, the entries and the saved line, and steps forward by one while browsing |
| `History.SubmitValid` | src/main/java/com/bennavetta/jconsole/tui/console/Console.java:386-387 | Enter keeps the cursor in range |
| `History.UpThenDownRestores` | src/main/java/com/bennavetta/jconsole/tui/console/Console.java:315-354 | Up from typing shows the newest entry; Down then gives back the line that was being typed |
| `History.DownThenUpReturns` | src/main/java/com/bennavetta/jconsole/tui/console/Console.java:324-363 | while browsing, Down then Up return to the same entry and state |
| `History.UpTimes` | src/main/java/com/bennavetta/jconsole/tui/console/Console.java:294-331 | repeated Up keeps the history valid |
| `History.UpTimesReaches` | src/main/java/com/bennavetta/jconsole/tui/console/Console.java:294-331 | k presses of Up from typing reach the k-th newest entry and save the input once |
| `History.DownTimes` | src/main/java/com/bennavetta/jconsole/tui/console/Console.java:334-364 | repeated Down keeps the history valid |
| `History.DownTimesSteps` | src/main/java/com/bennavetta/jconsole/tui/console/Console.java:334-364 | k Downs that stay within the entries step the cursor forward by k and change nothing else |
| `History.UpDownRestores` | src/main/java/com/bennavetta/jconsole/tui/console/Console.java:294-364 | after k Ups from typing, k - 1 Downs reach the newest entry and the k-th Down gives back the line that was being typed, ending browsing |
| `LineParser.ParseLine` | src/main/java/com/bennavetta/jconsole/tui/console/Console.java:443-473 | the character loop returns the tokens of the line as the recursive `Split` defines them (the legacy console has the same method) |
| `LineParser.SplitShape` | src/main/java/com/bennavetta/jconsole/tui/console/Console.java:448-470 | there is always a token, every token but the last is non-empty, and no token holds a quote |
| `LineParser.TokensShape` | src/main/java/com/bennavetta/jconsole/tui/console/Console.java:443-473 | the same for the tokens of any line |
| `LineParser.SplitKeeps` | src/main/java/com/bennavetta/jconsole/tui/console/Console.java:448-470 | the tokens keep the non-separator characters in order; only the last token is trimmed |
| `LineParser.SplitKeepsAtSeparator` | src/main/java/com/bennavetta/jconsole/tui/console/Console.java:449-464 | the same at a quote or at a space outside quotes |
| `LineParser.TokensKeepCharacters` | src/main/java/com/bennavetta/jconsole/tui/console/Console.java:443-473 | the tokens of a line are its kept characters, in order, apart from the trim of the last token |
| `LineParser.QuotedPhrase` | src/main/java/com/bennavetta/jconsole/tui/console/Console.java:449-458 | `"a b"` gives the one token `a b` and then an empty token |
| `LineParser.PlainWords` | src/main/java/com/bennavetta/jconsole/tui/console/Console.java:459-470 | `a b ` gives `a`, `b` and an empty last token |
| `Completion.DefaultCompletionSource.constructor` | src/main/java/com/bennavetta/jconsole/completion/DefaultCompletionSource.java:27-35 | the terms are kept as given |
| `Completion.DefaultCompletionSource.DoCompletion` | src/main/java/com/bennavetta/jconsole/completion/DefaultCompletionSource.java:38-46 | the loop returns the completing terms in list order |
| `Completion.CompletionsPick` | src/main/java/com/bennavetta/jconsole/completion/DefaultCompletionSource.java:38-46 | the completions are the terms at increasing positions, each completing the input, and no completing term is missed |
| `Completion.CompletionsMembers` | src/main/java/com/bennavetta/jconsole/completion/DefaultCompletionSource.java:40-44 | a string is a completion exactly when it is a term and completes the input |
| `Completion.CompletionsNoLonger` | src/main/java/com/bennavetta/jconsole/completion/DefaultCompletionSource.java:38-46 | there are never more completions than terms |
| `Completion.EmptyInputCompletesAll` | src/main/java/com/bennavetta/jconsole/completion/DefaultCompletionSource.java:41 | an empty input completes to the whole list |
| `Completion.CompletionsIgnoreCase` | src/main/java/com/bennavetta/jconsole/completion/DefaultCompletionSource.java:41 | an input and its lower-case form complete to the same terms |
| `ConsoleKeys.TabRule` | src/main/java/com/bennavetta/jconsole/tui/console/Console.java:265-291 | no completion means a beep; one completion shorter than the input throws; one completion otherwise yields the part after the input's length; several yield a listing |
| `ConsoleKeys.RecalledLine` | src/main/java/com/bennavetta/jconsole/tui/console/Console.java:307-328 | with ANSI off, the line after Up or Down is the old line without its first trimmed-length characters, followed by the entry |
| `ConsoleKeys.RecallReplacesTrimmedLine` | src/main/java/com/bennavetta/jconsole/tui/console/Console.java:307-328 | a line with no surrounding blanks is replaced exactly by the entry |
| `ConsoleKeys.RecallKeepsBlanks` | src/main/java/com/bennavetta/jconsole/tui/console/Console.java:307-309 | surrounding blanks survive a recall: `a ` then `ls` shows ` ls`, and ` a` then `ls` shows `als` |
| `ConsoleKeys.TabbedLine` | src/main/java/com/bennavetta/jconsole/tui/console/Console.java:274-290 | with ANSI off, one completion extends the line by its suffix, and a listing leaves the trimmed line alone after the new limit |
| `ConsoleKeys.TabOnTerms` | src/main/java/com/bennavetta/jconsole/tui/console/Console.java:274-277 | under ASCII case folding, with a DefaultCompletionSource the substring never throws, and a single completion makes the line equal to a term up to case |
| `ConsoleKeys.CandidatesFront` | src/main/java/com/bennavetta/jconsole/tui/console/Console.java:282-286 | the listing is a space and the first candidate, then the rest |
| `ConsoleKeys.SplitWord` | src/main/java/com/bennavetta/jconsole/tui/console/Console.java:465-467 | a word is read into the token being built |
| `ConsoleKeys.WordTrimmed` | src/main/java/com/bennavetta/jconsole/tui/console/Console.java:470 | a word has nothing to trim |
| `ConsoleKeys.CandidatesTokens` | src/main/java/com/bennavetta/jconsole/tui/console/Console.java:281-288 | read back by `parseLine`, a listing of word candidates gives the candidates again, in order |
| `TuiConsole.CallsFor` | src/main/java/com/bennavetta/jconsole/tui/console/Console.java:389-390 | one call per processor, in order, each with the line and its tokens |
| `TuiConsole.Console.constructor` | src/main/java/com/bennavetta/jconsole/tui/console/Console.java:126-164 | pane, document and attributes start in the foreground, with the NO_OP processor, no completion source and an empty history; then the prompt is written and committed |
| `TuiConsole.Console.SetConsoleForeground` | src/main/java/com/bennavetta/jconsole/tui/console/Console.java:175-180 | the foreground, the pane's colour, the caret colour and the attributes all take the colour; the document and the history stay |
| `TuiConsole.Console.Cls` | src/main/java/com/bennavetta/jconsole/tui/console/Console.java:189-197 | a fresh empty document; the history, prompt and settings are kept; no prompt is written |
| `TuiConsole.Console.Print` | src/main/java/com/bennavetta/jconsole/tui/console/Console.java:203-206 | the document grows by the write's cells and the input line is empty afterwards on success; the limit stays if it threw |
| `TuiConsole.Console.Println` | src/main/java/com/bennavetta/jconsole/tui/console/Console.java:212-215 | the same for the text followed by a newline |
| `TuiConsole.Console.PrintColor` | src/main/java/com/bennavetta/jconsole/tui/console/Console.java:222-225 | the colour write, committed when it completes, with the cells `ColorWriteCells` and the pane state `ColorWriteInk` give |
| `TuiConsole.Console.PrintlnColor` | src/main/java/com/bennavetta/jconsole/tui/console/Console.java:232-234 | the colour write of the text and a newline, committed when it completes, with the cells and pane state of the colour write |
| `TuiConsole.Console.Remove` | src/main/java/com/bennavetta/jconsole/tui/console/Console.java:239-245 | committed text is never touched; a refused removal changes nothing |
| `TuiConsole.Console.CursorToInput` | src/main/java/com/bennavetta/jconsole/tui/console/Console.java:261-262 | the caret is moved up to the limit when it is below it |
| `TuiConsole.Console.KeyTab` | src/main/java/com/bennavetta/jconsole/tui/console/Console.java:265-291 | Tab applies the three-way rule to the completions of the trimmed line, with the document effects `Tabbed` states |
| `TuiConsole.Console.ApplyTab` | src/main/java/com/bennavetta/jconsole/tui/console/Console.java:270-290 | the three branches of the rule on a given list of completions |
| `TuiConsole.Console.CompletionsOf` | src/main/java/com/bennavetta/jconsole/tui/console/Console.java:269 | the completion source's answer, with none for the no-op source |
| `TuiConsole.Console.ListingText` | src/main/java/com/bennavetta/jconsole/tui/console/Console.java:281-287 | the loop builds a newline, each candidate after a space, a newline and the prompt |
| `TuiConsole.Console.InsertCompletion` | src/main/java/com/bennavetta/jconsole/tui/console/Console.java:275-277 | the suffix is written after the line, uncommitted |
| `TuiConsole.Console.ListCompletions` | src/main/java/com/bennavetta/jconsole/tui/console/Console.java:288-289 | the listing is committed, then the trimmed line is written again |
| `TuiConsole.Console.ReplaceInput` | src/main/java/com/bennavetta/jconsole/tui/console/Console.java:308-328 | trimmed-length characters go at the limit, then the entry is written uncommitted |
| `TuiConsole.Console.TrimmedInput` | src/main/java/com/bennavetta/jconsole/tui/console/Console.java:298 | the trimmed text after the limit |
| `TuiConsole.Console.KeyUp` | src/main/java/com/bennavetta/jconsole/tui/console/Console.java:294-331 | the history moves as `History.Up` says, and the document is as `Recalled` states for its recall |
| `TuiConsole.Console.StepUp` | src/main/java/com/bennavetta/jconsole/tui/console/Console.java:301-327 | the history fields change exactly as `History.Up` says |
| `TuiConsole.Console.KeyDown` | src/main/java/com/bennavetta/jconsole/tui/console/Console.java:334-364 | the history moves as `History.Down` says, and the document is as `Recalled` states |
| `TuiConsole.Console.StepDown` | src/main/java/com/bennavetta/jconsole/tui/console/Console.java:338-363 | the history fields change exactly as `History.Down` says |
| `TuiConsole.Console.KeyEnter` | src/main/java/com/bennavetta/jconsole/tui/console/Console.java:379-393 | the trimmed line is submitted to the history, every processor is called with it and its tokens, and the prompt is written and committed |
| `TuiConsole.Console.SubmitLine` | src/main/java/com/bennavetta/jconsole/tui/console/Console.java:386-387 | the history fields become `History.Submit` of the line |
| `TuiConsole.Console.CallProcessors` | src/main/java/com/bennavetta/jconsole/tui/console/Console.java:389-390 | the loop makes exactly `CallsFor` |
| `TuiConsole.Console.SetPrompt` | src/main/java/com/bennavetta/jconsole/tui/console/Console.java:56-57 | only the prompt changes |
| `TuiConsole.Console.SetProcessors` | src/main/java/com/bennavetta/jconsole/tui/console/Console.java:112-114 | only the processors change |
| `TuiConsole.Console.SetCompletionSource` | src/main/java/com/bennavetta/jconsole/tui/console/Console.java:104-106 | only the completion source changes |
| `LegacyColorPane.SharedColor.constructor` | src/main/java/com/bennavetta/jconsole/ColorPane.java:16 | the one static current colour |
| `LegacyColorPane.ColorPane.constructor` | src/main/java/com/bennavetta/jconsole/ColorPane.java:19-22 | the constructor writes the foreground into the shared colour |
| `LegacyColorPane.ColorPane.Append` | src/main/java/com/bennavetta/jconsole/ColorPane.java:24-30 | the text is inserted at the end in `c` and the current colour is untouched |
| `LegacyColorPane.ColorPane.AppendAnsi` | src/main/java/com/bennavetta/jconsole/ColorPane.java:32-88 | the pane grows by the decode (from the foreground when colours reset) with a lookup that never fails; the shared colour and tail follow the decode |
| `LegacyColorPane.ColorPane.ScanLoop` | src/main/java/com/bennavetta/jconsole/ColorPane.java:57-86 | the while loop completes the decode its start state promises |
| `LegacyColorPane.ColorPane.EmitAfter` | src/main/java/com/bennavetta/jconsole/ColorPane.java:65-84 | the sequence sets the shared colour and the text after it, up to the next ESC, is appended in it |
| `LegacyColorPane.ColorPane.AppendRun` | src/main/java/com/bennavetta/jconsole/ColorPane.java:84 | one more append adds its cells |
| `LegacyColorPane.SharedAcrossPanes` | src/main/java/com/bennavetta/jconsole/ColorPane.java:16 | an appendANSI on one legacy pane changes the colour the next pane decodes from and leaves that pane's text alone |
| `LegacyConsole.Document.constructor` | src/main/java/com/bennavetta/jconsole/Console.java:239-242 | an empty stand-in document |
| `LegacyConsole.Document.Write` | src/main/java/com/bennavetta/jconsole/Console.java:264-267 | the text is appended, the caret goes to the end, and the limit goes there when asked |
| `LegacyConsole.Document.Remove` | src/main/java/com/bennavetta/jconsole/Console.java:345-356 | committed text never changes, and a refused removal changes nothing |
| `LegacyConsole.Document.MakeCursorValid` | src/main/java/com/bennavetta/jconsole/Console.java:374-376 | a caret before the limit moves up to it |
| `LegacyConsole.Composed` | src/main/java/com/bennavetta/jconsole/Console.java:139-155 | the prompt is the connection, then the path, then the sub-prompt |
| `LegacyConsole.Console.constructor` | src/main/java/com/bennavetta/jconsole/Console.java:186-230 | connection `Home>`, path `C:\`, empty sub-prompt, the prompt taken as given, the no-op processor, no completion source; the prompt is written and committed |
| `LegacyConsole.Console.SetPrompt` | src/main/java/com/bennavetta/jconsole/Console.java:127-129 | the prompt is overwritten and the connection, path and sub-prompt stay |
| `LegacyConsole.Console.SetSubPrompt` | src/main/java/com/bennavetta/jconsole/Console.java:139-142 | the sub-prompt is replaced and the prompt rebuilt from the three parts |
| `LegacyConsole.Console.SetPath` | src/main/java/com/bennavetta/jconsole/Console.java:152-155 | the path is replaced and the prompt rebuilt from the three parts |
| `LegacyConsole.Console.Cls` | src/main/java/com/bennavetta/jconsole/Console.java:239-248 | a fresh empty document; history and prompt kept; no prompt written |
| `LegacyConsole.Console.Write` | src/main/java/com/bennavetta/jconsole/Console.java:254-267 | the text, and a newline when asked, written and committed |
| `LegacyConsole.Console.Remove` | src/main/java/com/bennavetta/jconsole/Console.java:345-356 | the document's guarded removal |
| `LegacyConsole.Console.CursorToInput` | src/main/java/com/bennavetta/jconsole/Console.java:374-376 | the caret is moved up to the limit, text and limit unchanged |
| `LegacyConsole.Console.KeyTab` | src/main/java/com/bennavetta/jconsole/Console.java:379-410 | the three-way rule on the completions of the trimmed line, with the text effects `TabbedText` states |
| `LegacyConsole.Console.ApplyTab` | src/main/java/com/bennavetta/jconsole/Console.java:379-410 | the three branches on a given list of completions |
| `LegacyConsole.Console.KeyUp` | src/main/java/com/bennavetta/jconsole/Console.java:413-451 | the history moves as `History.Up` says, and the text as `RecalledText` states |
| `LegacyConsole.Console.StepUp` | src/main/java/com/bennavetta/jconsole/Console.java:413-451 | the history fields change exactly as `History.Up` says |
| `LegacyConsole.Console.KeyDown` | src/main/java/com/bennavetta/jconsole/Console.java:454-485 | the history moves as `History.Down` says, and the text as `RecalledText` states |
| `LegacyConsole.Console.StepDown` | src/main/java/com/bennavetta/jconsole/Console.java:454-485 | the history fields change exactly as `History.Down` says |
| `LegacyConsole.Console.ReplaceInput` | src/main/java/com/bennavetta/jconsole/Console.java:413-485 | trimmed-length characters go at the limit, then the entry is written uncommitted |
| `LegacyConsole.Console.KeyEnter` | src/main/java/com/bennavetta/jconsole/Console.java:488-505 | the trimmed line is submitted, the one processor gets it with its tokens, and the prompt is written and committed |
| `LegacyConsole.RecalledTextLine` | src/main/java/com/bennavetta/jconsole/Console.java:413-485 | after a recall the committed text is untouched and the line is `LineAfterRecall` of the old line |
| `LegacyConsole.TabbedTextLine` | src/main/java/com/bennavetta/jconsole/Console.java:379-410 | after Tab the committed text only grows; the line is extended by the suffix, or written again after the listing |
| `HexPrint.NextHex` | src/main/java/com/bennavetta/jconsole/tui/TuiParent.java:461-462 | the start of the leftmost directive at or after i, or the end, with no directive before it |
| `HexPrint.Tui.FromBuilder` | src/main/java/com/bennavetta/jconsole/tui/TuiParent.java:107-137 | an unset foreground is white and an unset delay 0 |
| `HexPrint.Tui.FromTuiBuilder` | src/main/java/com/bennavetta/jconsole/console/Tui.java:112-124 | an unset foreground is green, an unset reset flag true, and an unset delay 0 |
| `HexPrint.Tui.Print` | src/main/java/com/bennavetta/jconsole/tui/TuiParent.java:433-497 | the calls are the colour, the pieces and directives of the rewritten text, the newline, and the reset; the default colour changes only for an explicit colour without reset (console/Tui.java has the same method) |
| `HexPrint.Tui.PrintDirected` | src/main/java/com/bennavetta/jconsole/tui/TuiParent.java:446-481 | the loop makes exactly the calls `Chunks` lists for the text |
| `HexPrint.Tui.PrintStep` | src/main/java/com/bennavetta/jconsole/tui/TuiParent.java:447-480 | one pass advances and adds the calls `Chunks` lists between the two indices |
| `HexPrint.Tui.SetDirective` | src/main/java/com/bennavetta/jconsole/tui/TuiParent.java:451-457 | a directive sets its decoded colour and is skipped whole |
| `HexPrint.Tui.PrintUpToDirective` | src/main/java/com/bennavetta/jconsole/tui/TuiParent.java:461-480 | the text up to the next directive is printed and skipped |
| `HexPrint.Tui.PrintPiece` | src/main/java/com/bennavetta/jconsole/tui/TuiParent.java:468-478 | one print call, or one per character with a delay |
| `HexPrint.Tui.Printf` | src/main/java/com/bennavetta/jconsole/tui/TuiParent.java:410-419 | Color arguments are replaced in place by their hex; the formatted text is printed without colour or newline (console/Tui.java has the same method) |
| `HexPrint.ConvertColors` | src/main/java/com/bennavetta/jconsole/tui/TuiParent.java:412-416 | every Color argument, and only those, becomes its hex string |
| `HexPrint.HexArgDecodes` | src/main/java/com/bennavetta/jconsole/tui/TuiParent.java:412-416 | a converted Color is one directive decoding back to it; other arguments are kept |
| `HexPrint.PrintOpsText` | src/main/java/com/bennavetta/jconsole/tui/TuiParent.java:468-478 | the calls for a piece print the piece, with or without a delay |
| `HexPrint.StripRun` | src/main/java/com/bennavetta/jconsole/tui/TuiParent.java:461-465 | over a stretch without directive the reference copies the stretch |
| `HexPrint.ChunksPrintStripped` | src/main/java/com/bennavetta/jconsole/tui/TuiParent.java:446-481 | what the loop prints is the text with its leftmost directives removed, in order |
| `HexPrint.CharDelayPrintsSame` | src/main/java/com/bennavetta/jconsole/tui/TuiParent.java:468-478 | a print delay changes how the text is printed, not what |
| `HexPrint.PieceIsPlain` | src/main/java/com/bennavetta/jconsole/tui/TuiParent.java:461-465 | a piece cut before the next directive holds no directive |
| `HexPrint.ChunksPrintPlainPieces` | src/main/java/com/bennavetta/jconsole/tui/TuiParent.java:446-481 | without a delay every print call prints a non-empty piece free of directives |
| `HexPrint.HexThenPlain` | src/main/java/com/bennavetta/jconsole/tui/TuiParent.java:451-462 | after the hex of a Color, plain text holds no further directive |
| `HexPrint.ColorThenText` | src/main/java/com/bennavetta/jconsole/tui/TuiParent.java:410-481 | the hex printf makes of a Color, followed by plain text, sets that very colour and then prints the text in one piece |
| `ConsoleHandling.Settings.constructor` | src/main/java/com/bennavetta/jconsole/console/Tui.java:112-124 | the settings a Tui hands over, with an empty background queue of the default duration that is not deleted after use |
| `ConsoleHandling.Chosen` | src/main/java/com/bennavetta/jconsole/console/ConsoleHandler.java:102-105 | the command under the lower-cased first argument when there is one, otherwise the unrecognised-command processor |
| `ConsoleHandling.Fades` | src/main/java/com/bennavetta/jconsole/console/ConsoleHandler.java:181-186 | one fade per colour, in order, all of one duration |
| `ConsoleHandling.PrecedesIrreflexive` | src/main/java/com/bennavetta/jconsole/console/ConsoleHandler.java:92 | the lexicographic order by code point (`compareTo`'s order below U+10000) never puts a string before itself |
| `ConsoleHandling.PrecedesTransitive` | src/main/java/com/bennavetta/jconsole/console/ConsoleHandler.java:92 | the lexicographic order by code point is transitive |
| `ConsoleHandling.PrecedesTotal` | src/main/java/com/bennavetta/jconsole/console/ConsoleHandler.java:92 | in the lexicographic order by code point, of two different strings one comes first |
| `ConsoleHandling.Least` | src/main/java/com/bennavetta/jconsole/console/ConsoleHandler.java:92 | a non-empty set of names has a least one |
| `ConsoleHandling.LeastBelow` | src/main/java/com/bennavetta/jconsole/console/ConsoleHandler.java:92 | what comes before the least name comes before all of them |
| `ConsoleHandling.SortedNames` | src/main/java/com/bennavetta/jconsole/console/ConsoleHandler.java:92 | the command names sorted: strictly ascending by code point, which is `sorted()`'s `compareTo` order for names below U+10000, and holding exactly the names |
| `ConsoleHandling.AscendingDistinct` | src/main/java/com/bennavetta/jconsole/console/ConsoleHandler.java:92 | a sorted vocabulary holds each name once |
| `ConsoleHandling.Registry.constructor` | src/main/java/com/bennavetta/jconsole/console/ConsoleHandler.java:26 | an empty table and no logs |
| `ConsoleHandling.Registry.Add` | src/main/java/com/bennavetta/jconsole/console/ConsoleHandler.java:64-66 | the frame maps to the handler, whose ID is the old size, and gets an empty log; IDs stay distinct |
| `ConsoleHandling.ConsoleHandler.constructor` | src/main/java/com/bennavetta/jconsole/console/ConsoleHandler.java:59-76 | the handler is registered under a new ID with an empty log, and the settings are applied with the background set at once |
| `ConsoleHandling.ConsoleHandler.SetConsoleSettings` | src/main/java/com/bennavetta/jconsole/console/ConsoleHandler.java:83-125 | vocabulary, processors, colours and prompt applied; the background set at once the first time, else faded through a non-empty queue (emptied if asked), else faded to once when it differs from the colour the pane shows at the call |
| `ConsoleHandling.ConsoleHandler.ApplyToConsole` | src/main/java/com/bennavetta/jconsole/console/ConsoleHandler.java:92-111 | the sorted vocabulary, the processor then the dispatcher, the foreground, prompt and reset flag |
| `ConsoleHandling.ConsoleHandler.DecideBackground` | src/main/java/com/bennavetta/jconsole/console/ConsoleHandler.java:113-124 | the three-way background decision, comparing with the pane's live background as read at the call; nothing else changed |
| `ConsoleHandling.ConsoleHandler.SetBackgroundTransitions` | src/main/java/com/bennavetta/jconsole/console/ConsoleHandler.java:181-186 | pending fades are dropped and one fade per colour is queued |
| `ConsoleHandling.ConsoleHandler.Dispatch` | src/main/java/com/bennavetta/jconsole/console/ConsoleHandler.java:96-106 | the line is logged once for this handler, then the Tui's processor runs, then exactly one of the command and the unrecognised processor |
| `ConsoleHandling.ConsoleHandler.ProcessLine` | src/main/java/com/bennavetta/jconsole/tui/console/Console.java:389-390 | every installed processor runs in order, and each dispatcher adds the line to the log once |
| `ConsoleHandling.NewConsoleHandler` | src/main/java/com/bennavetta/jconsole/console/ConsoleHandler.java:59-66 | refused with nothing changed exactly when the frame already has a handler; otherwise registered |
| `ConsoleHandling.ProcessorRunsTwice` | src/main/java/com/bennavetta/jconsole/console/ConsoleHandler.java:94-106 | after the settings are applied, one line runs the Tui's processor twice, once before the log and once inside the dispatcher, and logs it once |
| `ConsoleHandling.RegistrationKeepsIdsDistinct` | src/main/java/com/bennavetta/jconsole/console/ConsoleHandler.java:64-66 | registering a handler under the old table size keeps all IDs distinct and below the size |

## Left out

- Swing rendering (fonts, scrolling, focus, mouse listeners, the copy pop-up, the caret
  listener): the model keeps only the text, its colours, the limit and the caret.
  `setConsoleFont` and the font fields are left out.
- The backspace workaround of the tui console: it resets the foreground from a thread after a
  sleep. Threads, `invokeLater`/`invokeAndWait` ordering, the character print delay's and
  `pauseTime`'s sleeps, and the background executor are left out. A print delay is modelled
  only by its effect of printing one character per call.
- Background fades: the interpolation uses floating point and wall-clock time on an executor
  thread. The model records the queue of fades each decision submits, not the colours shown.
  The colour the pane shows when `setConsoleSettings` reads it is therefore a parameter.
- `ColorUtil.colorDistance` computes in floating point. `ColorToAnsi` takes the distance as a
  parameter and is proved for every distance.
- The effects of input processors and commands: a processor call is recorded with its
  arguments, not run.
- `DOCUMENT_HARDCOPY`, `currentPosition` and `isInFocus` only feed scrolling, so they are left out.
- The legacy `ConsoleDocument` is not part of this model. The legacy console works over a
  stand-in document with the same write, remove and caret rules as the tui document.
- The legacy colour writes and the rainbow writers (`writeRainbowWords`,
  `writeRainbowCharacters`) depend on that document and on HSB floating point, so they are
  left out.
- The legacy `ColorUtil.getANSIColor` is not part of this model. The legacy pane takes it as a
  total function parameter.
- `console.gui.Console`, which `ConsoleHandler` drives, is not part of this model. The handler
  holds the fields it writes into that console. `ConsoleHandling.ConsoleHandler.ProcessLine`
  is its Enter loop over the installed processors.
- `CachingCompletionSource`'s cache is not part of this model. `DoCompletion` is called
  directly.
- The `NoOpCompletionSource` (which returns null) is modelled as the absence of a source, which
  gives no completions.
- `String.format` in `printf` is a parameter.
- `applySettingsToFrame` (reached when another Tui's settings are current), `queueBackground`,
  `getCastle`, the random colour helpers and the brightness/contrast helpers of `ColorUtil` are
  left out. They are frame plumbing or floating point.
- The unsupported-sequence message printed to `System.err` by `replaceAllAnsiWithHex` is left
  out (I/O); the sequence is still removed.
- `Text.ToLower`: folds ASCII letters only, not Unicode or locale case.
- `ConsoleKeys.TabOnTerms`: holds under the ASCII folding only. Java's `toLowerCase` can lengthen a
  string (the one-character `İ` folds to two characters), so the input `i̇` completes to `İ` and
  `substring(input.length())` then throws, which the model does not show.
- Strings are sequences of Unicode code points, not of UTF-16 units, so offsets and lengths
  count code points.
- `ConsoleHandling.SortedNames`: follows `compareTo` only for names whose characters lie below
  U+10000. `compareTo` compares UTF-16 units and puts U+FFFF after U+1F600 (whose first unit is
  0xD83D), while the model's code-point order puts it before.
- The alpha channel of `getRGB` is ignored, so colours are compared by their three channels.
- `HexPrint.Tui.Print`: the `pauseTime` argument only sleeps, so it is not a parameter of the
  model.
