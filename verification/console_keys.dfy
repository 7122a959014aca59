/**
 * What the console's Tab, Up and Down keys do to the document, stated over the document, the
 * pane and the input attributes so that the key handlers can be specified by them.
 */
module ConsoleKeys {
  import opened Text
  import opened AnsiDecoder
  import opened TuiDocument
  import History
  import LineParser
  import opened Completion

  /** How a key event ends: handled, with a beep, or with an exception escaping the handler. */
  datatype KeyResult = Handled | Beeped | Threw

  /**
   * What Tab does with the completions of the trimmed input: beep when there are none; with one,
   * insert what follows the input's length in it (substring throws when it is shorter); with
   * several, commit a listing.
   */
  datatype Tab = NoMatch | Complete(suffix: string) | Overrun | Listing(help: string)

  /** The completions the console's source gives; no source (the NoOpCompletionSource) gives none. */
  function Suggestions(source: DefaultCompletionSource?, input: string): seq<string> {
    if source == null then [] else Completions(source.terms, input)
  }

  /** The candidates of a listing, each preceded by one space. */
  function Candidates(completions: seq<string>): string {
    if completions == [] then ""
    else Candidates(completions[..|completions| - 1]) + " " + completions[|completions| - 1]
  }

  /** The Tab rule on the completions of `input`. */
  function TabRule(completions: seq<string>, input: string, prompt: string): (t: Tab)
    ensures t.NoMatch? <==> completions == []
    ensures t.Overrun? <==> |completions| == 1 && |completions[0]| < |input|
    ensures t.Complete? ==> |completions| == 1 && completions[0] == completions[0][..|input|] + t.suffix
    ensures t.Listing? <==> |completions| > 1
  {
    if completions == [] then NoMatch
    else if |completions| == 1 then
      if |completions[0]| < |input| then Overrun else Complete(completions[0][|input|..])
    else Listing("\n" + Candidates(completions) + "\n" + prompt)
  }

  /**
   * What Tab leaves, from the document `cells0`/`limit0` and the state `ink0` it started with:
   * nothing changed on a beep or on the substring exception; a single completion written after
   * the line; a listing committed and the trimmed line written again after it. A write whose
   * appendANSI throws ends the handler.
   */
  predicate Tabbed(doc: ConsoleDocument, pane: ColorPane, style: AttributeSet, settings: Settings,
                   cells0: seq<Cell>, limit0: int, ink0: Ink, input: string, tab: Tab, result: KeyResult)
    reads doc, pane, style
  {
    match tab
    case NoMatch => result == Beeped && doc.cells == cells0 && doc.limit == limit0 && InkOf(pane, style) == ink0
    case Overrun => result == Threw && doc.cells == cells0 && doc.limit == limit0 && InkOf(pane, style) == ink0
    case Complete(suffix) =>
      var w := WriteResult(suffix, ink0, settings);
      && doc.cells == cells0 + w.cells && doc.limit == limit0 && InkOf(pane, style) == w.ink
      && result == (if w.ok then Handled else Threw)
    case Listing(help) =>
      var w1 := WriteResult(help, ink0, settings);
      var w2 := WriteResult(input, w1.ink, settings);
      if w1.ok then
        && doc.cells == cells0 + w1.cells + w2.cells && doc.limit == |cells0| + |w1.cells|
        && InkOf(pane, style) == w2.ink && result == (if w2.ok then Handled else Threw)
      else
        doc.cells == cells0 + w1.cells && doc.limit == limit0 && InkOf(pane, style) == w1.ink && result == Threw
  }

  /**
   * What Up or Down leaves: nothing changed on a beep; otherwise the first `n` characters of the
   * line removed and the recalled entry written after what is left, uncommitted.
   */
  predicate Recalled(doc: ConsoleDocument, pane: ColorPane, style: AttributeSet, settings: Settings,
                     cells0: seq<Cell>, limit0: int, ink0: Ink, n: nat, recall: History.Recall, result: KeyResult)
    reads doc, pane, style
  {
    match recall
    case Beep => result == Beeped && doc.cells == cells0 && doc.limit == limit0 && InkOf(pane, style) == ink0
    case Replace(entry) =>
      var w := WriteResult(entry, ink0, settings);
      && 0 <= limit0 && limit0 + n <= |cells0|
      && doc.cells == cells0[..limit0] + cells0[limit0 + n..] + w.cells
      && doc.limit == limit0 && InkOf(pane, style) == w.ink && result == (if w.ok then Handled else Threw)
  }

  // ---------------------------------------------------------------------------------------
  // What the user sees on the input line

  /** The characters of a concatenation are the concatenated characters. */
  lemma CharsAppend(a: seq<Cell>, b: seq<Cell>)
    ensures Chars(a + b) == Chars(a) + Chars(b)
  {
  }

  /**
   * The line after Up or Down replaced it by `entry`: what follows the first |trim(line)|
   * characters of the old line, then the entry.
   */
  function LineAfterRecall(line: string, entry: string): string
    requires |Trim(line)| <= |line|
  {
    line[|Trim(line)|..] + entry
  }

  /**
   * With ANSI off, the input line a history key leaves is LineAfterRecall of the old line: the
   * removal counts the trimmed line's characters but starts at the limit.
   */
  lemma RecalledLine(doc: ConsoleDocument, pane: ColorPane, style: AttributeSet, settings: Settings,
                     cells0: seq<Cell>, limit0: int, ink0: Ink, entry: string, result: KeyResult)
    requires !settings.enableAnsi && 0 <= limit0 <= |cells0|
    requires Recalled(doc, pane, style, settings, cells0, limit0, ink0, |Trim(Chars(cells0[limit0..]))|,
      History.Replace(entry), result)
    ensures 0 <= doc.limit <= |doc.cells| && result == Handled
    ensures Chars(doc.cells[doc.limit..]) == LineAfterRecall(Chars(cells0[limit0..]), entry)
  {
    var line := Chars(cells0[limit0..]);
    var n := |Trim(line)|;
    var w := WriteResult(entry, ink0, settings);
    WriteLiteral(entry, ink0, settings);
    var kept := cells0[limit0 + n..];
    assert doc.cells[doc.limit..] == kept + w.cells;
    CharsAppend(kept, w.cells);
    CharsDrop(cells0[limit0..], n);
    assert cells0[limit0..][n..] == kept;
  }

  /** The characters after the first k cells are the characters after the first k. */
  lemma CharsDrop(cells: seq<Cell>, k: nat)
    requires k <= |cells|
    ensures Chars(cells[k..]) == Chars(cells)[k..]
  {
  }

  /** A line without surrounding blanks is replaced exactly by the recalled entry. */
  lemma RecallReplacesTrimmedLine(line: string, entry: string)
    requires Trim(line) == line
    ensures LineAfterRecall(line, entry) == entry
  {
  }

  /**
   * Surrounding blanks survive a recall: a trailing blank stays in front of the entry, and with a
   * leading blank the blank is removed in place of the line's last character.
   */
  lemma RecallKeepsBlanks()
    ensures LineAfterRecall("a ", "ls") == " ls"
    ensures LineAfterRecall(" a", "ls") == "als"
  {
    assert LeadingBlanks("a ") == 0;
    assert Trim("a ") == "a";
    assert LeadingBlanks(" a") == 1 by {
      assert " a"[1..] == "a";
    }
    assert Trim(" a") == "a";
  }

  /**
   * With ANSI off, a single completion extends the line by its suffix, and a listing leaves the
   * trimmed line, alone, after the new limit.
   */
  lemma TabbedLine(doc: ConsoleDocument, pane: ColorPane, style: AttributeSet, settings: Settings,
                   cells0: seq<Cell>, limit0: int, ink0: Ink, input: string, tab: Tab, result: KeyResult)
    requires !settings.enableAnsi && 0 <= limit0 <= |cells0|
    requires Tabbed(doc, pane, style, settings, cells0, limit0, ink0, input, tab, result)
    ensures 0 <= doc.limit <= |doc.cells|
    ensures tab.Complete? ==> Chars(doc.cells[doc.limit..]) == Chars(cells0[limit0..]) + tab.suffix
    ensures tab.Listing? ==> Chars(doc.cells[doc.limit..]) == input && result == Handled
  {
    match tab
    case NoMatch =>
    case Overrun =>
    case Complete(suffix) =>
      var w := WriteResult(suffix, ink0, settings);
      WriteLiteral(suffix, ink0, settings);
      assert doc.cells[doc.limit..] == cells0[limit0..] + w.cells;
      CharsAppend(cells0[limit0..], w.cells);
    case Listing(help) =>
      var w1 := WriteResult(help, ink0, settings);
      var w2 := WriteResult(input, w1.ink, settings);
      WriteLiteral(help, ink0, settings);
      WriteLiteral(input, w1.ink, settings);
      assert doc.cells[doc.limit..] == w2.cells;
  }

  // ---------------------------------------------------------------------------------------
  // Tab with a DefaultCompletionSource

  /**
   * With the completions of a DefaultCompletionSource and case folding that keeps lengths (the
   * ASCII folding of `ToLower`), Tab never runs into the substring exception; a single
   * completion is a term of the list, and the line it completes to equals that term up to case.
   */
  lemma TabOnTerms(terms: seq<string>, input: string, prompt: string)
    ensures TabRule(Completions(terms, input), input, prompt) != Overrun
    ensures match TabRule(Completions(terms, input), input, prompt)
      case Complete(suffix) =>
        Completions(terms, input)[0] in terms && ToLower(input + suffix) == ToLower(Completions(terms, input)[0])
      case _ => true
  {
    var cs := Completions(terms, input);
    if |cs| == 1 {
      var c := cs[0];
      CompletionsMembers(terms, input, c);
      assert Completes(c, input);
      assert |ToLower(input)| <= |ToLower(c)|;
      var suffix := c[|input|..];
      forall j | 0 <= j < |c| ensures ToLower(input + suffix)[j] == ToLower(c)[j] {
        if j < |input| {
          assert ToLower(c)[..|input|][j] == ToLower(input)[j];
        } else {
          assert (input + suffix)[j] == c[j];
        }
      }
    }
  }

  // ---------------------------------------------------------------------------------------
  // The listing read back as a command line

  /** A word the tokeniser keeps whole: non-empty, no quote and no character String.trim removes. */
  predicate IsWord(w: string) {
    w != [] && forall j :: 0 <= j < |w| ==> w[j] != '"' && !IsTrimmable(w[j])
  }

  /** The listing built from the front: a space and the first candidate, then the rest. */
  lemma {:induction false} CandidatesFront(cs: seq<string>)
    requires cs != []
    ensures Candidates(cs) == " " + cs[0] + Candidates(cs[1..])
    decreases |cs|
  {
    if |cs| > 1 {
      var n := |cs| - 1;
      CandidatesFront(cs[..n]);
      assert cs[..n][0] == cs[0];
      assert cs[..n][1..] == cs[1..][..|cs[1..]| - 1];
      assert cs[1..][|cs[1..]| - 1] == cs[n];
    } else {
      assert cs[1..] == [];
    }
  }

  /** A word is read into the token being built. */
  lemma {:induction false} SplitWord(w: string, rest: string, current: string)
    requires forall j :: 0 <= j < |w| ==> w[j] != '"' && !IsTrimmable(w[j])
    ensures LineParser.Split(w + rest, false, current) == LineParser.Split(rest, false, current + w)
    decreases |w|
  {
    if w != [] {
      assert !IsTrimmable(w[0]);
      assert (w + rest)[0] == w[0] && (w + rest)[1..] == w[1..] + rest;
      SplitWord(w[1..], rest, current + [w[0]]);
      assert current + [w[0]] + w[1..] == current + w;
    } else {
      assert w + rest == rest && current + w == current;
    }
  }

  /** A word has nothing to trim. */
  lemma WordTrimmed(w: string)
    requires IsWord(w)
    ensures Trim(w) == w
  {
    assert LeadingBlanks(w) == 0;
    assert TrailingBlanks(w[0..]) == 0;
    assert w[0..] == w;
  }

  /**
   * Read back by the console's own tokeniser, the listing of candidates that are words gives
   * the candidates again, in order.
   */
  lemma {:induction false} CandidatesTokens(cs: seq<string>)
    requires cs != [] && forall i :: 0 <= i < |cs| ==> IsWord(cs[i])
    ensures LineParser.Tokens(Candidates(cs)) == cs
    decreases |cs|
  {
    var c := cs[0];
    var rest := Candidates(cs[1..]);
    CandidatesFront(cs);
    assert Candidates(cs) == " " + (c + rest);
    assert LineParser.Split(" " + (c + rest), false, "") == LineParser.Split(c + rest, false, "") by {
      assert (" " + (c + rest))[1..] == c + rest;
    }
    SplitWord(c, rest, "");
    assert "" + c == c;
    if |cs| == 1 {
      assert rest == "";
      WordTrimmed(c);
    } else {
      CandidatesTokens(cs[1..]);
      CandidatesFront(cs[1..]);
      assert rest[0] == ' ';
      assert LineParser.Split(rest, false, c) == [c] + LineParser.Split(rest[1..], false, "");
      assert LineParser.Split(rest, false, "") == LineParser.Split(rest[1..], false, "");
      assert [c] + cs[1..] == cs;
    }
  }
}
