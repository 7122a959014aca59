/**
 * The legacy console (jconsole.Console): the same history, Tab and Enter handling as the tui
 * console, one input processor instead of a list, and a prompt composed of a connection, a path
 * and a sub-prompt.
 *
 * The legacy ConsoleDocument is not part of this model. The console is modelled over a plain
 * stand-in document holding text, a limit and a caret, with the rules of the tui document:
 * a write appends and moves the caret to the end, and the limit too when asked; a removal below
 * the limit does nothing; the caret is clamped up to the limit.
 */
module LegacyConsole {
  import opened Text
  import History
  import LineParser
  import opened Completion
  import opened ConsoleKeys
  import TuiDocument
  import TuiConsole

  /** The stand-in for the legacy ConsoleDocument. */
  class Document {
    var text: string
    var limit: int
    var dot: int

    predicate Valid()
      reads this
    {
      0 <= limit <= |text| && 0 <= dot <= |text|
    }

    constructor ()
      ensures Valid() && text == "" && limit == 0 && dot == 0
    {
      text := "";
      limit := 0;
      dot := 0;
    }

    /** write(s, attrs, updateLimit): `s` is appended, the caret goes to the end, the limit too when asked. */
    method Write(s: string, updateLimit: bool)
      requires Valid()
      modifies this
      ensures Valid() && text == old(text) + s && dot == |text|
      ensures limit == if updateLimit then |text| else old(limit)
    {
      text := text + s;
      dot := |text|;
      if updateLimit {
        limit := |text|;
      }
    }

    /** remove(offs, len): nothing below the limit or for an empty or out-of-range span; otherwise the span goes. */
    method Remove(offs: int, len: int)
      requires Valid()
      modifies this
      ensures Valid() && limit == old(limit) && text[..limit] == old(text)[..limit]
      ensures if offs < limit || len <= 0 || offs + len > |old(text)| then text == old(text) && dot == old(dot)
              else text == old(text)[..offs] + old(text)[offs + len..]
    {
      if offs < limit || len <= 0 || offs + len > |text| {
        return;
      }
      TuiDocument.CaretAfterRemoveBounds(dot, offs, len, |text|);
      text := text[..offs] + text[offs + len..];
      dot := TuiDocument.CaretAfterRemove(dot, offs, len);
    }

    /** The keyPressed opening: a caret inside the committed text is moved up to the limit. */
    method MakeCursorValid()
      requires Valid()
      modifies this
      ensures Valid() && dot >= limit && text == old(text) && limit == old(limit)
      ensures dot == if old(dot) < limit then limit else old(dot)
    {
      if dot < limit {
        dot := limit;
      }
    }
  }

  /** The prompt setSubPrompt and setPath rebuild. */
  function Composed(connection: string, path: string, subPrompt: string): (prompt: string)
    ensures |prompt| == |connection| + |path| + |subPrompt|
    ensures prompt[..|connection|] == connection && prompt[|prompt| - |subPrompt|..] == subPrompt
    ensures prompt[|connection|..|connection| + |path|] == path
  {
    connection + path + subPrompt
  }

  /**
   * What Tab does to the text and the limit: nothing on a beep or an escaping exception; the
   * suffix after the line; or the listing committed and the trimmed line after it.
   */
  predicate TabbedText(text: string, limit: int, text0: string, limit0: int, input: string, tab: Tab, result: KeyResult) {
    match tab
    case NoMatch => result == Beeped && text == text0 && limit == limit0
    case Overrun => result == Threw && text == text0 && limit == limit0
    case Complete(suffix) => result == Handled && text == text0 + suffix && limit == limit0
    case Listing(help) => result == Handled && text == text0 + help + input && limit == |text0| + |help|
  }

  /**
   * What Up and Down do to the text and the limit: nothing on a beep; otherwise `n` characters
   * at the limit give way to the recalled entry at the end.
   */
  predicate RecalledText(text: string, limit: int, text0: string, limit0: int, n: nat, recall: History.Recall, result: KeyResult) {
    match recall
    case Beep => result == Beeped && text == text0 && limit == limit0
    case Replace(entry) =>
      && result == Handled && 0 <= limit0 && limit0 + n <= |text0|
      && text == text0[..limit0] + text0[limit0 + n..] + entry && limit == limit0
  }

  class Console {
    var doc: Document
    var prompt: string
    var subPrompt: string
    var connection: string
    var path: string
    var prompts: seq<string>
    var currentCommand: string
    var currentCommandnum: int
    var processor: TuiConsole.InputProcessor
    var completionSource: DefaultCompletionSource?

    function Hist(): History.History
      reads this
    {
      History.History(prompts, currentCommandnum, currentCommand)
    }

    predicate Valid()
      reads this, doc
    {
      doc.Valid() && History.Valid(Hist())
    }

    /** The user's line: the text after the limit. */
    function Input(): string
      requires Valid()
      reads this, doc
    {
      doc.text[doc.limit..]
    }

    /**
     * The constructor: connection "Home>", path "C:\", an empty sub-prompt, the given prompt
     * taken as it is, the do-nothing processor and no completion source; the prompt is written
     * and committed.
     */
    constructor (prompt: string)
      ensures Valid() && fresh(doc) && doc.text == prompt && doc.limit == |prompt|
      ensures this.prompt == prompt && connection == "Home>" && path == "C:\\" && subPrompt == ""
      ensures Hist() == History.History([], 0, "") && processor == TuiConsole.NoOp && completionSource == null
    {
      doc := new Document();
      this.prompt := prompt;
      subPrompt := "";
      connection := "Home>";
      path := "C:\\";
      prompts := [];
      currentCommand := "";
      currentCommandnum := 0;
      processor := TuiConsole.NoOp;
      completionSource := null;
      new;
      doc.Write(prompt, true);
    }

    /** setPrompt: the prompt is overwritten; connection, path and sub-prompt stay as they were. */
    method SetPrompt(prompt: string)
      modifies this
      ensures this.prompt == prompt
      ensures connection == old(connection) && path == old(path) && subPrompt == old(subPrompt)
      ensures doc == old(doc) && Hist() == old(Hist())
    {
      this.prompt := prompt;
    }

    /** setSubPrompt: the sub-prompt is replaced and the prompt rebuilt from the three parts. */
    method SetSubPrompt(subPrompt: string)
      modifies this
      ensures this.subPrompt == subPrompt && connection == old(connection) && path == old(path)
      ensures prompt == Composed(connection, path, subPrompt)
      ensures doc == old(doc) && Hist() == old(Hist())
    {
      this.subPrompt := subPrompt;
      prompt := connection + path + this.subPrompt;
    }

    /** setPath: the path is replaced and the prompt rebuilt from the three parts. */
    method SetPath(path: string)
      modifies this
      ensures this.path == path && connection == old(connection) && subPrompt == old(subPrompt)
      ensures prompt == Composed(connection, path, subPrompt)
      ensures doc == old(doc) && Hist() == old(Hist())
    {
      this.path := path;
      prompt := connection + this.path + subPrompt;
    }

    /** cls(): a new, empty document; the history and the prompt stay, and no prompt is written. */
    method Cls()
      requires Valid()
      modifies this
      ensures Valid() && fresh(doc) && doc.text == "" && doc.limit == 0
      ensures Hist() == old(Hist()) && prompt == old(prompt) && Input() == ""
    {
      doc := new Document();
    }

    /** write(text, newline): the text, and a newline when asked, written and committed. */
    method Write(text: string, newline: bool)
      requires Valid()
      modifies doc
      ensures Valid() && doc.text == old(doc.text) + text + (if newline then "\n" else "")
      ensures doc.limit == |doc.text| && Input() == ""
    {
      doc.Write(text + (if newline then "\n" else ""), true);
    }

    /** remove(offset, length): the document's removal. */
    method Remove(offset: int, length: int)
      requires Valid()
      modifies doc
      ensures Valid() && doc.limit == old(doc.limit) && doc.text[..doc.limit] == old(doc.text)[..doc.limit]
      ensures if offset < doc.limit || length <= 0 || offset + length > |old(doc.text)| then doc.text == old(doc.text)
              else doc.text == old(doc.text)[..offset] + old(doc.text)[offset + length..]
    {
      doc.Remove(offset, length);
    }

    /** The opening of keyPressed. */
    method CursorToInput()
      requires Valid()
      modifies doc
      ensures Valid() && doc.text == old(doc.text) && doc.limit == old(doc.limit) && doc.dot >= doc.limit
    {
      if doc.dot < doc.limit {
        doc.MakeCursorValid();
      }
    }

    /** keyPressed(Tab): the three-way rule on the completions of the trimmed line. */
    method KeyTab() returns (result: KeyResult)
      requires Valid()
      modifies doc
      ensures Valid()
      ensures var input := Trim(old(Input()));
        TabbedText(doc.text, doc.limit, old(doc.text), old(doc.limit), input,
          TabRule(Suggestions(completionSource, input), input, prompt), result)
    {
      CursorToInput();
      var input := Trim(doc.text[doc.limit..]);
      var completions: seq<string>;
      if completionSource == null {
        completions := [];
      } else {
        completions := completionSource.DoCompletion(input);
      }
      result := ApplyTab(input, completions);
    }

    /** The three-way rule applied to the completions of the trimmed line. */
    method ApplyTab(input: string, completions: seq<string>) returns (result: KeyResult)
      requires Valid()
      modifies doc
      ensures Valid()
      ensures TabbedText(doc.text, doc.limit, old(doc.text), old(doc.limit), input, TabRule(completions, input, prompt), result)
    {
      if |completions| == 0 {
        return Beeped;
      }
      if |completions| == 1 {
        if |completions[0]| < |input| {
          return Threw;
        }
        doc.Write(completions[0][|input|..], false);
        return Handled;
      }
      var help := "\n";
      for i := 0 to |completions|
        invariant help == "\n" + Candidates(completions[..i])
      {
        assert completions[..i + 1][..i] == completions[..i];
        help := help + " " + completions[i];
      }
      assert completions[..|completions|] == completions;
      help := help + "\n" + prompt;
      doc.Write(help, true);
      doc.Write(input, false);
      result := Handled;
    }

    /**
     * keyPressed(Up): at or below the oldest entry it beeps and sets the cursor to 0; otherwise
     * |trimmed line| characters are removed at the limit, the trimmed line is saved when
     * browsing begins, and the entry the cursor steps back to is written uncommitted.
     */
    method KeyUp() returns (result: KeyResult)
      requires Valid()
      modifies this, doc
      ensures Valid() && doc == old(doc) && prompt == old(prompt)
      ensures Hist() == History.Up(old(Hist()), Trim(old(Input()))).0
      ensures RecalledText(doc.text, doc.limit, old(doc.text), old(doc.limit), |Trim(old(Input()))|,
        History.Up(old(Hist()), Trim(old(Input()))).1, result)
    {
      CursorToInput();
      var currentInput := Trim(doc.text[doc.limit..]);
      var recall := StepUp(currentInput);
      if recall.Beep? {
        return Beeped;
      }
      result := ReplaceInput(currentInput, recall.text);
    }

    /** The history part of Up. */
    method StepUp(input: string) returns (recall: History.Recall)
      requires Valid()
      modifies this
      ensures Valid() && doc == old(doc) && prompt == old(prompt)
      ensures (Hist(), recall) == History.Up(old(Hist()), input)
    {
      if currentCommandnum <= 0 {
        currentCommandnum := 0;
        return History.Beep;
      }
      if currentCommandnum >= |prompts| {
        currentCommandnum := |prompts|;
        currentCommand := input;
      }
      currentCommandnum := currentCommandnum - 1;
      recall := History.Replace(prompts[currentCommandnum]);
    }

    /**
     * keyPressed(Down): when not browsing it beeps; otherwise the cursor steps forward,
     * |trimmed line| characters are removed at the limit, and the saved line (past the newest
     * entry) or the entry reached is written uncommitted.
     */
    method KeyDown() returns (result: KeyResult)
      requires Valid()
      modifies this, doc
      ensures Valid() && doc == old(doc) && prompt == old(prompt)
      ensures Hist() == History.Down(old(Hist())).0
      ensures RecalledText(doc.text, doc.limit, old(doc.text), old(doc.limit), |Trim(old(Input()))|, History.Down(old(Hist())).1, result)
    {
      CursorToInput();
      var recall := StepDown();
      if recall.Beep? {
        return Beeped;
      }
      var currentInput := Trim(doc.text[doc.limit..]);
      result := ReplaceInput(currentInput, recall.text);
    }

    /** The history part of Down. */
    method StepDown() returns (recall: History.Recall)
      requires Valid()
      modifies this
      ensures Valid() && doc == old(doc) && prompt == old(prompt)
      ensures (Hist(), recall) == History.Down(old(Hist()))
    {
      if currentCommandnum >= |prompts| {
        return History.Beep;
      }
      currentCommandnum := currentCommandnum + 1;
      if currentCommandnum == |prompts| {
        return History.Replace(currentCommand);
      }
      currentCommandnum := if currentCommandnum < 0 then 0 else currentCommandnum;
      recall := History.Replace(prompts[currentCommandnum]);
    }

    /**
     * The replacement Up and Down make: this.remove(getLimit(), trimmed.length()), made whatever
     * the line (a removal of none changes nothing), then `entry` written uncommitted.
     */
    method ReplaceInput(trimmed: string, entry: string) returns (result: KeyResult)
      requires Valid() && trimmed == Trim(Input())
      modifies doc
      ensures Valid()
      ensures RecalledText(doc.text, doc.limit, old(doc.text), old(doc.limit), |trimmed|, History.Replace(entry), result)
    {
      doc.Remove(doc.limit, |trimmed|);
      assert doc.text == old(doc.text)[..old(doc.limit)] + old(doc.text)[old(doc.limit) + |trimmed|..] by {
        if |trimmed| == 0 {
          assert old(doc.text)[..old(doc.limit)] + old(doc.text)[old(doc.limit)..] == old(doc.text);
        }
      }
      doc.Write(entry, false);
      result := Handled;
    }

    /**
     * keyReleased(Enter): the trimmed line is added to the history and browsing ends, the one
     * processor is called with the line and its tokens, and the prompt is written and committed.
     */
    method KeyEnter() returns (call: TuiConsole.Call)
      requires Valid()
      modifies this, doc
      ensures Valid() && doc == old(doc) && prompt == old(prompt) && processor == old(processor)
      ensures var line := Trim(old(Input()));
        && Hist() == History.Submit(old(Hist()), line)
        && call == TuiConsole.Call(processor, line, LineParser.Tokens(line))
      ensures doc.text == old(doc.text) + prompt && doc.limit == |doc.text| && Input() == ""
    {
      var line := Trim(doc.text[doc.limit..]);
      var args := LineParser.ParseLine(line);
      prompts := prompts + [line];
      currentCommandnum := |prompts|;
      call := TuiConsole.Call(processor, line, args);
      doc.Write(prompt, true);
    }
  }

  /** After a recall the line is what LineAfterRecall says: text before the limit is never touched. */
  lemma RecalledTextLine(text: string, limit: int, text0: string, limit0: int, entry: string, result: KeyResult)
    requires 0 <= limit0 <= |text0|
    requires RecalledText(text, limit, text0, limit0, |Trim(text0[limit0..])|, History.Replace(entry), result)
    ensures text[..limit] == text0[..limit0]
    ensures text[limit..] == LineAfterRecall(text0[limit0..], entry)
  {
    var n := |Trim(text0[limit0..])|;
    assert text0[limit0..][n..] == text0[limit0 + n..];
  }

  /** After Tab the committed text only grows, and the line is extended or written again after the listing. */
  lemma TabbedTextLine(text: string, limit: int, text0: string, limit0: int, input: string, tab: Tab, result: KeyResult)
    requires 0 <= limit0 <= |text0|
    requires TabbedText(text, limit, text0, limit0, input, tab, result)
    ensures limit0 <= limit <= |text| && text[..limit0] == text0[..limit0]
    ensures tab.Complete? ==> text[limit..] == text0[limit0..] + tab.suffix
    ensures tab.Listing? ==> text[limit..] == input && text[limit0..limit] == text0[limit0..] + tab.help
  {
  }
}
