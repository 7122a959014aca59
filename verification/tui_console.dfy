/**
 * The console component (tui.console.Console): the key handlers that complete, recall and submit
 * the user's line, and the print methods.
 *
 * The console owns a ConsoleDocument, the ColorPane that decodes ANSI for it and the input
 * attributes it writes with (`defaultStyle`). The user's line is the document's text after the
 * limit. The history is kept in `prompts`, `currentCommandnum` and `currentCommand` and follows
 * the History module step for step.
 */
module TuiConsole {
  import opened Wrappers
  import opened Text
  import opened AnsiDecoder
  import opened ColorUtil
  import opened TuiDocument
  import History
  import LineParser
  import opened Completion
  import opened ConsoleKeys

  /** An input processor: the do-nothing NO_OP, or one the application installed, told apart by a number. */
  datatype InputProcessor = NoOp | Processor(id: nat)

  /** One call process(console, raw, args) made when the user presses Enter. */
  datatype Call = Call(processor: InputProcessor, raw: string, args: seq<string>)

  /** The calls the Enter key makes: every processor in order, with the line and its tokens. */
  function CallsFor(processors: seq<InputProcessor>, line: string): (calls: seq<Call>)
    ensures |calls| == |processors|
    ensures forall i :: 0 <= i < |calls| ==> calls[i] == Call(processors[i], line, LineParser.Tokens(line))
  {
    seq(|processors|, i requires 0 <= i < |processors| => Call(processors[i], line, LineParser.Tokens(line)))
  }

  class Console {
    var enableAnsi: bool
    var resetColorAfterEachMsg: bool
    const textPane: ColorPane
    var foreground: Rgb
    var doc: ConsoleDocument
    var prompt: string
    var prompts: seq<string>
    var currentCommand: string
    var currentCommandnum: int
    var processors: seq<InputProcessor>
    var completionSource: DefaultCompletionSource?
    const defaultStyle: AttributeSet

    /** The settings the document and the pane read from the console. */
    function Config(): Settings
      reads this
    {
      Settings(enableAnsi, resetColorAfterEachMsg, foreground)
    }

    /** The history fields. */
    function Hist(): History.History
      reads this
    {
      History.History(prompts, currentCommandnum, currentCommand)
    }

    /** The pane's decoder state and the foreground of the input attributes. */
    function CurrentInk(): Ink
      reads textPane, defaultStyle
    {
      InkOf(textPane, defaultStyle)
    }

    /** The document belongs to the console's pane, and the history cursor is in range. */
    predicate Valid()
      reads this, doc
    {
      doc.textPane == textPane && doc.Valid() && History.Valid(Hist())
    }

    /** The user's line: the document's text after the limit. */
    function Input(): string
      requires Valid()
      reads this, doc
    {
      Chars(doc.cells[doc.limit..])
    }

    /**
     * The constructor: pane, document and input attributes in the foreground, the default
     * processor, no completion source, then the prompt written and committed.
     */
    constructor (foreground: Rgb, prompt: string, enableAnsi: bool, resetColorAfterEachMsg: bool)
      ensures Valid() && fresh(doc) && fresh(textPane) && fresh(defaultStyle)
      ensures Config() == Settings(enableAnsi, resetColorAfterEachMsg, foreground) && this.prompt == prompt
      ensures Hist() == History.History([], 0, "") && processors == [NoOp] && completionSource == null
      ensures var w := WriteResult(prompt, Ink(foreground, "", foreground, foreground), Config());
        doc.cells == w.cells && CurrentInk() == w.ink && (w.ok ==> doc.limit == |doc.cells|)
    {
      var pane := new ColorPane(foreground);
      textPane := pane;
      this.enableAnsi := enableAnsi;
      this.resetColorAfterEachMsg := resetColorAfterEachMsg;
      this.foreground := foreground;
      doc := new ConsoleDocument(pane);
      defaultStyle := new AttributeSet(foreground);
      this.prompt := prompt;
      prompts := [];
      currentCommand := "";
      currentCommandnum := 0;
      processors := [NoOp];
      completionSource := null;
      new;
      var ok := doc.Write(prompt, defaultStyle, true, Config());
    }

    /**
     * setConsoleForeground(c): the console foreground, the pane's colour, the caret colour and
     * the input attributes all take `c`; the withheld tail stays.
     */
    method SetConsoleForeground(c: Rgb)
      requires Valid()
      modifies this, textPane, defaultStyle
      ensures Valid() && doc == old(doc) && Hist() == old(Hist()) && prompt == old(prompt)
      ensures Config() == old(Config()).(foreground := c)
      ensures CurrentInk() == old(CurrentInk()).(color := c, caret := c, style := c)
    {
      foreground := c;
      textPane.SetColorCurrent(c);
      textPane.caretColor := c;
      defaultStyle.foreground := c;
    }

    /**
     * cls(): a new, empty document for the same pane; the history, the prompt and the pane's
     * state are kept, and no prompt is written.
     */
    method Cls()
      requires Valid()
      modifies this
      ensures Valid() && fresh(doc)
      ensures doc.cells == [] && doc.limit == 0 && doc.dot == 0
      ensures Hist() == old(Hist()) && prompt == old(prompt) && Config() == old(Config())
      ensures Input() == ""
    {
      doc := new ConsoleDocument(textPane);
    }

    /** print(text): the text is written and committed. */
    method Print(text: string) returns (ok: bool)
      requires Valid()
      modifies doc, textPane, defaultStyle
      ensures Valid()
      ensures var w := WriteResult(text, old(CurrentInk()), Config());
        doc.cells == old(doc.cells) + w.cells && CurrentInk() == w.ink && ok == w.ok
      ensures ok ==> doc.limit == |doc.cells| && Input() == ""
      ensures !ok ==> doc.limit == old(doc.limit)
    {
      ok := doc.Write(text, defaultStyle, true, Config());
    }

    /** println(text): the text and a newline are written and committed; println() writes the newline alone. */
    method Println(text: string) returns (ok: bool)
      requires Valid()
      modifies doc, textPane, defaultStyle
      ensures Valid()
      ensures var w := WriteResult(text + "\n", old(CurrentInk()), Config());
        doc.cells == old(doc.cells) + w.cells && CurrentInk() == w.ink && ok == w.ok
      ensures ok ==> doc.limit == |doc.cells| && Input() == ""
      ensures !ok ==> doc.limit == old(doc.limit)
    {
      ok := doc.Write(text + "\n", defaultStyle, true, Config());
    }

    /** print(text, color): the colour write, committed. */
    method PrintColor(text: string, color: Rgb) returns (completed: bool)
      requires Valid()
      modifies doc, textPane, defaultStyle
      ensures Valid()
      ensures doc.cells == old(doc.cells) + ColorWriteCells(text, color, old(textPane.remaining), Config())
      ensures completed == ColorWriteCompletes(text, color, old(textPane.remaining), Config())
      ensures CurrentInk() == ColorWriteInk(text, color, old(CurrentInk()), Config())
      ensures completed ==> doc.limit == |doc.cells| && Input() == ""
      ensures !completed ==> doc.limit == old(doc.limit)
    {
      completed := doc.WriteColor(text, defaultStyle, color, true, Config());
    }

    /** println(text, color): the colour write of the text and a newline, committed. */
    method PrintlnColor(text: string, color: Rgb) returns (completed: bool)
      requires Valid()
      modifies doc, textPane, defaultStyle
      ensures Valid()
      ensures doc.cells == old(doc.cells) + ColorWriteCells(text + "\n", color, old(textPane.remaining), Config())
      ensures completed == ColorWriteCompletes(text + "\n", color, old(textPane.remaining), Config())
      ensures CurrentInk() == ColorWriteInk(text + "\n", color, old(CurrentInk()), Config())
      ensures completed ==> doc.limit == |doc.cells| && Input() == ""
      ensures !completed ==> doc.limit == old(doc.limit)
    {
      completed := doc.WriteColor(text + "\n", defaultStyle, color, true, Config());
    }

    /** remove(offset, length): the document's guarded removal; a failure is caught and ignored. */
    method Remove(offset: int, length: int)
      requires Valid()
      modifies doc
      ensures Valid() && doc.limit == old(doc.limit)
      ensures doc.cells[..doc.limit] == old(doc.cells)[..doc.limit]
      ensures if offset < doc.limit || length <= 0 || offset + length > |old(doc.cells)| then doc.cells == old(doc.cells)
              else doc.cells == old(doc.cells)[..offset] + old(doc.cells)[offset + length..]
    {
      var ok := doc.Remove(offset, length);
    }

    /** The opening of keyPressed: a caret inside the committed text is moved up to the limit. */
    method CursorToInput()
      requires Valid()
      modifies doc
      ensures Valid() && doc.IsCursorValid()
      ensures doc.cells == old(doc.cells) && doc.limit == old(doc.limit)
      ensures doc.dot == if old(doc.dot) < doc.limit then doc.limit else old(doc.dot)
    {
      if !doc.IsCursorValid() {
        doc.MakeCursorValid();
      }
    }

    /**
     * keyPressed(Tab): the trimmed line is completed by the three-way rule. A single completion
     * is inserted after the line, uncommitted; a listing is committed together with a fresh
     * prompt and the trimmed line is written again after it.
     */
    method KeyTab() returns (result: KeyResult)
      requires Valid()
      modifies doc, textPane, defaultStyle
      ensures Valid()
      ensures var input := Trim(old(Input()));
        Tabbed(doc, textPane, defaultStyle, Config(), old(doc.cells), old(doc.limit), old(CurrentInk()), input,
          TabRule(Suggestions(completionSource, input), input, prompt), result)
    {
      CursorToInput();
      var input := TrimmedInput();
      var completions := CompletionsOf(input);
      result := ApplyTab(input, completions);
    }

    /** The three-way rule applied to the completions of the trimmed line. */
    method ApplyTab(input: string, completions: seq<string>) returns (result: KeyResult)
      requires Valid()
      modifies doc, textPane, defaultStyle
      ensures Valid()
      ensures Tabbed(doc, textPane, defaultStyle, Config(), old(doc.cells), old(doc.limit), old(CurrentInk()), input,
        TabRule(completions, input, prompt), result)
    {
      if |completions| == 0 {
        return Beeped;
      }
      if |completions| == 1 {
        if |completions[0]| < |input| {
          return Threw;
        }
        result := InsertCompletion(completions[0][|input|..]);
        return;
      }
      var help := ListingText(completions);
      result := ListCompletions(help, input);
    }

    /** completionSource.complete(input); the NoOpCompletionSource gives null, taken here as no completion. */
    method CompletionsOf(input: string) returns (completions: seq<string>)
      ensures completions == Suggestions(completionSource, input)
    {
      if completionSource == null {
        completions := [];
      } else {
        completions := completionSource.DoCompletion(input);
      }
    }

    /** The listing Tab commits: a newline, each candidate after one space, a newline and the prompt. */
    method ListingText(completions: seq<string>) returns (help: string)
      ensures help == "\n" + Candidates(completions) + "\n" + prompt
    {
      help := "\n";
      for i := 0 to |completions|
        invariant help == "\n" + Candidates(completions[..i])
      {
        assert completions[..i + 1][..i] == completions[..i];
        help := help + " " + completions[i];
      }
      assert completions[..|completions|] == completions;
      help := help + "\n" + prompt;
    }

    /** The single-completion case of Tab: the suffix is written after the line, uncommitted. */
    method InsertCompletion(suffix: string) returns (result: KeyResult)
      requires Valid()
      modifies doc, textPane, defaultStyle
      ensures Valid()
      ensures Tabbed(doc, textPane, defaultStyle, Config(), old(doc.cells), old(doc.limit), old(CurrentInk()), "", Complete(suffix), result)
    {
      var ok := doc.Write(suffix, defaultStyle, false, Config());
      result := if ok then Handled else Threw;
    }

    /** The listing case of Tab: the listing is written and committed, then the trimmed line is written again. */
    method ListCompletions(help: string, input: string) returns (result: KeyResult)
      requires Valid()
      modifies doc, textPane, defaultStyle
      ensures Valid()
      ensures Tabbed(doc, textPane, defaultStyle, Config(), old(doc.cells), old(doc.limit), old(CurrentInk()), input, Listing(help), result)
    {
      var ok := doc.Write(help, defaultStyle, true, Config());
      if !ok {
        return Threw;
      }
      ok := doc.Write(input, defaultStyle, false, Config());
      result := if ok then Handled else Threw;
    }

    /**
     * The replacement Up and Down make: `trimmed.length()` characters are removed at the limit
     * (a removal of none changes nothing, so the test for an empty line is not needed), then
     * `entry` is written uncommitted.
     */
    method ReplaceInput(trimmed: string, entry: string) returns (result: KeyResult)
      requires Valid() && trimmed == Trim(Input())
      modifies doc, textPane, defaultStyle
      ensures Valid()
      ensures Recalled(doc, textPane, defaultStyle, Config(), old(doc.cells), old(doc.limit), old(CurrentInk()),
        |trimmed|, History.Replace(entry), result)
    {
      var removed := doc.Remove(doc.limit, |trimmed|);
      assert doc.cells == old(doc.cells)[..old(doc.limit)] + old(doc.cells)[old(doc.limit) + |trimmed|..] by {
        if |trimmed| == 0 {
          assert old(doc.cells)[..old(doc.limit)] + old(doc.cells)[old(doc.limit)..] == old(doc.cells);
        }
      }
      var ok := doc.Write(entry, defaultStyle, false, Config());
      result := if ok then Handled else Threw;
    }

    /** doc.getUserInput().trim(). */
    method TrimmedInput() returns (input: string)
      requires Valid()
      ensures input == Trim(Input())
    {
      input := Trim(doc.GetUserInput().value);
    }

    /**
     * keyPressed(Up): the history steps back. At the oldest entry it beeps; otherwise the line
     * is replaced by the entry the cursor reaches, the trimmed line having been saved when
     * browsing began.
     */
    method KeyUp() returns (result: KeyResult)
      requires Valid()
      modifies this, doc, textPane, defaultStyle
      ensures Valid() && doc == old(doc) && prompt == old(prompt) && Config() == old(Config())
      ensures Hist() == History.Up(old(Hist()), Trim(old(Input()))).0
      ensures Recalled(doc, textPane, defaultStyle, Config(), old(doc.cells), old(doc.limit), old(CurrentInk()),
        |Trim(old(Input()))|, History.Up(old(Hist()), Trim(old(Input()))).1, result)
    {
      CursorToInput();
      var currentInput := TrimmedInput();
      var recall := StepUp(currentInput);
      if recall.Beep? {
        return Beeped;
      }
      result := ReplaceInput(currentInput, recall.text);
    }

    /**
     * The history part of Up: at or below the oldest entry the cursor is set to 0 and nothing is
     * recalled; otherwise the input is saved when browsing begins, and the cursor steps back to
     * the entry recalled.
     */
    method StepUp(input: string) returns (recall: History.Recall)
      requires Valid()
      modifies this
      ensures Valid() && doc == old(doc) && prompt == old(prompt) && Config() == old(Config())
      ensures (Hist(), recall) == History.Up(old(Hist()), input)
    {
      if currentCommandnum <= 0 {
        currentCommandnum := 0;
        return History.Beep;
      }
      if currentCommandnum >= |prompts| {
        currentCommandnum := |prompts|;
        currentCommand := input;
      }
      currentCommandnum := currentCommandnum - 1;
      recall := History.Replace(prompts[currentCommandnum]);
    }

    /**
     * keyPressed(Down): the history steps forward. When not browsing it beeps; otherwise the
     * line is replaced by the entry the cursor reaches, or by the saved line past the newest.
     */
    method KeyDown() returns (result: KeyResult)
      requires Valid()
      modifies this, doc, textPane, defaultStyle
      ensures Valid() && doc == old(doc) && prompt == old(prompt) && Config() == old(Config())
      ensures Hist() == History.Down(old(Hist())).0
      ensures Recalled(doc, textPane, defaultStyle, Config(), old(doc.cells), old(doc.limit), old(CurrentInk()),
        |Trim(old(Input()))|, History.Down(old(Hist())).1, result)
    {
      CursorToInput();
      var recall := StepDown();
      if recall.Beep? {
        return Beeped;
      }
      var currentInput := TrimmedInput();
      result := ReplaceInput(currentInput, recall.text);
    }

    /**
     * The history part of Down: when not browsing nothing is recalled; otherwise the cursor
     * steps forward and recalls the saved line past the newest entry, or the entry it reaches
     * (a cursor below 0 being moved up to 0).
     */
    method StepDown() returns (recall: History.Recall)
      requires Valid()
      modifies this
      ensures Valid() && doc == old(doc) && prompt == old(prompt) && Config() == old(Config())
      ensures (Hist(), recall) == History.Down(old(Hist()))
    {
      if currentCommandnum >= |prompts| {
        return History.Beep;
      }
      currentCommandnum := currentCommandnum + 1;
      if currentCommandnum == |prompts| {
        return History.Replace(currentCommand);
      }
      currentCommandnum := if currentCommandnum < 0 then 0 else currentCommandnum;
      recall := History.Replace(prompts[currentCommandnum]);
    }

    /**
     * keyReleased(Enter): the trimmed line is added to the history and browsing ends; every
     * processor is called in order with the line and its tokens; then the prompt is written and
     * committed. The calls are returned, what the processors do being outside the model.
     */
    method KeyEnter() returns (calls: seq<Call>, ok: bool)
      requires Valid()
      modifies this, doc, textPane, defaultStyle
      ensures Valid() && doc == old(doc) && prompt == old(prompt) && Config() == old(Config())
      ensures processors == old(processors)
      ensures var line := Trim(old(Input()));
        Hist() == History.Submit(old(Hist()), line) && calls == CallsFor(processors, line)
      ensures var w := WriteResult(prompt, old(CurrentInk()), Config());
        doc.cells == old(doc.cells) + w.cells && CurrentInk() == w.ink && ok == w.ok
      ensures ok ==> doc.limit == |doc.cells| && Input() == ""
    {
      var line := TrimmedInput();
      var args := LineParser.ParseLine(line);
      SubmitLine(line);
      calls := CallProcessors(line, args);
      ok := doc.Write(prompt, defaultStyle, true, Config());
    }

    /** The history part of Enter: the line is added and the cursor moves past the newest entry. */
    method SubmitLine(line: string)
      requires Valid()
      modifies this
      ensures Valid() && doc == old(doc) && prompt == old(prompt) && Config() == old(Config())
      ensures processors == old(processors)
      ensures Hist() == History.Submit(old(Hist()), line)
    {
      prompts := prompts + [line];
      currentCommandnum := |prompts|;
    }

    /** The loop over the processors, each called with the line and its tokens. */
    method CallProcessors(line: string, args: seq<string>) returns (calls: seq<Call>)
      requires args == LineParser.Tokens(line)
      ensures calls == CallsFor(processors, line)
    {
      calls := [];
      for i := 0 to |processors|
        invariant calls == CallsFor(processors[..i], line)
      {
        calls := calls + [Call(processors[i], line, args)];
      }
      assert processors[..|processors|] == processors;
    }

    /** setPrompt. */
    method SetPrompt(prompt: string)
      requires Valid()
      modifies this
      ensures Valid() && this.prompt == prompt && doc == old(doc) && Hist() == old(Hist()) && Config() == old(Config())
    {
      this.prompt := prompt;
    }

    /** setProcessors(processors...). */
    method SetProcessors(processors: seq<InputProcessor>)
      requires Valid()
      modifies this
      ensures Valid() && this.processors == processors && doc == old(doc) && Hist() == old(Hist())
      ensures prompt == old(prompt) && Config() == old(Config()) && completionSource == old(completionSource)
    {
      this.processors := processors;
    }

    /** setCompletionSource(source). */
    method SetCompletionSource(source: DefaultCompletionSource?)
      requires Valid()
      modifies this
      ensures Valid() && completionSource == source && doc == old(doc) && Hist() == old(Hist())
      ensures prompt == old(prompt) && Config() == old(Config()) && processors == old(processors)
    {
      completionSource := source;
    }
  }
}
