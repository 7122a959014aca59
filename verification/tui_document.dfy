/**
 * The console's text pane and its document (package tui.console).
 *
 * The Swing document is a sequence of cells, each a character with its foreground colour. The
 * document keeps `limit`, the boundary between committed output and the line the user is
 * editing, and the caret `dot`. The pane keeps the decoder state of appendANSI: the current
 * colour and the unterminated escape tail carried into the next call.
 */
module TuiDocument {
  import opened Wrappers
  import opened Text
  import opened ColorUtil
  import opened AnsiDecoder

  /** The console fields the pane and the document read: ANSI on, colour reset after each message, the foreground. */
  datatype Settings = Settings(enableAnsi: bool, resetColorAfterEachMsg: bool, foreground: Rgb)

  /** The foreground of a MutableAttributeSet, the only attribute the model follows. */
  class AttributeSet {
    var foreground: Rgb

    constructor (foreground: Rgb)
      ensures this.foreground == foreground
    {
      this.foreground := foreground;
    }
  }

  /** The colour appendANSI starts decoding in: the console foreground when colours reset after each message. */
  function StartColor(colorCurrent: Rgb, settings: Settings): Rgb {
    if settings.resetColorAfterEachMsg then settings.foreground else colorCurrent
  }

  /** The last colour a list of appends used, or `otherwise` when there are none. */
  function LastColor(runs: seq<Run>, otherwise: Rgb): Rgb {
    if runs == [] then otherwise else runs[|runs| - 1].color
  }

  /**
   * The state one write hands to the next: the pane's colour, its withheld escape tail and its
   * caret colour, and the foreground of the attributes the console writes with.
   */
  datatype Ink = Ink(color: Rgb, remaining: string, caret: Rgb, style: Rgb)

  /** What a write adds to the document, the state it leaves, and whether it ran to its end. */
  datatype Written = Written(cells: seq<Cell>, ink: Ink, ok: bool)

  /** The state of a pane and the attributes it writes with. */
  function InkOf(pane: ColorPane, attrs: AttributeSet): Ink
    reads pane, attrs
  {
    Ink(pane.colorCurrent, pane.remaining, pane.caretColor, attrs.foreground)
  }

  /**
   * write(text, attrs, updateLimit) as a function of the state: with ANSI on, appendANSI's
   * decoding of the withheld tail and the text (the caret colour and the attributes follow the
   * last append, and the attributes return to the foreground after a successful write when
   * colours reset); with ANSI off, the text in the attributes' colour, the state untouched.
   */
  function WriteResult(text: string, ink: Ink, settings: Settings): Written {
    if settings.enableAnsi then
      var d := Decode(ink.remaining + text, StartColor(ink.color, settings), AnsiToColor);
      var ok := d.failure.None?;
      var style := if ok && settings.resetColorAfterEachMsg then settings.foreground else LastColor(d.runs, ink.style);
      Written(CellsOf(d.runs), Ink(d.color, d.remaining, LastColor(d.runs, ink.caret), style), ok)
    else Written(Paint(ink.style, text), ink, true)
  }

  /** Where DefaultCaret moves a caret at `dot` when [offs, offs + len) is removed. */
  function CaretAfterRemove(dot: int, offs: int, len: int): int {
    if dot >= offs + len then dot - len else if dot >= offs then offs else dot
  }

  /** A caret inside a document keeps inside it after a removal, and never moves right. */
  lemma CaretAfterRemoveBounds(dot: int, offs: int, len: int, size: int)
    requires 0 <= dot <= size && 0 <= offs && 0 < len && offs + len <= size
    ensures 0 <= CaretAfterRemove(dot, offs, len) <= size - len
    ensures CaretAfterRemove(dot, offs, len) <= dot
    ensures dot < offs ==> CaretAfterRemove(dot, offs, len) == dot
  {
  }

  /** JTextPane subclass that prints coloured text. */
  class ColorPane {
    var colorCurrent: Rgb
    var remaining: string
    var caretColor: Rgb

    constructor (foreground: Rgb)
      ensures colorCurrent == foreground && remaining == "" && caretColor == foreground
    {
      colorCurrent := foreground;
      remaining := "";
      caretColor := foreground;
    }

    method SetColorCurrent(c: Rgb)
      modifies this
      ensures colorCurrent == c && remaining == old(remaining) && caretColor == old(caretColor)
    {
      colorCurrent := c;
    }

    /**
     * append(c, s, attrs): the colour, the caret colour and the attributes take `c`, the caret
     * goes to the end and `s` is inserted there in `c`.
     */
    method Append(doc: ConsoleDocument, c: Rgb, s: string, attrs: AttributeSet)
      requires doc.Valid()
      modifies this, doc, attrs
      ensures doc.Valid()
      ensures doc.cells == old(doc.cells) + Paint(c, s)
      ensures doc.limit == old(doc.limit) && doc.dot == |doc.cells|
      ensures colorCurrent == c && caretColor == c && attrs.foreground == c
      ensures remaining == old(remaining)
    {
      SetColorCurrent(c);
      caretColor := c;
      attrs.foreground := c;
      doc.SetDot(|doc.cells|);
      doc.InsertString(s, c);
    }

    /**
     * appendANSI(s, attrs): decodes the withheld tail followed by `s` and appends each run. The
     * result is false when ansiToColor threw on an unsupported sequence; the runs appended
     * before it stay in the document. The caret colour, the attributes and the caret follow the
     * last append, and stay as they were when nothing was appended.
     */
    method AppendAnsi(doc: ConsoleDocument, s: string, attrs: AttributeSet, settings: Settings) returns (ok: bool)
      requires doc.Valid()
      modifies this, doc, attrs
      ensures var d := Decode(old(remaining) + s, StartColor(old(colorCurrent), settings), AnsiToColor);
        && doc.cells == old(doc.cells) + CellsOf(d.runs)
        && colorCurrent == d.color && remaining == d.remaining && ok == d.failure.None?
        && Following(d.runs, this, doc, attrs, old(caretColor), old(attrs.foreground), old(doc.dot))
      ensures doc.Valid() && doc.limit == old(doc.limit)
    {
      if settings.resetColorAfterEachMsg {
        SetColorCurrent(settings.foreground);
      }
      var addString := remaining + s;
      remaining := "";
      ok := AppendScanned(doc, addString, attrs, AnsiToColor);
    }

    /** The scanning loop of appendANSI over `a`, with `lookup` in the place of ansiToColor. */
    method AppendScanned(doc: ConsoleDocument, a: string, attrs: AttributeSet, lookup: string -> Result<Rgb, AnsiError>)
      returns (ok: bool)
      requires doc.Valid() && remaining == ""
      modifies this, doc, attrs
      ensures var d := Decode(a, old(colorCurrent), lookup);
        && doc.cells == old(doc.cells) + CellsOf(d.runs)
        && colorCurrent == d.color && remaining == d.remaining && ok == d.failure.None?
        && Following(d.runs, this, doc, attrs, old(caretColor), old(attrs.foreground), old(doc.dot))
      ensures doc.Valid() && doc.limit == old(doc.limit)
    {
      ghost var d := Decode(a, colorCurrent, lookup);
      ghost var base := doc.cells;
      ok := true;
      if |a| == 0 {
        return;
      }
      var first := IndexOf(a, Esc, 0);
      if first.None? {
        Append(doc, colorCurrent, a, attrs);
        CellsAppended(base, [], Run(colorCurrent, a));
        return;
      }
      var aPos: nat := first.value;
      ghost var emitted: seq<Run> := [];
      ScanStart(a, aPos, colorCurrent, lookup);
      if aPos > 0 {
        Append(doc, colorCurrent, a[..aPos], attrs);
        CellsAppended(base, [], Run(colorCurrent, a[..aPos]));
        emitted := [Run(colorCurrent, a[..aPos])];
      }
      ok := ScanLoop(doc, a, aPos, attrs, lookup, d, base, emitted, old(caretColor), old(attrs.foreground), old(doc.dot));
    }

    /**
     * The while loop of appendANSI, entered at the first ESC with `emitted` already appended
     * after `base`; `caret`, `fg` and `dot` are the caret colour, attribute foreground and caret
     * the pane had before anything was appended.
     */
    method ScanLoop(doc: ConsoleDocument, a: string, aPos: nat, attrs: AttributeSet, lookup: string -> Result<Rgb, AnsiError>,
                    ghost d: Decoded, ghost base: seq<Cell>, ghost emitted: seq<Run>, ghost caret: Rgb, ghost fg: Rgb, ghost dot: int)
      returns (ok: bool)
      requires doc.Valid() && remaining == "" && ScanPending(d, emitted, a, aPos, colorCurrent, lookup)
      requires doc.cells == base + CellsOf(emitted)
      requires Following(emitted, this, doc, attrs, caret, fg, dot)
      modifies this, doc, attrs
      ensures doc.Valid() && doc.limit == old(doc.limit)
      ensures doc.cells == base + CellsOf(d.runs)
      ensures colorCurrent == d.color && remaining == d.remaining && ok == d.failure.None?
      ensures Following(d.runs, this, doc, attrs, caret, fg, dot)
    {
      var aPos := aPos;
      ghost var emitted := emitted;
      var stillSearching := true;
      ok := true;
      while stillSearching
        invariant doc.Valid() && doc.limit == old(doc.limit)
        invariant doc.cells == base + CellsOf(emitted)
        invariant stillSearching ==> remaining == "" && ScanPending(d, emitted, a, aPos, colorCurrent, lookup)
        invariant !stillSearching ==> d == Decoded(emitted, colorCurrent, remaining, None)
        invariant Following(emitted, this, doc, attrs, caret, fg, dot)
        decreases stillSearching, |a| - aPos
      {
        aPos, stillSearching, ok, emitted := ScanStep(doc, a, aPos, attrs, lookup, d, base, emitted, caret, fg, dot);
        if !ok {
          return;
        }
      }
    }

    /**
     * One pass of the while loop of appendANSI at the ESC at `aPos`: the result says where the
     * next pass starts, whether the loop goes on, and false in `ok` when ansiToColor threw.
     */
    method ScanStep(doc: ConsoleDocument, a: string, aPos: nat, attrs: AttributeSet, lookup: string -> Result<Rgb, AnsiError>,
                    ghost d: Decoded, ghost base: seq<Cell>, ghost emitted: seq<Run>, ghost caret: Rgb, ghost fg: Rgb, ghost dot: int)
      returns (next: nat, stillSearching: bool, ok: bool, ghost emitted': seq<Run>)
      requires doc.Valid() && remaining == "" && ScanPending(d, emitted, a, aPos, colorCurrent, lookup)
      requires doc.cells == base + CellsOf(emitted)
      requires Following(emitted, this, doc, attrs, caret, fg, dot)
      modifies this, doc, attrs
      ensures doc.Valid() && doc.limit == old(doc.limit)
      ensures doc.cells == base + CellsOf(emitted')
      ensures Following(emitted', this, doc, attrs, caret, fg, dot)
      ensures ok && stillSearching ==> aPos < next && remaining == "" && ScanPending(d, emitted', a, next, colorCurrent, lookup)
      ensures ok && !stillSearching ==> d == Decoded(emitted', colorCurrent, remaining, None)
      ensures !ok ==> d.failure.Some? && d == Decoded(emitted', colorCurrent, remaining, d.failure)
    {
      emitted' := emitted;
      next := aPos;
      ok := true;
      var mIndex := IndexOf(a, 'm', aPos);
      if mIndex.None? {
        ScanStepWithheld(d, emitted, a, aPos, colorCurrent, lookup);
        remaining := a[aPos..];
        stillSearching := false;
        return;
      }
      var looked := lookup(a[aPos..mIndex.value + 1]);
      if looked.Failure? {
        ScanStepFailure(d, emitted, a, aPos, mIndex.value, colorCurrent, looked.error, lookup);
        ok, stillSearching := false, false;
        return;
      }
      ghost var color := colorCurrent;
      colorCurrent := looked.value;
      next, stillSearching, emitted' := EmitAfter(doc, a, aPos, mIndex.value, attrs, lookup, d, color, base, emitted, caret, fg, dot);
    }

    /**
     * The rest of a pass once the sequence at `pos` ending at `mi` has set the current colour:
     * the text up to the next ESC, or to the end, is appended in it.
     */
    method EmitAfter(doc: ConsoleDocument, a: string, pos: nat, mi: nat, attrs: AttributeSet, lookup: string -> Result<Rgb, AnsiError>,
                     ghost d: Decoded, ghost color: Rgb, ghost base: seq<Cell>, ghost emitted: seq<Run>, ghost caret: Rgb, ghost fg: Rgb, ghost dot: int)
      returns (next: nat, stillSearching: bool, ghost emitted': seq<Run>)
      requires doc.Valid() && remaining == "" && ScanPending(d, emitted, a, pos, color, lookup)
      requires IndexOf(a, 'm', pos) == Some(mi) && lookup(a[pos..mi + 1]) == Success(colorCurrent)
      requires doc.cells == base + CellsOf(emitted)
      requires Following(emitted, this, doc, attrs, caret, fg, dot)
      modifies this, doc, attrs
      ensures doc.Valid() && doc.limit == old(doc.limit)
      ensures doc.cells == base + CellsOf(emitted')
      ensures Following(emitted', this, doc, attrs, caret, fg, dot)
      ensures stillSearching ==> pos < next && remaining == "" && ScanPending(d, emitted', a, next, colorCurrent, lookup)
      ensures !stillSearching ==> d == Decoded(emitted', colorCurrent, remaining, None)
    {
      next := mi + 1;
      var aIndex := IndexOf(a, Esc, next);
      if aIndex.None? {
        ScanStepLast(d, emitted, a, pos, mi, color, colorCurrent, lookup);
        var tmpString := a[next..];
        emitted' := AppendRun(doc, colorCurrent, tmpString, attrs, base, emitted, caret, fg, dot);
        stillSearching := false;
      } else {
        ScanStepNext(d, emitted, a, pos, mi, color, colorCurrent, aIndex.value, lookup);
        var tmpString := a[next..aIndex.value];
        next := aIndex.value;
        emitted' := AppendRun(doc, colorCurrent, tmpString, attrs, base, emitted, caret, fg, dot);
        stillSearching := true;
      }
    }

    /** append(c, s, attrs) seen as the next of the runs `emitted`. */
    method AppendRun(doc: ConsoleDocument, c: Rgb, s: string, attrs: AttributeSet,
                     ghost base: seq<Cell>, ghost emitted: seq<Run>, ghost caret: Rgb, ghost fg: Rgb, ghost dot: int)
      returns (ghost emitted': seq<Run>)
      requires doc.Valid() && doc.cells == base + CellsOf(emitted)
      modifies this, doc, attrs
      ensures emitted' == emitted + [Run(c, s)]
      ensures doc.Valid() && doc.limit == old(doc.limit) && doc.cells == base + CellsOf(emitted')
      ensures Following(emitted', this, doc, attrs, caret, fg, dot)
      ensures colorCurrent == c && remaining == old(remaining)
    {
      Append(doc, c, s, attrs);
      emitted' := emitted + [Run(c, s)];
      CellsAppended(base, emitted, Run(c, s));
    }
  }

  /**
   * After the appends `emitted`, the caret colour and the attribute foreground are the last
   * append's colour and the caret is at the end; with no append they are as they were.
   */
  predicate Following(emitted: seq<Run>, pane: ColorPane, doc: ConsoleDocument, attrs: AttributeSet, caret: Rgb, fg: Rgb, dot: int)
    reads pane, doc, attrs
  {
    && pane.caretColor == LastColor(emitted, caret)
    && attrs.foreground == LastColor(emitted, fg)
    && doc.dot == (if emitted == [] then dot else |doc.cells|)
  }

  /** Painting a text in two pieces paints it whole. */
  lemma PaintSplits(color: Rgb, text: string, i: nat)
    requires i <= |text|
    ensures Paint(color, text[..i]) + Paint(color, text[i..]) == Paint(color, text)
  {
  }

  /** Concatenation of cells associates. */
  lemma AppendAssociates(a: seq<Cell>, b: seq<Cell>, c: seq<Cell>)
    ensures a + b + c == a + (b + c)
  {
  }

  /** One more append adds its cells after those of the earlier ones, and its colour becomes the last. */
  lemma CellsAppended(base: seq<Cell>, emitted: seq<Run>, r: Run)
    ensures base + CellsOf(emitted) + Paint(r.color, r.text) == base + CellsOf(emitted + [r])
    ensures forall c :: LastColor(emitted + [r], c) == r.color
  {
    CellsOfSnoc(emitted, r);
  }

  /** DefaultStyledDocument subclass holding the console's text, with the commit boundary `limit`. */
  class ConsoleDocument {
    var cells: seq<Cell>
    var limit: int
    var dot: int
    const textPane: ColorPane

    /** The boundary and the caret lie inside the document. */
    predicate Valid()
      reads this
    {
      0 <= limit <= |cells| && 0 <= dot <= |cells|
    }

    constructor (textPane: ColorPane)
      ensures Valid() && cells == [] && limit == 0 && dot == 0 && this.textPane == textPane
    {
      cells := [];
      limit := 0;
      dot := 0;
      this.textPane := textPane;
    }

    /** Caret.setDot on a position inside the document. */
    method SetDot(d: int)
      requires Valid() && 0 <= d <= |cells|
      modifies this
      ensures Valid() && dot == d && cells == old(cells) && limit == old(limit)
    {
      dot := d;
    }

    /**
     * insertString(getLength(), text, attrs): the text is added at the end in `color`; an empty
     * text changes nothing, and a caret at the end moves to the new end.
     */
    method InsertString(text: string, color: Rgb)
      requires Valid()
      modifies this
      ensures Valid() && cells == old(cells) + Paint(color, text) && limit == old(limit)
      ensures dot == if old(dot) == |old(cells)| then |cells| else old(dot)
    {
      if text != [] {
        if dot == |cells| {
          dot := |cells| + |text|;
        }
        cells := cells + Paint(color, text);
      }
    }

    /**
     * write(text, attrs, updateLimit): the text goes through appendANSI when ANSI is on,
     * otherwise it is inserted in the attributes' colour; then the caret goes to the end and,
     * when asked, the limit moves there too. The result is false when appendANSI threw: the
     * exception is not a BadLocationException, so it escapes and the limit stays.
     */
    method Write(text: string, attrs: AttributeSet, updateLimit: bool, settings: Settings) returns (ok: bool)
      requires Valid()
      modifies this, textPane, attrs
      ensures Valid()
      ensures var w := WriteResult(text, old(InkOf(textPane, attrs)), settings);
        cells == old(cells) + w.cells && InkOf(textPane, attrs) == w.ink && ok == w.ok
      ensures ok ==> dot == |cells| && limit == if updateLimit then |cells| else old(limit)
      ensures !ok ==> limit == old(limit)
    {
      if settings.enableAnsi {
        ok := textPane.AppendAnsi(this, text, attrs, settings);
        if !ok {
          return;
        }
        if settings.resetColorAfterEachMsg {
          attrs.foreground := settings.foreground;
        }
      } else {
        ok := true;
        InsertString(text, attrs.foreground);
      }
      if updateLimit {
        limit := |cells|;
        dot := limit;
      } else {
        dot := |cells|;
      }
    }

    /**
     * write(text, attrs, color, updateLimit): the text is printed in `color`. Text with an ESC
     * has the part before the ESC inserted first; with ANSI on, appendANSI then decodes the whole
     * text again, prefix included. The result is false when appendANSI threw: the catch-all
     * swallows it and the rest of the method is skipped.
     */
    method WriteColor(text: string, attrs: AttributeSet, color: Rgb, updateLimit: bool, settings: Settings)
      returns (completed: bool)
      requires Valid()
      modifies this, textPane, attrs
      ensures Valid()
      ensures cells == old(cells) + ColorWriteCells(text, color, old(textPane.remaining), settings)
      ensures completed == ColorWriteCompletes(text, color, old(textPane.remaining), settings)
      ensures completed ==> dot == |cells| && limit == if updateLimit then |cells| else old(limit)
      ensures !completed ==> limit == old(limit)
      ensures completed && settings.resetColorAfterEachMsg ==>
        textPane.colorCurrent == settings.foreground && textPane.caretColor == settings.foreground &&
        attrs.foreground == settings.foreground
      ensures completed && !settings.resetColorAfterEachMsg && !HandsToAnsi(text, settings) ==>
        textPane.colorCurrent == color && textPane.caretColor == color && attrs.foreground == color
      ensures InkOf(textPane, attrs) == ColorWriteInk(text, color, old(InkOf(textPane, attrs)), settings)
    {
      textPane.SetColorCurrent(color);
      attrs.foreground := color;
      completed := InsertColored(text, attrs, color, settings);
      if !completed {
        return;
      }
      if updateLimit {
        limit := |cells|;
        dot := limit;
      } else {
        dot := |cells|;
      }
      if settings.resetColorAfterEachMsg {
        textPane.SetColorCurrent(settings.foreground);
        textPane.caretColor := settings.foreground;
        attrs.foreground := settings.foreground;
      }
    }

    /**
     * The insertion part of the colour write, entered with the pane's colour and the attributes
     * already set to `color`; false when appendANSI threw.
     */
    method InsertColored(text: string, attrs: AttributeSet, color: Rgb, settings: Settings) returns (completed: bool)
      requires Valid() && textPane.colorCurrent == color
      modifies this, textPane, attrs
      ensures Valid() && limit == old(limit)
      ensures cells == old(cells) + ColorWriteCells(text, color, old(textPane.remaining), settings)
      ensures completed == ColorWriteCompletes(text, color, old(textPane.remaining), settings)
      ensures !HandsToAnsi(text, settings) ==>
        textPane.caretColor == color && textPane.colorCurrent == color && textPane.remaining == old(textPane.remaining) &&
        attrs.foreground == old(attrs.foreground)
      ensures InkOf(textPane, attrs) == ColorInsertInk(text, color, old(InkOf(textPane, attrs)), settings)
    {
      ghost var base, rem := cells, textPane.remaining;
      var esc := IndexOf(text, Esc, 0);
      if esc.Some? {
        if settings.enableAnsi {
          completed := InsertThenDecode(text, esc.value, attrs, color, settings);
          AppendAssociates(base, Paint(color, text[..esc.value]), CellsOf(Decode(rem + text, StartColor(color, settings), AnsiToColor).runs));
        } else {
          var nonAnsiText := text[..esc.value];
          InsertString(nonAnsiText, color);
          InsertString(text[|nonAnsiText|..], color);
          PaintSplits(color, text, |nonAnsiText|);
          AppendAssociates(base, Paint(color, nonAnsiText), Paint(color, text[|nonAnsiText|..]));
          textPane.caretColor := color;
          completed := true;
        }
      } else {
        InsertString(text, color);
        assert cells == base + ColorWriteCells(text, color, rem, settings);
        textPane.caretColor := color;
        completed := true;
      }
    }

    /**
     * The colour write of a text whose first ESC is at `i` with ANSI on: the part before the ESC
     * is inserted in `color`, then appendANSI decodes the whole text.
     */
    method InsertThenDecode(text: string, i: nat, attrs: AttributeSet, color: Rgb, settings: Settings) returns (ok: bool)
      requires Valid() && textPane.colorCurrent == color && i < |text| && IndexOf(text, Esc, 0) == Some(i)
      modifies this, textPane, attrs
      ensures var decoded := Decode(old(textPane.remaining) + text, StartColor(color, settings), AnsiToColor);
        && cells == old(cells) + Paint(color, text[..i]) + CellsOf(decoded.runs)
        && ok == decoded.failure.None?
        && textPane.colorCurrent == decoded.color && textPane.remaining == decoded.remaining
        && textPane.caretColor == LastColor(decoded.runs, old(textPane.caretColor))
        && attrs.foreground == LastColor(decoded.runs, old(attrs.foreground))
      ensures Valid() && limit == old(limit)
    {
      InsertString(text[..i], color);
      ok := textPane.AppendAnsi(this, text, attrs, settings);
    }

    /** getUserInput(): the text after the limit, or None where getText would throw. */
    function GetUserInput(): (r: Option<string>)
      reads this
      ensures Valid() ==> r.Some?
      ensures r.Some? ==> 0 <= limit <= |cells| && |r.value| == |cells| - limit
      ensures r.Some? ==> forall k :: 0 <= k < |r.value| ==> r.value[k] == cells[limit + k].ch
    {
      if 0 <= limit <= |cells| then Some(Chars(cells[limit..])) else None
    }

    /**
     * remove(offs, len): below the limit nothing happens; otherwise AbstractDocument.remove
     * deletes [offs, offs + len), doing nothing for len <= 0 and failing (false) when the range
     * runs past the end.
     */
    method Remove(offs: int, len: int) returns (ok: bool)
      requires Valid()
      modifies this
      ensures Valid() && limit == old(limit)
      ensures cells[..limit] == old(cells)[..limit]
      ensures ok == (offs < limit || len <= 0 || offs + len <= |old(cells)|)
      ensures if offs < limit || len <= 0 || !ok then cells == old(cells) && dot == old(dot)
              else cells == old(cells)[..offs] + old(cells)[offs + len..] && dot == CaretAfterRemove(old(dot), offs, len)
    {
      if offs < limit || len <= 0 {
        return true;
      }
      if offs + len > |cells| {
        return false;
      }
      CaretAfterRemoveBounds(dot, offs, len, |cells|);
      cells := cells[..offs] + cells[offs + len..];
      dot := CaretAfterRemove(dot, offs, len);
      ok := true;
    }

    /** isCursorValid(): the caret is not inside the committed text. */
    predicate IsCursorValid()
      reads this
    {
      dot >= limit
    }

    /** makeCursorValid(): a caret below the limit is moved up to it; a valid caret stays. */
    method MakeCursorValid()
      requires Valid()
      modifies this
      ensures Valid() && IsCursorValid()
      ensures cells == old(cells) && limit == old(limit)
      ensures dot == if old(dot) < limit then limit else old(dot)
    {
      if dot < limit {
        dot := limit;
      }
    }
  }

  /** The colour write hands the text to appendANSI: ANSI is on and the text holds an ESC. */
  predicate HandsToAnsi(text: string, settings: Settings) {
    settings.enableAnsi && IndexOf(text, Esc, 0).Some?
  }

  /** Whether the colour write runs to its end: only appendANSI can throw. */
  function ColorWriteCompletes(text: string, color: Rgb, remaining: string, settings: Settings): bool {
    !HandsToAnsi(text, settings) || Decode(remaining + text, StartColor(color, settings), AnsiToColor).failure.None?
  }

  /**
   * The cells the colour write adds. Without ANSI, or without ESC, the text in `color`; with
   * both, the part before the first ESC in `color`, then what appendANSI decodes from the
   * withheld tail and the whole text.
   */
  function ColorWriteCells(text: string, color: Rgb, remaining: string, settings: Settings): seq<Cell> {
    match IndexOf(text, Esc, 0)
    case Some(i) =>
      if settings.enableAnsi then
        Paint(color, text[..i]) + CellsOf(Decode(remaining + text, StartColor(color, settings), AnsiToColor).runs)
      else Paint(color, text)
    case None => Paint(color, text)
  }

  /**
   * The state the insertion part of the colour write leaves, entered with the pane's colour set
   * to `color`. When the text goes to appendANSI, the pane takes the decode's colour and
   * withheld tail, and the caret colour and the attributes the last append's colour. Otherwise
   * the pane's colour and caret colour are `color`, and the tail and the attributes stay.
   */
  function ColorInsertInk(text: string, color: Rgb, ink: Ink, settings: Settings): Ink {
    if HandsToAnsi(text, settings) then
      var d := Decode(ink.remaining + text, StartColor(color, settings), AnsiToColor);
      Ink(d.color, d.remaining, LastColor(d.runs, ink.caret), LastColor(d.runs, ink.style))
    else Ink(color, ink.remaining, color, ink.style)
  }

  /**
   * The state write(text, attrs, color, updateLimit) leaves: the pane's colour and the
   * attributes are first set to `color`, then the insertion runs; when it completes and colours
   * reset after each message, the colour, the caret colour and the attributes return to the
   * foreground. The withheld tail is never reset.
   */
  function ColorWriteInk(text: string, color: Rgb, ink: Ink, settings: Settings): Ink {
    var inserted := ColorInsertInk(text, color, ink.(color := color, style := color), settings);
    if ColorWriteCompletes(text, color, ink.remaining, settings) && settings.resetColorAfterEachMsg then
      inserted.(color := settings.foreground, caret := settings.foreground, style := settings.foreground)
    else inserted
  }

  /**
   * With ANSI on and an ESC in the text, the colour write is the prefix before the first ESC in
   * `color` followed by a plain write of the whole text begun in `color`: same cells, same
   * outcome, and, without the colour reset, the same state afterwards.
   */
  lemma ColorWriteIsPrefixThenWrite(text: string, color: Rgb, ink: Ink, settings: Settings)
    requires HandsToAnsi(text, settings)
    ensures var w := WriteResult(text, ink.(color := color, style := color), settings);
      var i := IndexOf(text, Esc, 0).value;
      && ColorWriteCells(text, color, ink.remaining, settings) == Paint(color, text[..i]) + w.cells
      && ColorWriteCompletes(text, color, ink.remaining, settings) == w.ok
      && (!settings.resetColorAfterEachMsg ==> ColorWriteInk(text, color, ink, settings) == w.ink)
  {
  }

  /**
   * After a colour write with ANSI on, the pane withholds nothing but an unterminated escape
   * sequence at the end of the old tail and the text; without ANSI it keeps the old tail.
   */
  lemma ColorWriteWithholds(text: string, color: Rgb, ink: Ink, settings: Settings)
    ensures HandsToAnsi(text, settings) ==>
      IsWithheld(ink.remaining + text, ColorWriteInk(text, color, ink, settings).remaining)
    ensures !HandsToAnsi(text, settings) ==> ColorWriteInk(text, color, ink, settings).remaining == ink.remaining
  {
    if HandsToAnsi(text, settings) {
      DecodeShape(ink.remaining + text, StartColor(color, settings), AnsiToColor);
    }
  }

  /** With ANSI off a write inserts its text exactly, always runs to its end and leaves the state as it was. */
  lemma WriteLiteral(text: string, ink: Ink, settings: Settings)
    requires !settings.enableAnsi
    ensures var w := WriteResult(text, ink, settings);
      Chars(w.cells) == text && w.ok && w.ink == ink
  {
  }

  /**
   * With ANSI on no ESC reaches the document, and what the pane withholds is empty or an
   * unterminated escape sequence at the end of the withheld tail and the text.
   */
  lemma WriteNoEscape(text: string, ink: Ink, settings: Settings)
    requires settings.enableAnsi
    ensures var w := WriteResult(text, ink, settings);
      EscFreeCells(w.cells) && IsWithheld(ink.remaining + text, w.ink.remaining)
  {
    DecodeShape(ink.remaining + text, StartColor(ink.color, settings), AnsiToColor);
  }

  /** With ANSI on and nothing withheld, a text without ESC is written whole in the colour the write starts in. */
  lemma WriteWithoutEscape(text: string, ink: Ink, settings: Settings)
    requires settings.enableAnsi && ink.remaining == "" && text != [] && Free(text, Esc)
    ensures var w := WriteResult(text, ink, settings);
      w.cells == Paint(StartColor(ink.color, settings), text) && w.ok &&
      w.ink.color == StartColor(ink.color, settings) && w.ink.remaining == ""
  {
    assert ink.remaining + text == text;
    DecodePlain(text, StartColor(ink.color, settings), AnsiToColor);
    assert CellsOf([Run(StartColor(ink.color, settings), text)]) == Paint(StartColor(ink.color, settings), text) + [];
  }

  /**
   * Without the colour reset, two writes with ANSI on paint what one write of the joined text
   * paints, and end in the same colour, withheld tail and outcome: an escape sequence split
   * between two prints still takes effect.
   */
  lemma WriteChunked(s1: string, s2: string, ink: Ink, settings: Settings)
    requires settings.enableAnsi && !settings.resetColorAfterEachMsg && WriteResult(s1, ink, settings).ok
    ensures var w1 := WriteResult(s1, ink, settings);
      var w2 := WriteResult(s2, w1.ink, settings);
      var w := WriteResult(s1 + s2, ink, settings);
      w.cells == w1.cells + w2.cells && w.ok == w2.ok &&
      w.ink.color == w2.ink.color && w.ink.remaining == w2.ink.remaining
  {
    assert ink.remaining + (s1 + s2) == (ink.remaining + s1) + s2;
    DecodeChunked(ink.remaining + s1, s2, ink.color, AnsiToColor);
  }
}
