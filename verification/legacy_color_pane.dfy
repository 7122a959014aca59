/**
 * The older ColorPane of the legacy console.
 *
 * It decodes like the tui pane, with three differences: the current colour is a static field,
 * so every legacy pane reads and writes the same one (modelled as one SharedColor object that
 * the panes hold); append inserts at the end without touching the current colour; and colours
 * come from ColorUtil.getANSIColor, which is not part of this model and enters as a total
 * lookup parameter. The pane's document is its list of cells.
 */
module LegacyColorPane {
  import opened Wrappers
  import opened Text
  import opened ColorUtil
  import opened AnsiDecoder

  /** The static colorCurrent: one colour shared by every legacy pane. */
  class SharedColor {
    var color: Rgb

    constructor (color: Rgb)
      ensures this.color == color
    {
      this.color := color;
    }
  }

  /** getANSIColor as a lookup that never fails. */
  function AnsiColor(getColor: string -> Rgb): string -> Result<Rgb, AnsiError> {
    t => Success(getColor(t))
  }

  class ColorPane {
    var cells: seq<Cell>
    var remaining: string
    const colorCurrent: SharedColor

    /** The constructor writes the foreground into the shared colour, for every pane. */
    constructor (colorCurrent: SharedColor, foreground: Rgb)
      modifies colorCurrent
      ensures cells == [] && remaining == "" && this.colorCurrent == colorCurrent
      ensures colorCurrent.color == foreground
    {
      cells := [];
      remaining := "";
      this.colorCurrent := colorCurrent;
      new;
      colorCurrent.color := foreground;
    }

    /** append(c, s, attrs): `s` is inserted at the end in `c`; the current colour is untouched. */
    method Append(c: Rgb, s: string)
      modifies this
      ensures cells == old(cells) + Paint(c, s) && remaining == old(remaining)
      ensures colorCurrent.color == old(colorCurrent.color)
    {
      cells := cells + Paint(c, s);
    }

    /**
     * appendANSI(s, attrs): the shared colour is reset to the console foreground when `reset`
     * is set, then the withheld tail followed by `s` is decoded and each run appended. The
     * lookup never fails, so neither does the decode.
     */
    method AppendAnsi(s: string, reset: bool, foreground: Rgb, getColor: string -> Rgb)
      modifies this, colorCurrent
      ensures var d := Decode(old(remaining) + s, if reset then foreground else old(colorCurrent.color), AnsiColor(getColor));
        && cells == old(cells) + CellsOf(d.runs)
        && colorCurrent.color == d.color && remaining == d.remaining && d.failure.None?
    {
      colorCurrent.color := if reset then foreground else colorCurrent.color;
      var addString := remaining + s;
      remaining := "";
      ghost var d := Decode(addString, colorCurrent.color, AnsiColor(getColor));
      ghost var base := cells;
      if |addString| == 0 {
        return;
      }
      var first := IndexOf(addString, Esc, 0);
      if first.None? {
        Append(colorCurrent.color, addString);
        assert CellsOf([Run(colorCurrent.color, addString)]) == Paint(colorCurrent.color, addString);
        return;
      }
      var aPos: nat := first.value;
      ghost var emitted: seq<Run> := [];
      ScanStart(addString, aPos, colorCurrent.color, AnsiColor(getColor));
      if aPos > 0 {
        var tmpString := addString[..aPos];
        Append(colorCurrent.color, tmpString);
        emitted := [Run(colorCurrent.color, tmpString)];
        assert CellsOf(emitted) == Paint(colorCurrent.color, tmpString);
      }
      ScanLoop(addString, aPos, getColor, d, base, emitted);
    }

    /** The while loop of appendANSI, entered at the first ESC with `emitted` appended after `base`. */
    method ScanLoop(a: string, aPos: nat, getColor: string -> Rgb, ghost d: Decoded, ghost base: seq<Cell>, ghost emitted: seq<Run>)
      requires remaining == "" && ScanPending(d, emitted, a, aPos, colorCurrent.color, AnsiColor(getColor))
      requires cells == base + CellsOf(emitted)
      modifies this, colorCurrent
      ensures cells == base + CellsOf(d.runs)
      ensures colorCurrent.color == d.color && remaining == d.remaining && d.failure.None?
    {
      var aPos := aPos;
      ghost var emitted := emitted;
      var stillSearching := true;
      while stillSearching
        invariant cells == base + CellsOf(emitted)
        invariant stillSearching ==> remaining == "" && ScanPending(d, emitted, a, aPos, colorCurrent.color, AnsiColor(getColor))
        invariant !stillSearching ==> d == Decoded(emitted, colorCurrent.color, remaining, None)
        decreases stillSearching, |a| - aPos
      {
        var mIndex := IndexOf(a, 'm', aPos);
        if mIndex.None? {
          ScanStepWithheld(d, emitted, a, aPos, colorCurrent.color, AnsiColor(getColor));
          remaining := a[aPos..];
          stillSearching := false;
        } else {
          aPos, stillSearching, emitted := EmitAfter(a, aPos, mIndex.value, getColor, d, base, emitted);
        }
      }
    }

    /**
     * One pass of the loop at the ESC at `pos` whose sequence ends at `mi`: the shared colour
     * becomes getANSIColor of the sequence, and the text up to the next ESC, or to the end, is
     * appended in it.
     */
    method EmitAfter(a: string, pos: nat, mi: nat, getColor: string -> Rgb, ghost d: Decoded, ghost base: seq<Cell>, ghost emitted: seq<Run>)
      returns (next: nat, stillSearching: bool, ghost emitted': seq<Run>)
      requires remaining == "" && ScanPending(d, emitted, a, pos, colorCurrent.color, AnsiColor(getColor))
      requires IndexOf(a, 'm', pos) == Some(mi)
      requires cells == base + CellsOf(emitted)
      modifies this, colorCurrent
      ensures cells == base + CellsOf(emitted')
      ensures stillSearching ==> pos < next && remaining == "" && ScanPending(d, emitted', a, next, colorCurrent.color, AnsiColor(getColor))
      ensures !stillSearching ==> d == Decoded(emitted', colorCurrent.color, remaining, None)
    {
      ghost var color := colorCurrent.color;
      colorCurrent.color := getColor(a[pos..mi + 1]);
      assert AnsiColor(getColor)(a[pos..mi + 1]) == Success(colorCurrent.color);
      next := mi + 1;
      var aIndex := IndexOf(a, Esc, next);
      if aIndex.None? {
        ScanStepLast(d, emitted, a, pos, mi, color, colorCurrent.color, AnsiColor(getColor));
        emitted' := AppendRun(a[next..], base, emitted);
        stillSearching := false;
      } else {
        ScanStepNext(d, emitted, a, pos, mi, color, colorCurrent.color, aIndex.value, AnsiColor(getColor));
        emitted' := AppendRun(a[next..aIndex.value], base, emitted);
        next := aIndex.value;
        stillSearching := true;
      }
    }

    /** append(colorCurrent, s, attrs) seen as the next of the runs `emitted`. */
    method AppendRun(s: string, ghost base: seq<Cell>, ghost emitted: seq<Run>) returns (ghost emitted': seq<Run>)
      requires cells == base + CellsOf(emitted)
      modifies this
      ensures emitted' == emitted + [Run(colorCurrent.color, s)]
      ensures cells == base + CellsOf(emitted') && remaining == old(remaining)
      ensures colorCurrent.color == old(colorCurrent.color)
    {
      Append(colorCurrent.color, s);
      emitted' := emitted + [Run(colorCurrent.color, s)];
      CellsOfSnoc(emitted, Run(colorCurrent.color, s));
    }
  }

  /**
   * Two legacy panes share the current colour: an appendANSI on one leaves the colour the other
   * decodes from next, unless the console resets it.
   */
  method SharedAcrossPanes(p: ColorPane, q: ColorPane, s: string, foreground: Rgb, getColor: string -> Rgb)
    requires p != q && p.colorCurrent == q.colorCurrent
    modifies p, p.colorCurrent
    ensures q.colorCurrent.color == Decode(old(p.remaining) + s, old(p.colorCurrent.color), AnsiColor(getColor)).color
    ensures q.cells == old(q.cells) && q.remaining == old(q.remaining)
  {
    p.AppendAnsi(s, false, foreground, getColor);
  }
}
