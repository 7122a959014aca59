/**
 * The streaming ANSI colour decoder of the console panes (appendANSI), as functions.
 *
 * `Decode` follows the pane's scanning loop: it yields the appends the pane performs, each a
 * colour and a text, together with the colour left current, the unterminated tail withheld for
 * the next call, and the exception that ended the scan, if any. `RefFrom` is an independent
 * reference that paints the same text one character at a time; the two are proved to paint the
 * same cells, and on the reference it is proved that cutting the input into chunks, the pane
 * carrying the withheld tail from one call to the next, paints what one call on the whole input
 * paints.
 */
module AnsiDecoder {
  import opened Wrappers
  import opened Text
  import opened ColorUtil

  /** One append the pane performs: a text inserted in one colour. */
  datatype Run = Run(color: Rgb, text: string)

  /** One character of the document with its foreground colour. */
  datatype Cell = Cell(ch: char, color: Rgb)

  /** The outcome of one appendANSI scan. */
  datatype Decoded = Decoded(runs: seq<Run>, color: Rgb, remaining: string, failure: Option<AnsiError>)

  /** The outcome of the character-by-character reference. */
  datatype Painted = Painted(cells: seq<Cell>, color: Rgb, remaining: string, failure: Option<AnsiError>)

  /** The cells a text inserted in one colour becomes. */
  function Paint(color: Rgb, text: string): (cells: seq<Cell>)
    ensures |cells| == |text|
    ensures forall k :: 0 <= k < |text| ==> cells[k] == Cell(text[k], color)
  {
    seq(|text|, k requires 0 <= k < |text| => Cell(text[k], color))
  }

  /** The cells a list of appends inserts, in order. */
  function CellsOf(runs: seq<Run>): seq<Cell> {
    if runs == [] then [] else Paint(runs[0].color, runs[0].text) + CellsOf(runs[1..])
  }

  /** The characters of a list of cells. */
  function Chars(cells: seq<Cell>): (s: string)
    ensures |s| == |cells|
    ensures forall k :: 0 <= k < |cells| ==> s[k] == cells[k].ch
  {
    seq(|cells|, k requires 0 <= k < |cells| => cells[k].ch)
  }

  /** Appending one more run appends its cells. */
  lemma {:induction false} CellsOfSnoc(runs: seq<Run>, r: Run)
    ensures CellsOf(runs + [r]) == CellsOf(runs) + Paint(r.color, r.text)
  {
    if runs != [] {
      assert (runs + [r])[1..] == runs[1..] + [r];
      CellsOfSnoc(runs[1..], r);
    }
  }

  /** What a scan paints, seen as cells. */
  function AsPainted(d: Decoded): Painted {
    Painted(CellsOf(d.runs), d.color, d.remaining, d.failure)
  }

  /** Cells placed in front of what a reference run paints. */
  function Prepend(cells: seq<Cell>, p: Painted): Painted {
    p.(cells := cells + p.cells)
  }

  // ---------------------------------------------------------------------------------------
  // The pane's loop

  /**
   * The loop of appendANSI from `pos`, where an ESC stands: the sequence runs to the next `m`
   * and is looked up, and the text after it is emitted in the colour it names. Without a later
   * `m`, the rest is withheld; a failed lookup ends the scan.
   */
  function Scan(a: string, pos: nat, color: Rgb, lookup: string -> Result<Rgb, AnsiError>): Decoded
    requires pos < |a| && a[pos] == Esc
    decreases |a| - pos, 0
  {
    match IndexOf(a, 'm', pos)
    case None => Decoded([], color, a[pos..], None)
    case Some(mi) =>
      match lookup(a[pos..mi + 1])
      case Failure(e) => Decoded([], color, "", Some(e))
      case Success(next) => Emit(a, mi + 1, next, lookup)
  }

  /**
   * The second half of the loop body: the text from `from` up to the next ESC, or to the end
   * when there is none, is appended in `color`, and the scan goes on from that ESC.
   */
  function Emit(a: string, from: nat, color: Rgb, lookup: string -> Result<Rgb, AnsiError>): Decoded
    requires from <= |a|
    decreases |a| - from, 1
  {
    match IndexOf(a, Esc, from)
    case None => Decoded([Run(color, a[from..])], color, "", None)
    case Some(j) =>
      var d := Scan(a, j, color, lookup);
      d.(runs := [Run(color, a[from..j])] + d.runs)
  }

  /**
   * appendANSI on the text `a` (the withheld tail and the new string), starting in `color`:
   * nothing for an empty text, one append for a text without ESC, otherwise the text before the
   * first ESC (when there is any) and then the scan.
   */
  function Decode(a: string, color: Rgb, lookup: string -> Result<Rgb, AnsiError>): Decoded {
    if a == [] then Decoded([], color, "", None)
    else
      match IndexOf(a, Esc, 0)
      case None => Decoded([Run(color, a)], color, "", None)
      case Some(i) =>
        var d := Scan(a, i, color, lookup);
        if i > 0 then d.(runs := [Run(color, a[..i])] + d.runs) else d
  }

  /**
   * The state of the pane's loop standing at the ESC at `pos` in colour `color`, having emitted
   * `emitted`: the whole decode `d` is what was emitted followed by what the scan from here emits.
   */
  predicate ScanPending(d: Decoded, emitted: seq<Run>, a: string, pos: nat, color: Rgb, lookup: string -> Result<Rgb, AnsiError>) {
    pos < |a| && a[pos] == Esc &&
    var rest := Scan(a, pos, color, lookup);
    d == rest.(runs := emitted + rest.runs)
  }

  /** The loop's first state: the text before the first ESC is emitted in the starting colour. */
  lemma ScanStart(a: string, i: nat, color: Rgb, lookup: string -> Result<Rgb, AnsiError>)
    requires a != [] && IndexOf(a, Esc, 0) == Some(i)
    ensures ScanPending(Decode(a, color, lookup), if i > 0 then [Run(color, a[..i])] else [], a, i, color, lookup)
  {
  }

  /** A loop step that finds no `m`: the rest is withheld and the decode is complete. */
  lemma ScanStepWithheld(d: Decoded, emitted: seq<Run>, a: string, pos: nat, color: Rgb, lookup: string -> Result<Rgb, AnsiError>)
    requires ScanPending(d, emitted, a, pos, color, lookup) && IndexOf(a, 'm', pos).None?
    ensures d == Decoded(emitted, color, a[pos..], None)
  {
  }

  /** A loop step whose sequence the lookup rejects: the decode ends in that failure. */
  lemma ScanStepFailure(d: Decoded, emitted: seq<Run>, a: string, pos: nat, mi: nat, color: Rgb, e: AnsiError, lookup: string -> Result<Rgb, AnsiError>)
    requires ScanPending(d, emitted, a, pos, color, lookup)
    requires IndexOf(a, 'm', pos) == Some(mi) && lookup(a[pos..mi + 1]) == Failure(e)
    ensures d == Decoded(emitted, color, "", Some(e))
  {
  }

  /** A loop step after the last sequence: the rest of the text is emitted and the decode is complete. */
  lemma ScanStepLast(d: Decoded, emitted: seq<Run>, a: string, pos: nat, mi: nat, color: Rgb, next: Rgb, lookup: string -> Result<Rgb, AnsiError>)
    requires ScanPending(d, emitted, a, pos, color, lookup)
    requires IndexOf(a, 'm', pos) == Some(mi) && lookup(a[pos..mi + 1]) == Success(next)
    requires IndexOf(a, Esc, mi + 1).None?
    ensures d == Decoded(emitted + [Run(next, a[mi + 1..])], next, "", None)
  {
    assert Scan(a, pos, color, lookup) == Emit(a, mi + 1, next, lookup);
  }

  /** A loop step followed by another ESC: the text up to it is emitted and the loop stands there. */
  lemma ScanStepNext(d: Decoded, emitted: seq<Run>, a: string, pos: nat, mi: nat, color: Rgb, next: Rgb, j: nat, lookup: string -> Result<Rgb, AnsiError>)
    requires ScanPending(d, emitted, a, pos, color, lookup)
    requires IndexOf(a, 'm', pos) == Some(mi) && lookup(a[pos..mi + 1]) == Success(next)
    requires IndexOf(a, Esc, mi + 1) == Some(j)
    ensures ScanPending(d, emitted + [Run(next, a[mi + 1..j])], a, j, next, lookup)
  {
    assert Scan(a, pos, color, lookup) == Emit(a, mi + 1, next, lookup);
    var rest := Scan(a, j, next, lookup);
    assert emitted + ([Run(next, a[mi + 1..j])] + rest.runs) == (emitted + [Run(next, a[mi + 1..j])]) + rest.runs;
  }

  // ---------------------------------------------------------------------------------------
  // The reference

  /**
   * The reference decoder: a character other than ESC is painted in the current colour; an ESC
   * with a later `m` switches the colour to the lookup of the sequence up to that `m`; an ESC
   * without one withholds the rest; a failed lookup stops.
   */
  function RefFrom(a: string, pos: nat, color: Rgb, lookup: string -> Result<Rgb, AnsiError>): Painted
    decreases |a| - pos
  {
    if pos >= |a| then Painted([], color, "", None)
    else if a[pos] != Esc then Prepend([Cell(a[pos], color)], RefFrom(a, pos + 1, color, lookup))
    else
      match IndexOf(a, 'm', pos)
      case None => Painted([], color, a[pos..], None)
      case Some(mi) =>
        match lookup(a[pos..mi + 1])
        case Failure(e) => Painted([], color, "", Some(e))
        case Success(next) => RefFrom(a, mi + 1, next, lookup)
  }

  /** At a sequence that names a colour, the reference goes on after its `m` in that colour. */
  lemma RefFromAtSwitch(a: string, pos: nat, mi: nat, color: Rgb, next: Rgb, lookup: string -> Result<Rgb, AnsiError>)
    requires pos < |a| && a[pos] == Esc
    requires IndexOf(a, 'm', pos) == Some(mi) && lookup(a[pos..mi + 1]) == Success(next)
    ensures RefFrom(a, pos, color, lookup) == RefFrom(a, mi + 1, next, lookup)
  {
  }

  /** At an ESC with no later `m`, the reference withholds the rest of the text. */
  lemma RefFromAtWithheld(a: string, pos: nat, color: Rgb, lookup: string -> Result<Rgb, AnsiError>)
    requires pos < |a| && a[pos] == Esc && IndexOf(a, 'm', pos).None?
    ensures RefFrom(a, pos, color, lookup) == Painted([], color, a[pos..], None)
  {
  }

  /** At a sequence the lookup rejects, the reference stops with that failure. */
  lemma RefFromAtFailure(a: string, pos: nat, mi: nat, color: Rgb, e: AnsiError, lookup: string -> Result<Rgb, AnsiError>)
    requires pos < |a| && a[pos] == Esc
    requires IndexOf(a, 'm', pos) == Some(mi) && lookup(a[pos..mi + 1]) == Failure(e)
    ensures RefFrom(a, pos, color, lookup) == Painted([], color, "", Some(e))
  {
  }

  /** Text without ESC is painted as it stands, in the current colour. */
  lemma {:induction false} RefFromPlain(a: string, from: nat, to: nat, color: Rgb, lookup: string -> Result<Rgb, AnsiError>)
    requires from <= to <= |a|
    requires forall k :: from <= k < to ==> a[k] != Esc
    ensures RefFrom(a, from, color, lookup) == Prepend(Paint(color, a[from..to]), RefFrom(a, to, color, lookup))
    decreases (to as int) - (from as int)
  {
    if from < to {
      RefFromPlain(a, from + 1, to, color, lookup);
      assert Paint(color, a[from..to]) == [Cell(a[from], color)] + Paint(color, a[from + 1..to]);
    }
  }

  /** The pane's scan paints exactly what the reference paints from the same ESC. */
  lemma {:induction false} ScanIsRef(a: string, pos: nat, color: Rgb, lookup: string -> Result<Rgb, AnsiError>)
    requires pos < |a| && a[pos] == Esc
    ensures AsPainted(Scan(a, pos, color, lookup)) == RefFrom(a, pos, color, lookup)
    decreases |a| - pos, 0
  {
    match IndexOf(a, 'm', pos)
    case None =>
    case Some(mi) =>
      match lookup(a[pos..mi + 1])
      case Failure(e) =>
      case Success(next) => EmitIsRef(a, mi + 1, next, lookup);
  }

  /** What the pane emits after a sequence is what the reference paints from there. */
  lemma {:induction false} EmitIsRef(a: string, from: nat, color: Rgb, lookup: string -> Result<Rgb, AnsiError>)
    requires from <= |a|
    ensures AsPainted(Emit(a, from, color, lookup)) == RefFrom(a, from, color, lookup)
    decreases |a| - from, 1
  {
    match IndexOf(a, Esc, from)
    case None =>
      RefFromPlain(a, from, |a|, color, lookup);
      assert CellsOf([Run(color, a[from..])]) == Paint(color, a[from..]);
    case Some(j) =>
      RefFromPlain(a, from, j, color, lookup);
      ScanIsRef(a, j, color, lookup);
      var d := Scan(a, j, color, lookup);
      var run := Run(color, a[from..j]);
      assert ([run] + d.runs)[1..] == d.runs;
      assert CellsOf([run] + d.runs) == Paint(color, a[from..j]) + CellsOf(d.runs);
  }

  /** appendANSI paints exactly what the reference paints, and leaves the same colour and tail. */
  lemma DecodeIsRef(a: string, color: Rgb, lookup: string -> Result<Rgb, AnsiError>)
    ensures AsPainted(Decode(a, color, lookup)) == RefFrom(a, 0, color, lookup)
  {
    if a != [] {
      match IndexOf(a, Esc, 0)
      case None =>
        RefFromPlain(a, 0, |a|, color, lookup);
        assert a[0..|a|] == a;
        assert CellsOf([Run(color, a)]) == Paint(color, a);
      case Some(i) =>
        RefFromPlain(a, 0, i, color, lookup);
        ScanIsRef(a, i, color, lookup);
        var d := Scan(a, i, color, lookup);
        if i > 0 {
          assert ([Run(color, a[..i])] + d.runs)[1..] == d.runs;
          assert a[0..i] == a[..i];
        }
    }
  }

  // ---------------------------------------------------------------------------------------
  // Chunking

  /** Searching in `p + t` past `p` is searching in `t`. */
  lemma {:induction false} IndexOfShift(p: string, t: string, ch: char, k: nat)
    ensures IndexOf(p + t, ch, |p| + k) ==
      match IndexOf(t, ch, k) case None => None case Some(i) => Some(|p| + i)
    decreases |t| - k
  {
    if k < |t| && t[k] != ch {
      assert (p + t)[|p| + k] == t[k];
      IndexOfShift(p, t, ch, k + 1);
    } else if k < |t| {
      assert (p + t)[|p| + k] == t[k];
    }
  }

  /** A character found in `a1` is found at the same place in any extension of `a1`. */
  lemma {:induction false} IndexOfExtend(a1: string, s2: string, ch: char, pos: nat)
    requires IndexOf(a1, ch, pos).Some?
    ensures IndexOf(a1 + s2, ch, pos) == IndexOf(a1, ch, pos)
    decreases |a1| - pos
  {
    assert (a1 + s2)[pos] == a1[pos];
    if a1[pos] != ch {
      IndexOfExtend(a1, s2, ch, pos + 1);
    }
  }

  /** Decoding `p + t` past `p` is decoding `t`. */
  lemma {:induction false} RefFromShift(p: string, t: string, k: nat, color: Rgb, lookup: string -> Result<Rgb, AnsiError>)
    requires k <= |t|
    ensures RefFrom(p + t, |p| + k, color, lookup) == RefFrom(t, k, color, lookup)
    decreases |t| - k, 1
  {
    if k < |t| {
      assert (p + t)[|p| + k] == t[k];
      if t[k] != Esc {
        RefFromShift(p, t, k + 1, color, lookup);
      } else {
        RefFromShiftAtEsc(p, t, k, color, lookup);
      }
    }
  }

  /** The step of RefFromShift at an ESC of `t`. */
  lemma {:induction false} RefFromShiftAtEsc(p: string, t: string, k: nat, color: Rgb, lookup: string -> Result<Rgb, AnsiError>)
    requires k < |t| && t[k] == Esc
    ensures RefFrom(p + t, |p| + k, color, lookup) == RefFrom(t, k, color, lookup)
    decreases |t| - k, 0
  {
    match IndexOf(t, 'm', k)
    case None => RefFromShiftWithheld(p, t, k, color, lookup);
    case Some(mi) =>
      match lookup(t[k..mi + 1])
      case Failure(e) => RefFromShiftFailure(p, t, k, mi, color, e, lookup);
      case Success(next) =>
        RefFromShiftSequence(p, t, k, mi);
        RefFromAtSwitch(p + t, |p| + k, |p| + mi, color, next, lookup);
        RefFromAtSwitch(t, k, mi, color, next, lookup);
        RefFromShift(p, t, mi + 1, next, lookup);
  }

  /** The ESC of `t` at `k` and the sequence it opens sit at the same place in `p + t`, past `p`. */
  lemma RefFromShiftSequence(p: string, t: string, k: nat, mi: nat)
    requires k < |t| && t[k] == Esc && IndexOf(t, 'm', k) == Some(mi)
    ensures |p| + k < |p + t| && (p + t)[|p| + k] == Esc
    ensures IndexOf(p + t, 'm', |p| + k) == Some(|p| + mi)
    ensures (p + t)[|p| + k..|p| + mi + 1] == t[k..mi + 1]
  {
    IndexOfShift(p, t, 'm', k);
    assert (p + t)[|p| + k] == t[k];
  }

  /** RefFromShift at an ESC of `t` without a later `m`. */
  lemma RefFromShiftWithheld(p: string, t: string, k: nat, color: Rgb, lookup: string -> Result<Rgb, AnsiError>)
    requires k < |t| && t[k] == Esc && IndexOf(t, 'm', k).None?
    ensures RefFrom(p + t, |p| + k, color, lookup) == RefFrom(t, k, color, lookup)
  {
    IndexOfShift(p, t, 'm', k);
    assert (p + t)[|p| + k] == t[k];
    assert (p + t)[|p| + k..] == t[k..];
    RefFromAtWithheld(p + t, |p| + k, color, lookup);
    RefFromAtWithheld(t, k, color, lookup);
  }

  /** RefFromShift at a sequence of `t` that the lookup rejects. */
  lemma RefFromShiftFailure(p: string, t: string, k: nat, mi: nat, color: Rgb, e: AnsiError, lookup: string -> Result<Rgb, AnsiError>)
    requires k < |t| && t[k] == Esc && IndexOf(t, 'm', k) == Some(mi) && lookup(t[k..mi + 1]) == Failure(e)
    ensures RefFrom(p + t, |p| + k, color, lookup) == RefFrom(t, k, color, lookup)
  {
    RefFromShiftSequence(p, t, k, mi);
    RefFromAtFailure(p + t, |p| + k, |p| + mi, color, e, lookup);
    RefFromAtFailure(t, k, mi, color, e, lookup);
  }

  /**
   * What decoding goes on to paint when `more` follows the text that gave `r`: a failure stays
   * as it was; otherwise the withheld tail joined to `more` is decoded from the colour reached.
   */
  function Resume(r: Painted, more: string, lookup: string -> Result<Rgb, AnsiError>): Painted {
    if r.failure.Some? then r
    else Prepend(r.cells, RefFrom(r.remaining + more, 0, r.color, lookup))
  }

  /** Cells painted before the chunk boundary stay in front of whatever follows it. */
  lemma ResumePrepend(cells: seq<Cell>, r: Painted, more: string, lookup: string -> Result<Rgb, AnsiError>)
    ensures Resume(Prepend(cells, r), more, lookup) == Prepend(cells, Resume(r, more, lookup))
  {
    if r.failure.None? {
      var rest := RefFrom(r.remaining + more, 0, r.color, lookup);
      assert cells + r.cells + rest.cells == cells + (r.cells + rest.cells);
    }
  }

  /**
   * Chunk boundaries do not matter: decoding `a1 + s2` from `pos` paints what decoding `a1`
   * paints followed by what decoding its withheld tail joined to `s2` paints, from the colour
   * `a1` left current. A failure inside `a1` is the same failure on the longer text.
   */
  lemma {:induction false} RefFromSplit(a1: string, s2: string, pos: nat, color: Rgb, lookup: string -> Result<Rgb, AnsiError>)
    requires pos <= |a1|
    ensures RefFrom(a1 + s2, pos, color, lookup) == Resume(RefFrom(a1, pos, color, lookup), s2, lookup)
    decreases |a1| - pos, 1
  {
    var a := a1 + s2;
    if pos == |a1| {
      RefFromShift(a1, s2, 0, color, lookup);
      assert a1 + s2 == a;
      assert [] + s2 == s2;
      var r2 := RefFrom(s2, 0, color, lookup);
      assert Prepend([], r2) == r2;
    } else {
      assert a[pos] == a1[pos];
      if a1[pos] != Esc {
        RefFromSplit(a1, s2, pos + 1, color, lookup);
        ResumePrepend([Cell(a1[pos], color)], RefFrom(a1, pos + 1, color, lookup), s2, lookup);
      } else {
        RefFromSplitAtEsc(a1, s2, pos, color, lookup);
      }
    }
  }

  /** The step of RefFromSplit at an ESC inside `a1`. */
  lemma {:induction false} RefFromSplitAtEsc(a1: string, s2: string, pos: nat, color: Rgb, lookup: string -> Result<Rgb, AnsiError>)
    requires pos < |a1| && a1[pos] == Esc
    ensures RefFrom(a1 + s2, pos, color, lookup) == Resume(RefFrom(a1, pos, color, lookup), s2, lookup)
    decreases |a1| - pos, 0
  {
    var a := a1 + s2;
    assert a[pos] == Esc;
    match IndexOf(a1, 'm', pos)
    case None => RefFromSplitWithheld(a1, s2, pos, color, lookup);
    case Some(mi) =>
      IndexOfExtend(a1, s2, 'm', pos);
      assert a[pos..mi + 1] == a1[pos..mi + 1];
      match lookup(a1[pos..mi + 1])
      case Failure(_) =>
      case Success(next) =>
        assert RefFrom(a, pos, color, lookup) == RefFrom(a, mi + 1, next, lookup);
        assert RefFrom(a1, pos, color, lookup) == RefFrom(a1, mi + 1, next, lookup);
        RefFromSplit(a1, s2, mi + 1, next, lookup);
  }

  /** RefFromSplit at an ESC of `a1` with no later `m` in `a1`: the rest of `a1` is withheld. */
  lemma RefFromSplitWithheld(a1: string, s2: string, pos: nat, color: Rgb, lookup: string -> Result<Rgb, AnsiError>)
    requires pos < |a1| && a1[pos] == Esc && IndexOf(a1, 'm', pos).None?
    ensures RefFrom(a1 + s2, pos, color, lookup) == Resume(RefFrom(a1, pos, color, lookup), s2, lookup)
  {
    assert a1 + s2 == a1[..pos] + (a1[pos..] + s2);
    RefFromShift(a1[..pos], a1[pos..] + s2, 0, color, lookup);
    var r := RefFrom(a1[pos..] + s2, 0, color, lookup);
    assert Prepend([], r) == r;
  }

  /**
   * Two appendANSI calls, the second starting from the colour and the withheld tail the first
   * left, paint what one call on the joined text paints ("hi ESC[3" then "1mred" decodes as
   * "hi ESC[31mred"), and end in the same colour, tail and failure.
   */
  lemma DecodeChunked(s1: string, s2: string, color: Rgb, lookup: string -> Result<Rgb, AnsiError>)
    requires Decode(s1, color, lookup).failure.None?
    ensures var d1 := Decode(s1, color, lookup);
      var d2 := Decode(d1.remaining + s2, d1.color, lookup);
      AsPainted(Decode(s1 + s2, color, lookup)) == Prepend(CellsOf(d1.runs), AsPainted(d2))
  {
    var d1 := Decode(s1, color, lookup);
    DecodeIsRef(s1, color, lookup);
    DecodeIsRef(d1.remaining + s2, d1.color, lookup);
    DecodeIsRef(s1 + s2, color, lookup);
    RefFromSplit(s1, s2, 0, color, lookup);
  }

  // ---------------------------------------------------------------------------------------
  // What reaches the document

  /** No cell holds an ESC. */
  predicate EscFreeCells(cells: seq<Cell>) {
    forall k :: 0 <= k < |cells| ==> cells[k].ch != Esc
  }

  /** `rest` is what the decoder withholds from `a`: nothing, or a suffix that opens a sequence without its `m`. */
  predicate IsWithheld(a: string, rest: string) {
    rest == [] ||
      (|rest| <= |a| && rest == a[|a| - |rest|..] && rest[0] == Esc && Free(rest, 'm'))
  }

  /**
   * No ESC is ever painted, and the withheld tail is empty or a suffix of the input that starts
   * with ESC and holds no `m`.
   */
  lemma {:induction false} RefFromShape(a: string, pos: nat, color: Rgb, lookup: string -> Result<Rgb, AnsiError>)
    ensures EscFreeCells(RefFrom(a, pos, color, lookup).cells)
    ensures IsWithheld(a, RefFrom(a, pos, color, lookup).remaining)
    decreases |a| - pos, 1
  {
    if pos < |a| {
      if a[pos] != Esc {
        RefFromShape(a, pos + 1, color, lookup);
      } else {
        RefFromShapeAtEsc(a, pos, color, lookup);
      }
    }
  }

  /** The step of RefFromShape at an ESC. */
  lemma {:induction false} RefFromShapeAtEsc(a: string, pos: nat, color: Rgb, lookup: string -> Result<Rgb, AnsiError>)
    requires pos < |a| && a[pos] == Esc
    ensures EscFreeCells(RefFrom(a, pos, color, lookup).cells)
    ensures IsWithheld(a, RefFrom(a, pos, color, lookup).remaining)
    decreases |a| - pos, 0
  {
    match IndexOf(a, 'm', pos)
    case None =>
      assert forall k :: 0 <= k < |a[pos..]| ==> a[pos..][k] == a[pos + k];
    case Some(mi) =>
      match lookup(a[pos..mi + 1])
      case Failure(_) =>
      case Success(next) => RefFromShape(a, mi + 1, next, lookup);
  }

  /** The appends of one appendANSI call hold no ESC, and what is withheld is an unterminated sequence. */
  lemma DecodeShape(a: string, color: Rgb, lookup: string -> Result<Rgb, AnsiError>)
    ensures EscFreeCells(CellsOf(Decode(a, color, lookup).runs))
    ensures IsWithheld(a, Decode(a, color, lookup).remaining)
  {
    DecodeIsRef(a, color, lookup);
    RefFromShape(a, 0, color, lookup);
  }

  /** A non-empty text without ESC is one append, in the current colour, with nothing withheld. */
  lemma DecodePlain(a: string, color: Rgb, lookup: string -> Result<Rgb, AnsiError>)
    requires a != [] && Free(a, Esc)
    ensures Decode(a, color, lookup) == Decoded([Run(color, a)], color, "", None)
  {
  }

  /** An unsupported sequence in the table's lookup stops the scan with the exception ansiToColor throws. */
  lemma DecodeUnsupported(t: string, color: Rgb)
    requires Free(t, Esc) && Free(t, 'm') && !IsKey([Esc] + t + "m")
    ensures Decode([Esc] + t + "m", color, AnsiToColor).failure == Some(UnsupportedAnsi([Esc] + t + "m"))
  {
    var a := [Esc] + t + "m";
    assert IndexOf(a, Esc, 0) == Some(0);
    assert forall k :: 0 <= k < |t| ==> a[k + 1] == t[k];
    assert a[|a| - 1] == 'm';
    assert forall k :: 0 <= k < |a| - 1 ==> a[k] != 'm';
    assert IndexOf(a, 'm', 0) == Some(|a| - 1);
    assert a[0..|a|] == a;
  }
}
