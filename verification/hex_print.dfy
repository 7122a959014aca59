/**
 * The private print method of TuiParent, and its copy in console/Tui: the text is first
 * rewritten so that ANSI sequences become 0xRRGGBB directives, then walked from left to right.
 * A directive at the current index sets the console foreground and is skipped whole; otherwise
 * the text up to the next directive, or to the end, is printed in one piece, or one character
 * at a time when a print delay is set.
 *
 * The calls the loop makes on the console (setConsoleForeground, print, println) are recorded,
 * in order, in `ops`; what the console then does with them is modelled in TuiConsole.
 */
module HexPrint {
  import opened Wrappers
  import opened ColorUtil

  /** A call made on the console: setConsoleForeground(c), print(s) (here Out) or println(). */
  datatype Op = SetForeground(color: Rgb) | Out(text: string) | Newline

  /** An argument of printf: a Color, a String, or any other object, told apart by a number. */
  datatype Arg = ColorArg(color: Rgb) | StringArg(s: string) | OtherArg(id: nat)

  /** Color.white, the foreground TuiParent falls back to. */
  const White: Rgb := Rgb(255, 255, 255)

  /** Color.green, the foreground console/Tui falls back to. */
  const Green: Rgb := Rgb(0, 255, 0)

  /**
   * The start of the leftmost directive at or after i, or |t| when there is none: where
   * StringUtil.indexOf(remaining, hexRegex) puts the end of the piece to print.
   */
  function NextHex(t: string, i: nat): (e: nat)
    requires i <= |t|
    ensures i <= e <= |t|
    ensures e < |t| ==> IsHexAt(t, e)
    ensures forall j :: i <= j < e ==> !IsHexAt(t, j)
    decreases |t| - i
  {
    if i == |t| || IsHexAt(t, i) then i else NextHex(t, i + 1)
  }

  /** The print calls for one piece: one call, or one per character with a print delay. */
  function PrintOps(s: string, charDelay: bool): seq<Op> {
    if charDelay then seq(|s|, k requires 0 <= k < |s| => Out([s[k]])) else [Out(s)]
  }

  /** The calls the loop makes on t from index i. */
  function Chunks(t: string, i: nat, charDelay: bool): seq<Op>
    requires i <= |t|
    decreases |t| - i
  {
    if i == |t| then []
    else if IsHexAt(t, i) then [SetForeground(DecodeHexAt(t, i))] + Chunks(t, i + 8, charDelay)
    else
      var e := NextHex(t, i);
      PrintOps(t[i..e], charDelay) + Chunks(t, e, charDelay)
  }

  /** The reference: the text from i with the leftmost directives removed, one at a time, in order. */
  function Strip(t: string, i: nat): string
    requires i <= |t|
    decreases |t| - i
  {
    if i == |t| then []
    else if IsHexAt(t, i) then Strip(t, i + 8)
    else [t[i]] + Strip(t, i + 1)
  }

  /** What the print calls put on the console, in order. */
  function PrintedText(ops: seq<Op>): string {
    if ops == [] then []
    else (if ops[0].Out? then ops[0].text else []) + PrintedText(ops[1..])
  }

  /** A piece the loop prints: not empty, and with no directive anywhere in it. */
  predicate PlainPiece(s: string) {
    s != [] && forall j :: 0 <= j < |s| ==> !IsHexAt(s, j)
  }

  /** printf's conversion of one argument: a Color becomes ColorUtil.hex of it. */
  function HexArg(a: Arg): Arg {
    if a.ColorArg? then StringArg(Hex(a.color)) else a
  }

  class Tui {
    var defaultForegroundColor: Rgb
    const resetColorAfterEachMsg: bool
    var charPrintDelayMS: int
    var ops: seq<Op>

    /** TuiParent(Tui.Builder): an unset foreground is white, an unset delay 0. */
    constructor FromBuilder(foreground: Option<Rgb>, resetColorAfterEachMsg: bool, charPrintDelayMS: Option<int>)
      ensures defaultForegroundColor == (if foreground.Some? then foreground.value else White)
      ensures this.resetColorAfterEachMsg == resetColorAfterEachMsg
      ensures this.charPrintDelayMS == (if charPrintDelayMS.Some? then charPrintDelayMS.value else 0)
      ensures ops == []
    {
      defaultForegroundColor := if foreground.Some? then foreground.value else White;
      this.resetColorAfterEachMsg := resetColorAfterEachMsg;
      this.charPrintDelayMS := if charPrintDelayMS.Some? then charPrintDelayMS.value else 0;
      ops := [];
    }

    /** console/Tui(Tui.TuiBuilder): an unset foreground is green, an unset reset flag true, an unset delay 0. */
    constructor FromTuiBuilder(foreground: Option<Rgb>, resetColorAfterEachMsg: Option<bool>, charPrintDelayMS: Option<int>)
      ensures defaultForegroundColor == (if foreground.Some? then foreground.value else Green)
      ensures this.resetColorAfterEachMsg == (resetColorAfterEachMsg != Some(false))
      ensures this.charPrintDelayMS == (if charPrintDelayMS.Some? then charPrintDelayMS.value else 0)
      ensures ops == []
    {
      defaultForegroundColor := if foreground.Some? then foreground.value else Green;
      this.resetColorAfterEachMsg := if resetColorAfterEachMsg.Some? then resetColorAfterEachMsg.value else true;
      this.charPrintDelayMS := if charPrintDelayMS.Some? then charPrintDelayMS.value else 0;
      ops := [];
    }

    /**
     * print(text, color, pauseTime, newLine). An explicit colour is set on the console and
     * becomes the default only when the colour is not reset after each message. The text,
     * with its ANSI sequences rewritten against the default, is split at its directives; a
     * newline follows when asked; with the reset flag the console gets the default back.
     */
    method Print(text: string, color: Option<Rgb>, newLine: bool)
      modifies this
      ensures defaultForegroundColor == if color.Some? && !resetColorAfterEachMsg then color.value else old(defaultForegroundColor)
      ensures charPrintDelayMS == old(charPrintDelayMS)
      ensures ops == old(ops) + (if color.Some? then [SetForeground(color.value)] else [])
        + Chunks(AnsiToHex(text, Some(defaultForegroundColor)), 0, charPrintDelayMS > 0)
        + (if newLine then [Newline] else [])
        + (if resetColorAfterEachMsg then [SetForeground(defaultForegroundColor)] else [])
    {
      ops := ops + (if color.Some? then [SetForeground(color.value)] else []);
      defaultForegroundColor := if color.Some? && !resetColorAfterEachMsg then color.value else defaultForegroundColor;
      var t := ReplaceAllAnsiWithHexReset(text, defaultForegroundColor);
      PrintDirected(t);
      ops := ops + (if newLine then [Newline] else []);
      ops := ops + (if resetColorAfterEachMsg then [SetForeground(defaultForegroundColor)] else []);
    }

    /**
     * The loop of print over the rewritten text t. A directive at i sets the foreground and
     * moves i past its 8 characters (`i += 7` and the loop's `i++`); otherwise the piece up to
     * the next directive is printed and i moves to its end.
     */
    method PrintDirected(t: string)
      modifies this
      ensures defaultForegroundColor == old(defaultForegroundColor) && charPrintDelayMS == old(charPrintDelayMS)
      ensures ops == old(ops) + Chunks(t, 0, charPrintDelayMS > 0)
    {
      var charDelay := charPrintDelayMS > 0;
      var i := 0;
      while i < |t|
        invariant i <= |t|
        invariant defaultForegroundColor == old(defaultForegroundColor) && charPrintDelayMS == old(charPrintDelayMS)
        invariant ops + Chunks(t, i, charDelay) == old(ops) + Chunks(t, 0, charDelay)
        decreases |t| - i
      {
        i := PrintStep(t, i, charDelay);
      }
    }

    /** One pass of the loop of print, from i to the index it continues at. */
    method PrintStep(t: string, i: nat, charDelay: bool) returns (next: nat)
      requires i < |t|
      modifies this
      ensures i < next <= |t|
      ensures defaultForegroundColor == old(defaultForegroundColor) && charPrintDelayMS == old(charPrintDelayMS)
      ensures ops + Chunks(t, next, charDelay) == old(ops) + Chunks(t, i, charDelay)
    {
      if IsHexAt(t, i) {
        next := SetDirective(t, i, charDelay);
      } else {
        next := PrintUpToDirective(t, i, charDelay);
      }
    }

    /** The directive at i: Color.decode of it becomes the console foreground. */
    method SetDirective(t: string, i: nat, charDelay: bool) returns (next: nat)
      requires i < |t| && IsHexAt(t, i)
      modifies this
      ensures i < next <= |t|
      ensures defaultForegroundColor == old(defaultForegroundColor) && charPrintDelayMS == old(charPrintDelayMS)
      ensures ops + Chunks(t, next, charDelay) == old(ops) + Chunks(t, i, charDelay)
    {
      var step := [SetForeground(DecodeHexAt(t, i))];
      assert Chunks(t, i, charDelay) == step + Chunks(t, i + 8, charDelay);
      OpsAssoc(ops, step, Chunks(t, i + 8, charDelay));
      ops := ops + step;
      next := i + 8;
    }

    /** No directive at i: the text up to the next one, or to the end, is printed. */
    method PrintUpToDirective(t: string, i: nat, charDelay: bool) returns (next: nat)
      requires i < |t| && !IsHexAt(t, i)
      modifies this
      ensures i < next <= |t|
      ensures defaultForegroundColor == old(defaultForegroundColor) && charPrintDelayMS == old(charPrintDelayMS)
      ensures ops + Chunks(t, next, charDelay) == old(ops) + Chunks(t, i, charDelay)
    {
      var e := NextHex(t, i);
      assert Chunks(t, i, charDelay) == PrintOps(t[i..e], charDelay) + Chunks(t, e, charDelay);
      OpsAssoc(ops, PrintOps(t[i..e], charDelay), Chunks(t, e, charDelay));
      PrintPiece(t[i..e], charDelay);
      next := e;
    }

    /** One piece: printed whole, or character by character when there is a print delay. */
    method PrintPiece(s: string, charDelay: bool)
      modifies this
      ensures defaultForegroundColor == old(defaultForegroundColor) && charPrintDelayMS == old(charPrintDelayMS)
      ensures ops == old(ops) + PrintOps(s, charDelay)
    {
      if !charDelay {
        ops := ops + [Out(s)];
        return;
      }
      for k := 0 to |s|
        invariant defaultForegroundColor == old(defaultForegroundColor) && charPrintDelayMS == old(charPrintDelayMS)
        invariant ops == old(ops) + PrintOps(s[..k], true)
      {
        assert PrintOps(s[..k + 1], true) == PrintOps(s[..k], true) + [Out([s[k]])];
        ops := ops + [Out([s[k]])];
      }
      assert s[..|s|] == s;
    }

    /**
     * printf(format, args...): every Color argument is replaced, in place, by its hex string,
     * then the text String.format makes of them (a parameter here) is printed, without a colour
     * and without a newline.
     */
    method Printf(format: string, args: array<Arg>, formatter: (string, seq<Arg>) -> string)
      modifies this, args
      ensures forall i :: 0 <= i < args.Length ==> args[i] == HexArg(old(args[i]))
      ensures defaultForegroundColor == old(defaultForegroundColor)
      ensures ops == old(ops) + Chunks(AnsiToHex(formatter(format, args[..]), Some(defaultForegroundColor)), 0, charPrintDelayMS > 0)
        + (if resetColorAfterEachMsg then [SetForeground(defaultForegroundColor)] else [])
    {
      ConvertColors(args);
      var text := formatter(format, args[..]);
      ghost var before := ops;
      Print(text, None, false);
      assert ops == before + Chunks(AnsiToHex(text, Some(defaultForegroundColor)), 0, charPrintDelayMS > 0)
        + (if resetColorAfterEachMsg then [SetForeground(defaultForegroundColor)] else []);
    }
  }

  /** The loop of printf over its arguments. */
  method ConvertColors(args: array<Arg>)
    modifies args
    ensures forall i :: 0 <= i < args.Length ==> args[i] == HexArg(old(args[i]))
  {
    for i := 0 to args.Length
      invariant forall j :: 0 <= j < i ==> args[j] == HexArg(old(args[j]))
      invariant forall j :: i <= j < args.Length ==> args[j] == old(args[j])
    {
      ghost var before := args[..];
      if args[i].ColorArg? {
        args[i] := StringArg(Hex(args[i].color));
      }
      assert args[i] == HexArg(before[i]);
      assert forall j :: 0 <= j < args.Length && j != i ==> args[j] == before[j];
    }
  }

  // ---------------------------------------------------------------------------------------
  // What the loop prints

  /**
   * printf's conversion is undone by the print loop: a converted Color is a string of 8
   * characters holding one directive that decodes to that colour; other arguments are kept.
   */
  lemma HexArgDecodes(a: Arg)
    ensures a.ColorArg? ==> HexArg(a).StringArg? && |HexArg(a).s| == 8 && IsHexAt(HexArg(a).s, 0) && DecodeHexAt(HexArg(a).s, 0) == a.color
    ensures !a.ColorArg? ==> HexArg(a) == a
  {
  }

  lemma OpsAssoc(a: seq<Op>, b: seq<Op>, c: seq<Op>)
    ensures a + b + c == a + (b + c)
  {
  }

  lemma {:induction false} PrintedTextAppend(a: seq<Op>, b: seq<Op>)
    ensures PrintedText(a + b) == PrintedText(a) + PrintedText(b)
    decreases |a|
  {
    if a != [] {
      assert (a + b)[0] == a[0] && (a + b)[1..] == a[1..] + b;
      PrintedTextAppend(a[1..], b);
    } else {
      assert a + b == b;
    }
  }

  /** The print calls for a piece print the piece, with or without a delay. */
  lemma {:induction false} PrintOpsText(s: string, charDelay: bool)
    ensures PrintedText(PrintOps(s, charDelay)) == s
    decreases |s|
  {
    if !charDelay {
      assert PrintedText([Out(s)]) == s + PrintedText([]);
    } else if s != [] {
      assert PrintOps(s, true) == [Out([s[0]])] + PrintOps(s[1..], true);
      PrintOpsText(s[1..], true);
      assert [s[0]] + s[1..] == s;
    }
  }

  /** Over a stretch with no directive, the reference copies the stretch. */
  lemma {:induction false} StripRun(t: string, i: nat, e: nat)
    requires i <= e <= |t| && forall j :: i <= j < e ==> !IsHexAt(t, j)
    ensures Strip(t, i) == t[i..e] + Strip(t, e)
    decreases e - i
  {
    if i < e {
      assert !IsHexAt(t, i);
      assert Strip(t, i) == [t[i]] + Strip(t, i + 1);
      StripRun(t, i + 1, e);
      assert [t[i]] + t[i + 1..e] == t[i..e];
      assert [t[i]] + (t[i + 1..e] + Strip(t, e)) == ([t[i]] + t[i + 1..e]) + Strip(t, e);
    }
  }

  /**
   * The pieces the loop prints, laid end to end, are the text with its leftmost directives
   * removed, in order, with or without a print delay.
   */
  lemma {:induction false} ChunksPrintStripped(t: string, i: nat, charDelay: bool)
    requires i <= |t|
    ensures PrintedText(Chunks(t, i, charDelay)) == Strip(t, i)
    decreases |t| - i
  {
    if i == |t| {
    } else if IsHexAt(t, i) {
      ChunksPrintStripped(t, i + 8, charDelay);
      PrintedTextAppend([SetForeground(DecodeHexAt(t, i))], Chunks(t, i + 8, charDelay));
    } else {
      var e := NextHex(t, i);
      ChunksPrintStripped(t, e, charDelay);
      PrintedTextAppend(PrintOps(t[i..e], charDelay), Chunks(t, e, charDelay));
      PrintOpsText(t[i..e], charDelay);
      StripRun(t, i, e);
    }
  }

  /** A print delay changes how the text is printed, not what. */
  lemma CharDelayPrintsSame(t: string)
    ensures PrintedText(Chunks(t, 0, true)) == PrintedText(Chunks(t, 0, false))
  {
    ChunksPrintStripped(t, 0, true);
    ChunksPrintStripped(t, 0, false);
  }

  /** A piece of t that no directive of t starts in holds no directive. */
  lemma PieceIsPlain(t: string, i: nat, e: nat)
    requires i < e <= |t| && forall j :: i <= j < e ==> !IsHexAt(t, j)
    ensures PlainPiece(t[i..e])
  {
    forall j | 0 <= j < e - i ensures !IsHexAt(t[i..e], j) {
      HexAtSlice(t, i, e, j);
    }
  }

  /** A directive in a slice of t is a directive of t. */
  lemma HexAtSlice(t: string, i: nat, e: nat, j: nat)
    requires i <= e <= |t|
    ensures IsHexAt(t[i..e], j) ==> IsHexAt(t, i + j)
  {
    if IsHexAt(t[i..e], j) {
      assert t[i..e][j..j + 8] == t[i + j..i + j + 8];
    }
  }

  /** A directive of t after p characters that begins past p is one of what follows p. */
  lemma HexAtShift(t: string, p: nat, j: nat)
    requires p <= j <= |t|
    ensures IsHexAt(t, j) ==> IsHexAt(t[p..], j - p)
  {
    if IsHexAt(t, j) {
      assert t[p..][j - p..j - p + 8] == t[j..j + 8];
    }
  }

  /** Without a delay every print call of the loop prints a plain piece. */
  lemma {:induction false} ChunksPrintPlainPieces(t: string, i: nat)
    requires i <= |t|
    ensures forall k :: 0 <= k < |Chunks(t, i, false)| && Chunks(t, i, false)[k].Out? ==> PlainPiece(Chunks(t, i, false)[k].text)
    decreases |t| - i
  {
    if i < |t| {
      if IsHexAt(t, i) {
        ChunksPrintPlainPieces(t, i + 8);
      } else {
        var e := NextHex(t, i);
        ChunksPrintPlainPieces(t, e);
        PieceIsPlain(t, i, e);
      }
    }
  }

  /** After the hex string of a Color, plain text holds no further directive. */
  lemma HexThenPlain(c: Rgb, s: string)
    requires PlainPiece(s)
    ensures IsHexAt(Hex(c) + s, 0) && DecodeHexAt(Hex(c) + s, 0) == c
    ensures (Hex(c) + s)[8..|Hex(c) + s|] == s && NextHex(Hex(c) + s, 8) == |Hex(c) + s|
  {
    var t := Hex(c) + s;
    assert t[..8] == Hex(c);
    assert t[8..|t|] == s;
    forall j | 8 <= j < |t| ensures !IsHexAt(t, j) {
      HexAtShift(t, 8, j);
    }
  }

  /**
   * The hex string printf makes of a Color, followed by text holding no directive, sets that
   * very colour and then prints the text in one piece.
   */
  lemma ColorThenText(c: Rgb, s: string)
    requires PlainPiece(s)
    ensures Chunks(Hex(c) + s, 0, false) == [SetForeground(c), Out(s)]
  {
    HexThenPlain(c, s);
    var t := Hex(c) + s;
    assert !IsHexAt(t, 8);
    assert PrintOps(t[8..NextHex(t, 8)], false) == [Out(s)];
    assert Chunks(t, 8, false) == [Out(s)] + Chunks(t, |t|, false);
    assert Chunks(t, 0, false) == [SetForeground(c)] + Chunks(t, 8, false);
  }
}
