/**
 * The colour table of the console (SGR foreground codes 30-37 with the 0/1 intensity
 * prefixes of ECMA-48 section 8.3.117), the `0xRRGGBB` hex encoder, and the rewriter that
 * replaces every ANSI colour sequence of a string by its hex directive.
 */
module ColorUtil {
  import opened Wrappers
  import opened Text

  /** One 8-bit colour channel. */
  type Channel = x: int | 0 <= x <= 255

  /** java.awt.Color reduced to its red, green and blue channels. */
  datatype Rgb = Rgb(r: Channel, g: Channel, b: Channel)

  /** A Java `int` (32-bit two's complement). */
  newtype Int32 = x: int | -0x8000_0000 <= x < 0x8000_0000

  // The table colours, as Color.getHSBColor rounds the HSB constants of the source.
  const DBlack: Rgb := Rgb(0, 0, 0)
  const DRed: Rgb := Rgb(128, 0, 0)
  const DGreen: Rgb := Rgb(0, 128, 0)
  const DYellow: Rgb := Rgb(128, 128, 0)
  const DBlue: Rgb := Rgb(0, 0, 128)
  const DMagenta: Rgb := Rgb(128, 0, 128)
  const DCyan: Rgb := Rgb(0, 128, 128)
  const DWhite: Rgb := Rgb(192, 192, 192)
  const BBlack: Rgb := Rgb(128, 128, 128)
  const BRed: Rgb := Rgb(255, 0, 0)
  const BGreen: Rgb := Rgb(1, 255, 0)
  const BYellow: Rgb := Rgb(254, 255, 0)
  const BBlue: Rgb := Rgb(1, 0, 255)
  const BMagenta: Rgb := Rgb(254, 0, 255)
  const BCyan: Rgb := Rgb(0, 255, 255)
  const BWhite: Rgb := Rgb(255, 255, 255)
  /** The colour the table gives to the reset sequence. */
  const ResetColor: Rgb := Rgb(255, 255, 255)

  /** The reset sequence ESC[0m. */
  const ResetAnsi: string := "\U{1B}[0m"

  /** The supported sequences and their colours, in insertion order. */
  const AnsiColorMap: seq<(string, Rgb)> := [
    ("\U{1B}[30m", DBlack), ("\U{1B}[31m", DRed), ("\U{1B}[32m", DGreen), ("\U{1B}[33m", DYellow),
    ("\U{1B}[34m", DBlue), ("\U{1B}[35m", DMagenta), ("\U{1B}[36m", DCyan), ("\U{1B}[37m", DWhite),
    ("\U{1B}[0;30m", DBlack), ("\U{1B}[0;31m", DRed), ("\U{1B}[0;32m", DGreen), ("\U{1B}[0;33m", DYellow),
    ("\U{1B}[0;34m", DBlue), ("\U{1B}[0;35m", DMagenta), ("\U{1B}[0;36m", DCyan), ("\U{1B}[0;37m", DWhite),
    ("\U{1B}[1;30m", BBlack), ("\U{1B}[1;31m", BRed), ("\U{1B}[1;32m", BGreen), ("\U{1B}[1;33m", BYellow),
    ("\U{1B}[1;34m", BBlue), ("\U{1B}[1;35m", BMagenta), ("\U{1B}[1;36m", BCyan), ("\U{1B}[1;37m", BWhite),
    (ResetAnsi, ResetColor)
  ]

  // ---------------------------------------------------------------------------------------
  // The table, seen structurally

  /** The dim colours in SGR order 30..37. */
  const DimColors: seq<Rgb> := [DBlack, DRed, DGreen, DYellow, DBlue, DMagenta, DCyan, DWhite]
  /** The bright colours in SGR order 30..37. */
  const BrightColors: seq<Rgb> := [BBlack, BRed, BGreen, BYellow, BBlue, BMagenta, BCyan, BWhite]

  /** The decimal digit of a colour index 0..7. */
  function Digit(x: nat): (c: char)
    requires x < 8
    ensures '0' <= c <= '7'
  {
    (('0' as int) + x) as char
  }

  /** ESC[3Xm */
  function DimKey(x: nat): string requires x < 8 { [Esc, '[', '3', Digit(x), 'm'] }
  /** ESC[0;3Xm */
  function DimZeroKey(x: nat): string requires x < 8 { [Esc, '[', '0', ';', '3', Digit(x), 'm'] }
  /** ESC[1;3Xm */
  function BrightKey(x: nat): string requires x < 8 { [Esc, '[', '1', ';', '3', Digit(x), 'm'] }

  /** `key` is a key of the colour table. */
  predicate IsKey(key: string) {
    exists i :: 0 <= i < |AnsiColorMap| && AnsiColorMap[i].0 == key
  }

  /** Map.get on a list of entries: the colour of the first entry with this key. */
  function Lookup(table: seq<(string, Rgb)>, key: string): (r: Option<Rgb>)
    ensures r.None? <==> forall i :: 0 <= i < |table| ==> table[i].0 != key
    ensures r.Some? ==> exists i :: 0 <= i < |table| && table[i] == (key, r.value)
  {
    if table == [] then None
    else if table[0].0 == key then Some(table[0].1)
    else
      var r := Lookup(table[1..], key);
      assert forall i :: 1 <= i < |table| ==> table[i] == table[1..][i - 1];
      r
  }

  /** The exception ansiToColor throws for a sequence the table does not hold. */
  datatype AnsiError = UnsupportedAnsi(sequence: string)

  /** ColorUtil.ansiToColor: the table's colour for a key, IllegalArgumentException otherwise. */
  function AnsiToColor(key: string): (r: Result<Rgb, AnsiError>)
    ensures r.Success? <==> IsKey(key)
    ensures r.Success? ==> (key, r.value) in AnsiColorMap
    ensures r.Failure? ==> r.error == UnsupportedAnsi(key)
  {
    match Lookup(AnsiColorMap, key)
    case Some(c) => Success(c)
    case None => Failure(UnsupportedAnsi(key))
  }

  /** The table has 25 entries and no key occurs twice, so its order is the insertion order. */
  lemma AnsiColorMapKeysDistinct()
    ensures |AnsiColorMap| == 25
    ensures forall i, j :: 0 <= i < j < |AnsiColorMap| ==> AnsiColorMap[i].0 != AnsiColorMap[j].0
  {
    forall i, j | 0 <= i < j < |AnsiColorMap| ensures AnsiColorMap[i].0 != AnsiColorMap[j].0 {
      var a, b := AnsiColorMap[i].0, AnsiColorMap[j].0;
      if |a| == |b| {
        if |a| == 5 { assert a[3] != b[3]; }
        else { assert a[2] != b[2] || a[5] != b[5]; }
      }
    }
  }

  /** Every key of the table is one of the 25 SGR forms, at the place its colour index says. */
  lemma AnsiColorMapLayout()
    ensures forall x :: 0 <= x < 8 ==> AnsiColorMap[x] == (DimKey(x), DimColors[x])
    ensures forall x :: 0 <= x < 8 ==> AnsiColorMap[8 + x] == (DimZeroKey(x), DimColors[x])
    ensures forall x :: 0 <= x < 8 ==> AnsiColorMap[16 + x] == (BrightKey(x), BrightColors[x])
    ensures AnsiColorMap[24] == (ResetAnsi, ResetColor)
  {
  }

  /** ESC[3Xm and ESC[0;3Xm give the same dim colour, ESC[1;3Xm the bright one, ESC[0m the reset colour. */
  lemma {:induction false} AnsiToColorTable(x: nat)
    requires x < 8
    ensures AnsiToColor(DimKey(x)) == Success(DimColors[x])
    ensures AnsiToColor(DimZeroKey(x)) == Success(DimColors[x])
    ensures AnsiToColor(BrightKey(x)) == Success(BrightColors[x])
    ensures AnsiToColor(ResetAnsi) == Success(ResetColor)
  {
    AnsiColorMapLayout();
    AnsiColorMapKeysDistinct();
    LookupDistinct(AnsiColorMap, x);
    LookupDistinct(AnsiColorMap, 8 + x);
    LookupDistinct(AnsiColorMap, 16 + x);
    LookupDistinct(AnsiColorMap, 24);
  }

  /** In a table whose keys are distinct, looking up the key of entry k finds entry k. */
  lemma {:induction false} LookupDistinct(table: seq<(string, Rgb)>, k: nat)
    requires k < |table|
    requires forall i, j :: 0 <= i < j < |table| ==> table[i].0 != table[j].0
    ensures Lookup(table, table[k].0) == Some(table[k].1)
  {
    if k > 0 {
      assert table[0].0 != table[k].0;
      assert table[1..][k - 1] == table[k];
      LookupDistinct(table[1..], k - 1);
    }
  }

  // ---------------------------------------------------------------------------------------
  // getSupportedAnsiColors

  /** The keys of the table in insertion order. */
  function Keys(): (ks: seq<string>)
    ensures |ks| == |AnsiColorMap|
    ensures forall i :: 0 <= i < |ks| ==> ks[i] == AnsiColorMap[i].0
  {
    seq(|AnsiColorMap|, i requires 0 <= i < |AnsiColorMap| => AnsiColorMap[i].0)
  }

  /** ESC spelled as the six characters `\u001B`. */
  const EscapedEsc: string := "\\u001B"

  /** The keys as listed: with the flag set, each ESC is spelled out, so no listed key holds one. */
  function ShownKeys(showUnicodeEscapeSequence: bool): (ks: seq<string>)
    ensures |ks| == |AnsiColorMap|
    ensures !showUnicodeEscapeSequence ==> ks == Keys()
    ensures showUnicodeEscapeSequence ==> forall i :: 0 <= i < |ks| ==> Free(ks[i], Esc)
    ensures showUnicodeEscapeSequence ==>
              forall i :: 0 <= i < |ks| ==> ks[i] == ReplaceChar(Keys()[i], Esc, EscapedEsc)
  {
    var keys := Keys();
    if showUnicodeEscapeSequence then
      var ks := seq(|keys|, i requires 0 <= i < |keys| => ReplaceChar(keys[i], Esc, EscapedEsc));
      forall i | 0 <= i < |keys| ensures Free(ks[i], Esc) {
        ReplaceCharRemoves(keys[i], Esc, EscapedEsc);
      }
      ks
    else keys
  }

  /** ColorUtil.getSupportedAnsiColors: the listed keys in insertion order, joined by `delimiter`. */
  function SupportedAnsiColors(showUnicodeEscapeSequence: bool, delimiter: string): (r: string)
    ensures StartsWith(r, ShownKeys(showUnicodeEscapeSequence)[0] + delimiter)
    ensures !showUnicodeEscapeSequence ==> StartsWith(r, "\U{1B}[30m" + delimiter)
    ensures showUnicodeEscapeSequence ==> StartsWith(r, "\\u001B[30m" + delimiter)
  {
    var ks := ShownKeys(showUnicodeEscapeSequence);
    JoinFront(ks, delimiter);
    assert Keys()[0] == "\U{1B}[30m";
    assert ReplaceChar("\U{1B}[30m", Esc, EscapedEsc) == "\\u001B[30m";
    Join(ks, delimiter)
  }

  /** With the flag set and an ESC-free delimiter, the listing holds no ESC at all. */
  lemma SupportedAnsiColorsReadable(delimiter: string)
    requires Free(delimiter, Esc)
    ensures Free(SupportedAnsiColors(true, delimiter), Esc)
  {
    JoinFree(ShownKeys(true), delimiter, Esc);
  }

  // ---------------------------------------------------------------------------------------
  // hex

  /** The lowercase hexadecimal digit of a value below 16. */
  function HexDigit(d: nat): (c: char)
    requires d < 16
    ensures IsHexDigit(c) && HexValue(c) == d
  {
    "0123456789abcdef"[d]
  }

  /** A character matched by [0-9A-Fa-f]. */
  predicate IsHexDigit(c: char) {
    '0' <= c <= '9' || 'a' <= c <= 'f' || 'A' <= c <= 'F'
  }

  /** The value of a hexadecimal digit (Integer.parseInt with radix 16, one digit). */
  function HexValue(c: char): (v: nat)
    requires IsHexDigit(c)
    ensures v < 16
  {
    if '0' <= c <= '9' then c as int - '0' as int
    else if 'a' <= c <= 'f' then c as int - 'a' as int + 10
    else c as int - 'A' as int + 10
  }

  /** The value of a string of hexadecimal digits. */
  function HexNumber(s: string): nat
    requires forall j :: 0 <= j < |s| ==> IsHexDigit(s[j])
  {
    if s == [] then 0 else 16 * HexNumber(s[..|s| - 1]) + HexValue(s[|s| - 1])
  }

  /** A string of lowercase hexadecimal digits. */
  predicate IsLowerHex(s: string) {
    forall j :: 0 <= j < |s| ==> IsHexDigit(s[j]) && !('A' <= s[j] <= 'F')
  }

  /** The hex digits of n without leading zeros ("0" for zero). */
  function HexString(n: nat): (s: string)
    ensures 1 <= |s| && IsLowerHex(s)
    ensures n < 256 ==> |s| <= 2
  {
    if n < 16 then [HexDigit(n)] else HexString(n / 16) + [HexDigit(n % 16)]
  }

  /** HexString is the base-16 notation of n. */
  lemma {:induction false} HexStringValue(n: nat)
    ensures HexNumber(HexString(n)) == n
  {
    var s := HexString(n);
    if n >= 16 {
      HexStringValue(n / 16);
      assert s[..|s| - 1] == HexString(n / 16);
    }
  }

  /** A leading zero digit does not change the value. */
  lemma {:induction false} LeadingZeroValue(h: string)
    requires IsLowerHex(h)
    ensures IsLowerHex("0" + h) && HexNumber("0" + h) == HexNumber(h)
  {
    if h != [] {
      var z := "0" + h;
      assert z[..|z| - 1] == "0" + h[..|h| - 1];
      LeadingZeroValue(h[..|h| - 1]);
    }
  }

  /** The unsigned 32-bit value `%x` prints for a Java int. */
  function Unsigned(n: Int32): nat {
    if n < 0 then n as int + 0x1_0000_0000 else n as int
  }

  /** `%02x` of a Java int: its unsigned value in lowercase hex, zero-padded to two digits. */
  function Format02x(n: Int32): (s: string)
    ensures 2 <= |s| && IsLowerHex(s)
    ensures 0 <= n < 256 ==> |s| == 2
  {
    var h := HexString(Unsigned(n));
    if |h| == 1 then "0" + h else h
  }

  /** `%02x` prints the unsigned value of its argument. */
  lemma Format02xValue(n: Int32)
    ensures HexNumber(Format02x(n)) == Unsigned(n)
  {
    var h := HexString(Unsigned(n));
    HexStringValue(Unsigned(n));
    if |h| == 1 { LeadingZeroValue(h); }
  }

  /** ColorUtil.hex(int, int, int): "0x" and the three channels, each as `%02x`. */
  function HexOf(red: Int32, green: Int32, blue: Int32): (s: string)
    ensures |s| >= 8 && s[..2] == "0x"
  {
    "0x" + Format02x(red) + Format02x(green) + Format02x(blue)
  }

  /** ColorUtil.hex(Color): the colour's three channels in the format of hex(int, int, int). */
  function Hex(c: Rgb): (s: string)
    ensures |s| == 8
    ensures IsHexAt(s, 0)
    ensures DecodeHexAt(s, 0) == c
  {
    HexRoundTrip(c.r as Int32, c.g as Int32, c.b as Int32);
    HexOf(c.r as Int32, c.g as Int32, c.b as Int32)
  }

  /** `%02x` of a channel is its high and its low hexadecimal digit. */
  lemma Format02xChannel(n: Int32)
    requires 0 <= n < 256
    ensures Format02x(n) == [HexDigit(n as int / 16), HexDigit(n as int % 16)]
  {
    var m := n as int;
    assert Unsigned(n) == m;
    var hi, lo := m / 16, m % 16;
    if m < 16 {
      assert hi == 0 && lo == m;
      calc {
        Format02x(n);
        "0" + HexString(m);
        "0" + [HexDigit(m)];
        [HexDigit(hi), HexDigit(lo)];
      }
    } else {
      assert hi < 16;
      calc {
        Format02x(n);
        HexString(m);
        HexString(hi) + [HexDigit(lo)];
        [HexDigit(hi)] + [HexDigit(lo)];
      }
    }
  }

  /** The text at i starts with a directive matched by 0x[0-9A-Fa-f]{6}. */
  predicate IsHexAt(s: string, i: nat) {
    i + 8 <= |s| && s[i] == '0' && s[i + 1] == 'x' &&
    IsHexDigit(s[i + 2]) && IsHexDigit(s[i + 3]) && IsHexDigit(s[i + 4]) &&
    IsHexDigit(s[i + 5]) && IsHexDigit(s[i + 6]) && IsHexDigit(s[i + 7])
  }

  /** Color.decode of the directive at i: one channel per pair of digits. */
  function DecodeHexAt(s: string, i: nat): Rgb
    requires IsHexAt(s, i)
  {
    Rgb(16 * HexValue(s[i + 2]) + HexValue(s[i + 3]),
        16 * HexValue(s[i + 4]) + HexValue(s[i + 5]),
        16 * HexValue(s[i + 6]) + HexValue(s[i + 7]))
  }

  /** hex(r, g, b) of three channels is the 8-character directive that decodes back to them. */
  lemma HexRoundTrip(red: Int32, green: Int32, blue: Int32)
    requires 0 <= red < 256 && 0 <= green < 256 && 0 <= blue < 256
    ensures |HexOf(red, green, blue)| == 8 && IsHexAt(HexOf(red, green, blue), 0)
    ensures forall j :: 2 <= j < 8 ==> !('A' <= HexOf(red, green, blue)[j] <= 'F')
    ensures DecodeHexAt(HexOf(red, green, blue), 0) == Rgb(red as int, green as int, blue as int)
  {
    var fr, fg, fb := Format02x(red), Format02x(green), Format02x(blue);
    Format02xChannel(red);
    Format02xChannel(green);
    Format02xChannel(blue);
    var s := HexOf(red, green, blue);
    assert s == "0x" + fr + fg + fb;
  }

  // ---------------------------------------------------------------------------------------
  // colorToANSI

  /** Entry i of the table is at least as close to `color` as every entry. */
  predicate IsNearest(color: Rgb, distance: (Rgb, Rgb) -> real, i: nat)
    requires i < |AnsiColorMap|
  {
    forall j :: 0 <= j < |AnsiColorMap| ==> distance(color, AnsiColorMap[i].1) <= distance(color, AnsiColorMap[j].1)
  }

  /**
   * ColorUtil.colorToANSI, with colorDistance as a parameter: starting from ESC[34m, keep the
   * first entry strictly closer than the best so far. Whatever the distance, the answer is a key
   * of the table and its colour is at least as close as every entry's.
   */
  method ColorToAnsi(color: Rgb, distance: (Rgb, Rgb) -> real) returns (key: string)
    ensures IsKey(key)
    ensures exists i :: 0 <= i < |AnsiColorMap| && AnsiColorMap[i].0 == key && IsNearest(color, distance, i)
  {
    var closest := DBlue;
    key := "\U{1B}[34m";
    ghost var at := 4;
    for i := 0 to |AnsiColorMap|
      invariant 0 <= at < |AnsiColorMap| && AnsiColorMap[at] == (key, closest)
      invariant forall j :: 0 <= j < i ==> distance(color, closest) <= distance(color, AnsiColorMap[j].1)
    {
      if distance(color, AnsiColorMap[i].1) < distance(color, closest) {
        closest := AnsiColorMap[i].1;
        key := AnsiColorMap[i].0;
        at := i;
      }
    }
  }

  // ---------------------------------------------------------------------------------------
  // replaceAllAnsiWithHex

  /** A character `.` matches: anything but the five Java line terminators. */
  predicate IsDotChar(c: char) {
    c != '\n' && c != '\r' && c != '\U{85}' && c != '\U{2028}' && c != '\U{2029}'
  }

  /** ESC\[.{k}m matches at position i. */
  predicate MatchesWith(s: string, i: nat, k: nat) {
    i + k + 3 <= |s| && s[i] == Esc && s[i + 1] == '[' &&
    (forall j :: i + 2 <= j < i + 2 + k ==> IsDotChar(s[j])) && s[i + 2 + k] == 'm'
  }

  /** Length of the match of ESC\[.{1,4}m at i: the greedy quantifier tries 4, 3, 2, then 1. */
  function MatchLen(s: string, i: nat): (r: Option<nat>)
    ensures r.Some? ==> 4 <= r.value <= 7 && i + r.value <= |s|
  {
    if MatchesWith(s, i, 4) then Some(7)
    else if MatchesWith(s, i, 3) then Some(6)
    else if MatchesWith(s, i, 2) then Some(5)
    else if MatchesWith(s, i, 1) then Some(4)
    else None
  }

  /**
   * MatchLen is the greedy match: a match of ESC\[.{k}m with k in 1..4, the longest one there is,
   * and None exactly when no such k matches.
   */
  lemma MatchLenIsGreedy(s: string, i: nat)
    ensures MatchLen(s, i).Some? ==> MatchesWith(s, i, MatchLen(s, i).value - 3)
    ensures MatchLen(s, i).Some? ==> forall k :: MatchLen(s, i).value - 3 < k <= 4 ==> !MatchesWith(s, i, k)
    ensures MatchLen(s, i).None? <==> forall k :: 1 <= k <= 4 ==> !MatchesWith(s, i, k)
  {
  }

  /**
   * What a matched sequence becomes: the hex of its colour when supported (the reset
   * sequence taking `resetColor` in the two-argument form), nothing otherwise.
   */
  function Replacement(ansi: string, resetColor: Option<Rgb>): string {
    match AnsiToColor(ansi)
    case Failure(_) => []
    case Success(c) =>
      if resetColor.Some? && ansi == ResetAnsi then Hex(resetColor.value) else Hex(c)
  }

  /**
   * The rewrite of s[i..]: the leftmost match, then the next one after its end, and so on, each
   * replaced by `replace`; the text between matches is copied.
   */
  function RewriteFrom(s: string, i: nat, replace: string -> string): string
    decreases |s| - i
  {
    if i >= |s| then []
    else match MatchLen(s, i)
      case Some(n) => replace(s[i..i + n]) + RewriteFrom(s, i + n, replace)
      case None => [s[i]] + RewriteFrom(s, i + 1, replace)
  }

  /** The replacement rule as a function of the matched sequence. */
  function Replacer(resetColor: Option<Rgb>): string -> string {
    ansi => Replacement(ansi, resetColor)
  }

  /** The rewrite replaceAllAnsiWithHex performs; `resetColor` is None in the one-argument form. */
  function AnsiToHex(s: string, resetColor: Option<Rgb>): string {
    RewriteFrom(s, 0, Replacer(resetColor))
  }

  /** Where no match starts, the rewrite copies one character. */
  lemma RewriteFromCopyStep(s: string, a: nat, replace: string -> string)
    requires a < |s| && MatchLen(s, a).None?
    ensures RewriteFrom(s, a, replace) == [s[a]] + RewriteFrom(s, a + 1, replace)
  {
  }

  /** Where a match starts, the rewrite replaces it. */
  lemma RewriteFromMatchStep(s: string, a: nat, replace: string -> string)
    requires a < |s| && MatchLen(s, a).Some?
    ensures a + MatchLen(s, a).value <= |s|
    ensures RewriteFrom(s, a, replace) ==
      replace(s[a..a + MatchLen(s, a).value]) + RewriteFrom(s, a + MatchLen(s, a).value, replace)
  {
  }

  /** With no match starting anywhere in [a, b), the rewrite copies s[a..b] verbatim. */
  lemma {:induction false} RewriteFromCopies(s: string, a: nat, b: nat, replace: string -> string)
    requires a <= b <= |s|
    requires forall j :: a <= j < b ==> MatchLen(s, j).None?
    ensures RewriteFrom(s, a, replace) == s[a..b] + RewriteFrom(s, b, replace)
    decreases b - a
  {
    if a < b {
      calc {
        RewriteFrom(s, a, replace);
        { RewriteFromCopyStep(s, a, replace); }
        [s[a]] + RewriteFrom(s, a + 1, replace);
        { RewriteFromCopies(s, a + 1, b, replace); }
        [s[a]] + (s[a + 1..b] + RewriteFrom(s, b, replace));
        { assert [s[a]] + s[a + 1..b] == s[a..b]; }
        s[a..b] + RewriteFrom(s, b, replace);
      }
    }
  }

  /** `at` is where Matcher.find, started at `from`, stops: the first match at or after `from`, or |s|. */
  predicate IsNextMatch(s: string, from: nat, at: nat) {
    from <= at <= |s| &&
    (forall j :: from <= j < at ==> MatchLen(s, j).None?) &&
    (at < |s| ==> MatchLen(s, at).Some?)
  }

  /** Matcher.find from `from`: the first position at or after it where a match starts, or |s|. */
  method Find(s: string, from: nat) returns (at: nat)
    requires from <= |s|
    ensures IsNextMatch(s, from, at)
  {
    at := from;
    while at < |s| && MatchLen(s, at).None?
      invariant from <= at <= |s|
      invariant forall j :: from <= j < at ==> MatchLen(s, j).None?
    {
      at := at + 1;
    }
  }

  /** From the end of the last match, the rewrite copies up to the next match, then replaces it. */
  lemma RewriteFromNextMatch(s: string, start: nat, at: nat, replace: string -> string)
    requires IsNextMatch(s, start, at) && at < |s|
    ensures at + MatchLen(s, at).value <= |s|
    ensures RewriteFrom(s, start, replace) ==
      s[start..at] + replace(s[at..at + MatchLen(s, at).value]) + RewriteFrom(s, at + MatchLen(s, at).value, replace)
  {
    RewriteFromCopies(s, start, at, replace);
    RewriteFromMatchStep(s, at, replace);
  }

  /** Past the last match, the rewrite copies the rest of the text. */
  lemma RewriteFromTail(s: string, start: nat, replace: string -> string)
    requires IsNextMatch(s, start, |s|)
    ensures RewriteFrom(s, start, replace) == s[start..]
  {
    RewriteFromCopies(s, start, |s|, replace);
  }

  /** Regrouping four concatenated strings. */
  lemma AppendAssoc(a: string, b: string, c: string, d: string)
    ensures a + (b + c + d) == a + b + c + d
  {
  }

  /** `sb` holds what the rewrite makes of s[..start], `start` being where a match ended. */
  predicate RewrittenUpTo(s: string, sb: string, start: nat, replace: string -> string) {
    sb + RewriteFrom(s, start, replace) == RewriteFrom(s, 0, replace)
  }

  /**
   * One round of the appendReplacement loop: copying up to the next match and appending its
   * replacement moves the rewritten prefix to the end of that match.
   */
  lemma RewriteFromAdvance(s: string, start: nat, at: nat, n: nat, sb: string, replace: string -> string)
    requires IsNextMatch(s, start, at) && at < |s| && MatchLen(s, at) == Some(n)
    requires RewrittenUpTo(s, sb, start, replace)
    ensures at + n <= |s|
    ensures RewrittenUpTo(s, sb + s[start..at] + replace(s[at..at + n]), at + n, replace)
  {
    RewriteFromNextMatch(s, start, at, replace);
    AppendAssoc(sb, s[start..at], replace(s[at..at + n]), RewriteFrom(s, at + n, replace));
  }

  /** After the last match, appending the rest of the text completes the rewrite. */
  lemma RewriteFromFinish(s: string, start: nat, sb: string, replace: string -> string)
    requires IsNextMatch(s, start, |s|) && RewrittenUpTo(s, sb, start, replace)
    ensures (if |s| > start then sb + s[start..] else sb) == RewriteFrom(s, 0, replace)
  {
    RewriteFromTail(s, start, replace);
    if |s| <= start {
      assert sb + [] == sb;
    }
  }

  /**
   * The matcher loop of replaceAllAnsiWithHex: `find` the next match from the end of the last
   * one, copy the text before it, then append the replacement. `resetColor` is None for the
   * one-argument form.
   */
  method ReplaceAll(s: string, replace: string -> string) returns (r: string)
    ensures r == RewriteFrom(s, 0, replace)
  {
    var sb := "";
    var start: nat := 0;
    var at := Find(s, 0);
    while at < |s|
      invariant IsNextMatch(s, start, at)
      invariant RewrittenUpTo(s, sb, start, replace)
      decreases |s| - at
    {
      var n := MatchLen(s, at).value;
      RewriteFromAdvance(s, start, at, n, sb, replace);
      sb := sb + s[start..at] + replace(s[at..at + n]);
      start := at + n;
      at := Find(s, start);
    }
    RewriteFromFinish(s, start, sb, replace);
    if |s| > start {
      sb := sb + s[start..];
    }
    r := sb;
  }

  /** ColorUtil.replaceAllAnsiWithHex(s). */
  method ReplaceAllAnsiWithHex(s: string) returns (r: string)
    ensures r == AnsiToHex(s, None)
  {
    r := ReplaceAll(s, Replacer(None));
  }

  /** ColorUtil.replaceAllAnsiWithHex(s, resetColor). */
  method ReplaceAllAnsiWithHexReset(s: string, resetColor: Rgb) returns (r: string)
    ensures r == AnsiToHex(s, Some(resetColor))
  {
    r := ReplaceAll(s, Replacer(Some(resetColor)));
  }

  /** A string without ESC has no match, so both forms return it unchanged. */
  lemma NoEscUnchanged(s: string, resetColor: Option<Rgb>)
    requires Free(s, Esc)
    ensures AnsiToHex(s, resetColor) == s
  {
    RewriteFromCopies(s, 0, |s|, Replacer(resetColor));
  }

  /** Two replacements that agree on every matched sequence give the same rewrite. */
  lemma {:induction false} RewriteFromAgree(s: string, i: nat, f: string -> string, g: string -> string)
    requires forall a :: f(a) == g(a)
    ensures RewriteFrom(s, i, f) == RewriteFrom(s, i, g)
    decreases |s| - i
  {
    if i < |s| {
      match MatchLen(s, i)
      case Some(n) => RewriteFromAgree(s, i + n, f, g);
      case None => RewriteFromAgree(s, i + 1, f, g);
    }
  }

  /** The one-argument form is the two-argument form with the table's own reset colour. */
  lemma OneArgIsResetWhite(s: string)
    ensures AnsiToHex(s, None) == AnsiToHex(s, Some(ResetColor))
  {
    forall a ensures Replacer(None)(a) == Replacer(Some(ResetColor))(a) {
      if a == ResetAnsi { AnsiToColorTable(0); }
    }
    RewriteFromAgree(s, 0, Replacer(None), Replacer(Some(ResetColor)));
  }

  /** A supported sequence becomes its colour's hex, ESC[0m the reset colour's hex, anything else nothing. */
  lemma ReplacementCases(ansi: string, resetColor: Rgb)
    ensures !IsKey(ansi) ==> Replacement(ansi, Some(resetColor)) == []
    ensures ansi == ResetAnsi ==> Replacement(ansi, Some(resetColor)) == Hex(resetColor)
    ensures IsKey(ansi) && ansi != ResetAnsi ==>
      exists c :: (ansi, c) in AnsiColorMap && Replacement(ansi, Some(resetColor)) == Hex(c)
  {
    if ansi == ResetAnsi { AnsiToColorTable(0); }
  }

  /** Past a prefix whose matches are done, an ESC-free text is copied. */
  lemma RewriteFromEscFreeTail(s: string, at: nat, replace: string -> string)
    requires at <= |s| && Free(s[at..], Esc)
    ensures RewriteFrom(s, at, replace) == s[at..]
  {
    forall j | at <= j < |s| ensures MatchLen(s, j).None? {
      assert s[j] == s[at..][j - at];
    }
    RewriteFromCopies(s, at, |s|, replace);
  }

  /** ESC[3Xm is matched alone when neither of the next two characters is an `m`. */
  lemma DimKeyMatch(x: nat, t: string)
    requires x < 8
    requires |t| > 0 ==> t[0] != 'm'
    requires |t| > 1 ==> t[1] != 'm'
    ensures MatchLen(DimKey(x) + t, 0) == Some(5)
  {
    var s := DimKey(x) + t;
    assert !MatchesWith(s, 0, 4) && !MatchesWith(s, 0, 3) && MatchesWith(s, 0, 2);
  }

  /**
   * A dim colour sequence followed by ESC-free text becomes the colour's hex directive, provided
   * neither of the next two characters is an `m` the greedy `.{1,4}m` could reach instead.
   */
  lemma DimKeyThenText(x: nat, t: string)
    requires x < 8 && Free(t, Esc)
    requires |t| > 0 ==> t[0] != 'm'
    requires |t| > 1 ==> t[1] != 'm'
    ensures AnsiToHex(DimKey(x) + t, None) == Hex(DimColors[x]) + t
  {
    var s := DimKey(x) + t;
    var replace := Replacer(None);
    DimKeyMatch(x, t);
    RewriteFromMatchStep(s, 0, replace);
    assert s[0..5] == DimKey(x);
    AnsiToColorTable(x);
    assert s[5..] == t;
    RewriteFromEscFreeTail(s, 5, replace);
  }

  /** The 7-character keys are the ones with an intensity prefix, 0 or 1. */
  lemma SevenCharKeys()
    ensures forall i :: 0 <= i < |AnsiColorMap| && |AnsiColorMap[i].0| == 7 ==>
      AnsiColorMap[i].0[2] == '0' || AnsiColorMap[i].0[2] == '1'
  {
    AnsiColorMapLayout();
  }

  /**
   * The greedy `.{1,4}` reaches past the first `m`: ESC[3Xm followed by one character and an `m`
   * is a single 7-character match, which is no key, so it is removed together with those two
   * characters (the rewrite of "ESC[31mam" is empty).
   */
  lemma DimKeySwallowsTwo(x: nat, c: char, t: string)
    requires x < 8 && IsDotChar(c) && Free(t, Esc)
    ensures AnsiToHex(DimKey(x) + [c, 'm'] + t, None) == t
  {
    var s := DimKey(x) + [c, 'm'] + t;
    var replace := Replacer(None);
    SevenCharNoKey(x, c, t);
    RewriteFromMatchStep(s, 0, replace);
    assert s[7..] == t;
    RewriteFromEscFreeTail(s, 7, replace);
    assert RewriteFrom(s, 0, replace) == [] + RewriteFrom(s, 7, replace);
  }

  /** ESC[3Xm, a character and an `m` are one match of 7 characters, and it is no key. */
  lemma SevenCharNoKey(x: nat, c: char, t: string)
    requires x < 8 && IsDotChar(c)
    ensures MatchLen(DimKey(x) + [c, 'm'] + t, 0) == Some(7)
    ensures Replacement((DimKey(x) + [c, 'm'] + t)[0..7], None) == []
  {
    var s := DimKey(x) + [c, 'm'] + t;
    assert MatchesWith(s, 0, 4);
    var ansi := s[0..7];
    assert |ansi| == 7 && ansi[2] == '3';
    SevenCharKeys();
    assert AnsiToColor(ansi).Failure?;
  }
}
