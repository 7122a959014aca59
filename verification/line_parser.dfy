/**
 * The console's command-line tokeniser (parseLine).
 *
 * A `"` ends the token being built, if any, and toggles quoting; outside quotes a space ends the
 * token being built, if any; every other character, and a space inside quotes, joins the token.
 * Whatever is being built at the end of the line is added trimmed, even when it is empty.
 */
module LineParser {
  import opened Text

  /**
   * The tokens the rest `s` of a line yields, quoting being `inQuotes` and `current` the token
   * built so far.
   */
  function Split(s: string, inQuotes: bool, current: string): seq<string>
    decreases |s|
  {
    if s == [] then [Trim(current)]
    else
      var c := s[0];
      if c == '"' then
        if |current| > 0 then [current] + Split(s[1..], !inQuotes, "") else Split(s[1..], !inQuotes, "")
      else if inQuotes then Split(s[1..], inQuotes, current + [c])
      else if c == ' ' then
        if |current| > 0 then [current] + Split(s[1..], inQuotes, "") else Split(s[1..], inQuotes, "")
      else Split(s[1..], inQuotes, current + [c])
  }

  /** The tokens of a whole line. */
  function Tokens(line: string): seq<string> {
    Split(line, false, "")
  }

  /** The characters of `s` that end up in tokens: all but the quotes and the spaces outside quotes. */
  function Kept(s: string, inQuotes: bool): string
    decreases |s|
  {
    if s == [] then []
    else if s[0] == '"' then Kept(s[1..], !inQuotes)
    else if !inQuotes && s[0] == ' ' then Kept(s[1..], inQuotes)
    else [s[0]] + Kept(s[1..], inQuotes)
  }

  /**
   * parseLine(line): the loop over the characters of the line, building `args` and `current`;
   * the result is the line's tokens.
   */
  method ParseLine(line: string) returns (args: seq<string>)
    ensures args == Tokens(line)
  {
    args := [];
    var current := "";
    var inQuotes := false;
    for i := 0 to |line|
      invariant Tokens(line) == args + Split(line[i..], inQuotes, current)
    {
      var c := line[i];
      assert line[i..][0] == c && line[i..][1..] == line[i + 1..];
      if c == '"' {
        if |current| > 0 {
          args := args + [current];
          current := "";
        }
        inQuotes := !inQuotes;
      } else if inQuotes {
        current := current + [c];
      } else if c == ' ' {
        if |current| > 0 {
          args := args + [current];
          current := "";
        }
      } else {
        current := current + [c];
      }
    }
    assert line[|line|..] == [];
    args := args + [Trim(current)];
  }

  /**
   * Shape of the result: at least one token; every token but the last is non-empty; no token
   * holds a `"` when the token being built held none.
   */
  lemma {:induction false} SplitShape(s: string, inQuotes: bool, current: string)
    requires Free(current, '"')
    ensures |Split(s, inQuotes, current)| >= 1
    ensures var r := Split(s, inQuotes, current); forall i :: 0 <= i < |r| - 1 ==> r[i] != []
    ensures var r := Split(s, inQuotes, current); forall i :: 0 <= i < |r| ==> Free(r[i], '"')
    decreases |s|
  {
    if s == [] {
      var t := Trim(current);
      assert t == current[LeadingBlanks(current)..LeadingBlanks(current) + |t|];
    } else if s[0] == '"' {
      SplitShape(s[1..], !inQuotes, "");
    } else if inQuotes || s[0] != ' ' {
      SplitShape(s[1..], inQuotes, current + [s[0]]);
    } else {
      SplitShape(s[1..], inQuotes, "");
    }
  }

  /** The tokens of any line: at least one, all but the last non-empty, none holding a quote. */
  lemma TokensShape(line: string)
    ensures |Tokens(line)| >= 1
    ensures forall i :: 0 <= i < |Tokens(line)| - 1 ==> Tokens(line)[i] != []
    ensures forall i :: 0 <= i < |Tokens(line)| ==> Free(Tokens(line)[i], '"')
  {
    SplitShape(line, false, "");
  }

  /** Concatenating a list that starts with `x`. */
  lemma {:induction false} ConcatCons(x: string, parts: seq<string>)
    ensures Concat([x] + parts) == x + Concat(parts)
    decreases |parts|
  {
    if parts != [] {
      var n := |parts|;
      assert ([x] + parts)[..n] == [x] + parts[..n - 1];
      ConcatCons(x, parts[..n - 1]);
    } else {
      assert Concat([x]) == Concat([]) + x;
    }
  }

  /**
   * The tokens before the last, laid end to end, are a prefix of the kept characters, and the
   * last token is the rest of them, trimmed: no character is lost or reordered apart from the
   * blanks trimmed off the last token.
   */
  predicate KeepsCharacters(r: seq<string>, kept: string) {
    |r| >= 1 &&
    var front := Concat(r[..|r| - 1]);
    |front| <= |kept| && front == kept[..|front|] && r[|r| - 1] == Trim(kept[|front|..])
  }

  /** A token flushed in front keeps its characters in front. */
  lemma KeepsCons(current: string, rest: seq<string>, kept: string)
    requires KeepsCharacters(rest, kept)
    ensures KeepsCharacters([current] + rest, current + kept)
  {
    var r := [current] + rest;
    var front := Concat(rest[..|rest| - 1]);
    assert r[..|r| - 1] == [current] + rest[..|rest| - 1];
    ConcatCons(current, rest[..|rest| - 1]);
    assert (current + kept)[..|current| + |front|] == current + kept[..|front|];
    assert (current + kept)[|current| + |front|..] == kept[|front|..];
  }

  /** Splitting keeps the characters that were being built followed by the kept ones of the rest. */
  lemma {:induction false} SplitKeeps(s: string, inQuotes: bool, current: string)
    ensures KeepsCharacters(Split(s, inQuotes, current), current + Kept(s, inQuotes))
    decreases |s|
  {
    if s == [] {
      assert current + Kept(s, inQuotes) == current;
      assert Split(s, inQuotes, current)[..0] == [];
    } else if s[0] == '"' || (!inQuotes && s[0] == ' ') {
      SplitKeepsAtSeparator(s, inQuotes, current);
    } else {
      SplitKeeps(s[1..], inQuotes, current + [s[0]]);
      assert current + Kept(s, inQuotes) == (current + [s[0]]) + Kept(s[1..], inQuotes);
    }
  }

  /** The case of SplitKeeps where the first character ends the token being built. */
  lemma {:induction false} SplitKeepsAtSeparator(s: string, inQuotes: bool, current: string)
    requires s != [] && (s[0] == '"' || (!inQuotes && s[0] == ' '))
    ensures KeepsCharacters(Split(s, inQuotes, current), current + Kept(s, inQuotes))
    decreases |s|, 0
  {
    var q := if s[0] == '"' then !inQuotes else inQuotes;
    SplitKeeps(s[1..], q, "");
    assert Kept(s, inQuotes) == Kept(s[1..], q);
    assert "" + Kept(s[1..], q) == Kept(s[1..], q);
    if |current| > 0 {
      assert Split(s, inQuotes, current) == [current] + Split(s[1..], q, "");
      KeepsCons(current, Split(s[1..], q, ""), Kept(s[1..], q));
    } else {
      assert current + Kept(s, inQuotes) == Kept(s[1..], q);
    }
  }

  /** The tokens of a line keep exactly its kept characters, in order, up to the last token's trim. */
  lemma TokensKeepCharacters(line: string)
    ensures KeepsCharacters(Tokens(line), Kept(line, false))
  {
    SplitKeeps(line, false, "");
    assert "" + Kept(line, false) == Kept(line, false);
  }

  /** A quoted phrase is one token with its space, and the empty remainder is still added. */
  lemma QuotedPhrase()
    ensures Tokens("\"a b\"") == ["a b", ""]
  {
    calc {
      Tokens("\"a b\"");
      { assert "\"a b\""[1..] == "a b\""; }
      Split("a b\"", true, "");
      { assert "a b\""[1..] == " b\"" && "" + "a" == "a"; }
      Split(" b\"", true, "a");
      { assert " b\""[1..] == "b\"" && "a" + " " == "a "; }
      Split("b\"", true, "a ");
      { assert "b\""[1..] == "\"" && "a " + "b" == "a b"; }
      Split("\"", true, "a b");
      { assert "\""[1..] == ""; }
      ["a b"] + Split("", false, "");
      { assert Trim("") == ""; }
      ["a b", ""];
    }
  }

  /** Spaces outside quotes separate words, and a trailing space leaves an empty last token. */
  lemma PlainWords()
    ensures Tokens("a b ") == ["a", "b", ""]
  {
    calc {
      Tokens("a b ");
      { assert "a b "[1..] == " b " && "" + "a" == "a"; }
      Split(" b ", false, "a");
      { assert " b "[1..] == "b "; }
      ["a"] + Split("b ", false, "");
      { assert "b "[1..] == " " && "" + "b" == "b"; }
      ["a"] + Split(" ", false, "b");
      { assert " "[1..] == ""; }
      ["a"] + (["b"] + Split("", false, ""));
      { assert Trim("") == ""; }
      ["a", "b", ""];
    }
  }
}
