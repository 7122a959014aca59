/** String helpers with the semantics of the java.lang.String methods the console relies on. */
module Text {
  import opened Wrappers

  /** The ANSI escape character U+001B. */
  const Esc: char := '\U{1B}'

  /** String.indexOf(ch, from): the first index at or after `from` holding `ch`. */
  function IndexOf(s: string, ch: char, from: nat): (r: Option<nat>)
    decreases |s| - from
    ensures r.Some? ==> from <= r.value < |s| && s[r.value] == ch
    ensures r.Some? ==> forall j :: from <= j < r.value ==> s[j] != ch
    ensures r.None? ==> forall j :: from <= j < |s| ==> s[j] != ch
  {
    if from >= |s| then None
    else if s[from] == ch then Some(from)
    else IndexOf(s, ch, from + 1)
  }

  /** `ch` does not occur in `s`. */
  predicate Free(s: string, ch: char) {
    forall j :: 0 <= j < |s| ==> s[j] != ch
  }

  /** String.trim() treats every char at or below U+0020 as removable whitespace. */
  predicate IsTrimmable(c: char) { c <= ' ' }

  /** How many trimmable chars lead `s`. */
  function LeadingBlanks(s: string): (n: nat)
    ensures n <= |s|
    ensures forall j :: 0 <= j < n ==> IsTrimmable(s[j])
    ensures n == |s| || !IsTrimmable(s[n])
  {
    if s == [] || !IsTrimmable(s[0]) then 0 else 1 + LeadingBlanks(s[1..])
  }

  /** How many trimmable chars end `s`. */
  function TrailingBlanks(s: string): (n: nat)
    ensures n <= |s|
    ensures forall j :: |s| - n <= j < |s| ==> IsTrimmable(s[j])
    ensures n == |s| || !IsTrimmable(s[|s| - 1 - n])
  {
    if s == [] || !IsTrimmable(s[|s| - 1]) then 0 else 1 + TrailingBlanks(s[..|s| - 1])
  }

  /** String.trim(): the input without its leading and trailing whitespace. */
  function Trim(s: string): (r: string)
    ensures |r| <= |s|
    ensures r == [] || (!IsTrimmable(r[0]) && !IsTrimmable(r[|r| - 1]))
    ensures LeadingBlanks(s) + |r| <= |s|
    ensures r == s[LeadingBlanks(s)..LeadingBlanks(s) + |r|]
    ensures forall j :: LeadingBlanks(s) + |r| <= j < |s| ==> IsTrimmable(s[j])
  {
    var i := LeadingBlanks(s);
    var t := s[i..];
    var k := |t| - TrailingBlanks(t);
    assert t[..k] == s[i..i + k];
    assert forall j :: i + k <= j < |s| ==> s[j] == t[j - i];
    t[..k]
  }

  /** Only blanks are dropped: a string holding a non-blank char trims to a non-empty one. */
  lemma TrimKeepsNonBlank(s: string, j: nat)
    requires j < |s| && !IsTrimmable(s[j])
    ensures Trim(s) != []
    ensures LeadingBlanks(s) <= j < LeadingBlanks(s) + |Trim(s)|
  {
  }

  /** Trimming twice is trimming once. */
  lemma TrimIdempotent(s: string)
    ensures Trim(Trim(s)) == Trim(s)
  {
    var t := Trim(s);
    if t != [] {
      assert LeadingBlanks(t) == 0;
      assert TrailingBlanks(t[0..]) == 0;
    }
  }

  /** Character.toLowerCase restricted to ASCII letters (the model does no locale folding). */
  function ToLowerChar(c: char): (r: char)
    ensures 'A' <= c <= 'Z' ==> 'a' <= r <= 'z'
    ensures !('A' <= c <= 'Z') ==> r == c
  {
    if 'A' <= c <= 'Z' then (c as int + 32) as char else c
  }

  /** String.toLowerCase with ASCII folding: same length, each char folded. */
  function ToLower(s: string): (r: string)
    ensures |r| == |s|
    ensures forall j :: 0 <= j < |s| ==> r[j] == ToLowerChar(s[j])
  {
    seq(|s|, j requires 0 <= j < |s| => ToLowerChar(s[j]))
  }

  /** String.startsWith. */
  predicate StartsWith(s: string, prefix: string) {
    |prefix| <= |s| && s[..|prefix|] == prefix
  }

  /** Concatenation of a list of strings. */
  function Concat(parts: seq<string>): string {
    if parts == [] then [] else Concat(parts[..|parts| - 1]) + parts[|parts| - 1]
  }

  /** String.join(delimiter, parts). */
  function Join(parts: seq<string>, delimiter: string): string {
    if parts == [] then []
    else if |parts| == 1 then parts[0]
    else Join(parts[..|parts| - 1], delimiter) + delimiter + parts[|parts| - 1]
  }

  /** Join of two or more parts opens with the first part and the delimiter. */
  lemma {:induction false} JoinFront(parts: seq<string>, delimiter: string)
    requires |parts| > 1
    ensures StartsWith(Join(parts, delimiter), parts[0] + delimiter)
  {
    var init := parts[..|parts| - 1];
    var p := parts[0] + delimiter;
    if |parts| > 2 {
      JoinFront(init, delimiter);
      var a := Join(init, delimiter);
      assert init[0] == parts[0];
      assert (a + delimiter + parts[|parts| - 1])[..|p|] == a[..|p|];
    } else {
      assert init == [parts[0]];
      assert Join(parts, delimiter) == p + parts[1];
      assert (p + parts[1])[..|p|] == p;
    }
  }

  /** String.replace(target char, replacement string). */
  function ReplaceChar(s: string, target: char, replacement: string): string {
    if s == [] then []
    else (if s[0] == target then replacement else [s[0]]) + ReplaceChar(s[1..], target, replacement)
  }

  /** After replacing `target` by a replacement free of it, `target` no longer occurs. */
  lemma {:induction false} ReplaceCharRemoves(s: string, target: char, replacement: string)
    requires Free(replacement, target)
    ensures Free(ReplaceChar(s, target, replacement), target)
  {
    if s != [] {
      ReplaceCharRemoves(s[1..], target, replacement);
      var head := if s[0] == target then replacement else [s[0]];
      var tail := ReplaceChar(s[1..], target, replacement);
      assert ReplaceChar(s, target, replacement) == head + tail;
      forall j | 0 <= j < |head + tail| ensures (head + tail)[j] != target {
        if j < |head| { assert (head + tail)[j] == head[j]; }
        else { assert (head + tail)[j] == tail[j - |head|]; }
      }
    }
  }

  /** Join(parts) is free of `ch` when all parts and the delimiter are. */
  lemma {:induction false} JoinFree(parts: seq<string>, delimiter: string, ch: char)
    requires Free(delimiter, ch)
    requires forall i :: 0 <= i < |parts| ==> Free(parts[i], ch)
    ensures Free(Join(parts, delimiter), ch)
  {
    if |parts| > 1 {
      JoinFree(parts[..|parts| - 1], delimiter, ch);
      var a := Join(parts[..|parts| - 1], delimiter);
      var b := parts[|parts| - 1];
      assert Join(parts, delimiter) == a + delimiter + b;
      forall j | 0 <= j < |a + delimiter + b| ensures (a + delimiter + b)[j] != ch {
        if j < |a| { assert (a + delimiter + b)[j] == a[j]; }
        else if j < |a| + |delimiter| { assert (a + delimiter + b)[j] == delimiter[j - |a|]; }
        else { assert (a + delimiter + b)[j] == b[j - |a| - |delimiter|]; }
      }
    }
  }
}
