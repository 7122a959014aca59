/**
 * Tab completion over a fixed list of terms (DefaultCompletionSource).
 *
 * A term completes an input when, both folded to lower case, the term starts with the input.
 * The completions are the completing terms in the order of the list, duplicates kept.
 */
module Completion {
  import opened Text

  /** term.toLowerCase().startsWith(input.toLowerCase()). */
  predicate Completes(term: string, input: string) {
    StartsWith(ToLower(term), ToLower(input))
  }

  /** The completing terms of `terms`, in their order. */
  function Completions(terms: seq<string>, input: string): seq<string> {
    if terms == [] then []
    else
      var before := Completions(terms[..|terms| - 1], input);
      if Completes(terms[|terms| - 1], input) then before + [terms[|terms| - 1]] else before
  }

  class DefaultCompletionSource {
    const terms: seq<string>

    /** Both constructors keep the given list as it is, neither sorted nor copied. */
    constructor (terms: seq<string>)
      ensures this.terms == terms
    {
      this.terms := terms;
    }

    /** doCompletion(input): the loop over the terms collecting the completing ones. */
    method DoCompletion(input: string) returns (matches: seq<string>)
      ensures matches == Completions(terms, input)
    {
      matches := [];
      for i := 0 to |terms|
        invariant matches == Completions(terms[..i], input)
      {
        assert terms[..i + 1][..i] == terms[..i];
        if StartsWith(ToLower(terms[i]), ToLower(input)) {
          matches := matches + [terms[i]];
        }
      }
      assert terms[..|terms|] == terms;
    }
  }

  /**
   * `idx` lists, in increasing order, positions of `terms`, and `matches` holds the terms at
   * those positions.
   */
  predicate Picks(matches: seq<string>, terms: seq<string>, idx: seq<nat>) {
    && |idx| == |matches|
    && (forall k :: 0 <= k < |idx| ==> idx[k] < |terms| && terms[idx[k]] == matches[k])
    && (forall k, l :: 0 <= k < l < |idx| ==> idx[k] < idx[l])
  }

  /**
   * The completions are exactly the completing terms, picked in increasing position: a
   * subsequence of the list that keeps order and duplicates, and misses no completing term.
   */
  lemma {:induction false} CompletionsPick(terms: seq<string>, input: string) returns (idx: seq<nat>)
    ensures Picks(Completions(terms, input), terms, idx)
    ensures forall k :: 0 <= k < |idx| ==> Completes(terms[idx[k]], input)
    ensures forall j :: 0 <= j < |terms| && Completes(terms[j], input) ==> j in idx
  {
    if terms == [] {
      idx := [];
    } else {
      var n := |terms| - 1;
      var front := terms[..n];
      var before := CompletionsPick(front, input);
      if Completes(terms[n], input) {
        idx := before + [n];
      } else {
        idx := before;
      }
      forall j | 0 <= j < |terms| && Completes(terms[j], input) ensures j in idx {
        if j < n {
          assert front[j] == terms[j];
        }
      }
    }
  }

  /** A term is a completion iff it is in the list and completes the input. */
  lemma CompletionsMembers(terms: seq<string>, input: string, t: string)
    ensures t in Completions(terms, input) <==> t in terms && Completes(t, input)
  {
    var idx := CompletionsPick(terms, input);
    var r := Completions(terms, input);
    if t in r {
      var k :| 0 <= k < |r| && r[k] == t;
      assert terms[idx[k]] == t;
    }
    if t in terms && Completes(t, input) {
      var j :| 0 <= j < |terms| && terms[j] == t;
      assert j in idx;
      var k :| 0 <= k < |idx| && idx[k] == j;
      assert r[k] == t;
    }
  }

  /** There are never more completions than terms. */
  lemma {:induction false} CompletionsNoLonger(terms: seq<string>, input: string)
    ensures |Completions(terms, input)| <= |terms|
  {
    if terms != [] {
      CompletionsNoLonger(terms[..|terms| - 1], input);
    }
  }

  /** Every term starts with the empty input, so an empty input completes to the whole list. */
  lemma {:induction false} EmptyInputCompletesAll(terms: seq<string>)
    ensures Completions(terms, "") == terms
  {
    if terms != [] {
      EmptyInputCompletesAll(terms[..|terms| - 1]);
      assert ToLower("") == "";
      assert terms[..|terms| - 1] + [terms[|terms| - 1]] == terms;
    }
  }

  /** Case does not matter: an input completes to the same terms as its lower-case form. */
  lemma {:induction false} CompletionsIgnoreCase(terms: seq<string>, input: string)
    ensures Completions(terms, input) == Completions(terms, ToLower(input))
  {
    assert ToLower(ToLower(input)) == ToLower(input);
    if terms != [] {
      CompletionsIgnoreCase(terms[..|terms| - 1], input);
    }
  }
}
