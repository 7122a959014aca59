/**
 * The command history the Up, Down and Enter keys browse, shared by both consoles.
 *
 * `prompts` lists the submitted lines, oldest first; `cmdnum` is the browsing cursor, equal to
 * |prompts| when the user is not browsing; `currentCommand` keeps the trimmed line the user was
 * typing when browsing began, so that Down can give it back.
 */
module History {
  datatype History = History(prompts: seq<string>, cmdnum: int, currentCommand: string)

  /** What a history key does to the input line: beep, or replace the line by `text`. */
  datatype Recall = Beep | Replace(text: string)

  /** The cursor lies between the oldest entry and the not-browsing position. */
  predicate Valid(h: History) {
    0 <= h.cmdnum <= |h.prompts|
  }

  /** Not browsing: the cursor is past the newest entry. */
  predicate Typing(h: History) {
    h.cmdnum >= |h.prompts|
  }

  /**
   * The Up key, `input` being the trimmed user input. At or below the oldest entry it beeps and
   * clamps the cursor to 0. Otherwise, when browsing begins, the input is saved; the cursor
   * steps back and the line is replaced by the entry there.
   */
  function Up(h: History, input: string): (r: (History, Recall))
    requires Valid(h)
    ensures h.cmdnum <= 0 ==> r.0 == h.(cmdnum := 0) && r.1 == Beep
    ensures h.cmdnum > 0 ==> 0 <= r.0.cmdnum < |h.prompts| && r.1 == Replace(h.prompts[r.0.cmdnum])
    ensures h.cmdnum > 0 ==> r.0.cmdnum == (if Typing(h) then |h.prompts| else h.cmdnum) - 1
  {
    if h.cmdnum <= 0 then (h.(cmdnum := 0), Beep)
    else
      var saved := if h.cmdnum >= |h.prompts| then h.(cmdnum := |h.prompts|, currentCommand := input) else h;
      var back := saved.(cmdnum := saved.cmdnum - 1);
      (back, Replace(h.prompts[back.cmdnum]))
  }

  /**
   * The Down key. When not browsing it beeps. Otherwise the cursor steps forward and the line is
   * replaced by the saved input when the cursor reaches the not-browsing position, else by the
   * entry there.
   */
  function Down(h: History): (r: (History, Recall))
    requires Valid(h)
    ensures Typing(h) ==> r == (h, Beep)
    ensures !Typing(h) ==> r.0 == h.(cmdnum := h.cmdnum + 1)
    ensures !Typing(h) ==>
              r.1 == Replace(if h.cmdnum + 1 == |h.prompts| then h.currentCommand else h.prompts[h.cmdnum + 1])
  {
    if h.cmdnum >= |h.prompts| then (h, Beep)
    else
      var fwd := h.(cmdnum := h.cmdnum + 1);
      if fwd.cmdnum == |h.prompts| then (fwd, Replace(h.currentCommand))
      else
        var clamped := if fwd.cmdnum < 0 then fwd.(cmdnum := 0) else fwd;
        (clamped, Replace(h.prompts[clamped.cmdnum]))
  }

  /** The Enter key: the trimmed line is added, even when empty, and browsing ends. */
  function Submit(h: History, line: string): (r: History)
    ensures r.prompts == h.prompts + [line] && Typing(r) && r.currentCommand == h.currentCommand
  {
    History(h.prompts + [line], |h.prompts| + 1, h.currentCommand)
  }

  /** Up keeps the cursor valid; only the first Up of a browsing episode saves the input. */
  lemma UpValid(h: History, input: string)
    requires Valid(h)
    ensures Valid(Up(h, input).0)
    ensures Up(h, input).0.prompts == h.prompts
    ensures Up(h, input).0.currentCommand == if h.cmdnum > 0 && Typing(h) then input else h.currentCommand
  {
  }

  /** Down keeps the cursor valid and never touches the entries or the saved input. */
  lemma DownValid(h: History)
    requires Valid(h)
    ensures Valid(Down(h).0)
    ensures Down(h).0.prompts == h.prompts && Down(h).0.currentCommand == h.currentCommand
    ensures !Typing(h) ==> Down(h).0.cmdnum == h.cmdnum + 1
  {
  }

  /** Submitting keeps the cursor valid. */
  lemma SubmitValid(h: History, line: string)
    requires Valid(h)
    ensures Valid(Submit(h, line))
  {
  }

  /** Up to begin browsing, then Down, gives back the line that was being typed. */
  lemma UpThenDownRestores(h: History, input: string)
    requires Valid(h) && Typing(h) && |h.prompts| > 0
    ensures var up := Up(h, input);
      up.1 == Replace(h.prompts[|h.prompts| - 1]) &&
      Down(up.0) == (up.0.(cmdnum := |h.prompts|), Replace(input))
  {
  }

  /** While browsing, Down then Up come back to the same entry. */
  lemma DownThenUpReturns(h: History, input: string)
    requires Valid(h) && h.cmdnum + 1 < |h.prompts|
    ensures Up(Down(h).0, input) == (h, Replace(h.prompts[h.cmdnum]))
  {
  }

  /** Up k times from typing, with k at most the number of entries, shows the k-th newest entry. */
  function UpTimes(h: History, input: string, k: nat): (r: History)
    requires Valid(h)
    ensures Valid(r)
    decreases k
  {
    if k == 0 then h else UpValid(UpTimes(h, input, k - 1), input); Up(UpTimes(h, input, k - 1), input).0
  }

  lemma {:induction false} UpTimesReaches(h: History, input: string, k: nat)
    requires Valid(h) && Typing(h) && k <= |h.prompts|
    ensures UpTimes(h, input, k).cmdnum == |h.prompts| - k
    ensures UpTimes(h, input, k).prompts == h.prompts
    ensures k > 0 ==> UpTimes(h, input, k).currentCommand == input
    decreases k
  {
    if k > 0 {
      UpTimesReaches(h, input, k - 1);
      var before := UpTimes(h, input, k - 1);
      assert before.cmdnum == |h.prompts| - (k - 1) > 0;
      if k > 1 {
        assert !Typing(before);
      }
    }
  }

  /** Down k times. */
  function DownTimes(h: History, k: nat): (r: History)
    requires Valid(h)
    ensures Valid(r)
    decreases k
  {
    if k == 0 then h else DownValid(DownTimes(h, k - 1)); Down(DownTimes(h, k - 1)).0
  }

  /** While browsing, k Downs that stay within the entries step the cursor forward by k. */
  lemma {:induction false} DownTimesSteps(h: History, k: nat)
    requires Valid(h) && h.cmdnum + k <= |h.prompts|
    ensures DownTimes(h, k) == h.(cmdnum := h.cmdnum + k)
    decreases k
  {
    if k > 0 {
      DownTimesSteps(h, k - 1);
    }
  }

  /**
   * Browsing back k entries and forward again gives back the line that was being typed: after
   * k Ups from typing, k - 1 Downs reach the newest entry and the k-th Down shows the saved input.
   */
  lemma UpDownRestores(h: History, input: string, k: nat)
    requires Valid(h) && Typing(h) && 1 <= k <= |h.prompts|
    ensures var back := DownTimes(UpTimes(h, input, k), k - 1);
      back.cmdnum == |h.prompts| - 1 &&
      Down(back) == (h.(currentCommand := input), Replace(input))
  {
    var up := UpTimes(h, input, k);
    UpTimesReaches(h, input, k);
    DownTimesSteps(up, k - 1);
  }
}
