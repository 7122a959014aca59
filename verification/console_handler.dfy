/**
 * ConsoleHandler: one per frame. It registers itself in the static table of instances, gets
 * an input log of its own, and applies a Tui's settings to its console: the completion
 * vocabulary (the command names in ascending order), the processors (the Tui's processor and
 * a dispatcher that logs the line and runs the matching command), the colours and prompt, and
 * the background, either at once or as a queue of fades.
 *
 * The console it drives (console.gui.Console) is not part of this model: here it is the set
 * of fields the handler writes into it. The fades themselves run on an executor thread with
 * floating point arithmetic; the model records the queue of fades each decision submits.
 */
module ConsoleHandling {
  import opened Wrappers
  import opened ColorUtil
  import Text
  import TuiConsole
  import Completion

  /** A frame, told apart by a number. */
  type Frame = nat

  /** The settings a Tui object hands to its handler. */
  class Settings {
    const frame: Frame
    const commandMap: map<string, TuiConsole.InputProcessor>
    const processor: TuiConsole.InputProcessor
    const processUnrecognizedCommand: TuiConsole.InputProcessor
    const backgroundColor: Rgb
    const defaultForegroundColor: Rgb
    const prompt: string
    const resetColorAfterEachMsg: bool
    var backgroundColorQueue: seq<Rgb>
    var backgroundColorQueueDuration: int
    var deleteBackgroundColorQueueAfterUse: bool

    constructor (frame: Frame, commandMap: map<string, TuiConsole.InputProcessor>, processor: TuiConsole.InputProcessor,
                 processUnrecognizedCommand: TuiConsole.InputProcessor, backgroundColor: Rgb, defaultForegroundColor: Rgb,
                 prompt: string, resetColorAfterEachMsg: bool, backgroundColorTransitionMS: int)
      ensures this.frame == frame && this.commandMap == commandMap && this.processor == processor
      ensures this.processUnrecognizedCommand == processUnrecognizedCommand
      ensures this.backgroundColor == backgroundColor && this.defaultForegroundColor == defaultForegroundColor
      ensures this.prompt == prompt && this.resetColorAfterEachMsg == resetColorAfterEachMsg
      ensures backgroundColorQueue == [] && backgroundColorQueueDuration == backgroundColorTransitionMS
      ensures !deleteBackgroundColorQueueAfterUse
    {
      this.frame := frame;
      this.commandMap := commandMap;
      this.processor := processor;
      this.processUnrecognizedCommand := processUnrecognizedCommand;
      this.backgroundColor := backgroundColor;
      this.defaultForegroundColor := defaultForegroundColor;
      this.prompt := prompt;
      this.resetColorAfterEachMsg := resetColorAfterEachMsg;
      backgroundColorQueue := [];
      backgroundColorQueueDuration := backgroundColorTransitionMS;
      deleteBackgroundColorQueueAfterUse := false;
    }
  }

  /**
   * The handler for a line, as chosen by the dispatcher: the command registered under the
   * first argument in lower case, or the unrecognised-command processor when there is no
   * argument or no such command.
   */
  function Chosen(s: Settings, args: seq<string>): (p: TuiConsole.InputProcessor)
    ensures |args| > 0 && Text.ToLower(args[0]) in s.commandMap ==> p == s.commandMap[Text.ToLower(args[0])]
    ensures !(|args| > 0 && Text.ToLower(args[0]) in s.commandMap) ==> p == s.processUnrecognizedCommand
  {
    if |args| > 0 && Text.ToLower(args[0]) in s.commandMap then s.commandMap[Text.ToLower(args[0])]
    else s.processUnrecognizedCommand
  }

  /** A processor the handler installs: one of the Tui's, or the dispatcher built from a Tui's settings. */
  datatype Installed = Plain(processor: TuiConsole.InputProcessor) | Dispatcher(settings: Settings)

  /** What happens, in order, when a line is processed: the line is logged, or a processor is called. */
  datatype Step = Logged(id: nat, raw: string) | Called(call: TuiConsole.Call)

  /** One fade of the background towards a colour. */
  datatype Fade = Fade(color: Rgb, durationMS: int)

  /** The steps of the dispatcher of the handler `id` built from `s`. */
  function DispatchSteps(s: Settings, id: nat, raw: string, args: seq<string>): seq<Step> {
    [Logged(id, raw), Called(TuiConsole.Call(s.processor, raw, args)), Called(TuiConsole.Call(Chosen(s, args), raw, args))]
  }

  /** The steps of one installed processor. */
  function StepsOf(installed: Installed, id: nat, raw: string, args: seq<string>): seq<Step> {
    match installed
    case Plain(p) => [Called(TuiConsole.Call(p, raw, args))]
    case Dispatcher(s) => DispatchSteps(s, id, raw, args)
  }

  /** The steps of the console's processor loop over `ps`. */
  function StepsFor(ps: seq<Installed>, id: nat, raw: string, args: seq<string>): seq<Step> {
    if ps == [] then [] else StepsFor(ps[..|ps| - 1], id, raw, args) + StepsOf(ps[|ps| - 1], id, raw, args)
  }

  /** n copies of the line, as the log gets them from n dispatchers. */
  function Copies(raw: string, n: nat): seq<string> {
    if n == 0 then [] else Copies(raw, n - 1) + [raw]
  }

  /** How many dispatchers there are among `ps`: each logs the line once. */
  function Dispatchers(ps: seq<Installed>): nat {
    if ps == [] then 0 else Dispatchers(ps[..|ps| - 1]) + (if ps[|ps| - 1].Dispatcher? then 1 else 0)
  }

  /** The fades setBackgroundTransitions submits: one per colour, in order, all of one duration. */
  function Fades(colors: seq<Rgb>, durationMS: int): (fades: seq<Fade>)
    ensures |fades| == |colors|
    ensures forall i :: 0 <= i < |colors| ==> fades[i] == Fade(colors[i], durationMS)
  {
    seq(|colors|, i requires 0 <= i < |colors| => Fade(colors[i], durationMS))
  }

  // ---------------------------------------------------------------------------------------
  // The order of String.compareTo, and the ascending order of the vocabulary

  /**
   * a.compareTo(b) < 0: a is a proper prefix of b, or the first differing character is smaller
   * in a. Characters are compared as code points; compareTo compares UTF-16 units, and the two
   * orders agree on strings whose characters all lie below U+10000.
   */
  predicate Precedes(a: string, b: string) {
    if b == [] then false
    else if a == [] then true
    else if a[0] != b[0] then a[0] < b[0]
    else Precedes(a[1..], b[1..])
  }

  /** Strictly ascending: sorted and without repetitions. */
  predicate Ascending(v: seq<string>) {
    forall i, j :: 0 <= i < j < |v| ==> Precedes(v[i], v[j])
  }

  lemma {:induction false} PrecedesIrreflexive(a: string)
    ensures !Precedes(a, a)
    decreases |a|
  {
    if a != [] {
      PrecedesIrreflexive(a[1..]);
    }
  }

  lemma {:induction false} PrecedesTransitive(a: string, b: string, c: string)
    requires Precedes(a, b) && Precedes(b, c)
    ensures Precedes(a, c)
    decreases |a|
  {
    if a != [] && a[0] == b[0] && b[0] == c[0] {
      PrecedesTransitive(a[1..], b[1..], c[1..]);
    }
  }

  lemma {:induction false} PrecedesTotal(a: string, b: string)
    requires a != b
    ensures Precedes(a, b) || Precedes(b, a)
    decreases |a|
  {
    if a != [] && b != [] && a[0] == b[0] {
      assert a == [a[0]] + a[1..] && b == [b[0]] + b[1..];
      PrecedesTotal(a[1..], b[1..]);
    }
  }

  /** The least element of a non-empty set of strings in this order. */
  ghost function Least(s: set<string>): (m: string)
    requires s != {}
    ensures m in s && forall y :: y in s && y != m ==> Precedes(m, y)
    decreases |s|
  {
    var x :| x in s;
    if s == {x} then x
    else
      var m := Least(s - {x});
      PrecedesTotal(x, m);
      if Precedes(x, m) then
        LeastBelow(s - {x}, x, m);
        x
      else m
  }

  /** What precedes the least element of a set precedes every element of it. */
  lemma LeastBelow(s: set<string>, x: string, m: string)
    requires m in s && (forall y :: y in s && y != m ==> Precedes(m, y)) && Precedes(x, m)
    ensures forall y :: y in s ==> Precedes(x, y)
  {
    forall y | y in s && y != m ensures Precedes(x, y) {
      PrecedesTransitive(x, m, y);
    }
  }

  /** keySet().stream().sorted(): the names in ascending order, each once. */
  method SortedNames(names: set<string>) returns (v: seq<string>)
    ensures Ascending(v)
    ensures forall x :: x in v <==> x in names
  {
    v := [];
    var rest := names;
    while rest != {}
      invariant rest <= names
      invariant forall x :: x in v <==> x in names && x !in rest
      invariant Ascending(v)
      invariant forall x, y :: x in v && y in rest ==> Precedes(x, y)
      decreases |rest|
    {
      ghost var least := Least(rest);
      var m :| m in rest && forall y :: y in rest && y != m ==> Precedes(m, y);
      v := v + [m];
      rest := rest - {m};
    }
  }

  /** An ascending list holds each name once, so it is as long as the set of its names. */
  lemma {:induction false} AscendingDistinct(v: seq<string>)
    requires Ascending(v)
    ensures forall i, j :: 0 <= i < j < |v| ==> v[i] != v[j]
  {
    forall i, j | 0 <= i < j < |v| ensures v[i] != v[j] {
      PrecedesIrreflexive(v[i]);
    }
  }

  // ---------------------------------------------------------------------------------------
  // The table of instances and the input logs

  /** The static table of handlers by frame, and Tui.allUserInputLogs. */
  class Registry {
    var instances: map<Frame, ConsoleHandler>
    var logs: map<nat, seq<string>>

    /** Every handler's ID is below the table's size, no two are equal, and each has a log. */
    predicate Valid()
      reads this
    {
      (forall f :: f in instances ==> instances[f].uniqueID < |instances| && instances[f].uniqueID in logs) &&
      (forall f, g :: f in instances && g in instances && f != g ==> instances[f].uniqueID != instances[g].uniqueID)
    }

    constructor ()
      ensures instances == map[] && logs == map[] && Valid()
    {
      instances := map[];
      logs := map[];
    }

    /** instances.put(frame, h) and allUserInputLogs.put(uniqueID, empty), for a new frame and the ID the put gives. */
    method Add(frame: Frame, h: ConsoleHandler)
      requires Valid() && frame !in instances && h.uniqueID == |instances|
      modifies this
      ensures Valid() && instances == old(instances)[frame := h] && h.uniqueID == |instances| - 1
      ensures logs == old(logs)[h.uniqueID := []]
    {
      RegistrationKeepsIdsDistinct(instances, logs, frame, h);
      instances := instances[frame := h];
      logs := logs[h.uniqueID := []];
    }
  }

  class ConsoleHandler {
    const registry: Registry
    const uniqueID: nat
    var currentSettings: Settings
    var backgroundHasBeenSet: bool
    // What the handler writes into its console; `background` is the colour last set without a
    // fade, not the colour the pane shows once fades have run.
    var background: Rgb
    var foreground: Rgb
    var prompt: string
    var resetColorAfterEachMsg: bool
    var completionSource: Completion.DefaultCompletionSource
    var processors: seq<Installed>
    // The fades submitted to the current executor.
    var fades: seq<Fade>

    /**
     * The constructor, for a frame without a handler: the handler is added to the table, its ID
     * is the table's size less one, it gets an empty log, and the settings are applied with the
     * background set at once.
     */
    constructor (registry: Registry, settings: Settings, backgroundColorTransitionMS: int)
      requires registry.Valid() && settings.frame !in registry.instances
      modifies registry, settings
      ensures this.registry == registry && registry.Valid()
      ensures registry.instances == old(registry.instances)[settings.frame := this]
      ensures uniqueID == |registry.instances| - 1
      ensures registry.logs == old(registry.logs)[uniqueID := []]
      ensures currentSettings == settings && backgroundHasBeenSet && background == settings.backgroundColor
      ensures foreground == settings.defaultForegroundColor && prompt == settings.prompt
      ensures resetColorAfterEachMsg == settings.resetColorAfterEachMsg
      ensures Ascending(completionSource.terms) && forall x :: x in completionSource.terms <==> x in settings.commandMap
      ensures processors == [Plain(settings.processor), Dispatcher(settings)]
      ensures fades == [] && settings.backgroundColorQueue == old(settings.backgroundColorQueue)
    {
      this.registry := registry;
      uniqueID := |registry.instances|;
      currentSettings := settings;
      backgroundHasBeenSet := false;
      background := settings.backgroundColor;
      foreground := settings.defaultForegroundColor;
      prompt := settings.prompt;
      resetColorAfterEachMsg := settings.resetColorAfterEachMsg;
      completionSource := new Completion.DefaultCompletionSource([]);
      processors := [Plain(TuiConsole.NoOp)];
      fades := [];
      new;
      registry.Add(settings.frame, this);
      SetConsoleSettings(settings, true, background, backgroundColorTransitionMS);
    }

    /**
     * setConsoleSettings(settings, setBackground): the vocabulary, processors, colours and
     * prompt of `s` go to the console. The background is set at once the first time it is
     * set; otherwise a non-empty queue of `s` is faded through (and emptied when `s` says so);
     * otherwise, when asked to set it and the colour the pane shows differs, there is one fade to
     * it. `shown` is the pane's live background as read at the start of the call: the fades run
     * on the executor and change it outside the model, so it can differ from `background`, the
     * colour last set directly.
     */
    method SetConsoleSettings(s: Settings, setBackground: bool, shown: Rgb, backgroundColorTransitionMS: int)
      modifies this, s
      ensures currentSettings == s
      ensures foreground == s.defaultForegroundColor && prompt == s.prompt && resetColorAfterEachMsg == s.resetColorAfterEachMsg
      ensures fresh(completionSource)
      ensures Ascending(completionSource.terms) && forall x :: x in completionSource.terms <==> x in s.commandMap
      ensures processors == [Plain(s.processor), Dispatcher(s)]
      ensures s.backgroundColorQueueDuration == old(s.backgroundColorQueueDuration)
      ensures s.deleteBackgroundColorQueueAfterUse == old(s.deleteBackgroundColorQueueAfterUse)
      ensures
        if !old(backgroundHasBeenSet) && setBackground then
          background == s.backgroundColor && backgroundHasBeenSet
          && fades == old(fades) && s.backgroundColorQueue == old(s.backgroundColorQueue)
        else if |old(s.backgroundColorQueue)| > 0 then
          background == old(background) && backgroundHasBeenSet == old(backgroundHasBeenSet)
          && fades == Fades(old(s.backgroundColorQueue), old(s.backgroundColorQueueDuration))
          && s.backgroundColorQueue == (if s.deleteBackgroundColorQueueAfterUse then [] else old(s.backgroundColorQueue))
        else
          background == old(background) && backgroundHasBeenSet == old(backgroundHasBeenSet)
          && s.backgroundColorQueue == old(s.backgroundColorQueue)
          && fades == if shown != s.backgroundColor && setBackground
                      then [Fade(s.backgroundColor, backgroundColorTransitionMS)] else old(fades)
    {
      currentSettings := s;
      ApplyToConsole(s);
      DecideBackground(s, setBackground, shown, backgroundColorTransitionMS);
    }

    /** The part of setConsoleSettings that goes to the console: vocabulary, processors, colours, prompt. */
    method ApplyToConsole(s: Settings)
      modifies this
      ensures currentSettings == old(currentSettings)
      ensures foreground == s.defaultForegroundColor && prompt == s.prompt && resetColorAfterEachMsg == s.resetColorAfterEachMsg
      ensures fresh(completionSource)
      ensures Ascending(completionSource.terms) && forall x :: x in completionSource.terms <==> x in s.commandMap
      ensures processors == [Plain(s.processor), Dispatcher(s)]
      ensures background == old(background) && backgroundHasBeenSet == old(backgroundHasBeenSet) && fades == old(fades)
    {
      var names := SortedNames(s.commandMap.Keys);
      completionSource := new Completion.DefaultCompletionSource(names);
      processors := [Plain(s.processor), Dispatcher(s)];
      foreground := s.defaultForegroundColor;
      prompt := s.prompt;
      resetColorAfterEachMsg := s.resetColorAfterEachMsg;
    }

    /** The background decision of setConsoleSettings, `shown` being the pane's live background. */
    method DecideBackground(s: Settings, setBackground: bool, shown: Rgb, backgroundColorTransitionMS: int)
      modifies this, s
      ensures currentSettings == old(currentSettings) && processors == old(processors) && completionSource == old(completionSource)
      ensures foreground == old(foreground) && prompt == old(prompt) && resetColorAfterEachMsg == old(resetColorAfterEachMsg)
      ensures s.backgroundColorQueueDuration == old(s.backgroundColorQueueDuration)
      ensures s.deleteBackgroundColorQueueAfterUse == old(s.deleteBackgroundColorQueueAfterUse)
      ensures
        if !old(backgroundHasBeenSet) && setBackground then
          background == s.backgroundColor && backgroundHasBeenSet
          && fades == old(fades) && s.backgroundColorQueue == old(s.backgroundColorQueue)
        else if |old(s.backgroundColorQueue)| > 0 then
          background == old(background) && backgroundHasBeenSet == old(backgroundHasBeenSet)
          && fades == Fades(old(s.backgroundColorQueue), old(s.backgroundColorQueueDuration))
          && s.backgroundColorQueue == (if s.deleteBackgroundColorQueueAfterUse then [] else old(s.backgroundColorQueue))
        else
          background == old(background) && backgroundHasBeenSet == old(backgroundHasBeenSet)
          && s.backgroundColorQueue == old(s.backgroundColorQueue)
          && fades == if shown != s.backgroundColor && setBackground
                      then [Fade(s.backgroundColor, backgroundColorTransitionMS)] else old(fades)
    {
      var originalColor := shown;
      if !backgroundHasBeenSet && setBackground {
        background := s.backgroundColor;
        backgroundHasBeenSet := true;
      } else if |s.backgroundColorQueue| > 0 {
        SetBackgroundTransitions(s.backgroundColorQueueDuration, s.backgroundColorQueue);
        s.backgroundColorQueue := if s.deleteBackgroundColorQueueAfterUse then [] else s.backgroundColorQueue;
      } else if originalColor != s.backgroundColor && setBackground {
        SetBackgroundTransitions(backgroundColorTransitionMS, [s.backgroundColor]);
      }
    }

    /** setBackgroundTransitions(durationMS, colors): the pending fades are dropped, then one fade per colour is queued. */
    method SetBackgroundTransitions(durationMS: int, colors: seq<Rgb>)
      modifies this
      ensures fades == Fades(colors, durationMS)
      ensures background == old(background) && backgroundHasBeenSet == old(backgroundHasBeenSet)
      ensures currentSettings == old(currentSettings) && processors == old(processors) && completionSource == old(completionSource)
      ensures foreground == old(foreground) && prompt == old(prompt) && resetColorAfterEachMsg == old(resetColorAfterEachMsg)
    {
      fades := [];
      for i := 0 to |colors|
        invariant fades == Fades(colors[..i], durationMS)
        invariant background == old(background) && backgroundHasBeenSet == old(backgroundHasBeenSet)
        invariant currentSettings == old(currentSettings) && processors == old(processors) && completionSource == old(completionSource)
        invariant foreground == old(foreground) && prompt == old(prompt) && resetColorAfterEachMsg == old(resetColorAfterEachMsg)
      {
        fades := fades + [Fade(colors[i], durationMS)];
      }
      assert colors[..|colors|] == colors;
    }

    /**
     * The dispatcher built from `s`: the raw line goes to this handler's log first, then the
     * processor of `s` runs, then exactly one of the command for the first argument and the
     * unrecognised-command processor.
     */
    method Dispatch(s: Settings, raw: string, args: seq<string>) returns (steps: seq<Step>)
      requires uniqueID in registry.logs
      modifies registry
      ensures registry.instances == old(registry.instances)
      ensures registry.logs == old(registry.logs)[uniqueID := old(registry.logs[uniqueID]) + [raw]]
      ensures steps == DispatchSteps(s, uniqueID, raw, args)
    {
      registry.logs := registry.logs[uniqueID := registry.logs[uniqueID] + [raw]];
      steps := [Logged(uniqueID, raw), Called(TuiConsole.Call(s.processor, raw, args))];
      if |args| > 0 && Text.ToLower(args[0]) in s.commandMap {
        steps := steps + [Called(TuiConsole.Call(s.commandMap[Text.ToLower(args[0])], raw, args))];
      } else {
        steps := steps + [Called(TuiConsole.Call(s.processUnrecognizedCommand, raw, args))];
      }
    }

    /**
     * The console's Enter: every installed processor in order, with the line and its tokens.
     * Each dispatcher adds the line to this handler's log once.
     */
    method ProcessLine(raw: string, args: seq<string>) returns (steps: seq<Step>)
      requires uniqueID in registry.logs
      modifies registry
      ensures registry.instances == old(registry.instances)
      ensures registry.logs == old(registry.logs)[uniqueID := old(registry.logs[uniqueID]) + Copies(raw, Dispatchers(processors))]
      ensures steps == StepsFor(processors, uniqueID, raw, args)
    {
      steps := [];
      ghost var start := registry.logs[uniqueID];
      assert start + Copies(raw, 0) == start;
      assert registry.logs == registry.logs[uniqueID := start];
      for i := 0 to |processors|
        invariant uniqueID in registry.logs
        invariant registry.instances == old(registry.instances)
        invariant registry.logs == old(registry.logs)[uniqueID := start + Copies(raw, Dispatchers(processors[..i]))]
        invariant steps == StepsFor(processors[..i], uniqueID, raw, args)
      {
        assert processors[..i + 1][..i] == processors[..i];
        ghost var n := Dispatchers(processors[..i]);
        match processors[i]
        case Plain(p) =>
          assert Dispatchers(processors[..i + 1]) == n;
          steps := steps + [Called(TuiConsole.Call(p, raw, args))];
        case Dispatcher(s) =>
          assert Dispatchers(processors[..i + 1]) == n + 1;
          assert start + Copies(raw, n) + [raw] == start + Copies(raw, n + 1);
          var more := Dispatch(s, raw, args);
          steps := steps + more;
      }
      assert processors[..|processors|] == processors;
    }
  }

  /** The IllegalStateException of a second handler for one frame. */
  datatype HandlerError = FrameAlreadyHandled

  /**
   * new ConsoleHandler(settings): refused, with nothing changed, when the frame already has a
   * handler; otherwise the handler is registered as the constructor says.
   */
  method NewConsoleHandler(registry: Registry, settings: Settings, backgroundColorTransitionMS: int)
    returns (r: Result<ConsoleHandler, HandlerError>)
    requires registry.Valid()
    modifies registry, settings
    ensures registry.Valid()
    ensures r.Failure? <==> settings.frame in old(registry.instances)
    ensures r.Failure? ==> registry.instances == old(registry.instances) && registry.logs == old(registry.logs)
    ensures r.Success? ==> fresh(r.value) && registry.instances == old(registry.instances)[settings.frame := r.value]
    ensures r.Success? ==> r.value.uniqueID == |registry.instances| - 1 && registry.logs == old(registry.logs)[r.value.uniqueID := []]
  {
    if settings.frame in registry.instances {
      return Failure(FrameAlreadyHandled);
    }
    var h := new ConsoleHandler(registry, settings, backgroundColorTransitionMS);
    return Success(h);
  }

  /**
   * Once a Tui's settings are applied, one line runs the Tui's processor twice: once as the
   * console's own processor and once inside the dispatcher, after the line is logged and
   * before the chosen command.
   */
  lemma ProcessorRunsTwice(s: Settings, id: nat, raw: string, args: seq<string>)
    ensures StepsFor([Plain(s.processor), Dispatcher(s)], id, raw, args) ==
      [Called(TuiConsole.Call(s.processor, raw, args)), Logged(id, raw),
       Called(TuiConsole.Call(s.processor, raw, args)), Called(TuiConsole.Call(Chosen(s, args), raw, args))]
    ensures Dispatchers([Plain(s.processor), Dispatcher(s)]) == 1
  {
    var ps := [Plain(s.processor), Dispatcher(s)];
    assert ps[..1] == [Plain(s.processor)] && ps[..1][..0] == [];
    assert StepsFor(ps[..1], id, raw, args) == [Called(TuiConsole.Call(s.processor, raw, args))];
    assert Dispatchers(ps[..1]) == 0;
  }

  /**
   * Registering handlers one after another keeps their IDs distinct and below the table's
   * size: a new handler takes the old size, which no earlier handler has.
   */
  lemma RegistrationKeepsIdsDistinct(instances: map<Frame, ConsoleHandler>, logs: map<nat, seq<string>>, frame: Frame, h: ConsoleHandler)
    requires (forall f :: f in instances ==> instances[f].uniqueID < |instances| && instances[f].uniqueID in logs)
    requires forall f, g :: f in instances && g in instances && f != g ==> instances[f].uniqueID != instances[g].uniqueID
    requires frame !in instances && h.uniqueID == |instances|
    ensures var instances' := instances[frame := h];
      var logs' := logs[h.uniqueID := []];
      (forall f :: f in instances' ==> instances'[f].uniqueID < |instances'| && instances'[f].uniqueID in logs') &&
      (forall f, g :: f in instances' && g in instances' && f != g ==> instances'[f].uniqueID != instances'[g].uniqueID)
  {
    assert |instances[frame := h]| == |instances| + 1;
  }
}
