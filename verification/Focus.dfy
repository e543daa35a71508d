/** A document's visibility and focus: what the page and the app are told, over every run of commands, loads and
    input. */
module Focus {
  import opened Common

  /** FocusIn and FocusOut go to the page, Blur to the app; Visible is the visibility event, Loaded the end of a
      load. */
  datatype Event = FocusIn | FocusOut | Blur | Visible(on: bool) | Loaded

  datatype State = State(placed: bool, focused: bool, hasVisibility: bool, lastVisible: bool, log: seq<Event>)

  const START := State(false, false, false, false, [])

  function Released(s: State): State {
    if s.focused then s.(focused := false, log := s.log + [FocusOut, Blur]) else s
  }

  /** The page is told only a change since the last load. */
  function Told(s: State): State {
    if s.hasVisibility && s.lastVisible == s.placed then s
    else s.(hasVisibility := true, lastVisible := s.placed, log := s.log + [Visible(s.placed)])
  }

  function Updated(s: State): State {
    Told(if s.placed then s else Released(s))
  }

  function Entered(s: State): State {
    if s.focused then s else s.(focused := true, log := s.log + [FocusIn])
  }

  function Left(s: State): State {
    if s.focused then s.(focused := false, log := s.log + [FocusOut]) else s
  }

  class Host {
    var placed: bool
    var focused: bool
    var hasVisibility: bool
    var lastVisible: bool
    var log: seq<Event>

    function Abs(): State
      reads this
    {
      State(placed, focused, hasVisibility, lastVisible, log)
    }

    constructor ()
      ensures Abs() == START
    {
      placed, focused, hasVisibility, lastVisible, log := false, false, false, false, [];
    }

    method ReleaseFocus()
      modifies this
      ensures Abs() == Released(old(Abs()))
    {
      if !focused {
        return;
      }
      focused := false;
      log := log + [FocusOut, Blur];
    }

    method UpdateVisibility()
      modifies this
      ensures Abs() == Updated(old(Abs()))
    {
      var visible := placed;
      if !visible && focused {
        focused := false;
        log := log + [FocusOut, Blur];
      }
      if hasVisibility && lastVisible == visible {
        return;
      }
      hasVisibility, lastVisible := true, visible;
      log := log + [Visible(visible)];
    }

    method PlaceHost(visible: bool, width: real, height: real)
      modifies this
      ensures Abs() == After(old(Abs()), Step.Place(visible, width, height))
    {
      placed := visible && width > 0.0 && height > 0.0;
      UpdateVisibility();
    }

    method HideHost()
      modifies this
      ensures Abs() == After(old(Abs()), Step.Hide)
    {
      placed := false;
      UpdateVisibility();
    }

    method LoadFinished()
      modifies this
      ensures Abs() == After(old(Abs()), Load)
    {
      hasVisibility := false;
      UpdateVisibility();
      log := log + [Loaded];
    }

    /** Input that gives focus, takes it, or neither. */
    method RunInput(kind: Input)
      modifies this
      ensures Abs() == After(old(Abs()), Run(kind))
    {
      match kind
      case OutsidePress =>
        ReleaseFocus();
      case Down | KeyDown | FocusOn =>
        if !focused {
          focused := true;
          log := log + [FocusIn];
        }
      case FocusOff =>
        if focused {
          focused := false;
          log := log + [FocusOut];
        }
      case Other =>
    }
  }

  // ---- Runs ----

  datatype Input = OutsidePress | Down | KeyDown | FocusOn | FocusOff | Other

  /** Release: the app's command, or an Escape the page left alone. */
  datatype Step = Place(visible: bool, width: real, height: real) | Hide | Load | Run(input: Input) | Release

  function After(s: State, step: Step): State {
    match step
    case Place(visible, width, height) => Updated(s.(placed := visible && width > 0.0 && height > 0.0))
    case Hide => Updated(s.(placed := false))
    case Load =>
      var t := Updated(s.(hasVisibility := false));
      t.(log := t.log + [Loaded])
    case Release => Released(s)
    case Run(input) =>
      match input
      case OutsidePress => Released(s)
      case FocusOff => Left(s)
      case Other => s
      case _ => Entered(s)
  }

  function RunAll(s: State, steps: seq<Step>): State
    decreases |steps|
  {
    if steps == [] then s else RunAll(After(s, steps[0]), steps[1..])
  }

  /** The focus events of a log, in order; true is in. */
  function Foci(log: seq<Event>): seq<bool> {
    if log == [] then []
    else
      var last := log[|log| - 1];
      Foci(log[..|log| - 1]) + if last.FocusIn? then [true] else if last.FocusOut? then [false] else []
  }

  /** In, out, in, out, and so on; the last one says where the focus is. */
  ghost predicate InOut(foci: seq<bool>, focused: bool) {
    (forall i :: 0 <= i < |foci| ==> foci[i] == (i % 2 == 0)) && (focused <==> |foci| % 2 == 1)
  }

  lemma InOutMore(foci: seq<bool>, focused: bool)
    requires InOut(foci, focused)
    ensures InOut(foci + [!focused], !focused)
  {
  }

  ghost predicate Alternates(s: State) {
    InOut(Foci(s.log), s.focused)
  }

  /** The last visibility event. */
  function LastVisible(log: seq<Event>): Option<bool> {
    if log == [] then None
    else if log[|log| - 1].Visible? then Some(log[|log| - 1].on)
    else LastVisible(log[..|log| - 1])
  }

  /** A visibility event is a change, or belongs to a finished load. */
  ghost predicate TellsChange(log: seq<Event>, i: nat)
    requires i < |log|
  {
    log[i].Visible? ==> LastVisible(log[..i]) != Some(log[i].on) || (i + 1 < |log| && log[i + 1].Loaded?)
  }

  /** Between two finished loads the visibility events alternate, and the last one is the truth. */
  ghost predicate Truthful(s: State) {
    && AllTell(s.log) && LoadsTell(s.log)
    && LastVisible(s.log) == (if s.hasVisibility then Some(s.lastVisible) else None)
    && (s.hasVisibility ==> s.lastVisible == s.placed)
  }

  lemma LogStep(log: seq<Event>, e: Event)
    ensures Foci(log + [e]) == Foci(log) + if e.FocusIn? then [true] else if e.FocusOut? then [false] else []
    ensures LastVisible(log + [e]) == if e.Visible? then Some(e.on) else LastVisible(log)
  {
    assert (log + [e])[..|log|] == log;
  }

  lemma TellsMore(log: seq<Event>, e: Event, i: nat)
    requires i < |log| && TellsChange(log, i)
    ensures TellsChange(log + [e], i)
  {
    assert (log + [e])[..i] == log[..i];
  }

  /** One more event that is no visibility event, or a changed one. */
  lemma TellsAll(log: seq<Event>, e: Event)
    requires AllTell(log) && LoadsTell(log)
    requires !e.Loaded? && (e.Visible? ==> LastVisible(log) != Some(e.on))
    ensures AllTell(log + [e]) && LoadsTell(log + [e])
  {
    forall i | 0 <= i < |log + [e]|
      ensures TellsChange(log + [e], i)
    {
      if i < |log| {
        TellsMore(log, e, i);
      } else {
        assert (log + [e])[..i] == log;
      }
    }
  }

  ghost predicate AllTell(log: seq<Event>) {
    forall i :: 0 <= i < |log| ==> TellsChange(log, i)
  }

  /** Every end of a load comes right after a visibility event. */
  ghost predicate LoadsTell(log: seq<Event>) {
    forall i {:trigger log[i]} :: 0 <= i < |log| && log[i].Loaded? ==> 0 < i && log[i - 1].Visible?
  }

  /** A visibility event and the end of a load. */
  lemma TellsLoad(log: seq<Event>, on: bool)
    requires AllTell(log) && LoadsTell(log)
    ensures AllTell(log + [Visible(on)] + [Loaded]) && LoadsTell(log + [Visible(on)] + [Loaded])
    ensures Foci(log + [Visible(on)] + [Loaded]) == Foci(log)
    ensures LastVisible(log + [Visible(on)] + [Loaded]) == Some(on)
  {
    var more := log + [Visible(on)];
    LogStep(log, Visible(on));
    LogStep(more, Loaded);
    forall i | 0 <= i < |more + [Loaded]|
      ensures TellsChange(more + [Loaded], i)
    {
      if i < |log| {
        TellsMore(log, Visible(on), i);
        TellsMore(more, Loaded, i);
      }
    }
  }

  ghost predicate Good(s: State) {
    Alternates(s) && Truthful(s)
  }

  lemma FocusEventKeeps(s: State, e: Event, focused: bool)
    requires Good(s)
    requires || (e == Blur && focused == s.focused)
             || (e == FocusIn && focused && !s.focused)
             || (e == FocusOut && !focused && s.focused)
    ensures var t := s.(focused := focused, log := s.log + [e]);
            Good(t)
  {
    LogStep(s.log, e);
    TellsAll(s.log, e);
    InOutMore(Foci(s.log), s.focused);
    assert Foci(s.log) + [] == Foci(s.log);
  }

  lemma ReleaseKeeps(s: State)
    requires Good(s)
    ensures Good(Released(s)) && Released(s).placed == s.placed && !Released(s).focused
  {
    if s.focused {
      var t := s.(focused := false, log := s.log + [FocusOut]);
      assert s.log + [FocusOut, Blur] == t.log + [Blur];
      FocusEventKeeps(s, FocusOut, false);
      FocusEventKeeps(t, Blur, false);
    }
  }

  lemma EnterKeeps(s: State)
    requires Good(s)
    ensures Good(Entered(s))
  {
    if !s.focused {
      FocusEventKeeps(s, FocusIn, true);
    }
  }

  lemma LeaveKeeps(s: State)
    requires Good(s)
    ensures Good(Left(s))
  {
    if s.focused {
      FocusEventKeeps(s, FocusOut, false);
    }
  }

  /** Telling the truth after a move. */
  lemma ToldKeeps(s: State, placed: bool)
    requires Good(s)
    ensures Good(Told(s.(placed := placed))) && Told(s.(placed := placed)).hasVisibility
  {
    if !(s.hasVisibility && s.lastVisible == placed) {
      LogStep(s.log, Visible(placed));
      TellsAll(s.log, Visible(placed));
      assert Foci(s.log) + [] == Foci(s.log);
    }
  }

  /** Placing or hiding a document that was truthful before. */
  lemma MoveKeeps(s: State, placed: bool)
    requires Good(s)
    ensures Good(Updated(s.(placed := placed))) && Updated(s.(placed := placed)).hasVisibility
  {
    if placed {
      ToldKeeps(s, placed);
    } else {
      ReleaseKeeps(s);
      ToldKeeps(Released(s), placed);
      assert Released(s).(placed := placed) == Released(s.(placed := placed));
    }
  }

  lemma LoadKeeps(s: State)
    requires Good(s)
    ensures Good(After(s, Load))
  {
    ReleaseKeeps(s);
    var r := if s.placed then s else Released(s);
    TellsLoad(r.log, s.placed);
    assert After(s, Load).log == r.log + [Visible(s.placed)] + [Loaded];
  }

  lemma StepKeeps(s: State, step: Step)
    requires Good(s)
    ensures Good(After(s, step))
    ensures step.Place? || step.Hide? || step.Load? ==> After(s, step).hasVisibility
  {
    match step
    case Place(visible, width, height) => MoveKeeps(s, visible && width > 0.0 && height > 0.0);
    case Hide => MoveKeeps(s, false);
    case Load => LoadKeeps(s);
    case Release => ReleaseKeeps(s);
    case Run(input) => InputKeeps(s, input);
  }

  lemma InputKeeps(s: State, input: Input)
    requires Good(s)
    ensures Good(After(s, Run(input)))
  {
    if input.OutsidePress? {
      ReleaseKeeps(s);
    } else if input.FocusOff? {
      LeaveKeeps(s);
    } else if !input.Other? {
      EnterKeeps(s);
    }
  }

  lemma {:induction false} RunKeeps(s: State, steps: seq<Step>)
    requires Good(s)
    ensures Good(RunAll(s, steps))
    decreases |steps|
  {
    if steps != [] {
      StepKeeps(s, steps[0]);
      RunKeeps(After(s, steps[0]), steps[1..]);
    }
  }

  /** In every run focus events alternate from in, visibility events alternate between finished loads, and once there is
      one the last tells whether the document is placed. */
  lemma RunsAreTruthful(steps: seq<Step>)
    ensures var s := RunAll(START, steps);
            && Alternates(s) && Truthful(s)
            && (LastVisible(s.log).Some? ==> LastVisible(s.log) == Some(s.placed))
  {
    RunKeeps(START, steps);
  }

  /** After a place, a hide or a finished load the page has been told the truth. */
  lemma ToldAtOnce(steps: seq<Step>, last: Step)
    requires last.Place? || last.Hide? || last.Load?
    ensures var s := After(RunAll(START, steps), last); LastVisible(s.log) == Some(s.placed)
  {
    RunKeeps(START, steps);
    StepKeeps(RunAll(START, steps), last);
  }

  /** Whatever takes the focus, the page hears of it at once, and so does the app unless it took the focus itself. */
  lemma LossIsTold(s: State, step: Step)
    requires Good(s) && s.focused && !After(s, step).focused
    ensures (s.log + [FocusOut]) <= After(s, step).log
    ensures (s.log + [FocusOut, Blur]) <= After(s, step).log <==> step != Run(FocusOff)
  {
    var t := After(s, step);
    assert s.log + [FocusOut, Blur] == s.log + [FocusOut] + [Blur];
    if step.Run? && step.input.FocusOff? {
      assert |t.log| == |s.log| + 1;
    } else {
      assert t.log[..|s.log| + 2] == s.log + [FocusOut, Blur];
    }
  }

  // ---- What places a document, and what gives it the focus ----

  lemma {:induction false} RunOfMore(s: State, steps: seq<Step>, step: Step)
    ensures RunAll(s, steps + [step]) == After(RunAll(s, steps), step)
    decreases |steps|
  {
    if steps == [] {
      assert steps + [step] == [step] && [step][1..] == steps;
    } else {
      assert (steps + [step])[0] == steps[0] && (steps + [step])[1..] == steps[1..] + [step];
      RunOfMore(After(s, steps[0]), steps[1..], step);
    }
  }

  predicate Moves(step: Step) {
    step.Place? || step.Hide?
  }

  predicate Shows(step: Step) {
    step.Place? && step.visible && step.width > 0.0 && step.height > 0.0
  }

  /** The last command that placed or hid the document made it visible, with an area. */
  ghost predicate IsPlaced(steps: seq<Step>) {
    exists i :: 0 <= i < |steps| && PlacedAt(steps, i)
  }

  predicate PlacedAt(steps: seq<Step>, i: nat)
    requires i < |steps|
  {
    Shows(steps[i]) && forall j :: i < j < |steps| ==> !Moves(steps[j])
  }

  lemma PlacedAfter(steps: seq<Step>, step: Step)
    ensures IsPlaced(steps + [step]) <==> if Moves(step) then Shows(step) else IsPlaced(steps)
  {
    var more, n := steps + [step], |steps|;
    if Shows(step) {
      assert PlacedAt(more, n);
    }
    if IsPlaced(steps) && !Moves(step) {
      var i :| 0 <= i < n && PlacedAt(steps, i);
      assert PlacedAt(more, i);
    }
    if i :| 0 <= i < |more| && PlacedAt(more, i) {
      if i < n {
        assert more[n] == step && forall j :: i < j < n ==> more[j] == steps[j];
        assert PlacedAt(steps, i);
      }
    }
  }

  /** What takes the focus: the app's command, a press outside, a loss, and any update of a document that is not
      placed. */
  ghost predicate TakesFocus(steps: seq<Step>, j: nat)
    requires j < |steps|
  {
    var step := steps[j];
    || step.Release? || step == Run(OutsidePress) || step == Run(FocusOff)
    || ((Moves(step) || step.Load?) && !IsPlaced(steps[..j + 1]))
  }

  /** Some input gave the focus, and nothing has taken it since. */
  ghost predicate HasFocus(steps: seq<Step>) {
    exists i :: 0 <= i < |steps| && FocusedAt(steps, i)
  }

  ghost predicate FocusedAt(steps: seq<Step>, i: nat)
    requires i < |steps|
  {
    GivesFocus(steps[i]) && forall j :: i < j < |steps| ==> !TakesFocus(steps, j)
  }

  lemma TakesInMore(steps: seq<Step>, step: Step, j: nat)
    requires j < |steps|
    ensures TakesFocus(steps + [step], j) <==> TakesFocus(steps, j)
  {
    assert (steps + [step])[..j + 1] == steps[..j + 1];
  }

  lemma FocusedInMore(steps: seq<Step>, step: Step, i: nat)
    requires i < |steps|
    ensures FocusedAt(steps + [step], i) <==> FocusedAt(steps, i) && !TakesFocus(steps + [step], |steps|)
  {
    var more, n := steps + [step], |steps|;
    forall j | 0 <= j < n
      ensures TakesFocus(more, j) <==> TakesFocus(steps, j)
    {
      TakesInMore(steps, step, j);
    }
    if FocusedAt(steps, i) && !TakesFocus(more, n) {
      forall j | i < j < |more|
        ensures !TakesFocus(more, j)
      {
        assert j < n ==> TakesFocus(more, j) == TakesFocus(steps, j);
      }
    }
    if FocusedAt(more, i) {
      assert !TakesFocus(more, n);
      forall j | i < j < n
        ensures !TakesFocus(steps, j)
      {
        assert TakesFocus(more, j) == TakesFocus(steps, j);
      }
    }
  }

  lemma FocusedAfter(steps: seq<Step>, step: Step)
    ensures HasFocus(steps + [step]) <==>
      GivesFocus(step) || (HasFocus(steps) && !TakesFocus(steps + [step], |steps|))
  {
    var more, n := steps + [step], |steps|;
    if GivesFocus(step) {
      assert FocusedAt(more, n);
    }
    if HasFocus(steps) && !TakesFocus(more, n) {
      var i :| 0 <= i < n && FocusedAt(steps, i);
      FocusedInMore(steps, step, i);
    }
    if HasFocus(more) {
      var i :| 0 <= i < |more| && FocusedAt(more, i);
      if i < n {
        FocusedInMore(steps, step, i);
      }
    }
  }

  /** After every run the document is placed exactly when the last command about it placed it, and has the focus exactly
      when some input gave it and nothing has taken it since. */
  lemma {:induction false} PlacedAndFocused(steps: seq<Step>)
    ensures RunAll(START, steps).placed <==> IsPlaced(steps)
    ensures RunAll(START, steps).focused <==> HasFocus(steps)
    decreases |steps|
  {
    if steps != [] {
      var init, last := steps[..|steps| - 1], steps[|steps| - 1];
      assert steps == init + [last] && steps[..|init| + 1] == steps;
      PlacedAndFocused(init);
      RunOfMore(START, init, last);
      PlacedAfter(init, last);
      FocusedAfter(init, last);
      StepPlaces(RunAll(START, init), last);
    }
  }

  /** After any run a finished load tells whether the document is placed, and then that it has loaded. */
  lemma LoadTells(steps: seq<Step>)
    ensures var log := After(RunAll(START, steps), Load).log;
            && |log| >= 2 && log[|log| - 1] == Loaded
            && log[|log| - 2].Visible? && (log[|log| - 2].on <==> IsPlaced(steps))
  {
    PlacedAndFocused(steps);
  }

  lemma StepPlaces(s: State, step: Step)
    ensures After(s, step).placed <==> if Moves(step) then Shows(step) else s.placed
    ensures After(s, step).focused <==>
      GivesFocus(step)
      || (s.focused && !step.Release? && step != Run(OutsidePress) && step != Run(FocusOff)
          && (Moves(step) || step.Load? ==> After(s, step).placed))
  {
  }

  // ---- Focus in a hidden document ----

  predicate FocusedHidden(s: State) {
    s.focused && !s.placed
  }

  predicate GivesFocus(step: Step) {
    step.Run? && (step.input.Down? || step.input.KeyDown? || step.input.FocusOn?)
  }

  /** Some state of the run, the first included, has the focus in a hidden document. */
  predicate EverFocusedHidden(s: State, steps: seq<Step>)
    decreases |steps|
  {
    FocusedHidden(s) || (steps != [] && EverFocusedHidden(After(s, steps[0]), steps[1..]))
  }

  /** Some input of the run gives focus to a document that is hidden at the time. */
  predicate EverEntersHidden(s: State, steps: seq<Step>)
    decreases |steps|
  {
    steps != [] && ((GivesFocus(steps[0]) && !s.placed) || EverEntersHidden(After(s, steps[0]), steps[1..]))
  }

  /** Hiding always takes the focus away: a hidden document has it only by input that came while it was hidden. */
  lemma {:induction false} OnlyInputFocusesHidden(s: State, steps: seq<Step>)
    requires !FocusedHidden(s)
    ensures EverFocusedHidden(s, steps) <==> EverEntersHidden(s, steps)
    decreases |steps|
  {
    if steps != [] && !FocusedHidden(After(s, steps[0])) {
      OnlyInputFocusesHidden(After(s, steps[0]), steps[1..]);
    }
  }
}
