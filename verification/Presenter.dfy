/** Pacing of buffers: at most one waits for its turn while one is on screen, and turns are 1/60 s apart. Times are in
    microseconds of a clock that never goes back. */
module Presenter {
  import opened Common

  const INTERVAL := 1_000_000 / 60

  /** A buffer of the web process, by number. */
  type Buffer = nat

  /** `ready`: when the pacing source fires, 0 for at once; none while it is off. */
  datatype State = State(pending: Option<Buffer>, committed: Option<Buffer>, ready: Option<int>, lastFrame: int)

  /** What the web process is told: a buffer is free for reuse, or is on screen. */
  datatype Report = Released(buffer: Buffer) | Rendered(buffer: Buffer, time: int)

  /** A buffer whose pixels were copied waits for its turn; a buffer that waited is forgotten. */
  function Accepted(s: State, buffer: Buffer, now: int): State {
    var next := s.lastFrame + INTERVAL;
    s.(pending := Some(buffer), ready := Some(if next <= now then 0 else next))
  }

  function Presented(s: State, now: int): State {
    if s.pending.None? then s.(ready := None)
    else State(None, s.pending, None, now)
  }

  function Reports(s: State, now: int): seq<Report> {
    if s.pending.None? then []
    else (if s.committed.Some? then [Released(s.committed.value)] else []) + [Rendered(s.pending.value, now)]
  }

  class View {
    var pending: Option<Buffer>
    var committed: Option<Buffer>
    var ready: Option<int>
    var lastFrame: int

    function Abs(): State
      reads this
    {
      State(pending, committed, ready, lastFrame)
    }

    constructor ()
      ensures Abs() == INITIAL
    {
      pending, committed, ready, lastFrame := None, None, None, 0;
    }

    method RenderBuffer(buffer: Buffer, now: int)
      modifies this
      ensures Abs() == Accepted(old(Abs()), buffer, now)
    {
      pending := Some(buffer);
      var next := lastFrame + 1_000_000 / 60;
      ready := Some(if next <= now then 0 else next);
    }

    method Present(now: int) returns (reports: seq<Report>)
      modifies this
      ensures Abs() == Presented(old(Abs()), now) && reports == Reports(old(Abs()), now)
    {
      reports := [];
      ready := None;
      if pending.None? {
        return;
      }
      if committed.Some? {
        reports := [Released(committed.value)];
      }
      committed, pending := pending, None;
      lastFrame := now;
      reports := reports + [Rendered(committed.value, now)];
    }
  }

  const INITIAL := State(None, None, None, 0)

  // ---- Runs ----

  datatype Step = Accept(buffer: Buffer, time: int) | Fire(time: int)

  /** A run so far: the pacing state, the clock, the buffers taken, and every report. */
  datatype World = World(state: State, now: int, taken: seq<Buffer>, log: seq<Report>)

  const START := World(INITIAL, 0, [], [])

  /** The clock never goes back, and the source does not fire while it is off or early. */
  predicate Enabled(w: World, step: Step) {
    w.now <= step.time && (step.Fire? ==> w.state.ready.Some? && w.state.ready.value <= step.time)
  }

  function After(w: World, step: Step): World {
    match step
    case Accept(b, t) => World(Accepted(w.state, b, t), t, w.taken + [b], w.log)
    case Fire(t) => World(Presented(w.state, t), t, w.taken, w.log + Reports(w.state, t))
  }

  predicate Possible(w: World, steps: seq<Step>)
    decreases |steps|
  {
    steps == [] || (Enabled(w, steps[0]) && Possible(After(w, steps[0]), steps[1..]))
  }

  function Run(w: World, steps: seq<Step>): World
    decreases |steps|
  {
    if steps == [] then w else Run(After(w, steps[0]), steps[1..])
  }

  function List(b: Option<Buffer>): seq<Buffer> {
    if b.None? then [] else [b.value]
  }

  /** The buffers reported rendered, in order. */
  function RenderedIn(log: seq<Report>): seq<Buffer>
    decreases |log|
  {
    if log == [] then []
    else
      var last := log[|log| - 1];
      RenderedIn(log[..|log| - 1]) + if last.Rendered? then [last.buffer] else []
  }

  /** A buffer is rendered, then released, then the next is rendered, at least the interval after it. */
  ghost predicate InTurn(log: seq<Report>, i: nat)
    requires i < |log|
  {
    if i % 2 == 0 then
      log[i].Rendered? && (2 <= i && log[i - 2].Rendered? ==> log[i - 2].time + INTERVAL <= log[i].time)
    else log[i - 1].Rendered? && log[i] == Released(log[i - 1].buffer)
  }

  /** The log goes one buffer after the other; the last is on screen. */
  ghost predicate OneByOne(log: seq<Report>, shown: Option<Buffer>, time: int) {
    var n := |log|;
    && (forall i :: 0 <= i < n ==> InTurn(log, i))
    && if shown.None? then n == 0 && time == 0 else n % 2 == 1 && log[n - 1] == Rendered(shown.value, time)
  }

  lemma OneMoreBuffer(log: seq<Report>, shown: Buffer, time: int, next: Buffer, now: int)
    requires OneByOne(log, Some(shown), time) && time + INTERVAL <= now
    ensures OneByOne(log + [Released(shown), Rendered(next, now)], Some(next), now)
  {
    var more := log + [Released(shown), Rendered(next, now)];
    forall i | 0 <= i < |more|
      ensures InTurn(more, i)
    {
      if i < |log| {
        assert InTurn(log, i);
      }
    }
  }

  /** What every run keeps: a buffer waits exactly while the source is on, the source is never on too early, and the log
      goes one buffer after the other. */
  ghost predicate Paced(w: World) {
    var s := w.state;
    && (s.pending.Some? <==> s.ready.Some?)
    && (s.ready.Some? ==>
          if s.ready.value == 0 then s.lastFrame + INTERVAL <= w.now else s.ready.value == s.lastFrame + INTERVAL)
    && s.lastFrame >= 0
    && OneByOne(w.log, s.committed, s.lastFrame)
  }

  lemma StepKeepsPace(w: World, step: Step)
    requires Paced(w) && Enabled(w, step)
    ensures Paced(After(w, step))
  {
    if step.Fire? {
      var t, s := step.time, w.state;
      if s.committed.None? {
        assert w.log == [] && w.log + Reports(s, t) == [Rendered(s.pending.value, t)];
      } else {
        assert Reports(s, t) == [Released(s.committed.value), Rendered(s.pending.value, t)];
        OneMoreBuffer(w.log, s.committed.value, s.lastFrame, s.pending.value, t);
      }
    }
  }

  lemma {:induction false} RunKeepsPace(w: World, steps: seq<Step>)
    requires Paced(w) && Possible(w, steps)
    ensures Paced(Run(w, steps))
    decreases |steps|
  {
    if steps != [] {
      StepKeepsPace(w, steps[0]);
      RunKeepsPace(After(w, steps[0]), steps[1..]);
    }
  }

  // ---- Every buffer has its turn ----

  predicate Overruns(w: World, step: Step) {
    step.Accept? && w.state.pending.Some?
  }

  /** The buffers that came while another waited. */
  function Overrun(w: World, steps: seq<Step>): nat
    decreases |steps|
  {
    if steps == [] then 0
    else (if Overruns(w, steps[0]) then 1 else 0) + Overrun(After(w, steps[0]), steps[1..])
  }

  /** The buffers that had or wait for their turn. */
  function Turns(w: World): seq<Buffer> {
    RenderedIn(w.log) + List(w.state.pending)
  }

  lemma TurnsAfter(w: World, step: Step)
    ensures var next := After(w, step);
            if Overruns(w, step) then |Turns(next)| == |Turns(w)| && next.taken == w.taken + [step.buffer]
            else
              && |Turns(next)| - |Turns(w)| == |next.taken| - |w.taken|
              && (Turns(w) == w.taken ==> Turns(next) == next.taken)
    ensures step.Fire? ==> Turns(After(w, step)) == Turns(w)
  {
    if step.Fire? && w.state.pending.Some? {
      var s, t := w.state, step.time;
      var rendered := w.log + Reports(s, t);
      var n := |rendered|;
      assert rendered[n - 1] == Rendered(s.pending.value, t);
      if s.committed.None? {
        assert rendered[..n - 1] == w.log;
      } else {
        var released := rendered[..n - 1];
        assert released[..n - 2] == w.log && released[n - 2] == Released(s.committed.value);
        assert RenderedIn(released) == RenderedIn(w.log);
      }
      assert RenderedIn(rendered) == RenderedIn(w.log) + [s.pending.value];
    } else if step.Fire? {
      assert w.log + [] == w.log;
    }
  }

  lemma {:induction false} TurnsOfRun(w: World, steps: seq<Step>)
    ensures |Run(w, steps).taken| - |Turns(Run(w, steps))| == |w.taken| - |Turns(w)| + Overrun(w, steps)
    ensures Turns(w) == w.taken && Overrun(w, steps) == 0 ==> Turns(Run(w, steps)) == Run(w, steps).taken
    decreases |steps|
  {
    if steps != [] {
      TurnsAfter(w, steps[0]);
      TurnsOfRun(After(w, steps[0]), steps[1..]);
    }
  }

  /** Of the buffers taken, those that have or had no turn are as many as came while another waited. So every buffer has
      exactly one turn, in order, exactly when the web process always waited for the previous one to be rendered. */
  lemma EveryBufferHasItsTurn(steps: seq<Step>)
    ensures var w := Run(START, steps);
            && |w.taken| == |Turns(w)| + Overrun(START, steps)
            && (Turns(w) == w.taken <==> Overrun(START, steps) == 0)
  {
    TurnsOfRun(START, steps);
  }

  /** The buffers that had or wait for their turn are some of those taken, in order, and the latest is one of them. */
  ghost predicate LatestHasTurn(w: World) {
    && Subsequence(Turns(w), w.taken)
    && (w.taken != [] ==> Turns(w) != [] && Turns(w)[|Turns(w)| - 1] == w.taken[|w.taken| - 1])
  }

  lemma StepKeepsLatest(w: World, step: Step)
    requires LatestHasTurn(w)
    ensures LatestHasTurn(After(w, step))
  {
    TurnsAfter(w, step);
    if step.Accept? {
      var rendered := RenderedIn(w.log);
      assert rendered + [] == rendered;
      if w.state.pending.Some? {
        WithoutLast(rendered, w.state.pending.value, w.taken);
      }
      BothLonger(rendered, w.taken, step.buffer);
    }
  }

  lemma {:induction false} LatestIsNotLost(w: World, steps: seq<Step>)
    requires LatestHasTurn(w)
    ensures LatestHasTurn(Run(w, steps))
    decreases |steps|
  {
    if steps != [] {
      StepKeepsLatest(w, steps[0]);
      LatestIsNotLost(After(w, steps[0]), steps[1..]);
    }
  }

  /** The buffers reported released, in order. */
  function ReleasedIn(log: seq<Report>): seq<Buffer>
    decreases |log|
  {
    if log == [] then []
    else
      var last := log[|log| - 1];
      ReleasedIn(log[..|log| - 1]) + if last.Released? then [last.buffer] else []
  }

  lemma {:induction false} AllButTheLast(log: seq<Report>)
    requires |log| % 2 == 1 && forall i :: 0 <= i < |log| ==> InTurn(log, i)
    ensures RenderedIn(log) == ReleasedIn(log) + [log[|log| - 1].buffer]
    decreases |log|
  {
    var n := |log|;
    assert InTurn(log, n - 1);
    if n > 1 {
      var before := log[..n - 2];
      assert InTurn(log, n - 2);
      forall i | 0 <= i < n - 2
        ensures InTurn(before, i)
      {
        assert InTurn(log, i);
      }
      AllButTheLast(before);
      assert log[..n - 1][..n - 2] == before;
    } else {
      assert log[..0] == [];
    }
  }

  /** In every run the reports go one buffer after the other, and every rendered buffer but the one on screen was
      released once. */
  lemma RunsArePaced(steps: seq<Step>)
    requires Possible(START, steps)
    ensures var w := Run(START, steps);
            Paced(w) && RenderedIn(w.log) == ReleasedIn(w.log) + List(w.state.committed)
  {
    RunKeepsPace(START, steps);
    var w := Run(START, steps);
    if w.log != [] {
      AllButTheLast(w.log);
    }
  }

  /** After any run a buffer that waits can be rendered as soon as the interval is over; and every fire renders the
      buffer that waits, releases the one on screen before it, and turns the source off. */
  lemma FireRenders(steps: seq<Step>, t: int)
    requires Possible(START, steps) && Run(START, steps).now <= t
    ensures var w, next := Run(START, steps), After(Run(START, steps), Fire(t));
            && (w.state.pending.Some? && w.state.lastFrame + INTERVAL <= t ==> Enabled(w, Fire(t)))
            && (Enabled(w, Fire(t)) ==>
                  && w.state.pending.Some? && next.state.committed == w.state.pending
                  && next.state.pending.None? && next.state.ready.None?
                  && RenderedIn(next.log) == RenderedIn(w.log) + List(w.state.pending)
                  && ReleasedIn(next.log) == ReleasedIn(w.log) + List(w.state.committed))
  {
    RunsArePaced(steps);
    var w := Run(START, steps);
    var next := After(w, Fire(t));
    if Enabled(w, Fire(t)) {
      TurnsAfter(w, Fire(t));
      assert RenderedIn(next.log) + [] == RenderedIn(next.log);
      ReleasedAfter(w.log, w.state, t);
    }
  }

  lemma ReleasedAfter(log: seq<Report>, s: State, t: int)
    requires s.pending.Some?
    ensures ReleasedIn(log + Reports(s, t)) == ReleasedIn(log) + List(s.committed)
  {
    var rendered := log + Reports(s, t);
    var n := |rendered|;
    if s.committed.None? {
      assert rendered[..n - 1] == log;
    } else {
      var released := rendered[..n - 1];
      assert released[..n - 2] == log && released[n - 2] == Released(s.committed.value);
    }
    assert rendered[n - 1] == Rendered(s.pending.value, t);
  }
}
