/** The companion's event queue: producers on any thread push under a lock and wake the script thread when the queue was
    empty; one wake pops until the queue is empty. */
module EventQueue {
  import opened Common
  import Json

  /** The text of an event, a char for each byte. */
  type Event = string

  const MAX_BYTES := 65536
  const MAX_EVENTS := 512

  predicate Accepts(queued: seq<Event>, event: Event) {
    |event| <= MAX_BYTES && |queued| < MAX_EVENTS
  }

  class Queue {
    var queued: seq<Event>

    constructor ()
      ensures queued == []
    {
      queued := [];
    }

    /** Push, and tell whether to wake the script thread. */
    method Emit(event: Event) returns (wake: bool)
      modifies this
      ensures queued == if Accepts(old(queued), event) then old(queued) + [event] else old(queued)
      ensures wake <==> old(queued) == [] && queued != []
    {
      wake := false;
      if |event| > MAX_BYTES {
        return;
      }
      if |queued| < MAX_EVENTS {
        wake := |queued| == 0;
        queued := queued + [event];
      }
    }

    method Next() returns (event: Option<Event>)
      modifies this
      ensures event == if old(queued) == [] then None else Some(old(queued)[0])
      ensures queued == if old(queued) == [] then [] else old(queued)[1..]
    {
      if queued == [] {
        return None;
      }
      event := Some(queued[0]);
      queued := queued[1..];
    }
  }

  /** What texts the script can parse. */
  type Parses = Event -> bool

  /** How many events are popped by a drain: up to the first that cannot be parsed, or all. */
  function Taken(events: seq<Event>, parses: Parses): (n: nat)
    ensures n <= |events|
    ensures forall i :: 0 <= i < n - 1 ==> parses(events[i])
    ensures n == |events| || (0 < n && !parses(events[n - 1]))
  {
    if events == [] then 0
    else if !parses(events[0]) then 1
    else 1 + Taken(events[1..], parses)
  }

  ghost predicate AllParse(parses: Parses, events: seq<Event>) {
    forall e :: e in events ==> parses(e)
  }

  /** The script's wake callback. An event that cannot be parsed throws, and leaves the rest in the queue. */
  method Drain(queue: Queue, parses: Parses) returns (popped: seq<Event>, thrown: bool)
    modifies queue
    ensures popped == old(queue.queued)[..Taken(old(queue.queued), parses)]
    ensures queue.queued == old(queue.queued)[Taken(old(queue.queued), parses)..]
    ensures thrown <==> !AllParse(parses, popped)
  {
    popped, thrown := [], false;
    ghost var all := queue.queued;
    while true
      invariant !thrown && all == popped + queue.queued && AllParse(parses, popped)
      decreases |queue.queued|
    {
      var raw := queue.Next();
      if raw.None? {
        TookAll(all, popped, parses);
        break;
      }
      ghost var before := popped;
      popped := popped + [raw.value];
      if !parses(raw.value) {
        TookUpTo(all, before, raw.value, queue.queued, parses);
        thrown := true;
        break;
      }
    }
  }

  lemma TookAll(all: seq<Event>, popped: seq<Event>, parses: Parses)
    requires all == popped && AllParse(parses, popped)
    ensures popped == all[..Taken(all, parses)] && all[Taken(all, parses)..] == []
  {
    TakenIs(all, parses, |all|);
  }

  lemma TookUpTo(all: seq<Event>, before: seq<Event>, bad: Event, rest: seq<Event>, parses: Parses)
    requires all == before + [bad] + rest && AllParse(parses, before) && !parses(bad)
    ensures before + [bad] == all[..Taken(all, parses)] && rest == all[Taken(all, parses)..]
    ensures !AllParse(parses, before + [bad])
  {
    var n := |before| + 1;
    assert all[n - 1] == bad && bad in before + [bad];
    assert forall i :: 0 <= i < n - 1 ==> all[i] == before[i] && before[i] in before;
    TakenIs(all, parses, n);
  }

  lemma {:induction false} TakenIs(events: seq<Event>, parses: Parses, n: nat)
    requires n <= |events|
    requires forall i :: 0 <= i < n - 1 ==> parses(events[i])
    requires n == |events| || (0 < n && !parses(events[n - 1]))
    ensures Taken(events, parses) == n
  {
    if events != [] && parses(events[0]) {
      assert n != 0;
      TakenIs(events[1..], parses, n - 1);
    }
  }

  // ---- Producers and the script thread, interleaved ----

  /** `owed`: producers past their push that have yet to signal; `sent`: wakes signalled and not yet delivered. */
  datatype State =
    State(queued: seq<Event>, owed: nat, sent: nat, draining: bool, accepted: seq<Event>, popped: seq<Event>)

  const IDLE := State([], 0, 0, false, [], [])

  /** Emit: a producer's push. Signal: its wake. Deliver: the script thread starts a drain. Pop: the drain takes an
      event that parses, or ends on the empty queue. Throw: the drain takes an event that does not parse, and ends. */
  datatype Step = Emit(event: Event) | Signal | Deliver | Pop | Throw

  predicate Enabled(parses: Parses, s: State, step: Step) {
    match step
    case Emit(_) => true
    case Signal => s.owed > 0
    case Deliver => s.sent > 0 && !s.draining
    case Pop => s.draining && (s.queued == [] || parses(s.queued[0]))
    case Throw => s.draining && s.queued != [] && !parses(s.queued[0])
  }

  function After(parses: Parses, s: State, step: Step): State
    requires Enabled(parses, s, step)
  {
    match step
    case Emit(e) =>
      if !Accepts(s.queued, e) then s
      else
        var owed := if s.queued == [] then s.owed + 1 else s.owed;
        s.(queued := s.queued + [e], accepted := s.accepted + [e], owed := owed)
    case Signal => s.(owed := s.owed - 1, sent := s.sent + 1)
    case Deliver => s.(sent := s.sent - 1, draining := true)
    case Pop =>
      if s.queued == [] then s.(draining := false)
      else s.(queued := s.queued[1..], popped := s.popped + [s.queued[0]])
    case Throw => s.(queued := s.queued[1..], popped := s.popped + [s.queued[0]], draining := false)
  }

  predicate Possible(parses: Parses, s: State, steps: seq<Step>)
    decreases |steps|
  {
    steps == [] || (Enabled(parses, s, steps[0]) && Possible(parses, After(parses, s, steps[0]), steps[1..]))
  }

  function Run(parses: Parses, s: State, steps: seq<Step>): State
    requires Possible(parses, s, steps)
    decreases |steps|
  {
    if steps == [] then s else Run(parses, After(parses, s, steps[0]), steps[1..])
  }

  /** A run with one more step at its end. */
  lemma {:induction false} OneMore(parses: Parses, s: State, steps: seq<Step>, step: Step)
    requires Possible(parses, s, steps) && Enabled(parses, Run(parses, s, steps), step)
    ensures Possible(parses, s, steps + [step])
    ensures Run(parses, s, steps + [step]) == After(parses, Run(parses, s, steps), step)
    decreases |steps|
  {
    if steps == [] {
      assert steps + [step] == [step] && [step][1..] == steps;
    } else {
      assert (steps + [step])[0] == steps[0] && (steps + [step])[1..] == steps[1..] + [step];
      OneMore(parses, After(parses, s, steps[0]), steps[1..], step);
    }
  }

  /** Nothing is lost, doubled or reordered; the queue and its events are bounded. */
  ghost predicate Ordered(s: State) {
    && s.popped + s.queued == s.accepted && |s.queued| <= MAX_EVENTS
    && forall e :: e in s.accepted ==> |e| <= MAX_BYTES
  }

  lemma StepKeepsOrder(parses: Parses, s: State, step: Step)
    requires Ordered(s) && Enabled(parses, s, step)
    ensures Ordered(After(parses, s, step))
  {
    if s.queued != [] {
      assert s.queued == [s.queued[0]] + s.queued[1..];
      assert s.popped + [s.queued[0]] + s.queued[1..] == s.accepted;
    }
    if step.Emit? && Accepts(s.queued, step.event) {
      assert s.popped + (s.queued + [step.event]) == s.accepted + [step.event];
    }
  }

  lemma {:induction false} RunKeepsOrder(parses: Parses, s: State, steps: seq<Step>)
    requires Ordered(s) && Possible(parses, s, steps)
    ensures Ordered(Run(parses, s, steps))
    decreases |steps|
  {
    if steps != [] {
      StepKeepsOrder(parses, s, steps[0]);
      RunKeepsOrder(parses, After(parses, s, steps[0]), steps[1..]);
    }
  }

  // ---- The drain is such a run ----

  /** The steps of a drain of these events that no push falls into. */
  function DrainSteps(parses: Parses, events: seq<Event>): seq<Step> {
    if events == [] then [Pop]
    else if parses(events[0]) then [Pop] + DrainSteps(parses, events[1..])
    else [Throw]
  }

  lemma {:induction false} PopsAreARun(parses: Parses, s: State)
    requires s.draining
    ensures var n, steps := Taken(s.queued, parses), DrainSteps(parses, s.queued);
            && Possible(parses, s, steps)
            && Run(parses, s, steps)
                 == s.(draining := false, queued := s.queued[n..], popped := s.popped + s.queued[..n])
    decreases |s.queued|
  {
    var steps, n := DrainSteps(parses, s.queued), Taken(s.queued, parses);
    if s.queued == [] {
      assert steps == [Pop] && steps[1..] == [] && s.popped + [] == s.popped;
    } else if parses(s.queued[0]) {
      var t := After(parses, s, Pop);
      PopsAreARun(parses, t);
      assert steps[0] == Pop && steps[1..] == DrainSteps(parses, t.queued);
      assert s.popped + [s.queued[0]] + s.queued[1..][..n - 1] == s.popped + s.queued[..n];
    } else {
      assert steps == [Throw] && steps[1..] == [] && s.queued[..1] == [s.queued[0]];
    }
  }

  /** What `Drain` does to the queue is what a delivered wake and the drain's steps do. */
  lemma DrainIsARun(parses: Parses, s: State)
    requires s.sent > 0 && !s.draining
    ensures var n, steps := Taken(s.queued, parses), [Deliver] + DrainSteps(parses, s.queued);
            && Possible(parses, s, steps)
            && Run(parses, s, steps)
                 == s.(sent := s.sent - 1, queued := s.queued[n..], popped := s.popped + s.queued[..n])
  {
    var steps := [Deliver] + DrainSteps(parses, s.queued);
    assert steps[1..] == DrainSteps(parses, s.queued);
    PopsAreARun(parses, After(parses, s, Deliver));
  }

  // ---- Wakes ----

  /** Events wait, and nothing will wake the script thread. */
  predicate Stuck(s: State) {
    s.queued != [] && s.owed == 0 && s.sent == 0 && !s.draining
  }

  /** Once stuck, a run of any steps pops nothing more. */
  lemma {:induction false} StuckForever(parses: Parses, s: State, steps: seq<Step>)
    requires Stuck(s) && Possible(parses, s, steps)
    ensures Stuck(Run(parses, s, steps)) && Run(parses, s, steps).popped == s.popped
    decreases |steps|
  {
    if steps != [] {
      StuckForever(parses, After(parses, s, steps[0]), steps[1..]);
    }
  }

  /** The script is stuck only behind an event that does not parse. */
  ghost predicate StuckBehind(parses: Parses, s: State) {
    Stuck(s) ==> s.popped != [] && !parses(s.popped[|s.popped| - 1])
  }

  lemma {:induction false} RunIsStuckBehind(parses: Parses, s: State, steps: seq<Step>)
    requires StuckBehind(parses, s) && Possible(parses, s, steps)
    ensures StuckBehind(parses, Run(parses, s, steps))
    decreases |steps|
  {
    if steps != [] {
      RunIsStuckBehind(parses, After(parses, s, steps[0]), steps[1..]);
    }
  }

  /** In every interleaving whose accepted events all parse, waiting events have a wake owed, a wake on its way or a
      drain under way. */
  lemma NoLostWake(parses: Parses, steps: seq<Step>)
    requires Possible(parses, IDLE, steps)
    ensures AllParse(parses, Run(parses, IDLE, steps).accepted) ==> !Stuck(Run(parses, IDLE, steps))
  {
    var s := Run(parses, IDLE, steps);
    RunKeepsOrder(parses, IDLE, steps);
    RunIsStuckBehind(parses, IDLE, steps);
    if s.popped != [] {
      assert s.accepted[|s.popped| - 1] == s.popped[|s.popped| - 1];
    }
  }

  /** A throw that leaves events behind with no wake on its way. */
  predicate LosesWake(s: State, step: Step) {
    step.Throw? && |s.queued| > 1 && s.owed == 0 && s.sent == 0
  }

  predicate EverLosesWake(parses: Parses, s: State, steps: seq<Step>)
    requires Possible(parses, s, steps)
    decreases |steps|
  {
    steps != [] && (LosesWake(s, steps[0]) || EverLosesWake(parses, After(parses, s, steps[0]), steps[1..]))
  }

  /** A given run ends stuck exactly when some throw of it left events behind with no wake on its way. */
  lemma {:induction false} StuckByAThrow(parses: Parses, s: State, steps: seq<Step>)
    requires !Stuck(s) && Possible(parses, s, steps)
    ensures Stuck(Run(parses, s, steps)) <==> EverLosesWake(parses, s, steps)
    decreases |steps|
  {
    if steps != [] {
      var next := After(parses, s, steps[0]);
      if Stuck(next) {
        StuckForever(parses, next, steps[1..]);
      } else {
        StuckByAThrow(parses, next, steps[1..]);
      }
    }
  }

  /** The companion's objects of texts, whole numbers and flags parse, so they never lose a wake. */
  lemma ObjectsNeverLoseWakes(steps: seq<Step>)
    requires Possible(Json.IsObject, IDLE, steps)
    requires forall e :: e in Run(Json.IsObject, IDLE, steps).accepted ==> Json.IsWritten(e)
    ensures !Stuck(Run(Json.IsObject, IDLE, steps))
  {
    forall e | e in Run(Json.IsObject, IDLE, steps).accepted
      ensures Json.IsObject(e)
    {
      Json.WrittenIsObject(e);
    }
    NoLostWake(Json.IsObject, steps);
  }

  /** The run accepts these events, and ends stuck with those from n on. */
  ghost predicate Loses(parses: Parses, events: seq<Event>, n: nat, steps: seq<Step>)
    requires n <= |events|
  {
    && Possible(parses, IDLE, steps) && Stuck(Run(parses, IDLE, steps))
    && Run(parses, IDLE, steps).accepted == events && Run(parses, IDLE, steps).queued == events[n..]
  }

  /** The last event before n does not parse, and the events from n on are some, and as many as the queue holds. */
  predicate Blocks(parses: Parses, events: seq<Event>, n: nat) {
    0 < n < |events| <= n + MAX_EVENTS && !parses(events[n - 1])
  }

  /** The events from n on can be lost for good, in some interleaving that accepts these events, exactly when the one
      before them does not parse. */
  lemma LossIsExact(parses: Parses, events: seq<Event>, n: nat)
    requires n <= |events| && forall e :: e in events ==> |e| <= MAX_BYTES
    ensures (exists steps :: Loses(parses, events, n, steps)) <==> Blocks(parses, events, n)
  {
    if Blocks(parses, events, n) {
      var steps := LosingRun(parses, events, n);
    }
    if steps :| Loses(parses, events, n, steps) {
      var s := Run(parses, IDLE, steps);
      RunKeepsOrder(parses, IDLE, steps);
      RunIsStuckBehind(parses, IDLE, steps);
      assert |s.popped| == n && s.accepted[n - 1] == s.popped[n - 1];
    }
  }

  /** A run that has popped all it accepted, and rests. */
  function Rest(events: seq<Event>): State {
    State([], 0, 0, false, events, events)
  }

  /** One event alone goes through, even when it does not parse. */
  lemma Round(parses: Parses, before: seq<Step>, events: seq<Event>, e: Event) returns (steps: seq<Step>)
    requires Possible(parses, IDLE, before) && Run(parses, IDLE, before) == Rest(events) && |e| <= MAX_BYTES
    ensures Possible(parses, IDLE, steps) && Run(parses, IDLE, steps) == Rest(events + [e])
  {
    steps := Pushed(parses, before, events, e);
    steps := Woken(parses, steps);
    if parses(e) {
      OneMore(parses, IDLE, steps, Pop);
      steps := steps + [Pop];
      OneMore(parses, IDLE, steps, Pop);
      steps := steps + [Pop];
    } else {
      OneMore(parses, IDLE, steps, Throw);
      steps := steps + [Throw];
    }
  }

  lemma Pushed(parses: Parses, before: seq<Step>, events: seq<Event>, e: Event) returns (steps: seq<Step>)
    requires Possible(parses, IDLE, before) && Run(parses, IDLE, before) == Rest(events) && |e| <= MAX_BYTES
    ensures Possible(parses, IDLE, steps)
    ensures Run(parses, IDLE, steps) == State([e], 1, 0, false, events + [e], events)
  {
    OneMore(parses, IDLE, before, Emit(e));
    steps := before + [Emit(e)];
  }

  lemma Woken(parses: Parses, before: seq<Step>) returns (steps: seq<Step>)
    requires Possible(parses, IDLE, before)
    requires var s := Run(parses, IDLE, before); s.owed == 1 && s.sent == 0 && !s.draining
    ensures Possible(parses, IDLE, steps)
    ensures Run(parses, IDLE, steps) == Run(parses, IDLE, before).(owed := 0, draining := true)
  {
    OneMore(parses, IDLE, before, Signal);
    steps := before + [Signal];
    OneMore(parses, IDLE, steps, Deliver);
    steps := steps + [Deliver];
  }

  lemma {:induction false} Rounds(parses: Parses, events: seq<Event>) returns (steps: seq<Step>)
    requires forall e :: e in events ==> |e| <= MAX_BYTES
    ensures Possible(parses, IDLE, steps) && Run(parses, IDLE, steps) == Rest(events)
    decreases |events|
  {
    if events == [] {
      steps := [];
    } else {
      var init, last := events[..|events| - 1], events[|events| - 1];
      steps := Rounds(parses, init);
      steps := Round(parses, steps, init, last);
      assert init + [last] == events;
    }
  }

  /** The events before n - 1 one by one, then that one and the next before the wake, then the others. */
  lemma {:induction false} LosingRun(parses: Parses, events: seq<Event>, n: nat) returns (steps: seq<Step>)
    requires Blocks(parses, events, n) && forall e :: e in events ==> |e| <= MAX_BYTES
    ensures Loses(parses, events, n, steps)
    decreases |events|
  {
    var init, last := events[..|events| - 1], events[|events| - 1];
    if |events| == n + 1 {
      steps := LoseOne(parses, events[..n - 1], events[n - 1], last);
      assert events == events[..n - 1] + [events[n - 1]] + [last] && events[n..] == [last];
    } else {
      assert init[n - 1] == events[n - 1];
      steps := LosingRun(parses, init, n);
      OneMore(parses, IDLE, steps, Emit(last));
      steps := steps + [Emit(last)];
      assert init + [last] == events && init[n..] + [last] == events[n..];
    }
  }

  lemma LoseOne(parses: Parses, before: seq<Event>, bad: Event, next: Event) returns (steps: seq<Step>)
    requires !parses(bad) && |bad| <= MAX_BYTES && |next| <= MAX_BYTES && forall e :: e in before ==> |e| <= MAX_BYTES
    ensures Possible(parses, IDLE, steps)
    ensures Run(parses, IDLE, steps) == State([next], 0, 0, false, before + [bad] + [next], before + [bad])
  {
    steps := Rounds(parses, before);
    steps := Pushed(parses, steps, before, bad);
    OneMore(parses, IDLE, steps, Emit(next));
    steps := steps + [Emit(next)];
    steps := Woken(parses, steps);
    OneMore(parses, IDLE, steps, Throw);
    steps := steps + [Throw];
  }

  // ---- Every event arrives ----

  /** What is left to do before the next push. */
  function Work(s: State): nat {
    3 * s.owed + 2 * s.sent + |s.queued| + if s.draining then 1 else 0
  }

  predicate Quiet(parses: Parses, s: State) {
    && !Enabled(parses, s, Signal) && !Enabled(parses, s, Deliver)
    && !Enabled(parses, s, Pop) && !Enabled(parses, s, Throw)
  }

  lemma {:induction false} WorkEnds(parses: Parses, s: State, steps: seq<Step>)
    requires Ordered(s) && Possible(parses, s, steps) && forall step :: step in steps ==> !step.Emit?
    ensures |steps| <= Work(s) && Run(parses, s, steps).accepted == s.accepted
    ensures Quiet(parses, Run(parses, s, steps)) && !Stuck(Run(parses, s, steps)) ==>
      Run(parses, s, steps).popped == s.accepted
    decreases |steps|
  {
    if steps != [] {
      StepKeepsOrder(parses, s, steps[0]);
      WorkEnds(parses, After(parses, s, steps[0]), steps[1..]);
    } else {
      assert s.queued == [] ==> s.popped + s.queued == s.popped;
    }
  }

  /** After any run whose accepted events parse, the threads stop after finitely many steps without a push, and then
      every accepted event was popped, in order. */
  lemma EverythingArrives(parses: Parses, s: State, steps: seq<Step>)
    requires Ordered(s) && StuckBehind(parses, s) && AllParse(parses, s.accepted)
    requires Possible(parses, s, steps) && forall step :: step in steps ==> !step.Emit?
    ensures |steps| <= Work(s)
    ensures Quiet(parses, Run(parses, s, steps)) ==> Run(parses, s, steps).popped == s.accepted
  {
    var t := Run(parses, s, steps);
    WorkEnds(parses, s, steps);
    RunKeepsOrder(parses, s, steps);
    RunIsStuckBehind(parses, s, steps);
    if t.popped != [] {
      assert t.accepted[|t.popped| - 1] == t.popped[|t.popped| - 1];
    }
  }
}
