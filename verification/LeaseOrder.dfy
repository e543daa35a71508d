/** The order of the UI lease: while a lane stays queued, nobody behind it gets the lock. */
module LeaseOrder {
  import opened Common
  import opened QueueFile
  import opened Lease
  import opened LeaseHolder

  /** a is queued, and no b is before it. */
  predicate Before(queue: seq<Lane>, a: Lane, b: Lane) {
    queue != [] && (queue[0] == a || (queue[0] != b && Before(queue[1..], a, b)))
  }

  lemma {:induction false} BeforeAppended(queue: seq<Lane>, a: Lane, b: Lane, x: Lane)
    requires a != b
    ensures Before(queue + [x], a, b) <==> Before(queue, a, b) || (x == a && b !in queue)
  {
    if queue != [] {
      BeforeAppended(queue[1..], a, b, x);
      assert (queue + [x])[1..] == queue[1..] + [x];
    }
  }

  lemma {:induction false} BeforeRemoved(queue: seq<Lane>, a: Lane, b: Lane, x: Lane)
    requires a != b
    ensures Before(Without(queue, x), a, b) <==> x != a && if x == b then a in queue else Before(queue, a, b)
  {
    if queue != [] {
      var rest := Without(queue[1..], x);
      BeforeRemoved(queue[1..], a, b, x);
      assert Without(queue, x) == if queue[0] == x then rest else [queue[0]] + rest;
      assert ([queue[0]] + rest)[1..] == rest;
    }
  }

  lemma {:induction false} BeforeIsQueued(queue: seq<Lane>, a: Lane, b: Lane)
    requires Before(queue, a, b)
    ensures a in queue
  {
    if queue[0] != a {
      BeforeIsQueued(queue[1..], a, b);
    }
  }

  lemma {:induction false} QueuedIsBefore(queue: seq<Lane>, a: Lane, b: Lane)
    requires a in queue && b !in queue
    ensures Before(queue, a, b)
  {
    assert queue[0] in queue;
    if queue[0] != a {
      QueuedIsBefore(queue[1..], a, b);
    }
  }

  predicate Leaves(s: State, step: Step, a: Lane)
    requires Enabled(s, step)
  {
    step.lane == a && s.pcs[a].Editing? && !s.pcs[a].join
  }

  predicate Acquires(s: State, step: Step, b: Lane)
    requires Enabled(s, step)
  {
    step.lane == b && (s.pcs[b].Try? || s.pcs[b].OldTry?) && step.choice.Go? && s.lock.None?
  }

  predicate EverLeaves(s: State, steps: seq<Step>, a: Lane)
    requires Possible(s, steps)
    decreases |steps|
  {
    steps != [] && (Leaves(s, steps[0], a) || EverLeaves(After(s, steps[0]), steps[1..], a))
  }

  predicate EverAcquires(s: State, steps: seq<Step>, b: Lane)
    requires Possible(s, steps)
    decreases |steps|
  {
    steps != [] && (Acquires(s, steps[0], b) || EverAcquires(After(s, steps[0]), steps[1..], b))
  }

  lemma StepKeepsBefore(s: State, step: Step, a: Lane, b: Lane)
    requires Fair(s) && FairStep(s, step) && a != b && Before(s.queue, a, b) && !Leaves(s, step, a)
    ensures Before(After(s, step).queue, a, b) && !Acquires(s, step, b)
  {
    var p := step.lane;
    assert Settled(s, p);
    if s.pcs[p].Editing? {
      if s.pcs[p].join {
        BeforeAppended(s.queue, a, b, p);
      } else {
        BeforeRemoved(s.queue, a, b, p);
        BeforeIsQueued(s.queue, a, b);
      }
    }
  }

  /** While a lane stays queued, no lane behind it gets the lock, nor any lane that joins later. */
  lemma {:induction false} NoOvertaking(s: State, steps: seq<Step>, a: Lane, b: Lane)
    requires Fair(s) && FairRun(s, steps) && a != b
    requires Before(s.queue, a, b) || (a in s.queue && b !in s.queue)
    ensures Possible(s, steps)
    ensures !EverLeaves(s, steps, a) ==> Before(RunAll(s, steps).queue, a, b) && !EverAcquires(s, steps, b)
    decreases |steps|
  {
    FairRunIsPossible(s, steps);
    if !Before(s.queue, a, b) {
      QueuedIsBefore(s.queue, a, b);
    }
    if steps != [] && !Leaves(s, steps[0], a) {
      StepKeepsBefore(s, steps[0], a, b);
      StepKeepsFair(s, steps[0]);
      NoOvertaking(After(s, steps[0]), steps[1..], a, b);
    }
  }

  /** So it is from any point of a run from the start on. */
  lemma NoOvertakingFromStart(lanes: nat, before: seq<Step>, steps: seq<Step>, a: Lane, b: Lane)
    requires FairRun(Start(lanes), before) && a != b
    ensures Possible(Start(lanes), before)
    ensures var s := RunAll(Start(lanes), before);
            (Before(s.queue, a, b) || (a in s.queue && b !in s.queue)) && FairRun(s, steps) ==>
              && Possible(s, steps)
              && (!EverLeaves(s, steps, a) ==> Before(RunAll(s, steps).queue, a, b) && !EverAcquires(s, steps, b))
  {
    HolderIsFirstFromStart(lanes, before);
    var s := RunAll(Start(lanes), before);
    if (Before(s.queue, a, b) || (a in s.queue && b !in s.queue)) && FairRun(s, steps) {
      NoOvertaking(s, steps, a, b);
    }
  }

  /** Nobody is in the way of the first lane once the lock is free: five steps of its own take it. */
  lemma FirstCanAcquire(s: State, p: Lane) returns (steps: seq<Step>)
    requires p < |s.pcs| && s.pcs[p].Wait? && s.queue != [] && s.queue[0] == p && s.lock.None?
    ensures |steps| == 5 && (forall step :: step in steps ==> step.lane == p)
    ensures FairRun(s, steps) && Possible(s, steps)
    ensures RunAll(s, steps) == s.(lock := Some(p), pcs := Put(s.pcs, p, Run))
  {
    var look := See(s.queue);
    var s1 := After(s, Step(p, Go));
    var s2 := After(s1, Step(p, look));
    var s3 := After(s2, Step(p, look));
    var s4 := After(s3, Step(p, Go));
    var s5 := After(s4, Step(p, Go));
    assert s5.pcs == Put(s.pcs, p, Run);
    steps := [];
    First(s4, Step(p, Go), steps);
    steps := [Step(p, Go)] + steps;
    First(s3, Step(p, Go), steps);
    steps := [Step(p, Go)] + steps;
    First(s2, Step(p, look), steps);
    steps := [Step(p, look)] + steps;
    First(s1, Step(p, look), steps);
    steps := [Step(p, look)] + steps;
    First(s, Step(p, Go), steps);
    steps := [Step(p, Go)] + steps;
  }

  /** A run with one more step in front. */
  lemma First(s: State, step: Step, rest: seq<Step>)
    ensures Enabled(s, step) && Possible(After(s, step), rest) ==>
      Possible(s, [step] + rest) && RunAll(s, [step] + rest) == RunAll(After(s, step), rest)
    ensures FairStep(s, step) && FairRun(After(s, step), rest) ==> FairRun(s, [step] + rest)
  {
    assert ([step] + rest)[1..] == rest;
  }

  lemma FirstLeaves(s: State, step: Step, rest: seq<Step>, a: Lane)
    ensures Enabled(s, step) && Possible(After(s, step), rest) && Possible(s, [step] + rest) ==>
      (EverLeaves(s, [step] + rest, a) <==> Leaves(s, step, a) || EverLeaves(After(s, step), rest, a))
  {
    assert ([step] + rest)[1..] == rest;
  }

  lemma FirstAcquires(s: State, step: Step, rest: seq<Step>, b: Lane)
    ensures Enabled(s, step) && Possible(After(s, step), rest) && Possible(s, [step] + rest) ==>
      (EverAcquires(s, [step] + rest, b) <==> Acquires(s, step, b) || EverAcquires(After(s, step), rest, b))
  {
    assert ([step] + rest)[1..] == rest;
  }
}
