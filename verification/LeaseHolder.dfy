/** The lease program alone: its edits of the queue are atomic, and who holds the lock is first in the queue. */
module LeaseHolder {
  import opened Common
  import opened QueueFile
  import opened Lease

  /** What a reader can see of a queue that is rewritten in place: the queue, and after it leftovers of the old one.
      Under the file lock it is just the queue. */
  ghost predicate Honest(s: State, step: Step)
    requires Enabled(s, step)
  {
    step.choice.See? ==>
      && s.queue <= step.choice.view && (s.queue == [] || s.pcs[step.lane].Edit? ==> step.choice.view == s.queue)
  }

  predicate OldPc(pc: Pc) {
    pc.OldCheck? || pc.OldAppend? || pc.OldWait? || pc.OldHead? || pc.OldTry? || pc.OldRun? || pc.OldWrite?
  }

  /** From seeing itself first until its own leave. */
  predicate Leads(pc: Pc) {
    pc.Look? || pc.Try? || pc.Run? || ((pc.Edit? || pc.Editing?) && pc.next.Free?)
  }

  /** Not started, ended, or past its own leave. */
  predicate Gone(pc: Pc) {
    pc.Idle? || pc.Free?
  }

  ghost predicate Settled(s: State, p: Lane)
    requires p < |s.pcs|
  {
    var pc := s.pcs[p];
    && !OldPc(pc)
    && (pc.Editing? <==> s.editor == Some(p)) && (pc.Editing? ==> pc.seen == s.queue)
    && (Leads(pc) ==> s.queue != [] && s.queue[0] == p)
    && (Gone(pc) ==> p !in s.queue)
    && (pc.Edit? || pc.Editing? ==> if pc.join then pc.next.Wait? || pc.next.Head? else !pc.next.Head?)
  }

  /** Edits of the queue are atomic, nobody is queued twice, a process that leads is first in the queue, and one that is
      gone is not in it. */
  ghost predicate Fair(s: State) {
    && Exclusive(s) && Distinct(s.queue) && (s.editor.Some? ==> s.editor.value < |s.pcs|)
    && forall p :: 0 <= p < |s.pcs| ==> Settled(s, p)
  }

  /** Nobody is queued twice. */
  ghost predicate Distinct(queue: seq<Lane>) {
    queue == [] || (queue[0] !in queue[1..] && Distinct(queue[1..]))
  }

  lemma {:induction false} AppendKeepsDistinct(queue: seq<Lane>, p: Lane)
    requires Distinct(queue) && p !in queue
    ensures Distinct(queue + [p])
  {
    if queue != [] {
      AppendKeepsDistinct(queue[1..], p);
      assert (queue + [p])[1..] == queue[1..] + [p];
    }
  }

  lemma {:induction false} WithoutKeepsDistinct(queue: seq<Lane>, p: Lane)
    requires Distinct(queue)
    ensures Distinct(Without(queue, p))
  {
    if queue != [] {
      var rest := Without(queue[1..], p);
      WithoutKeepsDistinct(queue[1..], p);
      assert Without(queue, p) == if queue[0] == p then rest else [queue[0]] + rest;
      assert ([queue[0]] + rest)[1..] == rest;
    }
  }

  lemma QueueStaysDistinct(s: State, step: Step)
    requires Fair(s) && FairStep(s, step)
    ensures Distinct(After(s, step).queue)
  {
    var p := step.lane;
    assert Settled(s, p);
    WithoutKeepsDistinct(s.queue, p);
    if p !in s.queue {
      AppendKeepsDistinct(s.queue, p);
    }
  }

  ghost predicate FairStep(s: State, step: Step) {
    Enabled(s, step) && !step.choice.Old? && Honest(s, step)
  }

  ghost predicate FairRun(s: State, steps: seq<Step>)
    decreases |steps|
  {
    steps == [] || (FairStep(s, steps[0]) && FairRun(After(s, steps[0]), steps[1..]))
  }

  lemma FirstStays(queue: seq<Lane>, p: Lane, q: Lane, join: bool)
    requires queue != [] && queue[0] == p && p != q
    ensures Edited(queue, q, join) != [] && Edited(queue, q, join)[0] == p
  {
  }

  /** The process that steps. */
  lemma OwnStep(s: State, step: Step)
    requires Fair(s) && FairStep(s, step)
    ensures Settled(After(s, step), step.lane)
  {
    assert Settled(s, step.lane);
  }

  /** Another process. */
  lemma OtherStep(s: State, step: Step, p: Lane)
    requires Fair(s) && FairStep(s, step) && p < |s.pcs| && p != step.lane
    ensures Settled(After(s, step), p)
  {
    assert Settled(s, p) && Settled(s, step.lane);
    var pc := s.pcs[step.lane];
    if pc.Editing? && Leads(s.pcs[p]) {
      FirstStays(s.queue, p, step.lane, pc.join);
    }
  }

  lemma StepKeepsFair(s: State, step: Step)
    requires Fair(s) && FairStep(s, step)
    ensures Fair(After(s, step))
  {
    StepKeepsExclusive(s, step);
    QueueStaysDistinct(s, step);
    forall p | 0 <= p < |s.pcs|
      ensures Settled(After(s, step), p)
    {
      if p == step.lane {
        OwnStep(s, step);
      } else {
        OtherStep(s, step, p);
      }
    }
  }

  lemma {:induction false} FairRunIsPossible(s: State, steps: seq<Step>)
    requires FairRun(s, steps)
    ensures Possible(s, steps)
    decreases |steps|
  {
    if steps != [] {
      FairRunIsPossible(After(s, steps[0]), steps[1..]);
    }
  }

  /** In every run of the lease program the holder is first in the queue from making the lock until its own leave, which
      comes before it drops the lock; and whoever has ended is not in the queue. */
  lemma {:induction false} HolderIsFirst(s: State, steps: seq<Step>)
    requires Fair(s) && FairRun(s, steps)
    ensures Possible(s, steps)
    ensures var t := RunAll(s, steps);
            && Fair(t) && (forall p :: 0 <= p < |t.pcs| && Leads(t.pcs[p]) ==> t.queue != [] && t.queue[0] == p)
            && forall p :: 0 <= p < |t.pcs| && Gone(t.pcs[p]) ==> p !in t.queue
    decreases |steps|
  {
    if steps == [] {
      forall p | 0 <= p < |s.pcs|
        ensures Leads(s.pcs[p]) ==> s.queue != [] && s.queue[0] == p
        ensures Gone(s.pcs[p]) ==> p !in s.queue
      {
        assert Settled(s, p);
      }
    } else {
      StepKeepsFair(s, steps[0]);
      HolderIsFirst(After(s, steps[0]), steps[1..]);
    }
  }

  lemma StartIsFair(lanes: nat)
    ensures Fair(Start(lanes))
  {
    StartIsExclusive(lanes);
    forall p | 0 <= p < lanes
      ensures Settled(Start(lanes), p)
    {
      assert Start(lanes).pcs[p] == Idle;
    }
  }

  /** So it is in every run from the start. */
  lemma HolderIsFirstFromStart(lanes: nat, steps: seq<Step>)
    requires FairRun(Start(lanes), steps)
    ensures Possible(Start(lanes), steps)
    ensures var t := RunAll(Start(lanes), steps);
            && Fair(t) && (forall p :: 0 <= p < |t.pcs| && Leads(t.pcs[p]) ==> t.queue != [] && t.queue[0] == p)
            && forall p :: 0 <= p < |t.pcs| && Gone(t.pcs[p]) ==> p !in t.queue
  {
    StartIsFair(lanes);
    HolderIsFirst(Start(lanes), steps);
  }
}
