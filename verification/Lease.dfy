/** The UI lease: lanes queue in a file and hold an atomic lock while their command runs. Any number of processes, one
    a lane, take their steps in any order; some may run an older program that edits the same queue without the file
    lock. */
module Lease {
  import opened Common
  import opened QueueFile

  /** A lane's name, by number: different lanes have different names. */
  type Lane = nat

  /** Where a process is. The lease program: Check asks whether it is queued, Edit and Editing rewrite the queue under
      the file lock, Wait is the top of its loop, Head asks who is first, Look whether the lock is there, Try makes
      it, Run is the command, Free drops the lock. The older program: the Old ones. */
  datatype Pc =
    | Idle | Check(first: bool) | Edit(join: bool, next: Pc) | Editing(join: bool, seen: seq<Lane>, next: Pc)
    | Wait | Head | Look | Try | Run | Free
    | OldCheck(first: bool) | OldAppend(first: bool) | OldWait | OldHead | OldTry | OldRun | OldWrite(seen: seq<Lane>)

  /** `editor` holds the file lock, `lock` the lease. */
  datatype State = State(queue: seq<Lane>, editor: Option<Lane>, lock: Option<Lane>, pcs: seq<Pc>)

  /** See: what a reader of the queue saw. GiveUp: a timeout or an interrupt. Quiet: another lane measures. Fail: an
      error other than the lock being there. Old: a process starts the older program. */
  datatype Choice = Go | Old | See(view: seq<Lane>) | GiveUp | Quiet | Fail

  datatype Step = Step(lane: Lane, choice: Choice)

  predicate Reads(pc: Pc) {
    pc.Check? || pc.Edit? || pc.Head? || pc.OldCheck? || pc.OldHead? || pc.OldRun?
  }

  predicate Enabled(s: State, step: Step) {
    step.lane < |s.pcs| &&
    var pc, c := s.pcs[step.lane], step.choice;
    if Reads(pc) then c.See? && (pc.Edit? ==> s.editor.None?)
    else
      match pc
      case Idle => c.Go? || c.Old?
      case Wait => c.Go? || c.GiveUp? || c.Quiet?
      case OldWait => c.Go? || c.GiveUp?
      case Try | OldTry => c.Go? || c.Fail?
      case _ => c.Go?
  }

  function AfterTry(s: State, lane: Lane, run: Pc, wait: Pc): State {
    if s.lock.None? then s.(lock := Some(lane), pcs := Put(s.pcs, lane, run)) else s.(pcs := Put(s.pcs, lane, wait))
  }

  function Put(pcs: seq<Pc>, lane: Lane, pc: Pc): seq<Pc> {
    if lane < |pcs| then pcs[lane := pc] else pcs
  }

  function After(s: State, step: Step): State
    requires Enabled(s, step)
  {
    var p, c := step.lane, step.choice;
    match s.pcs[p]
    case Idle => s.(pcs := Put(s.pcs, p, if c.Old? then OldCheck(true) else Check(true)))
    case Check(first) =>
      var next := if first then Wait else Head;
      s.(pcs := Put(s.pcs, p, if p in c.view then next else Edit(true, next)))
    case Edit(join, next) => s.(editor := Some(p), pcs := Put(s.pcs, p, Editing(join, c.view, next)))
    case Editing(join, seen, next) => s.(queue := Edited(seen, p, join), editor := None, pcs := Put(s.pcs, p, next))
    case Wait =>
      var next := if c.Go? then Check(false) else if c.Quiet? then Edit(false, Wait) else Edit(false, Idle);
      s.(pcs := Put(s.pcs, p, next))
    case Head => s.(pcs := Put(s.pcs, p, if c.view != [] && c.view[0] == p then Look else Wait))
    case Look => s.(pcs := Put(s.pcs, p, if s.lock.Some? then Wait else Try))
    case Try => if c.Fail? then s.(pcs := Put(s.pcs, p, Edit(false, Idle))) else AfterTry(s, p, Run, Wait)
    case Run => s.(pcs := Put(s.pcs, p, Edit(false, Free)))
    case Free => s.(lock := None, pcs := Put(s.pcs, p, Idle))
    case OldCheck(first) =>
      s.(pcs := Put(s.pcs, p, if p !in c.view then OldAppend(first) else if first then OldWait else OldHead))
    case OldAppend(first) => s.(queue := s.queue + [p], pcs := Put(s.pcs, p, if first then OldWait else OldHead))
    case OldWait => s.(pcs := Put(s.pcs, p, if c.Go? then OldCheck(false) else Idle))
    case OldHead => s.(pcs := Put(s.pcs, p, if c.view != [] && c.view[0] != p then OldWait else OldTry))
    case OldTry => if c.Fail? then s.(pcs := Put(s.pcs, p, Idle)) else AfterTry(s, p, OldRun, OldWait)
    case OldRun => s.(pcs := Put(s.pcs, p, OldWrite(c.view)))
    case OldWrite(seen) => s.(queue := Without(seen, p), pcs := Put(s.pcs, p, Free))
  }

  predicate Possible(s: State, steps: seq<Step>)
    decreases |steps|
  {
    steps == [] || (Enabled(s, steps[0]) && Possible(After(s, steps[0]), steps[1..]))
  }

  function RunAll(s: State, steps: seq<Step>): State
    requires Possible(s, steps)
    decreases |steps|
  {
    if steps == [] then s else RunAll(After(s, steps[0]), steps[1..])
  }

  /** Nobody has started, and nobody is queued. */
  function Start(lanes: nat): State {
    State([], None, None, seq(lanes, _ => Idle))
  }

  // ---- One command at a time, whatever the queue holds ----

  predicate Holding(pc: Pc) {
    pc.Run? || pc.Free? || pc.OldRun? || pc.OldWrite? || ((pc.Edit? || pc.Editing?) && pc.next.Free?)
  }

  predicate Shaped(pc: Pc) {
    pc.Edit? || pc.Editing? ==> pc.next.Idle? || pc.next.Wait? || pc.next.Head? || pc.next.Free?
  }

  /** A process is between making and dropping the lock exactly when the lock is its own. */
  ghost predicate Exclusive(s: State) {
    && (forall p :: 0 <= p < |s.pcs| ==> Shaped(s.pcs[p]) && (Holding(s.pcs[p]) <==> s.lock == Some(p)))
    && (s.lock.Some? ==> s.lock.value < |s.pcs|)
  }

  lemma StepKeepsExclusive(s: State, step: Step)
    requires Exclusive(s) && Enabled(s, step)
    ensures Exclusive(After(s, step))
  {
  }

  /** At most one command runs at any time, with old and new programs mixed and whatever the readers see of the
      queue. */
  lemma {:induction false} OneAtATime(s: State, steps: seq<Step>, p: Lane, q: Lane)
    requires Exclusive(s) && Possible(s, steps)
    ensures var t := RunAll(s, steps);
            Exclusive(t) && (p < |t.pcs| && q < |t.pcs| && Holding(t.pcs[p]) && Holding(t.pcs[q]) ==> p == q)
    decreases |steps|
  {
    if steps != [] {
      StepKeepsExclusive(s, steps[0]);
      OneAtATime(After(s, steps[0]), steps[1..], p, q);
    }
  }

  lemma StartIsExclusive(lanes: nat)
    ensures Exclusive(Start(lanes))
  {
  }
}
