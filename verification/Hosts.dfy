/** The tables of documents: creating and destroying hosts, their frames and their views. A view can outlive its
    host. */
module Hosts {
  import opened Common

  type Id = seq<byte>

  /** A web view, by number; numbers are never used again. */
  type View = nat

  datatype Host = Host(preview: bool, generation: Option<real>, view: View)

  /** A frame record. `view`, which the program does not store, names the view made together with it. */
  datatype Frame = Frame(view: View)

  datatype Event =
    | Created(id: Id, generation: Option<real>)
    | Failed(id: Id)
    | Destroyed(id: Id, generation: Option<real>)

  /** `views`: the document each view still carries, while it exists. `writes`: the frames written, each with the view
      whose buffer it was. */
  datatype State = State(
    hosts: map<Id, Host>, frames: map<Id, Frame>, views: map<View, Option<Id>>, made: nat,
    writes: seq<(Frame, View)>, log: seq<Event>)

  const START := State(map[], map[], map[], 0, [], [])

  const MAX_PREVIEWS := 2

  function Previews(hosts: map<Id, Host>): set<Id> {
    set id | id in hosts && hosts[id].preview
  }

  predicate CanCreate(s: State, id: Id, preview: bool) {
    id !in s.hosts && (preview ==> |Previews(s.hosts)| < MAX_PREVIEWS)
  }

  function Create(s: State, id: Id, preview: bool, generation: Option<real>, engine: bool): State {
    if !CanCreate(s, id, preview) || !engine then s.(log := s.log + [Failed(id)])
    else State(s.hosts[id := Host(preview, generation, s.made)], s.frames[id := Frame(s.made)],
               s.views[s.made := Some(id)], s.made + 1, s.writes, s.log + [Created(id, generation)])
  }

  function Destroy(s: State, id: Id): State {
    if id !in s.hosts then s
    else
      var host := s.hosts[id];
      s.(hosts := s.hosts - {id}, frames := s.frames - {id}, views := s.views[host.view := None],
         log := s.log + [Destroyed(id, host.generation)])
  }

  /** A buffer of a view is copied into the frame of the document the view carries. */
  function Render(s: State, view: View, sane: bool): State {
    if view in s.views && s.views[view].Some? && sane && s.views[view].value in s.frames
    then s.(writes := s.writes + [(s.frames[s.views[view].value], view)])
    else s
  }

  class Companion {
    var hosts: map<Id, Host>
    var frames: map<Id, Frame>
    var views: map<View, Option<Id>>
    var made: nat
    var writes: seq<(Frame, View)>
    var log: seq<Event>

    function Abs(): State
      reads this
    {
      State(hosts, frames, views, made, writes, log)
    }

    constructor ()
      ensures Abs() == START
    {
      hosts, frames, views, made, writes, log := map[], map[], map[], 0, [], [];
    }

    /** The loop over the hosts. */
    method CountPreviews() returns (n: nat)
      ensures n == |Previews(hosts)|
    {
      n := 0;
      var left := hosts.Keys;
      while left != {}
        invariant left <= hosts.Keys
        invariant n == |Previews(hosts) - left|
        decreases |left|
      {
        var id :| id in left;
        if hosts[id].preview {
          assert Previews(hosts) - (left - {id}) == (Previews(hosts) - left) + {id};
          n := n + 1;
        } else {
          assert Previews(hosts) - (left - {id}) == Previews(hosts) - left;
        }
        left := left - {id};
      }
      assert Previews(hosts) - {} == Previews(hosts);
    }

    method CreateHost(id: Id, preview: bool, generation: Option<real>, engine: bool)
      modifies this
      ensures Abs() == Create(old(Abs()), id, preview, generation, engine)
    {
      var previews := CountPreviews();
      if id in hosts || (preview && previews >= MAX_PREVIEWS) {
        log := log + [Failed(id)];
        return;
      }
      if !engine {
        log := log + [Failed(id)];
        return;
      }
      var view := made;
      made := made + 1;
      views := views[view := Some(id)];
      frames := frames[id := Frame(view)];
      hosts := hosts[id := Host(preview, generation, view)];
      log := log + [Created(id, generation)];
    }

    method DestroyHost(id: Id)
      modifies this
      ensures Abs() == Destroy(old(Abs()), id)
    {
      if id !in hosts {
        return;
      }
      var host := hosts[id];
      hosts := hosts - {id};
      views := views[host.view := None];
      frames := frames - {id};
      log := log + [Destroyed(id, host.generation)];
    }

    method RenderBuffer(view: View, sane: bool)
      modifies this
      ensures Abs() == Render(old(Abs()), view, sane)
    {
      if view in views && views[view].Some? && sane {
        var id := views[view].value;
        if id in frames {
          writes := writes + [(frames[id], view)];
        }
      }
    }
  }

  // ---- Runs ----

  /** Gone: a view without a host is freed. */
  datatype Step =
    | CreateStep(id: Id, preview: bool, generation: Option<real>, engine: bool)
    | DestroyStep(id: Id)
    | RenderStep(view: View, sane: bool)
    | GoneStep(view: View)

  predicate Enabled(s: State, step: Step) {
    step.GoneStep? ==> forall id :: id in s.hosts ==> s.hosts[id].view != step.view
  }

  function After(s: State, step: Step): State {
    match step
    case CreateStep(id, preview, generation, engine) => Create(s, id, preview, generation, engine)
    case DestroyStep(id) => Destroy(s, id)
    case RenderStep(view, sane) => Render(s, view, sane)
    case GoneStep(view) => s.(views := s.views - {view})
  }

  predicate Possible(s: State, steps: seq<Step>)
    decreases |steps|
  {
    steps == [] || (Enabled(s, steps[0]) && Possible(After(s, steps[0]), steps[1..]))
  }

  function Run(s: State, steps: seq<Step>): State
    decreases |steps|
  {
    if steps == [] then s else Run(After(s, steps[0]), steps[1..])
  }

  /** Same documents in both tables, at most two previews, and a view carries a document exactly when it is that live
      host's view. */
  ghost predicate Consistent(s: State) {
    && s.hosts.Keys == s.frames.Keys && |Previews(s.hosts)| <= MAX_PREVIEWS
    && (forall view, id :: CarriesDoc(s, view, id) <==> IsHostsView(s, view, id))
    && (forall id :: id in s.hosts ==> s.frames[id] == Frame(s.hosts[id].view))
    && (forall view :: view in s.views ==> view < s.made)
  }

  ghost predicate CarriesDoc(s: State, view: View, id: Id) {
    view in s.views && s.views[view] == Some(id)
  }

  ghost predicate IsHostsView(s: State, view: View, id: Id) {
    id in s.hosts && s.hosts[id].view == view
  }

  /** Every frame was written only by the view made with it. */
  ghost predicate OwnWrites(s: State) {
    forall w :: w in s.writes ==> w.0 == Frame(w.1)
  }

  /** The generation of a document between its created and its destroyed event. */
  function Alive(log: seq<Event>, id: Id): Option<Option<real>> {
    if log == [] then None
    else
      var last := log[|log| - 1];
      if last.id != id || last.Failed? then Alive(log[..|log| - 1], id)
      else if last.Created? then Some(last.generation)
      else None
  }

  /** Created and destroyed events alternate for each document, with the same generation. */
  ghost predicate Follows(log: seq<Event>, e: Event) {
    (e.Created? ==> Alive(log, e.id).None?) && (e.Destroyed? ==> Alive(log, e.id) == Some(e.generation))
  }

  ghost predicate Paired(log: seq<Event>, i: nat)
    requires i < |log|
  {
    Follows(log[..i], log[i])
  }

  function Standing(hosts: map<Id, Host>, id: Id): Option<Option<real>> {
    if id in hosts then Some(hosts[id].generation) else None
  }

  ghost predicate Announced(s: State) {
    && (forall i :: 0 <= i < |s.log| ==> Paired(s.log, i))
    && (forall id :: Alive(s.log, id) == Standing(s.hosts, id))
  }

  lemma AliveAfter(log: seq<Event>, e: Event, id: Id)
    ensures Alive(log + [e], id) ==
      if e.id != id || e.Failed? then Alive(log, id) else if e.Created? then Some(e.generation) else None
  {
    assert (log + [e])[..|log|] == log;
  }

  lemma PairedMore(log: seq<Event>, e: Event)
    requires forall i :: 0 <= i < |log| ==> Paired(log, i)
    requires Follows(log, e)
    ensures forall i :: 0 <= i < |log + [e]| ==> Paired(log + [e], i)
  {
    forall i | 0 <= i < |log + [e]|
      ensures Paired(log + [e], i)
    {
      assert (log + [e])[..i] == log[..i];
      assert i < |log| ==> Paired(log, i);
      assert log[..|log|] == log;
    }
  }

  lemma CreateIsConsistent(s: State, id: Id, preview: bool, generation: Option<real>)
    requires Consistent(s) && CanCreate(s, id, preview)
    ensures Consistent(Create(s, id, preview, generation, true))
  {
    var t := Create(s, id, preview, generation, true);
    assert Previews(t.hosts) == Previews(s.hosts) + if preview then {id} else {};
    forall view, doc
      ensures CarriesDoc(t, view, doc) <==> IsHostsView(t, view, doc)
    {
      assert CarriesDoc(s, view, doc) <==> IsHostsView(s, view, doc);
      assert CarriesDoc(s, s.made, doc) <==> IsHostsView(s, s.made, doc);
    }
  }

  lemma DestroyIsConsistent(s: State, id: Id)
    requires Consistent(s) && id in s.hosts
    ensures Consistent(Destroy(s, id))
  {
    var t, gone := Destroy(s, id), s.hosts[id].view;
    assert CarriesDoc(s, gone, id) <==> IsHostsView(s, gone, id);
    Shrinks(Previews(t.hosts), Previews(s.hosts));
    forall view, doc
      ensures CarriesDoc(t, view, doc) <==> IsHostsView(t, view, doc)
    {
      assert CarriesDoc(s, view, doc) <==> IsHostsView(s, view, doc);
      assert CarriesDoc(s, view, id) <==> IsHostsView(s, view, id);
    }
  }

  lemma {:induction false} Shrinks<T>(a: set<T>, b: set<T>)
    requires a <= b
    ensures |a| <= |b|
  {
    if a != {} {
      var x :| x in a;
      Shrinks(a - {x}, b - {x});
    }
  }

  lemma GoneIsConsistent(s: State, gone: View)
    requires Consistent(s) && Enabled(s, GoneStep(gone))
    ensures Consistent(After(s, GoneStep(gone)))
  {
    var t := After(s, GoneStep(gone));
    forall view, doc
      ensures CarriesDoc(t, view, doc) <==> IsHostsView(t, view, doc)
    {
      assert CarriesDoc(s, view, doc) <==> IsHostsView(s, view, doc);
    }
  }

  lemma StepIsConsistent(s: State, step: Step)
    requires Consistent(s) && Enabled(s, step)
    ensures Consistent(After(s, step))
  {
    match step
    case CreateStep(id, preview, generation, engine) =>
      if CanCreate(s, id, preview) && engine {
        CreateIsConsistent(s, id, preview, generation);
      } else {
        SameTables(s, After(s, step));
      }
    case DestroyStep(id) =>
      if id in s.hosts {
        DestroyIsConsistent(s, id);
      }
    case RenderStep(_, _) => SameTables(s, After(s, step));
    case GoneStep(view) => GoneIsConsistent(s, view);
  }

  lemma SameTables(s: State, t: State)
    requires Consistent(s) && t.hosts == s.hosts && t.frames == s.frames && t.views == s.views && t.made == s.made
    ensures Consistent(t)
  {
    forall view, doc
      ensures CarriesDoc(t, view, doc) <==> IsHostsView(t, view, doc)
    {
      assert CarriesDoc(s, view, doc) <==> IsHostsView(s, view, doc);
    }
  }

  /** A view's buffer lands in its own document's frame or nowhere. */
  lemma RenderIsOwn(s: State, view: View, sane: bool)
    requires Consistent(s) && OwnWrites(s)
    ensures OwnWrites(Render(s, view, sane))
  {
    if view in s.views && s.views[view].Some? {
      assert CarriesDoc(s, view, s.views[view].value) <==> IsHostsView(s, view, s.views[view].value);
    }
  }

  lemma StepIsAnnounced(s: State, step: Step)
    requires Consistent(s) && Announced(s)
    ensures Announced(After(s, step))
  {
    var t := After(s, step);
    if t.log != s.log {
      var e := t.log[|s.log|];
      assert t.log == s.log + [e];
      PairedMore(s.log, e);
      forall id
        ensures Alive(t.log, id) == Standing(t.hosts, id)
      {
        AliveAfter(s.log, e, id);
      }
    }
  }

  /** Every create command is answered by one event: a failure when the document exists, two previews are open or the
      engine is not there, and then nothing else changes; else the document is new. */
  lemma CreateIsAnswered(s: State, id: Id, preview: bool, generation: Option<real>, engine: bool)
    requires Consistent(s)
    ensures var t := Create(s, id, preview, generation, engine);
            if id in s.frames || (preview && |Previews(s.hosts)| == MAX_PREVIEWS) || !engine
            then t == s.(log := s.log + [Failed(id)])
            else t.log == s.log + [Created(id, generation)] && t.hosts.Keys == s.hosts.Keys + {id}
                 && (forall view :: CarriesDoc(t, view, id) ==> view !in s.views)
                 && (forall other :: other in s.hosts ==> t.hosts[other] == s.hosts[other])
  {
    if CanCreate(s, id, preview) && engine {
      CreateIsConsistent(s, id, preview, generation);
      var t := Create(s, id, preview, generation, engine);
      forall view | CarriesDoc(t, view, id)
        ensures view !in s.views
      {
        assert IsHostsView(t, view, id);
      }
    }
  }

  /** A destroyed document is in neither table and no view carries it; the other documents stay as they are. */
  lemma DestroyIsDone(s: State, id: Id)
    requires Consistent(s)
    ensures var t := Destroy(s, id);
            && id !in t.hosts && id !in t.frames && (forall view :: !CarriesDoc(t, view, id))
            && (forall other :: other != id ==>
                  (other in t.hosts <==> other in s.hosts)
                  && (other in s.hosts ==> t.hosts[other] == s.hosts[other] && t.frames[other] == s.frames[other]))
            && t.writes == s.writes
            && t.log == s.log + if id in s.frames then [Destroyed(id, s.hosts[id].generation)] else []
  {
    if id in s.hosts {
      DestroyIsConsistent(s, id);
    }
    var t := Destroy(s, id);
    forall view
      ensures !CarriesDoc(t, view, id)
    {
      assert CarriesDoc(t, view, id) <==> IsHostsView(t, view, id);
    }
  }

  /** A buffer is written exactly when it is sane and its view is that of a live document, into that document's
      frame. */
  lemma RenderIsWritten(s: State, view: View, sane: bool)
    requires Consistent(s)
    ensures var t := Render(s, view, sane);
            && t.(writes := s.writes) == s
            && (forall id :: IsHostsView(s, view, id) && sane ==> t.writes == s.writes + [(s.frames[id], view)])
            && (t.writes != s.writes ==> sane && exists id :: IsHostsView(s, view, id))
  {
    forall id
      ensures CarriesDoc(s, view, id) <==> IsHostsView(s, view, id)
    {
    }
    var t := Render(s, view, sane);
    if t.writes != s.writes {
      assert IsHostsView(s, view, s.views[view].value) by {
        assert CarriesDoc(s, view, s.views[view].value);
      }
    }
  }

  lemma {:induction false} RunKeepsAll(s: State, steps: seq<Step>)
    requires Consistent(s) && OwnWrites(s) && Announced(s) && Possible(s, steps)
    ensures Consistent(Run(s, steps)) && OwnWrites(Run(s, steps)) && Announced(Run(s, steps))
    decreases |steps|
  {
    if steps != [] {
      var step := steps[0];
      StepIsConsistent(s, step);
      StepIsAnnounced(s, step);
      if step.RenderStep? {
        RenderIsOwn(s, step.view, step.sane);
      }
      RunKeepsAll(After(s, step), steps[1..]);
    }
  }

  /** In every run: the tables agree; no view ever wrote into a frame that was not made with it, even when its host is
      gone and another document has the same id; and each document's created and destroyed events alternate. */
  lemma RunsKeepFramesApart(steps: seq<Step>)
    requires Possible(START, steps)
    ensures var s := Run(START, steps); Consistent(s) && OwnWrites(s) && Announced(s)
  {
    assert forall view, id :: !CarriesDoc(START, view, id) && !IsHostsView(START, view, id);
    assert Previews(START.hosts) == {};
    RunKeepsAll(START, steps);
  }
}
