/** The stderr handlers of the fixtures: counters and record lists fed by whatever pieces the pipe delivers. */
module Harness {
  import opened LineText

  const WINDOW: nat := 2048

  const FRAME_TAG: string := "[kybern-frame] "
  const REACT_TAG: string := "[idle] react commit"
  const PACING_TAG: string := "[pacing-commit]"
  const RENDER_TAG: string := "[islands] render "
  const WAKE_TAG: string := "[islands] pre-draw wake "

  const FRAME: seq<Pattern> := [[Segment(FRAME_TAG, Decimal)]]
  const COMMIT: seq<Pattern> := [[Segment(REACT_TAG, Nothing)], [Segment(PACING_TAG, Nothing)]]
  const RENDER: seq<Pattern> := [[Segment(RENDER_TAG, Nothing)]]
  const WAKE: seq<Pattern> := [[Segment(WAKE_TAG, Nothing)]]

  function Last<T>(s: seq<T>, n: nat): seq<T> {
    if |s| <= n then s else s[|s| - n..]
  }

  lemma LastOfLong<T>(a: seq<T>, b: seq<T>, n: nat)
    requires n <= |b|
    ensures Last(a + b, n) == Last(b, n)
  {
    assert (a + b)[|a + b| - n..] == b[|b| - n..];
  }

  lemma LastOfMore<T>(a: seq<T>, b: seq<T>, n: nat)
    ensures Last(Last(a, n) + b, n) == Last(a + b, n)
  {
    if |a| > n {
      var k := |a| - n;
      assert a + b == a[..k] + (a[k..] + b);
      LastOfLong(a[..k], a[k..] + b, n);
    }
  }

  lemma LastOfLast<T>(a: seq<T>, b: seq<T>, n: nat)
    ensures Last(a + Last(b, n), n) == Last(a + b, n)
  {
    if |b| > n {
      LastOfLong(a, b, n);
      LastOfLong(a, Last(b, n), n);
    }
  }

  /** The number a frame match captures, as text. */
  function Time(m: Match): seq<string> {
    if m.captures == [] then [] else [m.captures[0]]
  }

  function Times(matches: seq<Match>): seq<string> {
    if matches == [] then [] else Times(matches[..|matches| - 1]) + Time(matches[|matches| - 1])
  }

  lemma {:induction false} TimesOfAppend(a: seq<Match>, b: seq<Match>)
    ensures Times(a + b) == Times(a) + Times(b)
  {
    if b == [] {
      assert a + b == a;
    } else {
      assert (a + b)[..|a + b| - 1] == a + b[..|b| - 1];
      TimesOfAppend(a, b[..|b| - 1]);
    }
  }

  /** Keeping the last times while reading matches one by one keeps the last of all. */
  lemma PushTime(before: seq<string>, matches: seq<Match>, i: nat)
    requires i < |matches|
    ensures Last(before + Times(matches[..i + 1]), WINDOW)
         == Last(Last(before + Times(matches[..i]), WINDOW) + Time(matches[i]), WINDOW)
  {
    assert matches[..i + 1][..i] == matches[..i];
    LastOfMore(before + Times(matches[..i]), Time(matches[i]), WINDOW);
    assert before + Times(matches[..i + 1]) == before + Times(matches[..i]) + Time(matches[i]);
  }

  /** Every frame match captures its time. */
  lemma {:induction false} FramesHaveTimes(s: string)
    ensures |Times(Scan(FRAME, s))| == |Scan(FRAME, s)|
    decreases |s|
  {
    if s != [] {
      var here, rest := Here(FRAME, s), Scan(FRAME, s[Advance(FRAME, s)..]);
      FramesHaveTimes(s[Advance(FRAME, s)..]);
      TimesOfAppend(here, rest);
      if here != [] {
        assert AnyAt(FRAME, s) == MatchAt(FRAME[0], s);
        assert MatchAt(FRAME[0][1..], s[AfterSegment(FRAME[0][0], s)..]).value == Match(0, []);
        assert here[..0] == [] && Times(here) == Time(here[0]);
      }
    }
  }

  // ---- What one line records ----

  function Region(line: string): seq<string> {
    if Includes(line, "[paint-region]") then [line] else []
  }

  function Gpu(line: string): seq<string> {
    if Includes(line, "[paint-gpu]") then [line] else []
  }

  function Ready(line: string): seq<()> {
    if Includes(line, "[loops-observer-ready]") then [()] else []
  }

  function Visibility(line: string): seq<(bool, string)> {
    if Includes(line, "[loops-visibility]") then [(Includes(line, "visible=1"), From(line, "[loops-visibility]"))]
    else []
  }

  /** The line from the first occurrence of a word on. */
  function From(line: string, word: string): string {
    if line == [] || word <= line then line else From(line[1..], word)
  }

  /** The records kept per line, and the counters kept per match. */
  datatype Records = Records(regions: seq<string>, gpu: seq<string>, visibility: seq<(bool, string)>, ready: bool)
  datatype Counters = Counters(renders: nat, wakes: nat, commits: nat, frames: nat, frameTimes: seq<string>)

  function RecordsOf(lines: seq<string>): Records {
    Records(Each(Region, lines), Each(Gpu, lines), Each(Visibility, lines), Each(Ready, lines) != [])
  }

  /** The counts over a text; only the last frame times are kept. */
  function CountersOf(text: string): Counters {
    var frames := Scan(FRAME, text);
    Counters(|Scan(RENDER, text)|, |Scan(WAKE, text)|, |Scan(COMMIT, text)|, |frames|, Last(Times(frames), WINDOW))
  }

  function AddRecords(a: Records, b: Records): Records {
    Records(a.regions + b.regions, a.gpu + b.gpu, a.visibility + b.visibility, a.ready || b.ready)
  }

  function AddCounters(a: Counters, b: Counters): Counters {
    Counters(a.renders + b.renders, a.wakes + b.wakes, a.commits + b.commits, a.frames + b.frames,
             Last(a.frameTimes + b.frameTimes, WINDOW))
  }

  /** What one line adds to the records. */
  function LineRecords(line: string): Records {
    Records(Region(line), Gpu(line), Visibility(line), Ready(line) != [])
  }

  lemma OneMoreLine(before: Records, lines: seq<string>, i: nat)
    requires i < |lines|
    ensures AddRecords(before, RecordsOf(lines[..i + 1]))
         == AddRecords(AddRecords(before, RecordsOf(lines[..i])), LineRecords(lines[i]))
  {
    assert lines[..i + 1][..i] == lines[..i];
  }

  lemma RegionsAddUp(a: string, b: string)
    requires WholeLines(a)
    ensures Each(Region, Split(a + b)) == Each(Region, Split(a)) + Each(Region, Split(b))
  {
    RecordsOfMore(Region, a, b);
  }

  lemma GpuAddsUp(a: string, b: string)
    requires WholeLines(a)
    ensures Each(Gpu, Split(a + b)) == Each(Gpu, Split(a)) + Each(Gpu, Split(b))
  {
    RecordsOfMore(Gpu, a, b);
  }

  lemma VisibilityAddsUp(a: string, b: string)
    requires WholeLines(a)
    ensures Each(Visibility, Split(a + b)) == Each(Visibility, Split(a)) + Each(Visibility, Split(b))
  {
    RecordsOfMore(Visibility, a, b);
  }

  lemma ReadyAddsUp(a: string, b: string)
    requires WholeLines(a)
    ensures Each(Ready, Split(a + b)) == Each(Ready, Split(a)) + Each(Ready, Split(b))
  {
    RecordsOfMore(Ready, a, b);
  }

  lemma RecordsAddUp(a: string, b: string)
    requires WholeLines(a)
    ensures RecordsOf(Split(a + b)) == AddRecords(RecordsOf(Split(a)), RecordsOf(Split(b)))
  {
    RegionsAddUp(a, b);
    GpuAddsUp(a, b);
    VisibilityAddsUp(a, b);
    ReadyAddsUp(a, b);
  }

  /** Every alternative of an expression stays within a line. */
  ghost predicate StayInLines(ps: seq<Pattern>) {
    forall p :: p in ps ==> OneLine(p)
  }

  lemma FrameStaysInLines()
    ensures StayInLines(FRAME)
  {
    assert '\n' !in FRAME_TAG;
  }

  lemma CommitStaysInLines()
    ensures StayInLines(COMMIT)
  {
    assert '\n' !in REACT_TAG;
    assert '\n' !in PACING_TAG;
  }

  lemma RenderStaysInLines()
    ensures StayInLines(RENDER)
  {
    assert '\n' !in RENDER_TAG;
  }

  lemma WakeStaysInLines()
    ensures StayInLines(WAKE)
  {
    assert '\n' !in WAKE_TAG;
  }

  lemma CountersAddUp(a: string, b: string)
    requires WholeLines(a)
    ensures CountersOf(a + b) == AddCounters(CountersOf(a), CountersOf(b))
  {
    FrameStaysInLines();
    CommitStaysInLines();
    RenderStaysInLines();
    WakeStaysInLines();
    ScanOfMore(FRAME, a, b);
    ScanOfMore(COMMIT, a, b);
    ScanOfMore(RENDER, a, b);
    ScanOfMore(WAKE, a, b);
    var s, t := Times(Scan(FRAME, a)), Times(Scan(FRAME, b));
    TimesOfAppend(Scan(FRAME, a), Scan(FRAME, b));
    LastOfMore(s, Last(t, WINDOW), WINDOW);
    LastOfLast(s, t, WINDOW);
  }

  /** Everything a handler has recorded. Clock readings of receipt are left out. */
  datatype Report = Report(stderr: string, pending: string, records: Records, counters: Counters)

  /** The report after one pass over the whole text: the tail of the text, the part after its last line break, and what
      its complete lines hold. */
  function OnePass(tail: nat, text: string): Report {
    Report(Last(text, tail), Rest(text), RecordsOf(Split(Complete(text))), CountersOf(Complete(text)))
  }

  /** What one call of the handler does to the report. */
  function Handle(tail: nat, r: Report, chunk: string): Report {
    var text := r.pending + chunk;
    var done := Complete(text);
    Report(Last(r.stderr + chunk, tail), Rest(text),
           if done == [] then r.records else AddRecords(r.records, RecordsOf(Split(done))),
           if done == [] then r.counters else AddCounters(r.counters, CountersOf(done)))
  }

  /** One call carries the one-pass report of the text so far to that of the text with the new piece. */
  lemma HandleExtends(tail: nat, text: string, chunk: string)
    ensures Handle(tail, OnePass(tail, text), chunk) == OnePass(tail, text + chunk)
  {
    var a, b := Complete(text), Complete(Rest(text) + chunk);
    CompleteOfMore(text, chunk);
    LastOfMore(text, chunk, tail);
    if b == [] {
      assert a + b == a;
    } else {
      RecordsAddUp(a, b);
      CountersAddUp(a, b);
    }
  }

  function Concat(chunks: seq<string>): string {
    if chunks == [] then "" else Concat(chunks[..|chunks| - 1]) + chunks[|chunks| - 1]
  }

  function HandleAll(tail: nat, chunks: seq<string>): Report {
    if chunks == [] then OnePass(tail, "")
    else Handle(tail, HandleAll(tail, chunks[..|chunks| - 1]), chunks[|chunks| - 1])
  }

  /** However the text is cut into pieces, the handler ends with the report of one pass over it. */
  lemma {:induction false} ChunksDoNotMatter(tail: nat, chunks: seq<string>)
    ensures HandleAll(tail, chunks) == OnePass(tail, Concat(chunks))
  {
    if chunks != [] {
      ChunksDoNotMatter(tail, chunks[..|chunks| - 1]);
      HandleExtends(tail, Concat(chunks[..|chunks| - 1]), chunks[|chunks| - 1]);
    }
  }

  const EMPTY := Report("", "", Records([], [], [], false), Counters(0, 0, 0, 0, []))

  lemma EmptyReport(tail: nat)
    ensures OnePass(tail, "") == EMPTY
  {
    assert Split("") == [""] && [""][..0] == [];
  }

  /** The fixture's handler with its closure variables. The plain harness keeps 8000 characters of stderr, the loops one
      2000000. */
  class Fixture {
    const tail: nat
    var stderr: string
    var pending: string
    var renders: nat
    var wakes: nat
    var commits: nat
    var frames: nat
    var frameTimes: seq<string>
    var regions: seq<string>
    var gpu: seq<string>
    var visibility: seq<(bool, string)>
    var ready: bool

    function Lists(): Records
      reads this
    {
      Records(regions, gpu, visibility, ready)
    }

    function Counts(): Counters
      reads this
    {
      Counters(renders, wakes, commits, frames, frameTimes)
    }

    function State(): Report
      reads this
    {
      Report(stderr, pending, Lists(), Counts())
    }

    ghost predicate Valid()
      reads `frameTimes
    {
      |frameTimes| <= WINDOW
    }

    constructor (tail: nat)
      ensures Valid() && this.tail == tail && State() == EMPTY
    {
      this.tail := tail;
      stderr, pending, renders, wakes, commits, frames := "", "", 0, 0, 0, 0;
      frameTimes, regions, gpu, visibility, ready := [], [], [], [], false;
    }

    method Data(text: string)
      requires Valid()
      modifies this
      ensures Valid() && State() == Handle(tail, old(State()), text)
    {
      stderr := Last(stderr + text, tail);
      pending := pending + text;
      var end := CompleteLength(pending);
      if end == 0 {
        return;
      }
      var done := pending[..end];
      ReadLines(Split(done));
      pending := pending[end..];
      CountMatches(done);
    }

    /** The handler at work: a report of one pass over a text becomes that of the longer text. */
    method Extend(ghost text: string, chunk: string)
      requires Valid()
      modifies this
      ensures Valid() && (old(State()) == OnePass(tail, text) ==> State() == OnePass(tail, text + chunk))
    {
      Data(chunk);
      HandleExtends(tail, text, chunk);
    }

    method CountMatches(done: string)
      requires Valid()
      modifies `frames, `frameTimes, `commits, `renders, `wakes
      ensures Valid() && Counts() == AddCounters(old(Counts()), CountersOf(done))
    {
      CountFrames(done);
      commits := commits + |Scan(COMMIT, done)|;
      renders := renders + |Scan(RENDER, done)|;
      wakes := wakes + |Scan(WAKE, done)|;
    }

    method CountFrames(done: string)
      requires Valid()
      modifies `frames, `frameTimes
      ensures Valid() && frames == old(frames) + |Scan(FRAME, done)|
      ensures frameTimes == Last(old(frameTimes) + Last(Times(Scan(FRAME, done)), WINDOW), WINDOW)
    {
      var matches := Scan(FRAME, done);
      ReadFrames(matches);
      LastOfLast(old(frameTimes), Times(matches), WINDOW);
    }

    method ReadLine(line: string)
      modifies `regions, `gpu, `visibility, `ready
      ensures Lists() == AddRecords(old(Lists()), LineRecords(line))
    {
      if Includes(line, "[loops-observer-ready]") {
        ready := true;
      }
      if Includes(line, "[loops-visibility]") {
        visibility := visibility + [(Includes(line, "visible=1"), From(line, "[loops-visibility]"))];
      }
      if Includes(line, "[paint-region]") {
        regions := regions + [line];
      }
      if Includes(line, "[paint-gpu]") {
        gpu := gpu + [line];
      }
    }

    method ReadLines(lines: seq<string>)
      modifies `regions, `gpu, `visibility, `ready
      ensures Lists() == AddRecords(old(Lists()), RecordsOf(lines))
    {
      for i := 0 to |lines|
        invariant Lists() == AddRecords(old(Lists()), RecordsOf(lines[..i]))
      {
        ReadLine(lines[i]);
        OneMoreLine(old(Lists()), lines, i);
      }
      assert lines[..|lines|] == lines;
    }

    method ReadFrames(matches: seq<Match>)
      requires Valid()
      modifies `frames, `frameTimes
      ensures frames == old(frames) + |matches|
      ensures frameTimes == Last(old(frameTimes) + Times(matches), WINDOW)
    {
      for i := 0 to |matches|
        invariant frames == old(frames) + i
        invariant frameTimes == Last(old(frameTimes) + Times(matches[..i]), WINDOW)
      {
        frames := frames + 1;
        PushTime(old(frameTimes), matches, i);
        frameTimes := frameTimes + Time(matches[i]);
        if |frameTimes| > WINDOW {
          frameTimes := frameTimes[1..];
        }
      }
      assert matches[..|matches|] == matches;
    }
  }

  /** Feeding a fresh handler the pieces of a text, in order. */
  method Feed(tail: nat, chunks: seq<string>) returns (f: Fixture)
    ensures fresh(f) && f.Valid() && f.tail == tail
    ensures f.State() == OnePass(tail, Concat(chunks))
  {
    if chunks == [] {
      f := new Fixture(tail);
      EmptyReport(tail);
    } else {
      f := Feed(tail, chunks[..|chunks| - 1]);
      f.Extend(Concat(chunks[..|chunks| - 1]), chunks[|chunks| - 1]);
    }
  }
}
