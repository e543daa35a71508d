/** The scroll check's stderr handler: it reads each complete line by itself, and keeps everything. */
module ScrollHarness {
  import opened LineText
  import Harness

  const SUBMIT: Pattern := [Segment("[kybern-submit] ", Decimal)]
  const COST: Pattern :=
    [Segment("[kybern-work] renderMs=", Decimal), Segment(" layoutMs=", Decimal), Segment(" layoutCalls=", Digits)]

  /** Each run of digits ends before the next literal, so the matcher finds what the expressions denote. */
  lemma PatternsAreGreedy()
    ensures Greedy(SUBMIT) && Greedy(COST)
  {
    var rest, last := COST[1..], COST[2..];
    assert rest[1..] == last && |last| == 1;
    assert Greedy(last) && Greedy(rest);
  }

  /** What one line adds to each list: the submit time, the three costs, a commit, a render. */
  function Submits(line: string): seq<string> {
    var m := FirstMatch(SUBMIT, line);
    if m.Some? then Harness.Time(m.value) else []
  }

  function Costs(line: string): seq<seq<string>> {
    var m := FirstMatch(COST, line);
    if m.Some? then [m.value.captures] else []
  }

  function Commits(line: string): seq<string> {
    if Includes(line, "[pacing-commit]") then [line] else []
  }

  function Renders(line: string): seq<string> {
    if Includes(line, "[islands] render ") then [line] else []
  }

  datatype Records = Records(frames: seq<string>, commits: nat, renders: nat, costs: seq<seq<string>>)

  function Gather(frames: seq<string>, commits: seq<string>, renders: seq<string>, costs: seq<seq<string>>): Records {
    Records(frames, |commits|, |renders|, costs)
  }

  function RecordsOf(lines: seq<string>): Records {
    Gather(Each(Submits, lines), Each(Commits, lines), Each(Renders, lines), Each(Costs, lines))
  }

  lemma Gathered(f: seq<string>, f': seq<string>, c: seq<string>, c': seq<string>,
                 r: seq<string>, r': seq<string>, k: seq<seq<string>>, k': seq<seq<string>>)
    ensures Gather(f + f', c + c', r + r', k + k') == Add(Gather(f, c, r, k), Gather(f', c', r', k'))
  {
  }

  function Add(a: Records, b: Records): Records {
    Records(a.frames + b.frames, a.commits + b.commits, a.renders + b.renders, a.costs + b.costs)
  }

  const NONE := Records([], 0, 0, [])

  /** What one line adds to the records. */
  function LineRecords(line: string): Records {
    Gather(Submits(line), Commits(line), Renders(line), Costs(line))
  }

  lemma AddsUp(a: Records, b: Records, c: Records)
    ensures Add(a, Add(b, c)) == Add(Add(a, b), c)
  {
  }

  lemma OneMoreLine(before: Records, lines: seq<string>, i: nat)
    requires i < |lines|
    ensures Add(before, RecordsOf(lines[..i + 1])) == Add(Add(before, RecordsOf(lines[..i])), LineRecords(lines[i]))
  {
    var done, line := lines[..i], lines[i];
    assert lines[..i + 1][..i] == done;
    Gathered(Each(Submits, done), Submits(line), Each(Commits, done), Commits(line),
             Each(Renders, done), Renders(line), Each(Costs, done), Costs(line));
    AddsUp(before, RecordsOf(done), LineRecords(line));
  }

  /** Clock readings of receipt are left out. */
  datatype Report = Report(raw: string, pending: string, records: Records)

  function OnePass(text: string): Report {
    Report(text, Rest(text), RecordsOf(Split(Complete(text))))
  }

  function Handle(r: Report, chunk: string): Report {
    var text := r.pending + chunk;
    var done := Complete(text);
    Report(r.raw + chunk, Rest(text), if done == [] then r.records else Add(r.records, RecordsOf(Split(done))))
  }

  /** An empty line adds nothing. */
  lemma NothingInEmpty()
    ensures Submits("") == [] && Costs("") == [] && Commits("") == [] && Renders("") == []
  {
    assert "[pacing-commit]" != "" && "[islands] render " != "";
  }

  lemma SubmitsAddUp(a: string, b: string)
    requires WholeLines(a)
    ensures Each(Submits, Split(a + b)) == Each(Submits, Split(a)) + Each(Submits, Split(b))
  {
    NothingInEmpty();
    RecordsOfMore(Submits, a, b);
  }

  lemma CostsAddUp(a: string, b: string)
    requires WholeLines(a)
    ensures Each(Costs, Split(a + b)) == Each(Costs, Split(a)) + Each(Costs, Split(b))
  {
    NothingInEmpty();
    RecordsOfMore(Costs, a, b);
  }

  lemma CommitsAddUp(a: string, b: string)
    requires WholeLines(a)
    ensures Each(Commits, Split(a + b)) == Each(Commits, Split(a)) + Each(Commits, Split(b))
  {
    NothingInEmpty();
    RecordsOfMore(Commits, a, b);
  }

  lemma RendersAddUp(a: string, b: string)
    requires WholeLines(a)
    ensures Each(Renders, Split(a + b)) == Each(Renders, Split(a)) + Each(Renders, Split(b))
  {
    NothingInEmpty();
    RecordsOfMore(Renders, a, b);
  }

  lemma RecordsAddUp(a: string, b: string)
    requires WholeLines(a)
    ensures RecordsOf(Split(a + b)) == Add(RecordsOf(Split(a)), RecordsOf(Split(b)))
  {
    SubmitsAddUp(a, b);
    CostsAddUp(a, b);
    CommitsAddUp(a, b);
    RendersAddUp(a, b);
    var x, y, z := Split(a), Split(b), Split(a + b);
    Gathered(Each(Submits, x), Each(Submits, y), Each(Commits, x), Each(Commits, y),
             Each(Renders, x), Each(Renders, y), Each(Costs, x), Each(Costs, y));
  }

  lemma HandleExtends(text: string, chunk: string)
    ensures Handle(OnePass(text), chunk) == OnePass(text + chunk)
  {
    var a, b := Complete(text), Complete(Rest(text) + chunk);
    CompleteOfMore(text, chunk);
    if b == [] {
      assert a + b == a;
    } else {
      RecordsAddUp(a, b);
    }
  }

  function HandleAll(chunks: seq<string>): Report {
    if chunks == [] then OnePass("") else Handle(HandleAll(chunks[..|chunks| - 1]), chunks[|chunks| - 1])
  }

  /** However the text is cut into pieces, the handler ends with the report of one pass over it. */
  lemma {:induction false} ChunksDoNotMatter(chunks: seq<string>)
    ensures HandleAll(chunks) == OnePass(Harness.Concat(chunks))
  {
    if chunks != [] {
      ChunksDoNotMatter(chunks[..|chunks| - 1]);
      HandleExtends(Harness.Concat(chunks[..|chunks| - 1]), chunks[|chunks| - 1]);
    }
  }

  lemma {:induction false} SplitWithBreak(s: string)
    ensures Split(s + "\n") == Split(s) + [""]
  {
    if s == "" {
      assert s + "\n" == "\n" && "\n"[1..] == "";
    } else {
      SplitWithBreak(s[1..]);
      assert (s + "\n")[1..] == s[1..] + "\n";
      PushOfAppend(s[0], Split(s[1..]), [""]);
    }
  }

  /** Splitting without the last line break leaves out only an empty line. */
  lemma EachWithoutBreak<T>(records: string -> seq<T>, s: string)
    requires records("") == []
    ensures Each(records, Split(s)) == Each(records, Split(s + "\n"))
  {
    SplitWithBreak(s);
    EachWithEmpty(records, Split(s));
  }

  lemma WithoutLastBreak(s: string)
    ensures RecordsOf(Split(s)) == RecordsOf(Split(s + "\n"))
  {
    NothingInEmpty();
    EachWithoutBreak(Submits, s);
    EachWithoutBreak(Costs, s);
    EachWithoutBreak(Commits, s);
    EachWithoutBreak(Renders, s);
  }

  lemma EmptyPass()
    ensures OnePass("") == Report("", "", NONE)
  {
    NothingInEmpty();
    assert Split("") == [""] && [""][..0] == [];
  }

  class Fixture {
    var raw: string
    var pending: string
    var commits: nat
    var renders: nat
    var frames: seq<string>
    var costs: seq<seq<string>>

    function Lists(): Records
      reads this
    {
      Records(frames, commits, renders, costs)
    }

    function State(): Report
      reads this
    {
      Report(raw, pending, Lists())
    }

    constructor ()
      ensures State() == Report("", "", NONE)
    {
      raw, pending, commits, renders, frames, costs := "", "", 0, 0, [], [];
    }

    method Data(value: string)
      modifies this
      ensures State() == Handle(old(State()), value)
    {
      raw := raw + value;
      pending := pending + value;
      var end := CompleteLength(pending);
      if end == 0 {
        return;
      }
      ReadComplete(pending[..end]);
      pending := pending[end..];
    }

    /** The handler at work: a report of one pass over a text becomes that of the longer text. */
    method Extend(ghost text: string, chunk: string)
      modifies this
      ensures old(State()) == OnePass(text) ==> State() == OnePass(text + chunk)
    {
      Data(chunk);
      HandleExtends(text, chunk);
    }

    method ReadComplete(done: string)
      requires done != "" && WholeLines(done)
      modifies `commits, `renders, `frames, `costs
      ensures Lists() == Add(old(Lists()), RecordsOf(Split(done)))
    {
      var lines := done[..|done| - 1];
      assert done == lines + "\n";
      WithoutLastBreak(lines);
      ReadLines(Split(lines));
    }

    method ReadLines(lines: seq<string>)
      modifies `commits, `renders, `frames, `costs
      ensures Lists() == Add(old(Lists()), RecordsOf(lines))
    {
      for i := 0 to |lines|
        invariant Lists() == Add(old(Lists()), RecordsOf(lines[..i]))
      {
        ReadLine(lines[i]);
        OneMoreLine(old(Lists()), lines, i);
      }
      assert lines[..|lines|] == lines;
    }

    method ReadLine(line: string)
      modifies `commits, `renders, `frames, `costs
      ensures Lists() == Add(old(Lists()), LineRecords(line))
    {
      var m := FirstMatch(SUBMIT, line);
      if m.Some? {
        frames := frames + Harness.Time(m.value);
      }
      if Includes(line, "[pacing-commit]") {
        commits := commits + 1;
      }
      if Includes(line, "[islands] render ") {
        renders := renders + 1;
      }
      var cost := FirstMatch(COST, line);
      if cost.Some? {
        costs := costs + [cost.value.captures];
      }
    }
  }

  /** Feeding a fresh handler the pieces of a text, in order. */
  method Feed(chunks: seq<string>) returns (f: Fixture)
    ensures fresh(f) && f.State() == OnePass(Harness.Concat(chunks))
  {
    if chunks == [] {
      f := new Fixture();
      EmptyPass();
    } else {
      f := Feed(chunks[..|chunks| - 1]);
      f.Extend(Harness.Concat(chunks[..|chunks| - 1]), chunks[|chunks| - 1]);
    }
  }
}
