/** What the scroll check's report says of the text, without the handler's searches. */
module ScrollCounts {
  import opened Common
  import opened LineText
  import opened Matches
  import opened ScrollHarness
  import Harness
  import HarnessCounts

  /** The first match of the submit expression is its tag and the number behind it. */
  lemma SubmitIsFirst(line: string) returns (i: nat)
    ensures match FirstMatch(SUBMIT, line)
            case Some(m) => IsFirstMatch(SUBMIT, line, m, i) && |m.captures| == 1 && Submits(line) == m.captures
            case None => Submits(line) == [] && forall j :: 0 <= j <= |line| ==> Denies(SUBMIT, line[j..])
  {
    PatternsAreGreedy();
    i := FirstMatchIsFirst(SUBMIT, line);
    if FirstMatch(SUBMIT, line).Some? {
      CapturesOfOne(SUBMIT, line[i..], FirstMatch(SUBMIT, line).value);
    }
  }

  lemma CapturesOfOne(p: Pattern, s: string, m: Match)
    requires |p| == 1 && !p[0].run.Nothing? && Denotes(p, s, m)
    ensures |m.captures| == 1
  {
    var n: nat, rest: Match :| Ends(p[0], s, n) && Denotes(p[1..], s[n..], rest) && m == Then(p[0], s, n, rest);
    assert p[1..] == [];
  }

  /** The costs are what the first match of their expression captures. */
  lemma CostIsFirst(line: string) returns (i: nat)
    ensures match FirstMatch(COST, line)
            case Some(m) => IsFirstMatch(COST, line, m, i) && Costs(line) == [m.captures]
            case None => Costs(line) == [] && forall j :: 0 <= j <= |line| ==> Denies(COST, line[j..])
  {
    PatternsAreGreedy();
    i := FirstMatchIsFirst(COST, line);
  }

  function Found(p: Pattern): string -> bool {
    line => FirstMatch(p, line).Some?
  }

  /** The records of lines: a time for every line with a submit, the costs of every line with costs, and how many lines
      hold the tags of a commit and of a render. */
  ghost predicate AreRecords(r: Records, lines: seq<string>, submits: seq<string>, costs: seq<string>) {
    && HarnessCounts.AreKept(submits, lines, Found(SUBMIT)) && |r.frames| == |submits|
    && HarnessCounts.AreKept(costs, lines, Found(COST)) && |r.costs| == |costs|
    && (forall k :: 0 <= k < |submits| ==> Some([r.frames[k]]) == Captured(SUBMIT, submits[k]))
    && (forall k :: 0 <= k < |costs| ==> Some(r.costs[k]) == Captured(COST, costs[k]))
    && r.commits == |HarnessCounts.KeptAt(lines, HarnessCounts.Included("[pacing-commit]"))|
    && r.renders == |HarnessCounts.KeptAt(lines, HarnessCounts.Included("[islands] render "))|
  }

  function Captured(p: Pattern, line: string): Option<seq<string>> {
    match FirstMatch(p, line)
    case None => None
    case Some(m) => Some(m.captures)
  }

  lemma SubmitsAreKept(lines: seq<string>) returns (submits: seq<string>)
    ensures HarnessCounts.AreKept(submits, lines, Found(SUBMIT)) && |Each(Submits, lines)| == |submits|
    ensures forall k :: 0 <= k < |submits| ==> Some([Each(Submits, lines)[k]]) == Captured(SUBMIT, submits[k])
  {
    forall line
      ensures |Submits(line)| == (if FirstMatch(SUBMIT, line).Some? then 1 else 0)
      ensures FirstMatch(SUBMIT, line).Some? ==> Some(Submits(line)) == Captured(SUBMIT, line)
    {
      var i := SubmitIsFirst(line);
    }
    submits := HarnessCounts.KeptLines(Submits, Found(SUBMIT), lines);
  }

  lemma CostsAreKept(lines: seq<string>) returns (costs: seq<string>)
    ensures HarnessCounts.AreKept(costs, lines, Found(COST)) && |Each(Costs, lines)| == |costs|
    ensures forall k :: 0 <= k < |costs| ==> Some(Each(Costs, lines)[k]) == Captured(COST, costs[k])
  {
    costs := HarnessCounts.KeptLines(Costs, Found(COST), lines);
    forall k | 0 <= k < |costs|
      ensures Some(Each(Costs, lines)[k]) == Captured(COST, costs[k])
    {
      assert [Each(Costs, lines)[k]] == Costs(costs[k]);
    }
  }

  lemma RecordsAreOfLines(lines: seq<string>) returns (submits: seq<string>, costs: seq<string>)
    ensures AreRecords(RecordsOf(lines), lines, submits, costs)
  {
    submits := SubmitsAreKept(lines);
    costs := CostsAreKept(lines);
    var commits := HarnessCounts.KeptLines(Commits, HarnessCounts.Included("[pacing-commit]"), lines);
    var renders := HarnessCounts.KeptLines(Renders, HarnessCounts.Included("[islands] render "), lines);
  }

  /** However the text is cut into pieces, the records are those of its whole lines, and everything is kept. */
  lemma HandlerReads(chunks: seq<string>, whole: string, rest: string)
    requires Harness.Concat(chunks) == whole + rest && WholeLines(whole) && '\n' !in rest
    ensures HandleAll(chunks) == Report(whole + rest, rest, RecordsOf(Split(whole)))
  {
    ChunksDoNotMatter(chunks);
    WholeAndRest(whole, rest);
  }
}
