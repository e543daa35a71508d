/** What the fixtures' reports say of the text, without the handlers' searches: the counters count the places where tags
    stand, and the records are the lines that hold them. */
module HarnessCounts {
  import opened Common
  import opened LineText
  import opened Matches
  import opened Harness

  /** The places where a word stands. */
  function Places(s: string, word: string): set<nat> {
    set i: nat | i < |s| && StandsAt(word, s, i)
  }

  lemma WordIsDenied(word: string, s: string)
    ensures Denies([Segment(word, Nothing)], s) <==> !(word <= s)
  {
    var p := [Segment(word, Nothing)];
    if word <= s {
      var none := Match(0, []);
      assert p[1..] == [] && Denotes(p[1..], s[|word|..], none) && Ends(p[0], s, |word|);
      DenotesSegment(p, s, |word|, none);
    }
  }

  /** A word with its first character nowhere else. */
  predicate Tag(word: string) {
    word != "" && word[0] == '[' && '[' !in word[1..]
  }

  lemma TagIsMarked(segment: Segment)
    requires Tag(segment.literal)
    ensures MarkedBy([segment], '[') && Greedy([segment])
  {
    assert [segment][1..] == [];
  }

  /** A tag is found once for each place where it stands. */
  lemma TagsAreCounted(s: string, word: string)
    requires Tag(word)
    ensures |Scan([[Segment(word, Nothing)]], s)| == |Places(s, word)|
  {
    var ps := [[Segment(word, Nothing)]];
    TagIsMarked(Segment(word, Nothing));
    var at := ScanCounts(ps, s, '[');
    forall x: nat | x < |s|
      ensures x in Starts(ps, s) <==> x in Places(s, word)
    {
      WordIsDenied(word, s[x..]);
      assert ps[0] == [Segment(word, Nothing)];
    }
    assert Starts(ps, s) == Places(s, word);
  }

  /** Two tags are found once for each place where either stands. */
  lemma EitherIsCounted(s: string, one: string, other: string)
    requires Tag(one) && Tag(other)
    ensures |Scan([[Segment(one, Nothing)], [Segment(other, Nothing)]], s)| == |Places(s, one) + Places(s, other)|
  {
    var ps := [[Segment(one, Nothing)], [Segment(other, Nothing)]];
    TagIsMarked(Segment(one, Nothing));
    TagIsMarked(Segment(other, Nothing));
    var at := ScanCounts(ps, s, '[');
    forall x: nat | x < |s|
      ensures x in Starts(ps, s) <==> x in Places(s, one) + Places(s, other)
    {
      WordIsDenied(one, s[x..]);
      WordIsDenied(other, s[x..]);
      assert ps[0] == [Segment(one, Nothing)] && ps[1] == [Segment(other, Nothing)];
    }
    assert Starts(ps, s) == Places(s, one) + Places(s, other);
  }

  /** The longest run of digits and points at a place. */
  ghost predicate IsNumber(s: string, from: nat, number: string) {
    && number != "" && from + |number| <= |s| && s[from..from + |number|] == number
    && (forall i :: from <= i < from + |number| ==> DigitOrPoint(s[i]))
    && (from + |number| < |s| ==> !DigitOrPoint(s[from + |number|]))
  }

  predicate DigitOrPoint(c: char) {
    c == '.' || c in "0123456789"
  }

  /** The places where a frame's tag stands before a number. */
  function FramePlaces(s: string): set<nat> {
    set i: nat | i < |s| && FrameAt(s, i)
  }

  predicate FrameAt(s: string, i: nat) {
    StandsAt(FRAME_TAG, s, i) && i + |FRAME_TAG| < |s| && DigitOrPoint(s[i + |FRAME_TAG|])
  }

  lemma FrameIsDenied(s: string)
    ensures Denies(FRAME[0], s) <==> !FrameAt(s, 0)
  {
    var n := |FRAME_TAG|;
    assert s[0..] == s;
    if FrameAt(s, 0) {
      var none := Match(0, []);
      assert FRAME[0][1..] == [] && Denotes(FRAME[0][1..], s[n + 1..], none) && Ends(FRAME[0][0], s, n + 1);
      DenotesSegment(FRAME[0], s, n + 1, none);
    }
  }

  lemma FrameStarts(s: string)
    ensures Starts(FRAME, s) == FramePlaces(s)
  {
    forall x: nat | x < |s|
      ensures x in Starts(FRAME, s) <==> x in FramePlaces(s)
    {
      FrameIsDenied(s[x..]);
      assert s[x..][0..] == s[x..];
      assert |FRAME_TAG| < |s[x..]| ==> s[x..][|FRAME_TAG|] == s[x + |FRAME_TAG|];
    }
  }

  /** A frame match captures the number behind the tag. */
  lemma FrameCaptures(s: string, at: nat, m: Match)
    requires Recorded(FRAME, s, at, m)
    ensures |m.captures| == 1 && IsNumber(s, at + |FRAME_TAG|, m.captures[0])
  {
    var t, n := s[at..], |FRAME_TAG|;
    var k: nat :| FirstIs(FRAME, t, m, k);
    FrameIsTag();
    TagIsMarked(FRAME[0][0]);
    MatchIsLongest(FRAME[0], t, m);
    MatchParts(FRAME[0], t);
    assert FRAME[0][1..] == [] && MatchAt(FRAME[0][1..], t[AfterSegment(FRAME[0][0], t)..]).value == Match(0, []);
    NumberOfRun(s, at, n);
  }

  lemma NumberOfRun(s: string, at: nat, n: nat)
    requires at + n <= |s| && 0 < RunLength(Decimal, s[at..][n..])
    ensures IsNumber(s, at + n, s[at..][n..n + RunLength(Decimal, s[at..][n..])])
  {
    var rest, k := s[at..][n..], RunLength(Decimal, s[at..][n..]);
    assert rest == s[at + n..];
    assert forall i :: 0 <= i < k ==> s[at + n + i] == rest[i];
    assert forall i :: at + n <= i < at + n + k ==> s[i] == rest[i - at - n];
  }

  /** The times are the numbers behind the frames' tags, in order. */
  ghost predicate AreFrames(s: string, at: seq<nat>, times: seq<string>) {
    && |times| == |at| && Elements(at) == FramePlaces(s)
    && (forall i, j :: 0 <= i < j < |at| ==> at[i] < at[j])
    && forall i :: 0 <= i < |at| ==> IsNumber(s, at[i] + |FRAME_TAG|, times[i])
  }

  lemma FramesAreRead(s: string) returns (at: seq<nat>)
    ensures AreFrames(s, at, Times(Scan(FRAME, s))) && |Scan(FRAME, s)| == |FramePlaces(s)|
  {
    FrameIsTag();
    TagIsMarked(FRAME[0][0]);
    at := ScanCounts(FRAME, s, '[');
    FrameStarts(s);
    CapturesAreFrames(s, at, Scan(FRAME, s));
  }

  lemma CapturesAreFrames(s: string, at: seq<nat>, ms: seq<Match>)
    requires AllRecorded(FRAME, s, at, ms) && Apart(at, ms) && Elements(at) == FramePlaces(s)
    ensures AreFrames(s, at, Times(ms))
  {
    PlacesGrow(FRAME, s, at, ms);
    forall i | 0 <= i < |ms|
      ensures |ms[i].captures| == 1 && IsNumber(s, at[i] + |FRAME_TAG|, ms[i].captures[0])
    {
      FrameCaptures(s, at[i], ms[i]);
    }
    TimesAreCaptured(ms);
  }

  lemma {:induction false} TimesAreCaptured(ms: seq<Match>)
    requires forall i :: 0 <= i < |ms| ==> |ms[i].captures| == 1
    ensures |Times(ms)| == |ms| && forall i :: 0 <= i < |ms| ==> Times(ms)[i] == ms[i].captures[0]
  {
    if ms != [] {
      TimesAreCaptured(ms[..|ms| - 1]);
    }
  }

  /** The counters of a text, without the search: places where the tags stand, and the last of the numbers behind the
      frames' tags. */
  ghost predicate Counts(c: Counters, s: string) {
    && c.renders == |Places(s, RENDER_TAG)| && c.wakes == |Places(s, WAKE_TAG)|
    && c.commits == |Places(s, REACT_TAG) + Places(s, PACING_TAG)|
    && CountsFrames(c, s)
  }

  lemma RenderIsTag()
    ensures Tag(RENDER_TAG)
  {
  }

  lemma WakeIsTag()
    ensures Tag(WAKE_TAG)
  {
  }

  lemma ReactIsTag()
    ensures Tag(REACT_TAG)
  {
  }

  lemma PacingIsTag()
    ensures Tag(PACING_TAG)
  {
  }

  lemma FrameIsTag()
    ensures Tag(FRAME_TAG)
  {
  }

  lemma RendersAreCounted(s: string)
    ensures |Scan(RENDER, s)| == |Places(s, RENDER_TAG)|
  {
    RenderIsTag();
    TagsAreCounted(s, RENDER_TAG);
  }

  lemma WakesAreCounted(s: string)
    ensures |Scan(WAKE, s)| == |Places(s, WAKE_TAG)|
  {
    WakeIsTag();
    TagsAreCounted(s, WAKE_TAG);
  }

  lemma CommitsAreCounted(s: string)
    ensures |Scan(COMMIT, s)| == |Places(s, REACT_TAG) + Places(s, PACING_TAG)|
  {
    ReactIsTag();
    PacingIsTag();
    EitherIsCounted(s, REACT_TAG, PACING_TAG);
  }

  ghost predicate CountsFrames(c: Counters, s: string) {
    && c.frames == |FramePlaces(s)|
    && exists at, times :: AreFrames(s, at, times) && c.frameTimes == Last(times, WINDOW)
  }

  lemma FramesAreCounted(s: string)
    ensures CountsFrames(CountersOf(s), s)
  {
    var at := FramesAreRead(s);
  }

  lemma CountersAreCounts(s: string)
    ensures Counts(CountersOf(s), s)
  {
    RendersAreCounted(s);
    WakesAreCounted(s);
    CommitsAreCounted(s);
    FramesAreCounted(s);
  }

  /** The end of a text, `tail` characters long or all of it. */
  predicate IsTail(end: string, text: string, tail: nat) {
    |end| <= |text| && end == text[|text| - |end|..] && |end| == if |text| <= tail then |text| else tail
  }

  lemma LastIsTail(text: string, tail: nat)
    ensures IsTail(Last(text, tail), text, tail)
  {
  }

  /** A report counts the tags in whole lines, keeps the records of these lines, the unfinished line and the end of the
      text. */
  ghost predicate Tells(r: Report, tail: nat, whole: string, rest: string) {
    && r.pending == rest && IsTail(r.stderr, whole + rest, tail)
    && Counts(r.counters, whole) && r.records == RecordsOf(Split(whole))
  }

  lemma OnePassTells(tail: nat, whole: string, rest: string)
    requires WholeLines(whole) && '\n' !in rest
    ensures Tells(OnePass(tail, whole + rest), tail, whole, rest)
  {
    var r := OnePass(tail, whole + rest);
    WholeAndRest(whole, rest);
    CountersAreCounts(whole);
    LastIsTail(whole + rest, tail);
    assert r.counters == CountersOf(whole);
  }

  /** However the text is cut into pieces, so does the handler's report. */
  lemma HandlerCounts(tail: nat, chunks: seq<string>, whole: string, rest: string)
    requires Concat(chunks) == whole + rest && WholeLines(whole) && '\n' !in rest
    ensures Tells(HandleAll(tail, chunks), tail, whole, rest)
  {
    ChunksDoNotMatter(tail, chunks);
    OnePassTells(tail, whole, rest);
  }

  /** The places in a list of the lines that are kept. */
  ghost function KeptAt(lines: seq<string>, keeps: string -> bool): set<nat> {
    set i: nat | i < |lines| && keeps(lines[i])
  }

  /** Exactly the lines that are kept, in their order. */
  ghost predicate AreKept(kept: seq<string>, lines: seq<string>, keeps: string -> bool) {
    && Subsequence(kept, lines) && |kept| == |KeptAt(lines, keeps)|
    && forall k :: 0 <= k < |kept| ==> keeps(kept[k])
  }

  lemma KeptAfter(kept: seq<string>, lines: seq<string>, keeps: string -> bool, line: string)
    requires AreKept(kept, lines, keeps)
    ensures AreKept(kept + if keeps(line) then [line] else [], lines + [line], keeps)
  {
    var more := lines + [line];
    if keeps(line) {
      assert KeptAt(more, keeps) == KeptAt(lines, keeps) + {|lines|};
      BothLonger(kept, lines, line);
    } else {
      assert KeptAt(more, keeps) == KeptAt(lines, keeps);
      assert kept + [] == kept;
      Shorter(kept, lines, [line]);
    }
  }

  /** What is recorded of the lines that are kept: one record each. */
  lemma {:induction false} KeptLines<T>(records: string -> seq<T>, keeps: string -> bool, lines: seq<string>)
    returns (kept: seq<string>)
    requires forall line :: |records(line)| == if keeps(line) then 1 else 0
    ensures AreKept(kept, lines, keeps) && |Each(records, lines)| == |kept|
    ensures forall k :: 0 <= k < |kept| ==> [Each(records, lines)[k]] == records(kept[k])
  {
    kept := [];
    if lines == [] {
      assert KeptAt(lines, keeps) == {};
    } else {
      var init, line := lines[..|lines| - 1], lines[|lines| - 1];
      kept := KeptLines(records, keeps, init);
      KeptAfter(kept, init, keeps, line);
      assert init + [line] == lines;
      assert |records(line)| == if keeps(line) then 1 else 0;
      kept := kept + if keeps(line) then [line] else [];
    }
  }

  /** The records of lines: the lines that hold a tag, in their order; of the visibility lines whether they say 1 and
      the part from the tag on; and whether any line says that the observer is ready. */
  ghost predicate AreRecords(r: Records, lines: seq<string>, told: seq<string>) {
    && AreKept(r.regions, lines, Included("[paint-region]")) && AreKept(r.gpu, lines, Included("[paint-gpu]"))
    && AreKept(told, lines, Included("[loops-visibility]")) && |r.visibility| == |told|
    && (forall k :: 0 <= k < |told| ==>
          r.visibility[k] == (Includes(told[k], "visible=1"), From(told[k], "[loops-visibility]")))
    && (r.ready <==> KeptAt(lines, Included("[loops-observer-ready]")) != {})
  }

  function Included(word: string): string -> bool {
    line => Includes(line, word)
  }

  lemma RegionsAreKept(lines: seq<string>)
    ensures AreKept(Each(Region, lines), lines, Included("[paint-region]"))
  {
    var kept := KeptLines(Region, Included("[paint-region]"), lines);
    assert forall k :: 0 <= k < |kept| ==> [Each(Region, lines)[k]] == Region(kept[k]);
    assert Each(Region, lines) == kept;
  }

  lemma GpuIsKept(lines: seq<string>)
    ensures AreKept(Each(Gpu, lines), lines, Included("[paint-gpu]"))
  {
    var kept := KeptLines(Gpu, Included("[paint-gpu]"), lines);
    assert forall k :: 0 <= k < |kept| ==> [Each(Gpu, lines)[k]] == Gpu(kept[k]);
    assert Each(Gpu, lines) == kept;
  }

  lemma RecordsAreOfLines(lines: seq<string>) returns (told: seq<string>)
    ensures AreRecords(RecordsOf(lines), lines, told)
  {
    RegionsAreKept(lines);
    GpuIsKept(lines);
    var ready := KeptLines(Ready, Included("[loops-observer-ready]"), lines);
    told := KeptLines(Visibility, Included("[loops-visibility]"), lines);
    forall k | 0 <= k < |told|
      ensures Each(Visibility, lines)[k] == (Includes(told[k], "visible=1"), From(told[k], "[loops-visibility]"))
    {
      assert [Each(Visibility, lines)[k]] == Visibility(told[k]);
    }
  }

  ghost predicate FirstAt(line: string, word: string, i: nat) {
    StandsAt(word, line, i) && forall j: nat :: j < i ==> !StandsAt(word, line, j)
  }

  lemma FirstOfTail(line: string, word: string, i: nat)
    requires line != "" && !(word <= line) && FirstAt(line[1..], word, i)
    ensures FirstAt(line, word, i + 1) && line[i + 1..] == line[1..][i..]
  {
    forall j: nat | j < i + 1
      ensures !StandsAt(word, line, j)
    {
      assert line[0..] == line;
      if j > 0 {
        assert !StandsAt(word, line[1..], j - 1);
        assert line[1..][j - 1..] == line[j..];
      }
    }
    assert line[i + 1..] == line[1..][i..];
  }

  /** From a word's first occurrence on. */
  lemma {:induction false} FromIsFirst(line: string, word: string) returns (i: nat)
    requires Includes(line, word)
    ensures FirstAt(line, word, i) && From(line, word) == line[i..]
  {
    i := 0;
    assert line[0..] == line;
    if line != "" && !(word <= line) {
      i := FromIsFirst(line[1..], word);
      FirstOfTail(line, word, i);
      i := i + 1;
    }
  }
}
