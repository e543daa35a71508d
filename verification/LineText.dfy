/** Text as the stderr handlers read it: complete lines, regular expressions over them, and why neither depends on where
    the pipe cuts the text. */
module LineText {
  import opened Common

  // ---- Lines ----

  /** `lastIndexOf('\n') + 1`: how much of the text is complete lines. */
  function CompleteLength(s: string): (n: nat)
    ensures n <= |s|
    ensures 0 < n ==> s[n - 1] == '\n'
    ensures forall i :: n <= i < |s| ==> s[i] != '\n'
  {
    if s == [] then 0
    else if s[|s| - 1] == '\n' then |s|
    else CompleteLength(s[..|s| - 1])
  }

  function Complete(s: string): string {
    s[..CompleteLength(s)]
  }

  function Rest(s: string): string {
    s[CompleteLength(s)..]
  }

  /** Empty, or a whole number of lines. */
  ghost predicate WholeLines(s: string) {
    s == [] || s[|s| - 1] == '\n'
  }

  lemma CompleteIsUnique(s: string, n: nat)
    requires n <= |s| && WholeLines(s[..n]) && forall i :: n <= i < |s| ==> s[i] != '\n'
    ensures CompleteLength(s) == n
  {
    assert 0 < n ==> s[..n][n - 1] == '\n';
  }

  lemma CompleteAfter(t: string, n: nat)
    requires n <= |t| && WholeLines(t[..n])
    ensures CompleteLength(t) == n + CompleteLength(t[n..])
  {
    var m := CompleteLength(t[n..]);
    assert 0 < m ==> t[n + m - 1] == t[n..][m - 1];
    assert t[..n + m] != [] && m == 0 ==> t[..n][n - 1] == t[..n + m][n + m - 1];
    forall i | n + m <= i < |t|
      ensures t[i] != '\n'
    {
      assert t[i] == t[n..][i - n];
    }
    CompleteIsUnique(t, n + m);
  }

  lemma SliceOfSlice(t: string, n: nat, m: nat)
    requires n + m <= |t|
    ensures t[..n + m] == t[..n] + t[n..][..m] && t[n + m..] == t[n..][m..]
  {
  }

  /** More text only adds lines: what was complete stays, and the new lines come from the kept rest and the new text. */
  lemma CompleteOfMore(s: string, more: string)
    ensures Complete(s + more) == Complete(s) + Complete(Rest(s) + more)
    ensures Rest(s + more) == Rest(Rest(s) + more)
  {
    var t, n := s + more, CompleteLength(s);
    Parts(s, more, n);
    WholeIsComplete(s);
    CompleteInParts(t, n);
  }

  lemma CompleteInParts(t: string, n: nat)
    requires n <= |t| && WholeLines(t[..n])
    ensures Complete(t) == t[..n] + Complete(t[n..]) && Rest(t) == Rest(t[n..])
  {
    CompleteAfter(t, n);
    SliceOfSlice(t, n, CompleteLength(t[n..]));
  }

  lemma Parts(s: string, more: string, n: nat)
    requires n <= |s|
    ensures (s + more)[..n] == s[..n] && (s + more)[n..] == s[n..] + more
  {
  }

  lemma WholeIsComplete(s: string)
    ensures WholeLines(Complete(s))
  {
  }

  function Push(c: char, lines: seq<string>): (r: seq<string>)
    requires lines != []
    ensures r != []
  {
    if c == '\n' then [""] + lines else [[c] + lines[0]] + lines[1..]
  }

  /** `split('\n')`. */
  function Split(s: string): (lines: seq<string>)
    ensures lines != []
  {
    if s == [] then [""] else Push(s[0], Split(s[1..]))
  }

  /** The lines of a text hold its characters and no newline. */
  lemma {:induction false} SplitIsClean(s: string)
    ensures forall line, c :: line in Split(s) && c in line ==> c in s && c != '\n'
  {
    if s != "" {
      SplitIsClean(s[1..]);
      var lines := Split(s[1..]);
      assert lines[0] in lines;
      assert forall line :: line in lines[1..] ==> line in lines;
    }
  }

  lemma PushOfAppend(c: char, init: seq<string>, tail: seq<string>)
    requires init != []
    ensures Push(c, init + tail) == Push(c, init) + tail
  {
    assert (init + tail)[1..] == init[1..] + tail;
  }

  /** The lines of whole lines: all but the last part of the split, which is empty. */
  function WholeOf(s: string): seq<string> {
    var lines := Split(s);
    lines[..|lines| - 1]
  }

  lemma {:induction false} SplitOfMore(a: string, b: string)
    requires WholeLines(a)
    ensures Split(a + b) == WholeOf(a) + Split(b) && Split(a) == WholeOf(a) + [""]
    ensures a != [] ==> WholeOf(a) != []
  {
    if a == [] {
      assert a + b == b;
    } else {
      assert (a + b)[0] == a[0] && (a + b)[1..] == a[1..] + b;
      SplitOfMore(a[1..], b);
      var whole := WholeOf(a[1..]);
      if whole == [] {
        assert a == ['\n'];
      } else {
        PushOfAppend(a[0], whole, Split(b));
        PushOfAppend(a[0], whole, [""]);
      }
    }
  }

  /** The records of a list of lines, each line giving its own. */
  function Each<T>(records: string -> seq<T>, lines: seq<string>): seq<T> {
    if lines == [] then [] else Each(records, lines[..|lines| - 1]) + records(lines[|lines| - 1])
  }

  lemma {:induction false} EachOfAppend<T>(records: string -> seq<T>, a: seq<string>, b: seq<string>)
    ensures Each(records, a + b) == Each(records, a) + Each(records, b)
  {
    if b == [] {
      assert a + b == a;
    } else {
      assert (a + b)[..|a + b| - 1] == a + b[..|b| - 1];
      EachOfAppend(records, a, b[..|b| - 1]);
    }
  }

  /** Per-line records of whole lines add up, when an empty line has none. */
  lemma RecordsOfMore<T>(records: string -> seq<T>, a: string, b: string)
    requires WholeLines(a) && records("") == []
    ensures Each(records, Split(a + b)) == Each(records, Split(a)) + Each(records, Split(b))
  {
    SplitOfMore(a, b);
    EachOfAppend(records, WholeOf(a), Split(b));
    EachWithEmpty(records, WholeOf(a));
  }

  lemma EachWithEmpty<T>(records: string -> seq<T>, lines: seq<string>)
    requires records("") == []
    ensures Each(records, lines + [""]) == Each(records, lines)
  {
    assert (lines + [""])[..|lines|] == lines;
  }

  // ---- Regular expressions ----

  datatype Class = Nothing | Decimal | Digits

  /** A literal, then a captured run of one or more characters of a class (`Nothing`: no run). */
  datatype Segment = Segment(literal: string, run: Class)

  type Pattern = seq<Segment>

  predicate In(class_: Class, c: char) {
    match class_
    case Nothing => false
    case Decimal => '0' <= c <= '9' || c == '.'
    case Digits => '0' <= c <= '9'
  }

  function RunLength(class_: Class, s: string): (n: nat)
    ensures n <= |s|
    ensures forall i :: 0 <= i < n ==> In(class_, s[i])
    ensures n < |s| ==> !In(class_, s[n])
  {
    if s == [] || !In(class_, s[0]) then 0 else 1 + RunLength(class_, s[1..])
  }

  /** A match at the start of a text: its length and the captured runs. */
  datatype Match = Match(length: nat, captures: seq<string>)

  /** Where a segment ends, for a text that starts with its literal. */
  function AfterSegment(segment: Segment, s: string): (n: nat)
    requires segment.literal <= s
    ensures |segment.literal| <= n <= |s|
  {
    |segment.literal| + (if segment.run.Nothing? then 0 else RunLength(segment.run, s[|segment.literal|..]))
  }

  /** A segment followed by a match of the rest; a run that must be captured is not empty. */
  function Join(segment: Segment, run: string, rest: Option<Match>): Option<Match> {
    if rest.None? || (!segment.run.Nothing? && run == []) then None
    else
      var captures := if segment.run.Nothing? then [] else [run];
      Some(Match(|segment.literal| + |run| + rest.value.length, captures + rest.value.captures))
  }

  /** The greedy match of a pattern at the start of a text. */
  function MatchAt(p: Pattern, s: string): (m: Option<Match>)
    ensures m.Some? ==> m.value.length <= |s|
  {
    if p == [] then Some(Match(0, []))
    else if !(p[0].literal <= s) then None
    else
      var n := AfterSegment(p[0], s);
      Join(p[0], s[|p[0].literal|..n], MatchAt(p[1..], s[n..]))
  }

  /** A segment can end after `n` characters: its literal, then at least one character of the class, all of them in
      it. */
  ghost predicate Ends(segment: Segment, s: string, n: nat) {
    var from := |segment.literal|;
    && segment.literal <= s && from <= n <= |s|
    && (if segment.run.Nothing? then n == from else from < n && forall i :: from <= i < n ==> In(segment.run, s[i]))
  }

  /** A segment that takes the first n characters, and a match of what follows. */
  function Then(segment: Segment, s: string, n: nat, rest: Match): Match
    requires |segment.literal| <= n <= |s|
  {
    var captured := s[|segment.literal|..n];
    Match(n + rest.length, if segment.run.Nothing? then rest.captures else [captured] + rest.captures)
  }

  /** What the expression denotes: the text's first `length` characters are the segments of the pattern in turn, with
      their runs captured. */
  ghost predicate Denotes(p: Pattern, s: string, m: Match) {
    if p == [] then m == Match(0, [])
    else
      exists n: nat, rest: Match ::
        Ends(p[0], s, n) && Denotes(p[1..], s[n..], rest) && m == Then(p[0], s, n, rest)
  }

  /** A run is followed by a literal that starts outside its class, so a shorter run never helps. */
  predicate Greedy(p: Pattern) {
    |p| <= 1 || (Greedy(p[1..]) && (p[0].run.Nothing? || (p[1].literal != [] && !In(p[0].run, p[1].literal[0]))))
  }

  lemma LongestEnd(segment: Segment, s: string, n: nat)
    requires Ends(segment, s, n)
    ensures n <= AfterSegment(segment, s) && Ends(segment, s, AfterSegment(segment, s))
    ensures n < AfterSegment(segment, s) ==> In(segment.run, s[n])
  {
    var from := |segment.literal|;
    var m := AfterSegment(segment, s);
    assert forall i :: from <= i < m ==> s[i] == s[from..][i - from];
    assert m < |s| ==> s[m] == s[from..][m - from];
  }

  lemma AfterSegmentEnds(segment: Segment, s: string)
    requires segment.literal <= s && (segment.run.Nothing? || |segment.literal| < AfterSegment(segment, s))
    ensures Ends(segment, s, AfterSegment(segment, s))
  {
    var from, n := |segment.literal|, AfterSegment(segment, s);
    assert forall i :: from <= i < n ==> s[i] == s[from..][i - from];
  }

  lemma MatchParts(p: Pattern, s: string)
    requires p != [] && p[0].literal <= s
    ensures var n := AfterSegment(p[0], s);
            var rest := MatchAt(p[1..], s[n..]);
            && (MatchAt(p, s).Some? <==> rest.Some? && (p[0].run.Nothing? || |p[0].literal| < n))
            && (MatchAt(p, s).Some? ==> MatchAt(p, s).value == Then(p[0], s, n, rest.value))
  {
  }

  lemma DenotesSegment(p: Pattern, s: string, n: nat, rest: Match)
    requires p != [] && Ends(p[0], s, n) && Denotes(p[1..], s[n..], rest)
    ensures Denotes(p, s, Then(p[0], s, n, rest))
  {
  }

  /** The greedy match is a match of the expression. */
  lemma {:induction false} GreedyMatchIsMatch(p: Pattern, s: string)
    requires MatchAt(p, s).Some?
    ensures Denotes(p, s, MatchAt(p, s).value)
    decreases |p|
  {
    if p != [] {
      var n := AfterSegment(p[0], s);
      MatchParts(p, s);
      AfterSegmentEnds(p[0], s);
      GreedyMatchIsMatch(p[1..], s[n..]);
      DenotesSegment(p, s, n, MatchAt(p[1..], s[n..]).value);
    }
  }

  /** With more of the pattern to come, only the longest end leaves the next literal in place. */
  lemma EndIsForced(p: Pattern, s: string, k: nat, rest: Match)
    requires Greedy(p) && 1 < |p| && Ends(p[0], s, k) && Denotes(p[1..], s[k..], rest)
    ensures k == AfterSegment(p[0], s)
  {
    LongestEnd(p[0], s, k);
    assert p[1..][0] == p[1] && p[1].literal <= s[k..];
    assert !p[0].run.Nothing? ==> p[1].literal[0] == s[k..][0] == s[k];
  }

  /** The greedy match is found whenever the expression matches, no match is longer, and none as long is another. */
  lemma {:induction false} GreedyMatchIsLongest(p: Pattern, s: string, m: Match)
    requires Greedy(p) && Denotes(p, s, m)
    ensures MatchAt(p, s).Some? && m.length <= MatchAt(p, s).value.length
    ensures m.length == MatchAt(p, s).value.length ==> m == MatchAt(p, s).value
    decreases |p|
  {
    if p != [] {
      var k: nat, rest: Match :|
        Ends(p[0], s, k) && Denotes(p[1..], s[k..], rest) && m == Then(p[0], s, k, rest);
      LongestEnd(p[0], s, k);
      MatchParts(p, s);
      if |p| == 1 {
        assert p[1..] == [];
      } else {
        EndIsForced(p, s, k, rest);
        GreedyMatchIsLongest(p[1..], s[k..], rest);
      }
    }
  }

  /** The longest of the matches that the expression denotes at the start of a text. */
  ghost predicate IsLongest(p: Pattern, s: string, m: Match) {
    Denotes(p, s, m) && forall other :: Denotes(p, s, other) ==> other.length <= m.length
  }

  lemma MatchIsLongest(p: Pattern, s: string, m: Match)
    requires Greedy(p)
    ensures MatchAt(p, s) == Some(m) <==> IsLongest(p, s, m)
  {
    if MatchAt(p, s).Some? {
      GreedyMatchIsMatch(p, s);
      forall other | Denotes(p, s, other)
        ensures other.length <= MatchAt(p, s).value.length
        ensures other.length == MatchAt(p, s).value.length ==> other == MatchAt(p, s).value
      {
        GreedyMatchIsLongest(p, s, other);
      }
    }
    if Denotes(p, s, m) {
      GreedyMatchIsLongest(p, s, m);
    }
  }

  /** The first alternative that matches here. */
  function AnyAt(ps: seq<Pattern>, s: string): (m: Option<Match>)
    ensures m.Some? ==> m.value.length <= |s|
  {
    if ps == [] then None
    else if MatchAt(ps[0], s).Some? then MatchAt(ps[0], s)
    else AnyAt(ps[1..], s)
  }

  /** The match the scan records at the start of a text. */
  function Here(ps: seq<Pattern>, s: string): seq<Match> {
    if AnyAt(ps, s).Some? && AnyAt(ps, s).value.length != 0 then [AnyAt(ps, s).value] else []
  }

  /** How far the scan moves on from the start of a text. */
  function Advance(ps: seq<Pattern>, s: string): (n: nat)
    requires s != []
    ensures 1 <= n <= |s|
  {
    if AnyAt(ps, s).Some? && AnyAt(ps, s).value.length != 0 then AnyAt(ps, s).value.length else 1
  }

  /** `matchAll`: the matches from left to right, none overlapping. */
  function Scan(ps: seq<Pattern>, s: string): seq<Match> {
    if s == [] then [] else Here(ps, s) + Scan(ps, s[Advance(ps, s)..])
  }

  /** No literal holds a line break, so no match crosses one. */
  predicate OneLine(p: Pattern) {
    forall segment :: segment in p ==> '\n' !in segment.literal
  }

  lemma RunOfMore(class_: Class, a: string, b: string)
    requires a != [] && WholeLines(a)
    ensures RunLength(class_, a + b) == RunLength(class_, a) < |a|
  {
    var n := RunLength(class_, a);
    assert !In(class_, a[|a| - 1]);
    assert (a + b)[n] == a[n];
  }

  lemma LiteralOfMore(literal: string, a: string, b: string)
    requires a != [] && WholeLines(a) && '\n' !in literal
    ensures literal <= a + b <==> literal <= a
    ensures literal <= a ==> |literal| < |a|
  {
    var last := |a| - 1;
    assert (a + b)[last] == '\n' && forall i :: 0 <= i < |literal| ==> literal[i] in literal;
    if literal <= a + b {
      assert forall i :: 0 <= i < |literal| ==> literal[i] == (a + b)[i] == a[i];
    }
  }

  lemma SegmentOfMore(segment: Segment, a: string, b: string)
    requires a != [] && WholeLines(a) && '\n' !in segment.literal && segment.literal <= a
    ensures segment.literal <= a + b && AfterSegment(segment, a + b) == AfterSegment(segment, a) < |a|
    ensures var n := AfterSegment(segment, a); (a + b)[n..] == a[n..] + b && (a + b)[..n] == a[..n]
  {
    LiteralOfMore(segment.literal, a, b);
    var from := |segment.literal|;
    assert (a + b)[from..] == a[from..] + b;
    RunOfMore(segment.run, a[from..], b);
  }

  lemma {:induction false} MatchOfMore(p: Pattern, a: string, b: string)
    requires a != [] && WholeLines(a) && OneLine(p)
    ensures MatchAt(p, a + b) == MatchAt(p, a)
    ensures MatchAt(p, a).Some? ==> MatchAt(p, a).value.length < |a|
    decreases |p|
  {
    if p != [] {
      assert p[0] in p && forall segment :: segment in p[1..] ==> segment in p;
      LiteralOfMore(p[0].literal, a, b);
      if p[0].literal <= a {
        SegmentOfMore(p[0], a, b);
        var n := AfterSegment(p[0], a);
        assert (a + b)[|p[0].literal|..n] == a[|p[0].literal|..n];
        MatchOfMore(p[1..], a[n..], b);
      }
    }
  }

  lemma {:induction false} AnyOfMore(ps: seq<Pattern>, a: string, b: string)
    requires a != [] && WholeLines(a) && forall p :: p in ps ==> OneLine(p)
    ensures AnyAt(ps, a + b) == AnyAt(ps, a)
    ensures AnyAt(ps, a).Some? ==> AnyAt(ps, a).value.length < |a|
  {
    if ps != [] {
      MatchOfMore(ps[0], a, b);
      AnyOfMore(ps[1..], a, b);
    }
  }

  lemma StepOfMore(ps: seq<Pattern>, a: string, b: string)
    requires a != [] && WholeLines(a) && forall p :: p in ps ==> OneLine(p)
    ensures Here(ps, a + b) == Here(ps, a) && Advance(ps, a + b) == Advance(ps, a)
    ensures var n := Advance(ps, a); (a + b)[n..] == a[n..] + b && WholeLines(a[n..])
  {
    AnyOfMore(ps, a, b);
  }

  /** The matches in whole lines and in what follows them are found independently. */
  lemma {:induction false} ScanOfMore(ps: seq<Pattern>, a: string, b: string)
    requires WholeLines(a) && forall p :: p in ps ==> OneLine(p)
    ensures Scan(ps, a + b) == Scan(ps, a) + Scan(ps, b)
    decreases |a|
  {
    if a == [] {
      assert a + b == b;
    } else {
      StepOfMore(ps, a, b);
      var rest := a[Advance(ps, a)..];
      ScanOfMore(ps, rest, b);
      Associate(Here(ps, a), Scan(ps, rest), Scan(ps, b));
    }
  }

  lemma Associate<T>(a: seq<T>, b: seq<T>, c: seq<T>)
    ensures a + (b + c) == a + b + c
  {
  }

  predicate Includes(s: string, word: string) {
    word <= s || (s != [] && Includes(s[1..], word))
  }

  /** The leftmost match in a line, as `line.match` finds it. */
  function FirstMatch(p: Pattern, s: string): Option<Match> {
    if MatchAt(p, s).Some? then MatchAt(p, s)
    else if s == [] then None
    else FirstMatch(p, s[1..])
  }
}
