/** What the searches of the stderr handlers find, said without the searches: `matchAll`, `match` and `includes`. */
module Matches {
  import opened Common
  import opened LineText

  // ---- Alternatives at one place ----

  /** The pattern does not match at the start of a text. */
  ghost predicate Denies(p: Pattern, s: string) {
    forall m :: !Denotes(p, s, m)
  }

  /** No alternative matches at the start of a text. */
  ghost predicate NoneHere(ps: seq<Pattern>, s: string) {
    forall k :: 0 <= k < |ps| ==> Denies(ps[k], s)
  }

  /** The longest match of the first alternative that matches. */
  ghost predicate FirstOf(ps: seq<Pattern>, s: string, m: Match) {
    exists k: nat :: FirstIs(ps, s, m, k)
  }

  ghost predicate FirstIs(ps: seq<Pattern>, s: string, m: Match, k: nat) {
    k < |ps| && IsLongest(ps[k], s, m) && NoneHere(ps[..k], s)
  }

  /** An alternative starts with a literal, and its runs end before the next one. */
  ghost predicate Solid(ps: seq<Pattern>) {
    forall k :: 0 <= k < |ps| ==> Greedy(ps[k]) && ps[k] != [] && ps[k][0].literal != ""
  }

  lemma DenotedIsLong(p: Pattern, s: string, m: Match)
    requires Denotes(p, s, m)
    ensures p != [] && p[0].literal != "" ==> m.length > 0
  {
  }

  lemma NoneOfRest(ps: seq<Pattern>, s: string)
    requires ps != []
    ensures NoneHere(ps, s) <==> Denies(ps[0], s) && NoneHere(ps[1..], s)
  {
    var rest := ps[1..];
    assert forall k :: 0 <= k < |rest| ==> rest[k] == ps[k + 1];
    assert forall k :: 0 < k < |ps| ==> ps[k] == rest[k - 1];
  }

  lemma FirstOfRest(ps: seq<Pattern>, s: string, m: Match)
    requires ps != [] && Denies(ps[0], s) && FirstOf(ps[1..], s, m)
    ensures FirstOf(ps, s, m)
  {
    var k: nat :| FirstIs(ps[1..], s, m, k);
    var before := ps[..k + 1];
    assert before[1..] == ps[1..][..k] && before[0] == ps[0];
    NoneOfRest(before, s);
    assert ps[k + 1] == ps[1..][k] && FirstIs(ps, s, m, k + 1);
  }

  /** The matcher finds that match, or none where there is none. */
  lemma {:induction false} AnyIsFirst(ps: seq<Pattern>, s: string)
    requires Solid(ps)
    ensures if AnyAt(ps, s).Some? then FirstOf(ps, s, AnyAt(ps, s).value) && AnyAt(ps, s).value.length > 0
            else NoneHere(ps, s)
  {
    if ps != [] {
      assert forall k :: 0 <= k < |ps[1..]| ==> ps[1..][k] == ps[k + 1];
      AnyIsFirst(ps[1..], s);
      NoneOfRest(ps, s);
      if MatchAt(ps[0], s).Some? {
        var m := MatchAt(ps[0], s).value;
        MatchIsLongest(ps[0], s, m);
        assert ps[..0] == [] && FirstIs(ps, s, m, 0);
        DenotedIsLong(ps[0], s, m);
      } else {
        NothingDenoted(ps[0], s);
        if AnyAt(ps[1..], s).Some? {
          FirstOfRest(ps, s, AnyAt(ps[1..], s).value);
        }
      }
    }
  }

  lemma NothingDenoted(p: Pattern, s: string)
    requires Greedy(p) && MatchAt(p, s).None?
    ensures Denies(p, s)
  {
    forall m
      ensures !Denotes(p, s, m)
    {
      if Denotes(p, s, m) {
        GreedyMatchIsLongest(p, s, m);
      }
    }
  }

  // ---- All matches ----

  /** The match recorded at a place is that of the first alternative there, and not empty. */
  ghost predicate Recorded(ps: seq<Pattern>, s: string, at: nat, m: Match) {
    0 < m.length && at + m.length <= |s| && FirstOf(ps, s[at..], m)
  }

  ghost predicate InMatch(at: nat, m: Match, x: nat) {
    at <= x < at + m.length
  }

  /** The place is inside one of the matches. */
  ghost predicate Inside(at: seq<nat>, ms: seq<Match>, x: nat)
    requires |at| == |ms|
  {
    exists i :: 0 <= i < |at| && InMatch(at[i], ms[i], x)
  }

  ghost predicate AllRecorded(ps: seq<Pattern>, s: string, at: seq<nat>, ms: seq<Match>) {
    |at| == |ms| && forall i :: 0 <= i < |at| ==> Recorded(ps, s, at[i], ms[i])
  }

  /** No match begins before another has ended. */
  predicate Apart(at: seq<nat>, ms: seq<Match>) {
    |at| == |ms| && forall i, j :: 0 <= i < j < |at| ==> at[i] + ms[i].length <= at[j]
  }

  ghost predicate Starting(ps: seq<Pattern>, s: string, x: nat) {
    x < |s| && !NoneHere(ps, s[x..])
  }

  /** From `from` on nothing matches at a place outside the matches. */
  ghost predicate AllInside(ps: seq<Pattern>, s: string, at: seq<nat>, ms: seq<Match>, from: nat) {
    |at| == |ms| && forall x: nat :: from <= x && Starting(ps, s, x) ==> Inside(at, ms, x)
  }

  /** The matches of a text: from left to right, none overlapping, and nothing matches at a place outside them. */
  ghost predicate IsScan(ps: seq<Pattern>, s: string, at: seq<nat>, ms: seq<Match>) {
    AllRecorded(ps, s, at, ms) && Apart(at, ms) && AllInside(ps, s, at, ms, 0)
  }

  function Shifted(at: seq<nat>, n: nat): (r: seq<nat>)
    ensures |r| == |at| && forall i :: 0 <= i < |at| ==> r[i] == at[i] + n
  {
    seq(|at|, i requires 0 <= i < |at| => at[i] + n)
  }

  lemma ShiftedRecorded(ps: seq<Pattern>, s: string, n: nat, at: seq<nat>, ms: seq<Match>)
    requires n <= |s| && AllRecorded(ps, s[n..], at, ms)
    ensures AllRecorded(ps, s, Shifted(at, n), ms)
  {
    var far := Shifted(at, n);
    forall i | 0 <= i < |far|
      ensures Recorded(ps, s, far[i], ms[i])
    {
      assert Recorded(ps, s[n..], at[i], ms[i]);
      assert s[n..][at[i]..] == s[far[i]..];
    }
  }

  lemma ShiftedInside(ps: seq<Pattern>, s: string, n: nat, at: seq<nat>, ms: seq<Match>)
    requires n <= |s| && AllInside(ps, s[n..], at, ms, 0)
    ensures AllInside(ps, s, Shifted(at, n), ms, n)
  {
    forall x: nat | n <= x && Starting(ps, s, x)
      ensures Inside(Shifted(at, n), ms, x)
    {
      assert s[n..][x - n..] == s[x..];
      assert Starting(ps, s[n..], x - n);
      InsideShifted(at, ms, x - n, n);
    }
  }

  lemma InsideShifted(at: seq<nat>, ms: seq<Match>, x: nat, n: nat)
    requires |at| == |ms| && Inside(at, ms, x)
    ensures Inside(Shifted(at, n), ms, x + n)
  {
    var i :| 0 <= i < |at| && InMatch(at[i], ms[i], x);
    assert InMatch(Shifted(at, n)[i], ms[i], x + n);
  }

  lemma ShiftedScan(ps: seq<Pattern>, s: string, n: nat, at: seq<nat>, ms: seq<Match>)
    requires n <= |s| && IsScan(ps, s[n..], at, ms)
    ensures var far := Shifted(at, n); AllRecorded(ps, s, far, ms) && Apart(far, ms) && AllInside(ps, s, far, ms, n)
  {
    ShiftedRecorded(ps, s, n, at, ms);
    ShiftedInside(ps, s, n, at, ms);
  }

  /** One match in front of those of the rest, or one place at which nothing matches. */
  lemma ScanInFront(ps: seq<Pattern>, s: string, at: seq<nat>, ms: seq<Match>) returns (all: seq<nat>)
    requires Solid(ps) && s != "" && IsScan(ps, s[Advance(ps, s)..], at, ms)
    ensures IsScan(ps, s, all, Here(ps, s) + ms)
  {
    var n := Advance(ps, s);
    all := Shifted(at, n);
    AnyIsFirst(ps, s);
    ShiftedScan(ps, s, n, at, ms);
    assert s[0..] == s;
    if AnyAt(ps, s).Some? {
      var m := AnyAt(ps, s).value;
      assert forall i :: 0 <= i < |all| ==> m.length <= all[i];
      FrontMatch(ps, s, m, all, ms);
      all := [0] + all;
    } else {
      SkippedPlace(ps, s, all, ms);
      assert Here(ps, s) + ms == ms;
    }
  }

  lemma SkippedPlace(ps: seq<Pattern>, s: string, far: seq<nat>, ms: seq<Match>)
    requires AllInside(ps, s, far, ms, 1) && !Starting(ps, s, 0)
    ensures AllInside(ps, s, far, ms, 0)
  {
  }

  lemma FrontMatch(ps: seq<Pattern>, s: string, m: Match, far: seq<nat>, ms: seq<Match>)
    requires AllRecorded(ps, s, far, ms) && Apart(far, ms) && AllInside(ps, s, far, ms, m.length)
    requires Recorded(ps, s, 0, m) && forall i :: 0 <= i < |far| ==> m.length <= far[i]
    ensures IsScan(ps, s, [0] + far, [m] + ms)
  {
    FrontApart(m, far, ms);
    FrontRecorded(ps, s, m, far, ms);
    FrontInside(ps, s, m, far, ms);
  }

  lemma FrontApart(m: Match, far: seq<nat>, ms: seq<Match>)
    requires Apart(far, ms) && forall i :: 0 <= i < |far| ==> m.length <= far[i]
    ensures Apart([0] + far, [m] + ms)
  {
  }

  lemma FrontRecorded(ps: seq<Pattern>, s: string, m: Match, far: seq<nat>, ms: seq<Match>)
    requires AllRecorded(ps, s, far, ms) && Recorded(ps, s, 0, m)
    ensures AllRecorded(ps, s, [0] + far, [m] + ms)
  {
    forall i | 0 <= i < |far| + 1
      ensures Recorded(ps, s, ([0] + far)[i], ([m] + ms)[i])
    {
      assert i > 0 ==> Recorded(ps, s, far[i - 1], ms[i - 1]);
    }
  }

  lemma FrontInside(ps: seq<Pattern>, s: string, m: Match, far: seq<nat>, ms: seq<Match>)
    requires AllInside(ps, s, far, ms, m.length)
    ensures AllInside(ps, s, [0] + far, [m] + ms, 0)
  {
    var all, found := [0] + far, [m] + ms;
    forall x: nat | Starting(ps, s, x)
      ensures Inside(all, found, x)
    {
      if x < m.length {
        assert InMatch(all[0], found[0], x);
      } else {
        var i :| 0 <= i < |far| && InMatch(far[i], ms[i], x);
        assert InMatch(all[i + 1], found[i + 1], x);
      }
    }
  }

  /** The scan finds exactly the matches of the text. */
  lemma {:induction false} ScanFindsAll(ps: seq<Pattern>, s: string) returns (at: seq<nat>)
    requires Solid(ps)
    ensures IsScan(ps, s, at, Scan(ps, s))
    decreases |s|
  {
    if s == "" {
      at := [];
    } else {
      at := ScanFindsAll(ps, s[Advance(ps, s)..]);
      at := ScanInFront(ps, s, at, Scan(ps, s[Advance(ps, s)..]));
    }
  }

  // ---- How many ----

  /** The places at which some alternative matches. */
  ghost function Starts(ps: seq<Pattern>, s: string): set<nat> {
    set x: nat | x < |s| && Starting(ps, s, x)
  }

  /** The character is nowhere in a match of the pattern. */
  predicate Without(p: Pattern, c: char) {
    forall segment :: segment in p ==> c !in segment.literal && !In(segment.run, c)
  }

  /** The character begins each alternative and is nowhere else in a match. */
  predicate MarkedBy(p: Pattern, c: char) {
    && p != [] && p[0].literal != "" && p[0].literal[0] == c && c !in p[0].literal[1..] && !In(p[0].run, c)
    && Without(p[1..], c)
  }

  lemma {:induction false} NoMark(p: Pattern, s: string, m: Match, c: char)
    requires Without(p, c) && Denotes(p, s, m)
    ensures m.length <= |s| && c !in s[..m.length]
    decreases |p|
  {
    if p != [] {
      var n: nat, rest: Match :| Ends(p[0], s, n) && Denotes(p[1..], s[n..], rest) && m == Then(p[0], s, n, rest);
      assert p[0] in p && forall segment :: segment in p[1..] ==> segment in p;
      NoMark(p[1..], s[n..], rest, c);
      SegmentHasNoMark(p[0], s, n, c);
      assert s[..m.length] == s[..n] + s[n..][..rest.length];
    }
  }

  lemma SegmentHasNoMark(segment: Segment, s: string, n: nat, c: char)
    requires Ends(segment, s, n) && c !in segment.literal && !In(segment.run, c)
    ensures c !in s[..n]
  {
    var from := |segment.literal|;
    forall i | 0 <= i < n
      ensures s[..n][i] != c
    {
      if i < from {
        assert s[i] == segment.literal[i] && segment.literal[i] in segment.literal;
      }
    }
  }

  /** A match has the mark at its start alone. */
  lemma OneMark(p: Pattern, s: string, m: Match, c: char)
    requires MarkedBy(p, c) && Denotes(p, s, m)
    ensures 0 < m.length <= |s| && s[0] == c && forall i :: 0 < i < m.length ==> s[i] != c
  {
    var n: nat, rest: Match :| Ends(p[0], s, n) && Denotes(p[1..], s[n..], rest) && m == Then(p[0], s, n, rest);
    NoMark(p[1..], s[n..], rest, c);
    assert s[0] == p[0].literal[0];
    forall i | 0 < i < m.length
      ensures s[i] != c
    {
      if i < |p[0].literal| {
        assert s[i] == p[0].literal[i] == p[0].literal[1..][i - 1];
      } else if n <= i {
        assert s[i] == s[n..][i - n] && s[n..][i - n] == s[n..][..rest.length][i - n];
      }
    }
  }

  ghost predicate Marked(ps: seq<Pattern>, c: char) {
    forall k :: 0 <= k < |ps| ==> MarkedBy(ps[k], c)
  }

  /** What is recorded at a place has the mark there alone. */
  lemma RecordedMark(ps: seq<Pattern>, s: string, at: nat, m: Match, c: char)
    requires Marked(ps, c) && Recorded(ps, s, at, m)
    ensures at < |s| && !NoneHere(ps, s[at..])
    ensures forall x :: at < x < at + m.length ==> s[x] != c
  {
    var k: nat :| FirstIs(ps, s[at..], m, k);
    OneMark(ps[k], s[at..], m, c);
    forall x | at < x < at + m.length
      ensures s[x] != c
    {
      assert s[x] == s[at..][x - at];
    }
  }

  lemma StartHasMark(ps: seq<Pattern>, s: string, x: nat, c: char)
    requires Marked(ps, c) && x in Starts(ps, s)
    ensures s[x] == c
  {
    var k :| 0 <= k < |ps| && !Denies(ps[k], s[x..]);
    var m :| Denotes(ps[k], s[x..], m);
    OneMark(ps[k], s[x..], m, c);
  }

  /** So the scan records one match for every place at which an alternative matches. */
  lemma ScanCounts(ps: seq<Pattern>, s: string, c: char) returns (at: seq<nat>)
    requires Solid(ps) && Marked(ps, c)
    ensures IsScan(ps, s, at, Scan(ps, s))
    ensures Elements(at) == Starts(ps, s) && |Scan(ps, s)| == |Starts(ps, s)|
  {
    at := ScanFindsAll(ps, s);
    PlacesAreStarts(ps, s, at, Scan(ps, s), c);
    StartsArePlaces(ps, s, at, Scan(ps, s), c);
    PlacesGrow(ps, s, at, Scan(ps, s));
    SizeOfElements(at);
  }

  lemma PlacesGrow(ps: seq<Pattern>, s: string, at: seq<nat>, ms: seq<Match>)
    requires AllRecorded(ps, s, at, ms) && Apart(at, ms)
    ensures forall i, j :: 0 <= i < j < |at| ==> at[i] < at[j]
  {
    forall i, j | 0 <= i < j < |at|
      ensures at[i] < at[j]
    {
      assert Recorded(ps, s, at[i], ms[i]);
    }
  }

  lemma PlacesAreStarts(ps: seq<Pattern>, s: string, at: seq<nat>, ms: seq<Match>, c: char)
    requires Marked(ps, c) && AllRecorded(ps, s, at, ms)
    ensures Elements(at) <= Starts(ps, s)
  {
    forall i | 0 <= i < |at|
      ensures at[i] in Starts(ps, s)
    {
      RecordedMark(ps, s, at[i], ms[i], c);
    }
  }

  lemma StartsArePlaces(ps: seq<Pattern>, s: string, at: seq<nat>, ms: seq<Match>, c: char)
    requires Marked(ps, c) && AllRecorded(ps, s, at, ms) && AllInside(ps, s, at, ms, 0)
    ensures Starts(ps, s) <= Elements(at)
  {
    forall x | x in Starts(ps, s)
      ensures x in at
    {
      assert Inside(at, ms, x);
      var i :| 0 <= i < |at| && InMatch(at[i], ms[i], x);
      StartIsPlace(ps, s, at[i], ms[i], x, c);
    }
  }

  lemma StartIsPlace(ps: seq<Pattern>, s: string, at: nat, m: Match, x: nat, c: char)
    requires Marked(ps, c) && Recorded(ps, s, at, m) && x in Starts(ps, s) && InMatch(at, m, x)
    ensures x == at
  {
    StartHasMark(ps, s, x, c);
    RecordedMark(ps, s, at, m, c);
  }

  function Elements(s: seq<nat>): set<nat> {
    set x | x in s
  }

  lemma {:induction false} SizeOfElements(s: seq<nat>)
    requires forall i, j :: 0 <= i < j < |s| ==> s[i] < s[j]
    ensures |Elements(s)| == |s|
  {
    if s != [] {
      var init, last := s[..|s| - 1], s[|s| - 1];
      SizeOfElements(init);
      assert last !in init;
      assert Elements(s) == Elements(init) + {last};
    }
  }

  // ---- Words and single matches in a line ----

  /** The word stands at a place of the text. */
  predicate StandsAt(word: string, s: string, i: nat) {
    i <= |s| && word <= s[i..]
  }

  lemma {:induction false} IncludesIsStanding(s: string, word: string)
    ensures Includes(s, word) <==> exists i: nat :: StandsAt(word, s, i)
  {
    assert s[0..] == s;
    if word <= s {
      assert StandsAt(word, s, 0);
    } else if s != "" {
      IncludesIsStanding(s[1..], word);
      if i: nat :| StandsAt(word, s[1..], i) {
        assert s[1..][i..] == s[i + 1..];
        assert StandsAt(word, s, i + 1);
      }
      if i: nat :| StandsAt(word, s, i) {
        assert s[1..][i - 1..] == s[i..];
        assert StandsAt(word, s[1..], i - 1);
      }
    }
  }

  /** The first match of an expression in a line. */
  ghost predicate IsFirstMatch(p: Pattern, s: string, m: Match, i: nat) {
    i <= |s| && IsLongest(p, s[i..], m) && forall j :: 0 <= j < i ==> Denies(p, s[j..])
  }

  lemma {:induction false} FirstMatchIsFirst(p: Pattern, s: string) returns (i: nat)
    requires Greedy(p)
    ensures match FirstMatch(p, s)
            case Some(m) => IsFirstMatch(p, s, m, i)
            case None => forall j :: 0 <= j <= |s| ==> Denies(p, s[j..])
  {
    i := 0;
    assert s[0..] == s;
    if MatchAt(p, s).Some? {
      MatchIsLongest(p, s, MatchAt(p, s).value);
    } else {
      NothingDenoted(p, s);
      if s != "" {
        i := FirstMatchIsFirst(p, s[1..]);
        i := i + 1;
        assert forall j :: 0 < j <= |s| ==> s[j..] == s[1..][j - 1..];
      }
    }
  }

  // ---- Lines ----

  /** Splitting cuts at the line breaks: the parts hold none, and with one between every two they are the text. */
  function Glued(lines: seq<string>): string
    requires lines != []
  {
    if |lines| == 1 then lines[0] else lines[0] + "\n" + Glued(lines[1..])
  }

  lemma {:induction false} SplitIsGlued(s: string)
    ensures Glued(Split(s)) == s
  {
    if s != "" {
      SplitIsGlued(s[1..]);
      PushIsGlued(s[0], Split(s[1..]));
      assert s == [s[0]] + s[1..];
    }
  }

  lemma PushIsGlued(c: char, lines: seq<string>)
    requires lines != []
    ensures Glued(Push(c, lines)) == [c] + Glued(lines)
  {
    if c == '\n' {
      assert ([""] + lines)[1..] == lines;
    } else {
      assert ([[c] + lines[0]] + lines[1..])[1..] == lines[1..];
    }
  }

  /** Whole lines and what follows the last break. */
  lemma WholeAndRest(whole: string, rest: string)
    requires WholeLines(whole) && '\n' !in rest
    ensures Complete(whole + rest) == whole && Rest(whole + rest) == rest
  {
    var s := whole + rest;
    assert s[..|whole|] == whole && s[|whole|..] == rest;
    assert forall i :: |whole| <= i < |s| ==> s[i] == rest[i - |whole|] && rest[i - |whole|] in rest;
    CompleteIsUnique(s, |whole|);
  }
}
