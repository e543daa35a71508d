/** The queue file of the UI lease: one lane a line, rewritten in place. */
module QueueFile {
  import opened LineText

  function NonEmpty(line: string): seq<string> {
    if line == "" then [] else [line]
  }

  /** The lanes in a file: its lines that are not empty. */
  function Lanes(text: string): seq<string> {
    Each(NonEmpty, Split(text))
  }

  function Printed(lanes: seq<string>): string {
    if lanes == [] then "" else lanes[0] + "\n" + Printed(lanes[1..])
  }

  /** Where the editor's `splitlines` ends a line. */
  predicate IsBreak(c: char) {
    '\n' <= c <= '\r' || '\U{1c}' <= c <= '\U{1e}' || c == '\U{85}' || c == '\U{2028}' || c == '\U{2029}'
  }

  /** The text with every break a newline. Two breaks in a row have an empty line between them, which nobody keeps. */
  function Unified(s: string): (u: string)
    ensures |u| == |s| && forall i :: 0 <= i < |s| ==> u[i] == if IsBreak(s[i]) then '\n' else s[i]
  {
    seq(|s|, i requires 0 <= i < |s| => if IsBreak(s[i]) then '\n' else s[i])
  }

  /** The lanes the editor finds. */
  function EditorLanes(text: string): seq<string> {
    Lanes(Unified(text))
  }

  predicate IsLane(s: string) {
    s != "" && forall c :: c in s ==> !IsBreak(c)
  }

  predicate AreLanes(lanes: seq<string>) {
    forall lane :: lane in lanes ==> IsLane(lane)
  }

  function Without<T(==,!new)>(s: seq<T>, x: T): (r: seq<T>)
    ensures x !in r && forall y :: y in r <==> y in s && y != x
  {
    if s == [] then [] else (if s[0] == x then [] else [s[0]]) + Without(s[1..], x)
  }

  /** The queue after a lane joins, unless it is there, or leaves. */
  function Edited<T(==,!new)>(lanes: seq<T>, lane: T, join: bool): seq<T> {
    if join then (if lane in lanes then lanes else lanes + [lane]) else Without(lanes, lane)
  }

  // ---- Reading back what was written ----

  lemma {:induction false} LanesOfLine(lane: string)
    requires '\n' !in lane
    ensures Split(lane + "\n") == [lane, ""]
  {
    if lane == "" {
      assert lane + "\n" == "\n" && "\n"[1..] == "";
      assert Split("") == [""];
    } else {
      LanesOfLine(lane[1..]);
      assert (lane + "\n")[1..] == lane[1..] + "\n" && [lane[0]] + lane[1..] == lane;
    }
  }

  /** Reading a written queue gives its lanes. */
  lemma {:induction false} PrintedIsRead(lanes: seq<string>)
    requires AreLanes(lanes)
    ensures Lanes(Printed(lanes)) == lanes && WholeLines(Printed(lanes))
  {
    if lanes == [] {
      assert Split("") == [""] && [""][..0] == [];
    } else {
      var line := lanes[0] + "\n";
      assert lanes[0] in lanes;
      LanesOfLine(lanes[0]);
      assert [lanes[0], ""][..1] == [lanes[0]] && [lanes[0]][..0] == [];
      assert Each(NonEmpty, [lanes[0]]) == [lanes[0]];
      PrintedIsRead(lanes[1..]);
      RecordsOfMore(NonEmpty, line, Printed(lanes[1..]));
    }
  }

  /** Nothing the program writes has a break that only its editor sees. */
  lemma {:induction false} PrintedIsUnified(lanes: seq<string>)
    requires AreLanes(lanes)
    ensures Unified(Printed(lanes)) == Printed(lanes)
  {
    if lanes != [] {
      assert IsLane(lanes[0]);
      PrintedIsUnified(lanes[1..]);
    }
  }

  /** The editor and the readers find the same lanes in a written queue. */
  lemma EditorAgrees(lanes: seq<string>)
    requires AreLanes(lanes)
    ensures EditorLanes(Printed(lanes)) == lanes == Lanes(Printed(lanes))
  {
    PrintedIsUnified(lanes);
    PrintedIsRead(lanes);
  }

  lemma {:induction false} NonEmptyAreThere(lines: seq<string>)
    ensures forall line :: line in Each(NonEmpty, lines) ==> line in lines && line != ""
  {
    if lines != [] {
      NonEmptyAreThere(lines[..|lines| - 1]);
    }
  }

  lemma LanesAreLanes(text: string)
    ensures AreLanes(EditorLanes(text))
  {
    SplitIsClean(Unified(text));
    NonEmptyAreThere(Split(Unified(text)));
  }

  /** The bytes of a file between the write of new text over the old and the cut that follows. */
  function Torn(before: string, after: string): string {
    if |before| <= |after| then after else after + before[|after|..]
  }

  /** A reader between the two sees the new queue first, whatever it sees behind it; and while the new queue is empty it
      still sees the old one. */
  lemma TornShowsNewFirst(before: string, lanes: seq<string>)
    requires AreLanes(lanes)
    ensures lanes <= Lanes(Torn(before, Printed(lanes)))
    ensures lanes == [] ==> Lanes(Torn(before, Printed(lanes))) == Lanes(before)
  {
    var after := Printed(lanes);
    PrintedIsRead(lanes);
    if |before| > |after| {
      TornIsSplit(after, before[|after|..]);
    }
    assert lanes == [] ==> Torn(before, after) == before;
  }

  lemma TornIsSplit(after: string, leftover: string)
    requires WholeLines(after)
    ensures Lanes(after + leftover) == Lanes(after) + Lanes(leftover)
  {
    RecordsOfMore(NonEmpty, after, leftover);
  }

  method KeepNonEmpty(text: string) returns (lanes: seq<string>)
    ensures lanes == Lanes(text)
  {
    lanes := [];
    var lines := Split(text);
    for i := 0 to |lines|
      invariant lanes == Each(NonEmpty, lines[..i])
    {
      assert lines[..i + 1][..i] == lines[..i];
      if lines[i] != "" {
        lanes := lanes + [lines[i]];
      }
    }
    assert lines[..|lines|] == lines;
  }

  class File {
    var text: string

    constructor ()
      ensures text == ""
    {
      text := "";
    }

    /** The lanes a reader sees. */
    method Read() returns (lanes: seq<string>)
      ensures lanes == Lanes(text)
    {
      lanes := KeepNonEmpty(text);
    }

    /** The rewrite under the file lock. */
    method Edit(lane: string, join: bool)
      requires IsLane(lane)
      modifies this
      ensures Lanes(text) == EditorLanes(text) == Edited(old(EditorLanes(text)), lane, join)
    {
      var lanes := KeepNonEmpty(Unified(text));
      LanesAreLanes(text);
      if join && lane !in lanes {
        lanes := lanes + [lane];
      }
      if !join {
        lanes := Without(lanes, lane);
      }
      EditorAgrees(lanes);
      text := Printed(lanes);
    }
  }
}
