/** The child page's URLs: the first goes out at once, then at most one per interval, the latest. Times are in
    milliseconds of a clock that never goes back. */
module Navigation {
  import opened Common

  const INTERVAL := 100

  type Url = seq<byte>

  datatype Sent = Sent(url: Url, time: int)

  /** `due`: when the interval's timer may fire; none while it is off. */
  datatype State = State(stored: Option<Url>, due: Option<int>, sent: seq<Sent>)

  function SendTo(s: State, url: Url, now: int): State {
    s.(sent := s.sent + [Sent(url, now)], due := Some(now + INTERVAL))
  }

  function Received(s: State, url: Url, now: int): State {
    if s.due.Some? then s.(stored := Some(url)) else SendTo(s, url, now)
  }

  function Flushed(s: State, now: int): State {
    if s.stored.Some? then SendTo(s.(stored := None), s.stored.value, now) else s.(due := None)
  }

  class Host {
    var navigation: Option<Url>
    var timer: Option<int>
    var sent: seq<Sent>

    function Abs(): State
      reads this
    {
      State(navigation, timer, sent)
    }

    constructor ()
      ensures Abs() == State(None, None, [])
    {
      navigation, timer, sent := None, None, [];
    }

    method SendNavigation(url: Url, now: int)
      modifies this
      ensures Abs() == SendTo(old(Abs()), url, now)
    {
      sent := sent + [Sent(url, now)];
      timer := Some(now + INTERVAL);
    }

    method OnNavigation(url: Url, now: int)
      modifies this
      ensures Abs() == Received(old(Abs()), url, now)
    {
      if timer.Some? {
        navigation := Some(url);
      } else {
        SendNavigation(url, now);
      }
    }

    method FlushNavigation(now: int)
      modifies this
      ensures Abs() == Flushed(old(Abs()), now)
    {
      timer := None;
      if navigation.Some? {
        var url := navigation.value;
        navigation := None;
        SendNavigation(url, now);
      }
    }
  }

  // ---- Runs ----

  datatype Step = Navigate(url: Url, time: int) | Flush(time: int)

  datatype World = World(state: State, now: int, urls: seq<Url>)

  const START := World(State(None, None, []), 0, [])

  /** The clock never goes back, and the timer never fires early. */
  predicate Enabled(w: World, step: Step) {
    w.now <= step.time && (step.Flush? ==> w.state.due.Some? && w.state.due.value <= step.time)
  }

  function After(w: World, step: Step): World {
    match step
    case Navigate(u, t) => World(Received(w.state, u, t), t, w.urls + [u])
    case Flush(t) => World(Flushed(w.state, t), t, w.urls)
  }

  predicate Possible(w: World, steps: seq<Step>)
    decreases |steps|
  {
    steps == [] || (Enabled(w, steps[0]) && Possible(After(w, steps[0]), steps[1..]))
  }

  function Run(w: World, steps: seq<Step>): World
    decreases |steps|
  {
    if steps == [] then w else Run(After(w, steps[0]), steps[1..])
  }

  function UrlsOf(sent: seq<Sent>): seq<Url> {
    if sent == [] then [] else UrlsOf(sent[..|sent| - 1]) + [sent[|sent| - 1].url]
  }

  function List(u: Option<Url>): seq<Url> {
    if u.None? then [] else [u.value]
  }

  /** The URLs sent, and the one that waits. */
  function Kept(s: State): seq<Url> {
    UrlsOf(s.sent) + List(s.stored)
  }

  ghost predicate Spaced(sent: seq<Sent>) {
    forall i {:trigger sent[i]} :: 0 < i < |sent| ==> sent[i - 1].time + INTERVAL <= sent[i].time
  }

  /** What every run keeps. */
  ghost predicate Throttled(w: World) {
    var s := w.state;
    var n := |s.sent|;
    && Spaced(s.sent) && Subsequence(Kept(s), w.urls)
    && (s.stored.Some? ==> s.due.Some?)
    && (s.due.Some? ==> n > 0 && s.due.value == s.sent[n - 1].time + INTERVAL)
    && (s.due.None? && n > 0 ==> s.sent[n - 1].time + INTERVAL <= w.now)
    && (w.urls == [] <==> Kept(s) == [])
    && (w.urls != [] ==> Kept(s)[|Kept(s)| - 1] == w.urls[|w.urls| - 1])
  }

  lemma SendKeepsUrls(s: State, url: Url, now: int)
    ensures UrlsOf(SendTo(s, url, now).sent) == UrlsOf(s.sent) + [url]
  {
    var sent := s.sent + [Sent(url, now)];
    assert sent[..|sent| - 1] == s.sent;
  }

  lemma NavigateKept(s: State, u: Url, now: int)
    requires s.stored.Some? ==> s.due.Some?
    ensures Kept(Received(s, u, now)) == UrlsOf(s.sent) + [u]
  {
    SendKeepsUrls(s, u, now);
    assert UrlsOf(s.sent) + [u] + [] == UrlsOf(s.sent) + [u];
  }

  lemma FlushKept(s: State, now: int)
    ensures Kept(Flushed(s, now)) == Kept(s)
  {
    if s.stored.Some? {
      SendKeepsUrls(s.(stored := None), s.stored.value, now);
      assert UrlsOf(s.sent) + [s.stored.value] + [] == UrlsOf(s.sent) + [s.stored.value];
    }
  }

  lemma NavigateKeepsOrder(w: World, url: Url, now: int)
    requires Throttled(w)
    ensures Subsequence(Kept(Received(w.state, url, now)), w.urls + [url])
  {
    var s := w.state;
    var sent := UrlsOf(s.sent);
    NavigateKept(s, url, now);
    assert sent + [] == sent;
    if s.stored.Some? {
      WithoutLast(sent, s.stored.value, w.urls);
    }
    BothLonger(sent, w.urls, url);
  }

  lemma SendKeepsSpace(sent: seq<Sent>, url: Url, now: int)
    requires Spaced(sent) && (sent != [] ==> sent[|sent| - 1].time + INTERVAL <= now)
    ensures Spaced(sent + [Sent(url, now)])
  {
  }

  lemma NavigateKeepsThrottle(w: World, url: Url, t: int)
    requires Throttled(w) && w.now <= t
    ensures Throttled(After(w, Navigate(url, t)))
  {
    var s := w.state;
    NavigateKept(s, url, t);
    NavigateKeepsOrder(w, url, t);
    if s.due.None? {
      SendKeepsSpace(s.sent, url, t);
    }
  }

  lemma FlushKeepsThrottle(w: World, t: int)
    requires Throttled(w) && Enabled(w, Flush(t))
    ensures Throttled(After(w, Flush(t)))
  {
    var s := w.state;
    FlushKept(s, t);
    if s.stored.Some? {
      SendKeepsSpace(s.sent, s.stored.value, t);
    }
  }

  lemma StepKeepsThrottle(w: World, step: Step)
    requires Throttled(w) && Enabled(w, step)
    ensures Throttled(After(w, step))
  {
    match step
    case Navigate(url, t) => NavigateKeepsThrottle(w, url, t);
    case Flush(t) => FlushKeepsThrottle(w, t);
  }

  lemma {:induction false} RunKeepsThrottle(w: World, steps: seq<Step>)
    requires Throttled(w) && Possible(w, steps)
    ensures Throttled(Run(w, steps))
    decreases |steps|
  {
    if steps != [] {
      StepKeepsThrottle(w, steps[0]);
      RunKeepsThrottle(After(w, steps[0]), steps[1..]);
    }
  }

  /** After every flush of a run nothing waits: all that was kept is sent, what waited at that time, and the timer is on
      again exactly when something waited. */
  lemma FlushSends(steps: seq<Step>, t: int)
    requires Possible(START, steps) && Run(START, steps).now <= t
    requires Run(START, steps).state.due.Some? && Run(START, steps).state.due.value <= t
    ensures Enabled(Run(START, steps), Flush(t))
    ensures var s, next := Run(START, steps).state, After(Run(START, steps), Flush(t)).state;
            && next.stored.None? && UrlsOf(next.sent) == Kept(s)
            && (s.stored.Some? ==> next.sent[|next.sent| - 1].time == t && next.due == Some(t + INTERVAL))
            && (s.stored.None? ==> next.sent == s.sent && next.due.None?)
  {
    var s := Run(START, steps).state;
    FlushKept(s, t);
    var next := Flushed(s, t);
    assert UrlsOf(next.sent) + [] == UrlsOf(next.sent);
  }

  /** A URL received with the timer off goes out at once; with the timer on it waits, and nothing goes out. */
  lemma ReceivedIsSentOrWaits(s: State, url: Url, now: int)
    requires s.stored.Some? ==> s.due.Some?
    ensures var next := Received(s, url, now);
            if s.due.Some? then next.sent == s.sent && next.stored == Some(url) && next.due == s.due
            else Kept(next) == UrlsOf(next.sent) == UrlsOf(s.sent) + [url] && next.due == Some(now + INTERVAL)
                 && next.sent[|next.sent| - 1].time == now
  {
    NavigateKept(s, url, now);
    assert UrlsOf(Received(s, url, now).sent) + [] == UrlsOf(Received(s, url, now).sent);
  }

  /** In every run the URLs sent are some of those received, in order; two are at least the interval apart; and the
      latest received is the last sent, or waits with the timer on. */
  lemma RunsAreThrottled(steps: seq<Step>)
    requires Possible(START, steps)
    ensures var w := Run(START, steps);
            var s, n := w.state, |w.urls|;
            && Spaced(s.sent) && Subsequence(UrlsOf(s.sent), w.urls)
            && (n > 0 ==> s.sent != [])
            && (n > 0 && s.stored.Some? ==> s.stored.value == w.urls[n - 1] && s.due.Some?)
            && (n > 0 && s.stored.None? ==> s.sent[|s.sent| - 1].url == w.urls[n - 1])
  {
    RunKeepsThrottle(START, steps);
    var w := Run(START, steps);
    var sent := UrlsOf(w.state.sent);
    assert sent + [] == sent;
    if w.state.stored.Some? {
      WithoutLast(sent, w.state.stored.value, w.urls);
    }
    if w.state.sent != [] {
      assert sent[|sent| - 1] == w.state.sent[|w.state.sent| - 1].url;
    }
  }
}
