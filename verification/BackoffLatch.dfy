/** The time-only latch a 429 trips. */
module BackoffLatch {
  import opened Wrappers
  import opened RemoteResponse
  import opened Throttle

  datatype Asked = Asked(blockedUntil: Option<Time>, latched: bool)

  /** A window that has elapsed is cleared on the way past. */
  function Latched(blockedUntil: Option<Time>, now: Time): Asked {
    if blockedUntil.None? then Asked(None, false)
    else if now >= blockedUntil.value then Asked(None, false)
    else Asked(blockedUntil, true)
  }

  datatype Observed = Observed(blockedUntil: Option<Time>, warned: bool)

  function Observe(blockedUntil: Option<Time>, response: Response, parse: ParseInt, now: Time): Observed {
    if response.status != RATE_LIMITED then Observed(blockedUntil, false)
    else
      var asked := Latched(blockedUntil, now);
      if asked.latched then Observed(asked.blockedUntil, false)
      else Observed(Some(now + Backoff(response, parse) as real), true)
  }

  class BackoffLatch {
    var blockedUntil: Option<Time>

    constructor ()
      ensures blockedUntil == None
    {
      blockedUntil := None;
    }

    method LatchedAt(now: Time) returns (latched: bool)
      modifies this
      ensures Asked(blockedUntil, latched) == Latched(old(blockedUntil), now)
    {
      if blockedUntil.None? { return false; }
      if now >= blockedUntil.value {
        blockedUntil := None;
        return false;
      }
      return true;
    }

    method ObserveAt(response: Response, parse: ParseInt, now: Time) returns (warned: bool)
      modifies this
      ensures Observed(blockedUntil, warned) == Observe(old(blockedUntil), response, parse, now)
    {
      if response.status != RATE_LIMITED { return false; }
      var latched := LatchedAt(now);
      if latched { return false; }
      var backoff := RetryAfterSeconds(response.headers, parse);
      blockedUntil := Some(now + backoff as real);
      return true;
    }
  }

  // ---- runs against a reference

  datatype Event = Ask(at: Time) | Seen(response: Response, at: Time)

  datatype Window = Window(since: Time, until: Time)

  predicate Inside(windows: seq<Window>, t: Time) {
    exists i :: 0 <= i < |windows| && windows[i].since <= t < windows[i].until
  }

  function Opened(windows: seq<Window>, event: Event, parse: ParseInt): seq<Window> {
    if event.Seen? && event.response.status == 429 && !Inside(windows, event.at)
    then windows + [Window(event.at, event.at + Backoff(event.response, parse) as real)]
    else windows
  }

  /** The reference: a 429 arriving inside no window opens one, as long as that response asked for. */
  function Windows(events: seq<Event>, parse: ParseInt): seq<Window> {
    if events == [] then []
    else Opened(Windows(events[..|events| - 1], parse), events[|events| - 1], parse)
  }

  datatype Latch = Latch(blockedUntil: Option<Time>, warnings: nat)

  function Step(latch: Latch, event: Event, parse: ParseInt): Latch {
    match event
    case Ask(at) => latch.(blockedUntil := Latched(latch.blockedUntil, at).blockedUntil)
    case Seen(response, at) =>
      var o := Observe(latch.blockedUntil, response, parse, at);
      Latch(o.blockedUntil, latch.warnings + if o.warned then 1 else 0)
  }

  /** The code: one stamp, cleared lazily, and one warning per trip. */
  function Run(events: seq<Event>, parse: ParseInt): Latch {
    if events == [] then Latch(None, 0)
    else Step(Run(events[..|events| - 1], parse), events[|events| - 1], parse)
  }

  ghost predicate Monotone(events: seq<Event>) {
    forall i, j :: 0 <= i < j < |events| ==> events[i].at <= events[j].at
  }

  ghost predicate Reached(events: seq<Event>, now: Time) {
    forall i :: 0 <= i < |events| ==> events[i].at <= now
  }

  /** In order, each lasting 1 to 60 seconds, and none starting before the one before it ended. */
  ghost predicate Disjoint(windows: seq<Window>) {
    && (forall i :: 0 <= i < |windows| ==> 1.0 <= windows[i].until - windows[i].since <= 60.0)
    && (forall i, j :: 0 <= i < j < |windows| ==> windows[i].until <= windows[j].since)
  }

  /** The stamp is the end of the last window, or every window is over. */
  ghost predicate Tracks(latch: Latch, windows: seq<Window>, now: Time) {
    && Disjoint(windows)
    && (forall i :: 0 <= i < |windows| ==> windows[i].since <= now)
    && latch.warnings == |windows|
    && (latch.blockedUntil.None? ==> !Inside(windows, now))
    && (latch.blockedUntil.Some? ==>
          windows != [] && latch.blockedUntil.value == windows[|windows| - 1].until)
  }

  lemma {:induction false} TracksLater(latch: Latch, windows: seq<Window>, t: Time, now: Time)
    requires Tracks(latch, windows, t) && t <= now
    ensures Tracks(latch, windows, now)
  {
    LaterIsOutside(windows, t, now);
  }

  lemma {:induction false} TracksMeansLatchedInside(latch: Latch, windows: seq<Window>, now: Time)
    requires Tracks(latch, windows, now)
    ensures Latched(latch.blockedUntil, now).latched <==> Inside(windows, now)
  {
    if latch.blockedUntil.Some? {
      var last := windows[|windows| - 1];
      forall i | 0 <= i < |windows| - 1 ensures windows[i].until <= now {
        assert windows[i].until <= last.since;
      }
      assert now < last.until ==> Inside(windows, now) by {
        if now < last.until { assert windows[|windows| - 1].since <= now < windows[|windows| - 1].until; }
      }
    }
  }

  lemma {:induction false} StepTracks(latch: Latch, windows: seq<Window>, event: Event, parse: ParseInt)
    requires Tracks(latch, windows, event.at)
    ensures Tracks(Step(latch, event, parse), Opened(windows, event, parse), event.at)
  {
    TracksMeansLatchedInside(latch, windows, event.at);
    if event.Seen? && event.response.status == RATE_LIMITED && !Inside(windows, event.at) {
      OpeningIsDisjoint(windows, event.at, Backoff(event.response, parse));
    }
  }

  lemma {:induction false} OpeningIsDisjoint(windows: seq<Window>, at: Time, backoff: int)
    requires Disjoint(windows) && !Inside(windows, at) && 1 <= backoff <= 60
    requires forall i :: 0 <= i < |windows| ==> windows[i].since <= at
    ensures Disjoint(windows + [Window(at, at + backoff as real)])
  {
    forall i | 0 <= i < |windows| ensures windows[i].until <= at {
      assert !(windows[i].since <= at < windows[i].until);
    }
  }

  /** After any events in clock order the code is latched exactly inside a reference window, and it has
      warned once per window: the lazily cleared stamp refines the reference. */
  lemma {:induction false} LatchRefinesWindows(events: seq<Event>, parse: ParseInt, now: Time)
    requires Monotone(events) && Reached(events, now)
    ensures Disjoint(Windows(events, parse)) && Tracks(Run(events, parse), Windows(events, parse), now)
    ensures Latched(Run(events, parse).blockedUntil, now).latched <==> Inside(Windows(events, parse), now)
    ensures Run(events, parse).warnings == |Windows(events, parse)|
  {
    if events != [] {
      var before, last := events[..|events| - 1], events[|events| - 1];
      LatchRefinesWindows(before, parse, last.at);
      StepTracks(Run(before, parse), Windows(before, parse), last, parse);
      TracksLater(Run(events, parse), Windows(events, parse), last.at, now);
    }
    TracksMeansLatchedInside(Run(events, parse), Windows(events, parse), now);
  }

  /** Once outside every window, a later instant is outside too. */
  lemma {:induction false} LaterIsOutside(windows: seq<Window>, t: Time, now: Time)
    requires t <= now && Disjoint(windows)
    requires forall i :: 0 <= i < |windows| ==> windows[i].since <= t
    ensures !Inside(windows, t) ==> !Inside(windows, now)
  {
    if !Inside(windows, t) {
      forall i | 0 <= i < |windows| ensures windows[i].until <= now {
        assert !(windows[i].since <= t < windows[i].until);
      }
    }
  }

  lemma {:induction false} WindowsGrow(events: seq<Event>, n: nat, parse: ParseInt)
    requires n <= |events|
    ensures Windows(events[..n], parse) <= Windows(events, parse)
  {
    if n == |events| {
      assert events[..n] == events;
    } else {
      var before := events[..|events| - 1];
      assert before[..n] == events[..n];
      WindowsGrow(before, n, parse);
    }
  }

  /** No later response extends, shortens or lifts a window: whatever arrived since it was opened, the stamp at
      any instant inside it is the end its own response gave it. */
  lemma {:induction false} WindowsAreNeverRevised(events: seq<Event>, n: nat, k: nat, parse: ParseInt, now: Time)
    requires Monotone(events) && Reached(events, now) && n <= |events|
    requires var before := Windows(events[..n], parse); k < |before| && before[k].since <= now < before[k].until
    ensures Run(events, parse).blockedUntil == Some(Windows(events[..n], parse)[k].until)
  {
    var w := Windows(events[..n], parse)[k];
    WindowsGrow(events, n, parse);
    LatchRefinesWindows(events, parse, now);
    StampIsInside(Run(events, parse), Windows(events, parse), k, now);
  }

  lemma {:induction false} StampIsInside(latch: Latch, windows: seq<Window>, k: nat, now: Time)
    requires Tracks(latch, windows, now) && k < |windows| && windows[k].since <= now < windows[k].until
    ensures latch.blockedUntil == Some(windows[k].until)
  {
    assert Inside(windows, now);
    TracksMeansLatchedInside(latch, windows, now);
  }

  function Starts(windows: seq<Window>): seq<Time> { seq(|windows|, i requires 0 <= i < |windows| => windows[i].since) }

  /** Any span of `span` seconds sees at most `floor(span) + 1` warnings, whatever arrives. */
  lemma {:induction false} WarningsAreBounded(events: seq<Event>, parse: ParseInt, from: Time, span: Time)
    requires Monotone(events) && span >= 0.0
    ensures |Within(Starts(Windows(events, parse)), from, span)| <= span.Floor + 1
    ensures Run(events, parse).warnings == |Starts(Windows(events, parse))|
  {
    LatchRefinesWindows(events, parse, if events == [] then 0.0 else events[|events| - 1].at);
    var windows := Windows(events, parse);
    forall i, j | 0 <= i < j < |windows| ensures windows[j].since - windows[i].since >= 1.0 {
      assert windows[i].until <= windows[j].since;
    }
    AtMostPerSpan(Starts(windows), 1.0, from, span);
    assert span / 1.0 == span;
  }
}
