/** One attempt per window: a start stamp that a cancelled attempt hands back. Both the readiness
    probe and the key-set fetch are throttled this way. */
module Throttle {
  import opened Wrappers

  type Time = real

  /** `stamp is None or now - stamp >= interval`. */
  predicate MayStart(stamp: Option<Time>, interval: Time, now: Time) {
    stamp.None? || now - stamp.value >= interval
  }

  datatype Attempt = Attempt(start: Time, cancelled: bool)

  /** The starts of the attempts that were not cancelled, in order. */
  function Kept(attempts: seq<Attempt>): seq<Time> {
    if attempts == [] then []
    else
      var last := attempts[|attempts| - 1];
      Kept(attempts[..|attempts| - 1]) + if last.cancelled then [] else [last.start]
  }

  function LastKept(attempts: seq<Attempt>): Option<Time> {
    var kept := Kept(attempts);
    if kept == [] then None else Some(kept[|kept| - 1])
  }

  predicate Apart(stamps: seq<Time>, interval: Time) {
    forall i, j :: 0 <= i < j < |stamps| ==> stamps[j] - stamps[i] >= interval
  }

  function Begun(attempts: seq<Attempt>, now: Time): seq<Attempt> { attempts + [Attempt(now, false)] }

  function Cancelled(attempts: seq<Attempt>): seq<Attempt>
    requires attempts != []
  {
    attempts[|attempts| - 1 := attempts[|attempts| - 1].(cancelled := true)]
  }

  /** Starting only when the stamp allows keeps the attempts that count apart. */
  lemma {:induction false} BeginKeepsApart(attempts: seq<Attempt>, interval: Time, now: Time)
    requires Apart(Kept(attempts), interval) && interval >= 0.0
    requires MayStart(LastKept(attempts), interval, now)
    ensures Kept(Begun(attempts, now)) == Kept(attempts) + [now]
    ensures Apart(Kept(Begun(attempts, now)), interval) && LastKept(Begun(attempts, now)) == Some(now)
  {
    var kept := Kept(attempts);
    assert Begun(attempts, now)[..|attempts|] == attempts;
    forall i | 0 <= i < |kept| ensures now - kept[i] >= interval {
      assert i < |kept| - 1 ==> kept[|kept| - 1] - kept[i] >= interval;
    }
  }

  /** Cancelling the attempt in flight leaves exactly the attempts that counted before it. */
  lemma {:induction false} CancelRestores(attempts: seq<Attempt>)
    requires attempts != []
    ensures Kept(Cancelled(attempts)) == Kept(attempts[..|attempts| - 1])
  {
    assert Cancelled(attempts)[..|attempts| - 1] == attempts[..|attempts| - 1];
  }

  lemma {:induction false} KeptPrefixApart(attempts: seq<Attempt>, interval: Time)
    requires attempts != [] && Apart(Kept(attempts), interval)
    ensures Apart(Kept(attempts[..|attempts| - 1]), interval)
  {
    var shorter := Kept(attempts[..|attempts| - 1]);
    assert forall i :: 0 <= i < |shorter| ==> shorter[i] == Kept(attempts)[i];
  }

  /** The stamps that fall in `[from, from + span]`. */
  function Within(stamps: seq<Time>, from: Time, span: Time): seq<Time> {
    if stamps == [] then []
    else
      var last := stamps[|stamps| - 1];
      Within(stamps[..|stamps| - 1], from, span) + if from <= last <= from + span then [last] else []
  }

  lemma {:induction false} WithinIsApart(stamps: seq<Time>, from: Time, span: Time, interval: Time)
    requires Apart(stamps, interval)
    ensures Apart(Within(stamps, from, span), interval)
    ensures forall t :: t in Within(stamps, from, span) ==> from <= t <= from + span && t in stamps
  {
    if stamps != [] {
      var n := |stamps| - 1;
      WithinIsApart(stamps[..n], from, span, interval);
      var w := Within(stamps[..n], from, span);
      forall i | 0 <= i < |w| ensures stamps[n] - w[i] >= interval {
        assert w[i] in w && w[i] in stamps[..n];
      }
    }
  }

  lemma {:induction false} ApartSpreads(stamps: seq<Time>, interval: Time)
    requires Apart(stamps, interval) && stamps != [] && interval > 0.0
    ensures stamps[|stamps| - 1] - stamps[0] >= (|stamps| - 1) as real * interval
  {
    var n := |stamps| - 1;
    if n > 0 {
      ApartSpreads(stamps[..n], interval);
      assert n as real * interval == (n - 1) as real * interval + interval;
    }
  }

  /** Stamps an interval apart: any span of `span` seconds holds at most `floor(span / interval) + 1`. */
  lemma {:induction false} AtMostPerSpan(stamps: seq<Time>, interval: Time, from: Time, span: Time)
    requires Apart(stamps, interval) && interval > 0.0 && span >= 0.0
    ensures |Within(stamps, from, span)| <= (span / interval).Floor + 1
  {
    WithinIsApart(stamps, from, span, interval);
    var w := Within(stamps, from, span);
    assert span / interval >= 0.0;
    if w != [] {
      ApartSpreads(w, interval);
      var gaps, first, last := (|w| - 1) as real, w[0], w[|w| - 1];
      assert first in w && last in w;
      assert gaps * interval <= last - first <= span;
      DividesThrough(gaps, interval, span);
    }
  }

  lemma {:induction false} DividesThrough(k: real, d: real, x: real)
    requires d > 0.0 && k * d <= x
    ensures k <= x / d
  {
    var q := x / d;
    assert (q - k) * d == x - k * d;
  }
}
