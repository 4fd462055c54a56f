/**
 * TimeSpacer: spaces an action out over time. The system clock becomes an
 * explicit millisecond count `now` handed to every call.
 */
module Timing {

  /** A point on (or a span of) the system clock, in milliseconds. */
  type Millis = int

  /** What one call of the spacer decides: whether it fires, and the time it remembers afterwards. */
  datatype Tick = Tick(fired: bool, last: Millis)

  /** operator(): fire when `duration` or more has passed since `last`, and then remember `now`. */
  function Step(last: Millis, now: Millis, duration: Millis): (t: Tick)
    ensures t.fired <==> last + duration <= now
    ensures t.last == (if t.fired then now else last)
    ensures duration >= 0 ==> last <= t.last
  {
    if now - last >= duration then Tick(true, now) else Tick(false, last)
  }

  /** With a positive duration, two calls at the same instant never both fire. */
  lemma NoDoubleFire(last: Millis, now: Millis, duration: Millis)
    requires duration > 0
    ensures !(Step(last, now, duration).fired && Step(Step(last, now, duration).last, now, duration).fired)
  {
  }

  /** The remembered time after a run of calls made at `times`. */
  function LastAfter(last: Millis, times: seq<Millis>, duration: Millis): Millis
  {
    if times == [] then last
    else Step(LastAfter(last, times[..|times| - 1], duration), times[|times| - 1], duration).last
  }

  /** Whether the call at position `j` of a run fires. */
  predicate FiresAt(last: Millis, times: seq<Millis>, duration: Millis, j: nat)
    requires j < |times|
  {
    Step(LastAfter(last, times[..j], duration), times[j], duration).fired
  }

  /** With a non-negative duration the remembered time never goes back, however the clock moves. */
  lemma {:induction false} LastAfterGrows(last: Millis, times: seq<Millis>, duration: Millis, i: nat, k: nat)
    requires duration >= 0 && i <= k <= |times|
    ensures LastAfter(last, times[..i], duration) <= LastAfter(last, times[..k], duration)
  {
    if i < k {
      LastAfterGrows(last, times, duration, i, k - 1);
      assert times[..k][..k - 1] == times[..k - 1];
    }
  }

  /** A call that fires remembers its own time. */
  lemma FiringRemembersNow(last: Millis, times: seq<Millis>, duration: Millis, j: nat)
    requires j < |times| && FiresAt(last, times, duration, j)
    ensures LastAfter(last, times[..j + 1], duration) == times[j]
  {
    assert times[..j + 1][..j] == times[..j];
  }

  /**
   * Any two firings of a run are at least `duration` apart, and the first
   * firing comes at least `duration` after construction.
   */
  lemma FiringsAreSpaced(last: Millis, times: seq<Millis>, duration: Millis, i: nat, j: nat)
    requires duration >= 0 && i < j < |times|
    requires FiresAt(last, times, duration, i) && FiresAt(last, times, duration, j)
    ensures times[j] - times[i] >= duration
  {
    FiringRemembersNow(last, times, duration, i);
    LastAfterGrows(last, times, duration, i + 1, j);
  }

  /** A firing comes at least `duration` after the time the spacer was constructed. */
  lemma FirstFiringWaits(last: Millis, times: seq<Millis>, duration: Millis, j: nat)
    requires duration >= 0 && j < |times| && FiresAt(last, times, duration, j)
    ensures times[j] - last >= duration
  {
    LastAfterGrows(last, times, duration, 0, j);
  }

  /** TimeSpacer: the time the action last fired, initially the construction time. */
  class TimeSpacer {
    var last: Millis

    constructor (now: Millis)
      ensures last == now
    {
      last := now;
    }

    /** operator(): decide by the elapsed time and remember `now` when firing. */
    method Fire(now: Millis, duration: Millis) returns (fired: bool)
      modifies this
      ensures Tick(fired, last) == Step(old(last), now, duration)
      ensures fired <==> now - old(last) >= duration
    {
      if now - last >= duration {
        last := now;
        fired := true;
      } else {
        fired := false;
      }
    }
  }
}
