/**
 * What the stopwatch of `TimerService` guarantees, and the quirks it has,
 * stated over the state functions of module Timer.
 */
module TimerProperties {
  import opened JavaMath
  import opened Options
  import opened Format
  import opened Timer

  /** `onCreate` zeroes the timer fields and leaves the store alone. */
  lemma CreatedIsZeroed(stored: Prefs)
    ensures var s := Created(stored);
      s.startTime == 0 && s.endTime == 0 && !s.running && s.prefs == stored
  {
  }

  /** `startTimer` on a running timer changes no field and writes nothing. */
  lemma StartWhileRunningIsNoOp(s: TimerState, clockAtDefault: int, clockAtStart: int)
    requires s.running
    ensures Start(s, clockAtDefault, clockAtStart) == s
  {
  }

  /** `stopTimer` on a stopped timer changes no field and writes nothing. */
  lemma StopWhileStoppedIsNoOp(s: TimerState, clockAtStop: int, clockAtFormat: int)
    requires !s.running
    ensures Stop(s, clockAtStop, clockAtFormat) == s
  {
  }

  /** A second `startTimer` leaves the state of the first one as it was. */
  lemma StartTwice(s: TimerState, a1: int, b1: int, a2: int, b2: int)
    ensures Start(Start(s, a1, b1), a2, b2) == Start(s, a1, b1)
  {
  }

  /** A second `stopTimer` leaves the state of the first one as it was. */
  lemma StopTwice(s: TimerState, a1: int, b1: int, a2: int, b2: int)
    ensures Stop(Stop(s, a1, b1), a2, b2) == Stop(s, a1, b1)
  {
  }

  /**
   * `startTimer` on a stopped timer: `endTime` is the stored `end`, or the
   * first clock reading minus the old `endTime` when none is stored; the new
   * `startTime` is the second clock reading minus that; the timer runs; the
   * store and `pausedTime` are untouched.
   */
  lemma StartWhileStopped(s: TimerState, clockAtDefault: int, clockAtStart: int)
    requires !s.running
    ensures var r := Start(s, clockAtDefault, clockAtStart);
      && r.endTime == (if s.prefs.end.Some? then s.prefs.end.value else clockAtDefault - s.endTime)
      && r.startTime == clockAtStart - r.endTime
      && r.running
      && r.pausedTime == s.pausedTime && r.prefs == s.prefs
  {
  }

  /**
   * A first start (nothing stored, `endTime` still 0) at clock readings `a`
   * then `b`: `endTime` is the raw clock `a`, and `startTime` is the gap
   * `b - a` between the two readings.
   */
  lemma FirstStartGap(time: Option<string>, a: int, b: int)
    ensures var r := Start(Created(Prefs(None, time)), a, b);
      r.endTime == a && r.startTime == b - a && r.running
  {
  }

  /**
   * A first start (nothing stored, `endTime` still 0) with both clock readings
   * equal to `t` leaves `endTime == t` and `startTime == 0`.
   */
  lemma FreshStart(time: Option<string>, t: int)
    ensures var r := Start(Created(Prefs(None, time)), t, t);
      r.endTime == t && r.startTime == 0 && r.running
  {
  }

  /**
   * `stopTimer` on a running timer: `endTime` becomes the duration of the run,
   * the timer stops, `startTime` is kept, and the store then holds
   * `end == endTime` and `time` == the formatted `pausedTime`, which is what
   * `elapsedTime` computes from the already-updated state.
   */
  lemma StopWhileRunning(s: TimerState, clockAtStop: int, clockAtFormat: int)
    requires s.running
    ensures var r := Stop(s, clockAtStop, clockAtFormat);
      && r.endTime == clockAtStop - s.startTime
      && r.startTime == s.startTime
      && !r.running
      && r.pausedTime == ElapsedSeconds(r.startTime, r.endTime, clockAtFormat)
      && r.prefs == Prefs(Some(r.endTime), Some(Display(r, clockAtFormat)))
      && r.prefs.time == Some(FormatHms(r.pausedTime))
  {
  }

  /**
   * Persistence round trip: the `end` a stop stores is what the next start
   * reads, whether in the same process or after a restart with the same store:
   * `endTime == D` and `startTime == t - D`.
   */
  lemma StopThenStart(s: TimerState, clockAtStop: int, clockAtFormat: int, clockAtDefault: int, t: int)
    requires s.running
    ensures var stopped := Stop(s, clockAtStop, clockAtFormat);
      var d := clockAtStop - s.startTime;
      && stopped.prefs.end == Some(d)
      && Start(stopped, clockAtDefault, t).endTime == d
      && Start(stopped, clockAtDefault, t).startTime == t - d
      && Start(Created(stopped.prefs), clockAtDefault, t).endTime == d
      && Start(Created(stopped.prefs), clockAtDefault, t).startTime == t - d
  {
  }

  /** When `endTime > startTime` the elapsed seconds do not depend on the clock. */
  lemma ElapsedFrozen(startTime: int, endTime: int, now1: int, now2: int)
    requires endTime > startTime
    ensures ElapsedSeconds(startTime, endTime, now1) == ElapsedSeconds(startTime, endTime, now2)
    ensures ElapsedSeconds(startTime, endTime, now1) >= 0
  {
  }

  /**
   * The elapsed seconds never go backwards as the clock advances: frozen in
   * one branch, `(now - startTime) / 1000` in the other.
   */
  lemma ElapsedMonotone(startTime: int, endTime: int, now1: int, now2: int)
    requires now1 <= now2
    ensures ElapsedSeconds(startTime, endTime, now1) <= ElapsedSeconds(startTime, endTime, now2)
  {
    if endTime <= startTime {
      DivMonotone(now1 - startTime, now2 - startTime, 1000);
    }
  }

  /**
   * In the live branch a clock at or past `startTime` gives a non-negative
   * count of whole seconds, each one a thousand milliseconds.
   */
  lemma ElapsedLiveWholeSeconds(startTime: int, endTime: int, now: int)
    requires endTime <= startTime <= now
    ensures var e := ElapsedSeconds(startTime, endTime, now);
      0 <= e && 1000 * e <= now - startTime < 1000 * (e + 1)
  {
  }

  /**
   * After a stop, the display is frozen at the stored `time` exactly when the
   * stored duration exceeds `startTime`; otherwise it keeps following the
   * clock as `(now - startTime) / 1000`.
   */
  lemma DisplayAfterStop(s: TimerState, clockAtStop: int, clockAtFormat: int, now: int)
    requires s.running
    ensures var r := Stop(s, clockAtStop, clockAtFormat);
      && (r.endTime > r.startTime ==> Some(Display(r, now)) == r.prefs.time)
      && (r.endTime <= r.startTime ==> Display(r, now) == FormatHms(Div(now - r.startTime, 1000)))
  {
  }

  /**
   * A running timer started with both clock readings at `t` shows a frozen
   * value exactly when twice its `endTime` exceeds `t`.
   */
  lemma RunningFrozenIff(s: TimerState, t: int, now1: int, now2: int)
    requires !s.running
    ensures var r := Start(s, t, t);
      && (r.endTime > r.startTime <==> 2 * r.endTime > t)
      && (2 * r.endTime > t ==> Display(r, now1) == Display(r, now2))
  {
  }

  /**
   * A first start at clock `t > 0` (nothing stored, `endTime` still 0) puts
   * `startTime` at 0 and `endTime` at `t`, so while it runs the display shows
   * `t / 1000`, the start clock in seconds, however far the clock moves.
   */
  lemma FirstRunShowsStartClock(time: Option<string>, t: int, now: int)
    requires t > 0
    ensures Display(Start(Created(Prefs(None, time)), t, t), now) == FormatHms(Div(t, 1000))
  {
  }

  /**
   * Stopping at clock `d > 0` a timer that runs from `startTime == 0` stores
   * `end = d` and the rendering of `d / 1000` seconds, and keeps displaying
   * that rendering at every clock.
   */
  lemma StopRunFromZero(s: TimerState, d: int, clockAtFormat: int, now: int)
    requires s.running && s.startTime == 0 && d > 0
    ensures Stop(s, d, clockAtFormat).prefs.end == Some(d)
    ensures Stop(s, d, clockAtFormat).prefs.time == Some(FormatHms(Div(d, 1000)))
    ensures Display(Stop(s, d, clockAtFormat), now) == FormatHms(Div(d, 1000))
  {
    StopWhileRunning(s, d, clockAtFormat);
    var r := Stop(s, d, clockAtFormat);
    assert r.startTime == 0 && r.endTime == d;
    assert r.pausedTime == Div(d, 1000);
    assert ElapsedSeconds(r.startTime, r.endTime, now) == Div(d, 1000);
  }

  /**
   * The concrete run: start at clock 0, stop at 65000 ms.  The stored `time`
   * is "00:01:05", and the display stays "00:01:05" at any later clock.
   */
  lemma StartStopSixtyFiveSeconds(time: Option<string>, clockAtFormat: int, now: int)
    ensures var r := Stop(Start(Created(Prefs(None, time)), 0, 0), 65000, clockAtFormat);
      && r.prefs == Prefs(Some(65000), Some("00:01:05"))
      && Display(r, now) == "00:01:05"
  {
    FreshStart(time, 0);
    StopRunFromZero(Start(Created(Prefs(None, time)), 0, 0), 65000, clockAtFormat, now);
    assert Div(65000, 1000) == 65;
    FormatSixtyFive();
  }

  /** A call on the service, with the clock readings it makes. */
  datatype Call =
    | StartCall(clockAtDefault: int, clockAtStart: int)
    | StopCall(clockAtStop: int, clockAtFormat: int)
    | ElapsedCall(now: int)
    | IsRunningCall

  function Step(s: TimerState, c: Call): TimerState {
    match c
    case StartCall(a, b) => Start(s, a, b)
    case StopCall(a, b) => Stop(s, a, b)
    case ElapsedCall(now) => Tick(s, now)
    case IsRunningCall => s
  }

  /** The state after the calls `cs`, made one after another. */
  function Run(s: TimerState, cs: seq<Call>): TimerState
    decreases |cs|
  {
    if cs == [] then s else Run(Step(s, cs[0]), cs[1..])
  }

  /** The stored `end` agrees with the `endTime` field. */
  predicate EndMirrored(s: TimerState) {
    s.prefs.end == Some(s.endTime)
  }

  /**
   * Once the store holds `end == endTime`, every call keeps it so: a stop
   * writes the new `endTime`, a start reads back the stored one, and
   * `elapsedTime` touches neither.
   */
  lemma {:induction false} EndMirroredIsInvariant(s: TimerState, cs: seq<Call>)
    requires EndMirrored(s)
    ensures EndMirrored(Run(s, cs))
    decreases |cs|
  {
    if cs != [] {
      EndMirroredIsInvariant(Step(s, cs[0]), cs[1..]);
    }
  }

  /** After the first completed stop, whatever calls follow, the stored `end` is `endTime`. */
  lemma EndMirroredAfterStop(s: TimerState, clockAtStop: int, clockAtFormat: int, cs: seq<Call>)
    requires s.running
    ensures EndMirrored(Run(Stop(s, clockAtStop, clockAtFormat), cs))
  {
    EndMirroredIsInvariant(Stop(s, clockAtStop, clockAtFormat), cs);
  }

  /** Only starts and stops move `startTime` and `endTime`; queries leave them alone. */
  predicate IsQuery(c: Call) {
    c.ElapsedCall? || c.IsRunningCall?
  }

  lemma {:induction false} QueriesKeepTimes(s: TimerState, cs: seq<Call>)
    requires forall i | 0 <= i < |cs| :: IsQuery(cs[i])
    ensures var r := Run(s, cs);
      r.startTime == s.startTime && r.endTime == s.endTime && r.running == s.running && r.prefs == s.prefs
    decreases |cs|
  {
    if cs != [] {
      QueriesKeepTimes(Step(s, cs[0]), cs[1..]);
    }
  }

  /**
   * Two readings of `elapsedTime` with only queries between them, the second
   * at a later clock, never show a smaller number of seconds.
   */
  lemma ReadingsNonDecreasing(s: TimerState, now1: int, cs: seq<Call>, now2: int)
    requires forall i | 0 <= i < |cs| :: IsQuery(cs[i])
    requires now1 <= now2
    ensures var later := Run(Tick(s, now1), cs);
      Tick(s, now1).pausedTime <= Tick(later, now2).pausedTime
  {
    QueriesKeepTimes(Tick(s, now1), cs);
    ElapsedMonotone(s.startTime, s.endTime, now1, now2);
  }
}
