/**
 * The stopwatch kept by `TimerService`: three `long` fields, a running flag,
 * and the two keys `end` and `time` of the "prefs" store that `stopTimer`
 * writes and `startTimer` reads.
 *
 * Every reading of `System.currentTimeMillis()` is an explicit parameter.
 * `startTimer` reads the clock twice (the default value of `end`, then the new
 * `startTime`), and so does `stopTimer` (the new `endTime`, then the live
 * branch of the `elapsedTime` call that produces the stored `time` string).
 * The quirks of the source are kept: a first start with nothing stored puts
 * `startTime` at the gap between its two clock readings and `endTime` at the
 * first reading, `stopTimer` stores a duration in `endTime`, and a stopped
 * timer's display is frozen only when that duration exceeds `startTime`.
 */
module Timer {
  import opened JavaMath
  import opened Options
  import opened Format

  /** The "prefs" store: `end` is a `long`, `time` a formatted string; either may be absent. */
  datatype Prefs = Prefs(end: Option<int>, time: Option<string>)

  /** Everything the service holds, as a value. */
  datatype TimerState = TimerState(
    startTime: int,
    endTime: int,
    pausedTime: int,
    running: bool,
    prefs: Prefs)

  /**
   * `onCreate`: the fields are zeroed (and `pausedTime` holds Java's default
   * 0); the store keeps whatever an earlier process left in it.
   */
  function Created(stored: Prefs): TimerState {
    TimerState(0, 0, 0, false, stored)
  }

  /**
   * `startTimer`.  On a running timer nothing changes.  Otherwise `endTime`
   * becomes the stored `end`, or `clockAtDefault - endTime` when none is
   * stored (Java evaluates that default whether or not it is used), then
   * `startTime` becomes `clockAtStart - endTime` and the timer runs.
   */
  function Start(s: TimerState, clockAtDefault: int, clockAtStart: int): TimerState {
    if s.running then
      s
    else
      var end := s.prefs.end.GetOr(clockAtDefault - s.endTime);
      s.(endTime := end, startTime := clockAtStart - end, running := true)
  }

  /**
   * The elapsed seconds `elapsedTime` computes and stores in `pausedTime`:
   * `(endTime - startTime) / 1000` when `endTime > startTime`, otherwise
   * `(now - startTime) / 1000`, with Java's truncating division.
   */
  function ElapsedSeconds(startTime: int, endTime: int, now: int): int {
    if endTime > startTime then Div(endTime - startTime, 1000) else Div(now - startTime, 1000)
  }

  /** The string `elapsedTime` returns for state `s` at clock `now`. */
  function Display(s: TimerState, now: int): string {
    FormatHms(ElapsedSeconds(s.startTime, s.endTime, now))
  }

  /** The state after `elapsedTime` at clock `now`: only `pausedTime` changes. */
  function Tick(s: TimerState, now: int): TimerState {
    s.(pausedTime := ElapsedSeconds(s.startTime, s.endTime, now))
  }

  /**
   * `stopTimer`.  On a stopped timer nothing changes and nothing is written.
   * Otherwise `endTime` becomes the run's duration `clockAtStop - startTime`,
   * the timer stops, and `elapsedTime` is evaluated on that new state (at
   * `clockAtFormat`, which only its live branch reads), setting `pausedTime`;
   * `end` and the resulting string are then written to the store.
   */
  function Stop(s: TimerState, clockAtStop: int, clockAtFormat: int): TimerState {
    if !s.running then
      s
    else
      var stopped := s.(endTime := clockAtStop - s.startTime, running := false);
      var time := Display(stopped, clockAtFormat);
      Tick(stopped, clockAtFormat).(prefs := Prefs(Some(stopped.endTime), Some(time)))
  }

  /** The service object, whose methods update its fields in place. */
  class TimerService {
    var startTime: int
    var endTime: int
    var pausedTime: int
    var isTimerRunning: bool
    /** The contents of the "prefs" store, as this process sees it. */
    var prefs: Prefs

    function State(): TimerState
      reads this
    {
      TimerState(startTime, endTime, pausedTime, isTimerRunning, prefs)
    }

    /** `onCreate`, in a process that finds `stored` in the "prefs" store. */
    constructor (stored: Prefs)
      ensures startTime == 0 && endTime == 0 && !isTimerRunning
      ensures State() == Created(stored)
    {
      startTime := 0;
      endTime := 0;
      pausedTime := 0;
      isTimerRunning := false;
      prefs := stored;
    }

    method StartTimer(clockAtDefault: int, clockAtStart: int)
      modifies this
      ensures State() == Start(old(State()), clockAtDefault, clockAtStart)
    {
      if !isTimerRunning {
        endTime := prefs.end.GetOr(clockAtDefault - endTime);
        startTime := clockAtStart - endTime;
        isTimerRunning := true;
      } else {
        // the source only logs an error here
      }
    }

    method StopTimer(clockAtStop: int, clockAtFormat: int)
      modifies this
      ensures State() == Stop(old(State()), clockAtStop, clockAtFormat)
    {
      if isTimerRunning {
        endTime := clockAtStop - startTime;
        isTimerRunning := false;
        var end := endTime;
        var time := ElapsedTime(clockAtFormat);
        prefs := Prefs(Some(end), Some(time));
      } else {
        // the source only logs an error here
      }
    }

    method IsTimerRunning() returns (running: bool)
      ensures running == isTimerRunning
    {
      running := isTimerRunning;
    }

    /** `elapsedTime`: stores the elapsed seconds in `pausedTime` and returns them formatted. */
    method ElapsedTime(now: int) returns (time: string)
      modifies this`pausedTime
      ensures State() == Tick(old(State()), now)
      ensures time == Display(old(State()), now) && time == FormatHms(pausedTime)
    {
      pausedTime := if endTime > startTime then Div(endTime - startTime, 1000) else Div(now - startTime, 1000);
      var fields := Fields(pausedTime);
      time := Pad2(fields.hours) + ":" + Pad2(fields.minutes) + ":" + Pad2(fields.seconds);
    }
  }
}
