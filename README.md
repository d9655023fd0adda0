# BackgroundTimer stopwatch, modelled in Dafny

This project models the stopwatch inside the Android app's `TimerService`.
The service has four fields: `startTime`, `endTime`, `pausedTime` and `isTimerRunning`.
It also uses the private "prefs" store, which holds a `long` under `end` and a string under `time`.
The operations are:

- `onCreate` zeroes the fields.
- `startTimer` works only on a stopped timer. It sets `endTime` to the stored `end`, or `now - endTime` when nothing is stored. Then it sets `startTime = now - endTime`.
- `stopTimer` works only on a running timer. It puts the run's duration in `endTime` and writes `end` and the formatted `time` to the store.
- `isTimerRunning` returns the flag.
- `elapsedTime` picks a frozen value `(endTime - startTime) / 1000` when `endTime > startTime`, and the live `(now - startTime) / 1000` otherwise. It stores the result in `pausedTime` and renders it as `%02d:%02d:%02d`.

Files:

- `java_math.dfy` (module `JavaMath`): Java's truncating `/` and `%`, and the `(int)` narrowing of a `long`.
- `options.dfy` (module `Options`): an optional value, used for a store key that may be absent.
- `format.dfy` (module `Format`): the `%02d` conversion and the `HH:MM:SS` rendering, with a parser that reads the rendering back.
- `timer_service.dfy` (module `Timer`): the state as a value (`TimerState`), the functions `Created`, `Start`, `Tick` and `Stop` that specify each operation, and the class `TimerService`. Each method of the class is proved to move its fields exactly as the matching function says.
- `timer_properties.dfy` (module `TimerProperties`): the properties of the state machine, including a model of any sequence of calls.

Each reading of `System.currentTimeMillis()` is a parameter.
`startTimer` reads the clock twice, at lines 82 and 84. Java evaluates the default argument of `getLong` even when `end` is stored.
`stopTimer` reads it at line 96. The `elapsedTime` call at line 102 reads it again, but only in its live branch.

The model keeps the source's quirks as they are:

- Minutes are not reduced modulo 60, so 3661 s renders as "01:61:01".
- A first start with nothing stored sets `startTime` to the gap between the two clock readings (0 when they coincide). `endTime` then holds the raw start clock, so the frozen branch is taken and the display stays at about that clock in seconds.
- After a stop, the display is frozen only when the stored duration exceeds `startTime`.

The `(int)` narrowing is modelled exactly as a 32-bit wrap-around. A negative figure is printed the way `%02d` prints it, with a minus sign.

Two points of the code's behaviour that are easy to misread:

- `startTimer`'s default for a missing `end` is `now - endTime`, not `now` (line 82).
- The store is read by every `startTimer` (lines 81-82), not only once at process start.

## Model

| member | source | states |
|---|---|---|
| `JavaMath.Div` | app/src/main/java/com/d2kindia/backgroundtimer/TimerService.java:129-131 | Java `/`: the quotient rounds toward zero, and the leftover has the dividend's sign and is smaller than the divisor |
| `JavaMath.Rem` | app/src/main/java/com/d2kindia/backgroundtimer/TimerService.java:132 | Java `%`: smaller than the divisor in magnitude, never of the opposite sign to the dividend, and equal to the Euclidean remainder of the magnitude with the dividend's sign |
| `JavaMath.DivRem` | app/src/main/java/com/d2kindia/backgroundtimer/TimerService.java:131-132 | `60 * (v / 60) + v % 60 == v` under Java's operators |
| `JavaMath.ToInt` | app/src/main/java/com/d2kindia/backgroundtimer/TimerService.java:130-132 | the `(int)` cast gives an `int` equal to the `long` modulo 2^32, and leaves a value that fits unchanged |
| `JavaMath.DivMonotone` | app/src/main/java/com/d2kindia/backgroundtimer/TimerService.java:129 | truncating division by a positive divisor never decreases as the dividend grows |
| `JavaMath.DivSixtyTwice` | app/src/main/java/com/d2kindia/backgroundtimer/TimerService.java:130-131 | for every value, `v / 3600 == (v / 60) / 60` under truncation, so hours are the unreduced minutes divided by 60 |
| `Options.Option.GetOr` | app/src/main/java/com/d2kindia/backgroundtimer/TimerService.java:82 | `getLong(key, default)` gives the stored value when there is one, else the default |
| `Format.Digits` | app/src/main/java/com/d2kindia/backgroundtimer/TimerService.java:133 | decimal digits of a natural: non-empty, ASCII digits only, one digit exactly below 10, a leading '0' exactly for zero |
| `Format.ValueOfDigits` | app/src/main/java/com/d2kindia/backgroundtimer/TimerService.java:133 | reading the digits back gives the number |
| `Format.Pad2Shape` | app/src/main/java/com/d2kindia/backgroundtimer/TimerService.java:133 | `%02d` is at least 2 characters, exactly 2 for 0..99, all digits for a non-negative value, and '-' then digits for a negative one |
| `Format.ValueOfLeadingZero` | app/src/main/java/com/d2kindia/backgroundtimer/TimerService.java:133 | the zero that `%02d` puts before a single digit does not change the value read back |
| `Format.Pad2RoundTrip` | app/src/main/java/com/d2kindia/backgroundtimer/TimerService.java:133 | parsing the `%02d` text of any `int` gives the value back |
| `Format.FieldsRelation` | app/src/main/java/com/d2kindia/backgroundtimer/TimerService.java:130-132 | for every elapsed value: `60 * minutes + seconds` is the narrowed total, `-60 < seconds < 60`, and `hours == minutes / 60` |
| `Format.FieldsNonNegative` | app/src/main/java/com/d2kindia/backgroundtimer/TimerService.java:130-132 | for `0 <= s` within `int`: the figures are `s / 3600`, `s / 60` (unreduced) and `s % 60`, with `0 <= seconds < 60`, `60 * minutes + seconds == s` and `hours == minutes / 60` |
| `Format.FormatRoundTrip` | app/src/main/java/com/d2kindia/backgroundtimer/TimerService.java:130-133 | splitting on ':' and parsing the `HH:MM:SS` string gives back exactly the three figures |
| `Format.FormatSixtyFive` | app/src/main/java/com/d2kindia/backgroundtimer/TimerService.java:130-133 | 65 s renders as "00:01:05" |
| `Format.FormatUnreducedMinutes` | app/src/main/java/com/d2kindia/backgroundtimer/TimerService.java:130-133 | 3661 s renders as "01:61:01" |
| `Format.FormatZero` | app/src/main/java/com/d2kindia/backgroundtimer/TimerService.java:130-133 | 0 s renders as "00:00:00" |
| `Timer.TimerService.constructor` | app/src/main/java/com/d2kindia/backgroundtimer/TimerService.java:43-50 | `onCreate`: `startTime == 0`, `endTime == 0`, not running, and the store is whatever an earlier process left |
| `Timer.TimerService.StartTimer` | app/src/main/java/com/d2kindia/backgroundtimer/TimerService.java:79-89 | the new fields and store are `Start` of the old ones at the two clock readings |
| `Timer.TimerService.StopTimer` | app/src/main/java/com/d2kindia/backgroundtimer/TimerService.java:94-108 | the new fields and store are `Stop` of the old ones at the two clock readings |
| `Timer.TimerService.IsTimerRunning` | app/src/main/java/com/d2kindia/backgroundtimer/TimerService.java:113-115 | returns the running flag |
| `Timer.TimerService.ElapsedTime` | app/src/main/java/com/d2kindia/backgroundtimer/TimerService.java:128-134 | only `pausedTime` changes, to the selected elapsed seconds, and the result is their `HH:MM:SS` rendering |
| `TimerProperties.CreatedIsZeroed` | app/src/main/java/com/d2kindia/backgroundtimer/TimerService.java:47-49 | after creation `startTime == 0`, `endTime == 0`, not running, store untouched |
| `TimerProperties.StartWhileRunningIsNoOp` | app/src/main/java/com/d2kindia/backgroundtimer/TimerService.java:80-88 | `startTimer` on a running timer changes no field and no store entry |
| `TimerProperties.StopWhileStoppedIsNoOp` | app/src/main/java/com/d2kindia/backgroundtimer/TimerService.java:95-107 | `stopTimer` on a stopped timer changes no field and writes nothing |
| `TimerProperties.StartTwice` | app/src/main/java/com/d2kindia/backgroundtimer/TimerService.java:79-89 | a second `startTimer` leaves the state of the first unchanged, at any clock readings |
| `TimerProperties.StopTwice` | app/src/main/java/com/d2kindia/backgroundtimer/TimerService.java:94-108 | a second `stopTimer` leaves the state of the first unchanged, at any clock readings |
| `TimerProperties.StartWhileStopped` | app/src/main/java/com/d2kindia/backgroundtimer/TimerService.java:81-85 | on a stopped timer: `endTime` is the stored `end` or `now1 - oldEndTime`; `startTime == now2 - endTime`; running; store and `pausedTime` untouched |
| `TimerProperties.FirstStartGap` | app/src/main/java/com/d2kindia/backgroundtimer/TimerService.java:81-85 | with no stored `end` and `endTime == 0`, a start at clock readings `a` then `b` gives `endTime == a` and `startTime == b - a`, the gap between the readings |
| `TimerProperties.FreshStart` | app/src/main/java/com/d2kindia/backgroundtimer/TimerService.java:81-85 | with no stored `end`, `endTime == 0`, and both clock readings `t`, the start gives `endTime == t` and `startTime == 0` |
| `TimerProperties.StopWhileRunning` | app/src/main/java/com/d2kindia/backgroundtimer/TimerService.java:96-103 | on a running timer: `endTime = now - startTime`, stopped, `startTime` kept; the store is `end == endTime` and `time` equal to `elapsedTime` of the updated state, which is also `pausedTime` rendered |
| `TimerProperties.StopThenStart` | app/src/main/java/com/d2kindia/backgroundtimer/TimerService.java:82-84 | the `end = D` a stop stores is what the next start reads, in the same process or after a restart: `endTime == D`, `startTime == t - D` |
| `TimerProperties.ElapsedFrozen` | app/src/main/java/com/d2kindia/backgroundtimer/TimerService.java:129 | when `endTime > startTime` the elapsed seconds are non-negative and do not depend on the clock |
| `TimerProperties.ElapsedMonotone` | app/src/main/java/com/d2kindia/backgroundtimer/TimerService.java:129 | in either branch, the elapsed seconds never decrease as the clock advances |
| `TimerProperties.ElapsedLiveWholeSeconds` | app/src/main/java/com/d2kindia/backgroundtimer/TimerService.java:129 | in the live branch, with the clock at or past `startTime`, the result is the whole number of seconds in `now - startTime` |
| `TimerProperties.DisplayAfterStop` | app/src/main/java/com/d2kindia/backgroundtimer/TimerService.java:96-129 | after a stop the display equals the stored `time` at every clock when the duration exceeds `startTime`, and follows `(now - startTime) / 1000` otherwise |
| `TimerProperties.RunningFrozenIff` | app/src/main/java/com/d2kindia/backgroundtimer/TimerService.java:82-129 | after a start with both reads at `t`, the frozen branch is taken exactly when `2 * endTime > t`, and then the display does not depend on the clock |
| `TimerProperties.FirstRunShowsStartClock` | app/src/main/java/com/d2kindia/backgroundtimer/TimerService.java:82-129 | a first start at `t > 0` displays `t / 1000` at every clock while running |
| `TimerProperties.StopRunFromZero` | app/src/main/java/com/d2kindia/backgroundtimer/TimerService.java:96-129 | stopping at `d > 0` a timer running from `startTime == 0` stores `end = d` and the rendering of `d / 1000`, and displays that rendering at every clock |
| `TimerProperties.StartStopSixtyFiveSeconds` | app/src/main/java/com/d2kindia/backgroundtimer/TimerService.java:79-108 | start at 0 with no stored `end` and stop at 65000: the store becomes `end = 65000`, `time = "00:01:05"`, and "00:01:05" is displayed at any later clock |
| `TimerProperties.EndMirroredIsInvariant` | app/src/main/java/com/d2kindia/backgroundtimer/TimerService.java:82-101 | once the stored `end` equals `endTime`, every sequence of start, stop and query calls keeps it so |
| `TimerProperties.EndMirroredAfterStop` | app/src/main/java/com/d2kindia/backgroundtimer/TimerService.java:96-101 | after a stop of a running timer, whatever calls follow, the stored `end` equals `endTime` |
| `TimerProperties.QueriesKeepTimes` | app/src/main/java/com/d2kindia/backgroundtimer/TimerService.java:113-134 | `isTimerRunning` and `elapsedTime` calls leave `startTime`, `endTime`, the flag and the store unchanged |
| `TimerProperties.ReadingsNonDecreasing` | app/src/main/java/com/d2kindia/backgroundtimer/TimerService.java:128-129 | two `elapsedTime` readings with only queries between them never show fewer seconds at the later clock |

## Left out

- `MainActivity.java` as a whole is not part of this model. That covers the activity lifecycle, service binding, the button and text view, and the one-second `Handler` refresh loop. It also covers the read of `time` with default "00:00:00" that seeds the display.
- `foreground`, `background`, `createNotification`, `onStartCommand`, `onBind` and `onDestroy` are left out: they are platform service and notification calls with no effect on the timer's state.
- Logging in the no-op branches of `startTimer` and `stopTimer` is left out: it has no effect on state.
- The commented-out `elapsedTime` in `TimerService.java` is dead code.
- `SharedPreferences` durability and the asynchronous `apply()` are left out. The store is in-memory state of the service. A process restart is a fresh `TimerService` built from the stored values.
- `System.currentTimeMillis()` is replaced by explicit clock parameters.
- The clock arithmetic is on unbounded integers: Java's 64-bit `long` wrap-around on overflow is not modelled. Only the `(int)` narrowing is 32-bit.
- `Locale.getDefault()` digit rendering is left out: digits are ASCII.
