# Countdown hook of the fasting tracker, in Dafny

The fasting tracker's circular progress display is driven by a small hook,
`useCountDown`. The hook keeps four pieces of state:

- the remaining time `timeLeft`, which starts at `duration` (default 60000);
- a fixed tick `interval` (default 1000);
- a slot `intervalRef` that remembers the repeating timer started most recently;
- the repeating timers the host is still running.

The hook offers `start`, `pause` and `reset`. It also has the callback each
repeating timer fires, and a cleanup that calls `pause` when the component
unmounts.

The model makes the callback's stale closure explicit. Every running timer
carries the value of `timeLeft` it captured when `start` created it. The
callback's `timeLeft > 0` test reads that captured value. Its decrement
`prev => prev - interval` reads the live value. `intervalRef` is overwritten
by each `start` and is never emptied.

- `countdown.dfy`, module `CountDown`: the state as a value (`State`). It has
  one function per operation, giving the state after it (`AfterStart`,
  `AfterTick`, `AfterPause`, `AfterReset`, `AfterUnmount`). Events and runs
  over event sequences are defined here too. The class `Hook` keeps the same
  state in mutable fields. Each of its methods is proved to leave the state
  that the matching function gives.
- `countdown_properties.dfy`, module `CountDownProperties`: what the hook
  guarantees over any sequence of operations and firings, and what it does
  not.
- `countdown_fixed.dfy`, module `CountDownFixed`: the hook as it is evidently
  meant to behave (see Findings), with its guarantees proved.

The code's evident intent is that the count stops on reaching zero (the
`else pause()` branch at src/hooks/useCountDown.ts:10-13) and that the
unmount cleanup clears the countdown (src/hooks/useCountDown.ts:31-36). The
code does not achieve either. The model follows the code, and the Findings
below give the inputs that show the gap.

## Model

| member | source | states |
|---|---|---|
| CountDown.Initial | src/hooks/useCountDown.ts:3-5 | an undefined duration defaults to 60000 and an undefined interval to 1000; `timeLeft` starts equal to `duration`; no timer is referenced or running |
| CountDown.AfterStart | src/hooks/useCountDown.ts:8-16 | `start` leaves `timeLeft` unchanged; it adds exactly one new running timer, which captures the current `timeLeft`; `intervalRef` now designates the new timer; earlier timers keep running with their captures |
| CountDown.AfterTick | src/hooks/useCountDown.ts:9-15 | a firing whose capture is positive lowers the live `timeLeft` by exactly `interval` and changes nothing else; a firing whose capture is zero or less leaves `timeLeft` alone and stops only the timer `intervalRef` designates |
| CountDown.AfterPause | src/hooks/useCountDown.ts:19-23 | `pause` keeps `timeLeft` and `intervalRef`; it stops exactly the referenced timer, if any; it is the identity when no timer was ever referenced |
| CountDown.AfterReset | src/hooks/useCountDown.ts:26-29 | `reset` stops exactly the referenced timer and sets `timeLeft` back to `duration` |
| CountDown.AfterUnmount | src/hooks/useCountDown.ts:32-36 | the unmount cleanup keeps `timeLeft` and stops only the referenced timer |
| CountDown.Hook.constructor | src/hooks/useCountDown.ts:3-5 | the object's first state is `Initial` of its options |
| CountDown.Hook.Start | src/hooks/useCountDown.ts:8-16 | the host hands out a handle that is not running; the fields become `AfterStart` of the old state with that handle |
| CountDown.Hook.Tick | src/hooks/useCountDown.ts:9-15 | the callback of running timer `id` updates the fields to `AfterTick` of the old state |
| CountDown.Hook.Pause | src/hooks/useCountDown.ts:19-23 | the fields become `AfterPause` of the old state |
| CountDown.Hook.Reset | src/hooks/useCountDown.ts:26-29 | the fields become `AfterReset` of the old state |
| CountDown.Hook.Unmount | src/hooks/useCountDown.ts:32-36 | the fields become `AfterUnmount` of the old state |
| CountDownProperties.InitialReachable | src/hooks/useCountDown.ts:4-5 | the first state satisfies the hook's invariant |
| CountDownProperties.StepKeepsReachable | src/hooks/useCountDown.ts:8-36 | every operation and firing keeps the invariant: with no reference nothing runs, and `timeLeft` is `duration` minus a whole number of intervals |
| CountDownProperties.ReachableAlongTrace | src/hooks/useCountDown.ts:8-36 | the invariant holds after any feasible sequence of events |
| CountDownProperties.ReachableBelowDuration | src/hooks/useCountDown.ts:11-28 | with a positive interval, a reachable `timeLeft` never exceeds `duration` |
| CountDownProperties.NoStartNoReference | src/hooks/useCountDown.ts:5-22 | only `start` ever writes `intervalRef` |
| CountDownProperties.PauseBeforeAnyStartIsNoOp | src/hooks/useCountDown.ts:19-23 | until the first `start`, nothing runs and `pause` changes nothing |
| CountDownProperties.StepKeepsOrphans | src/hooks/useCountDown.ts:9-22 | a running timer that `intervalRef` no longer designates stays running, with its capture, through any single event |
| CountDownProperties.OrphansOutliveEveryTrace | src/hooks/useCountDown.ts:9-22 | no sequence of events ever stops such a timer |
| CountDownProperties.DoubleStartPauseLeavesFirst | src/hooks/useCountDown.ts:8-22 | after `start` twice then `pause`, the second timer is stopped and the first is still running |
| CountDownProperties.DoubleStartLeaksForever | src/hooks/useCountDown.ts:8-36 | after a double start, the first timer survives every later event sequence and the unmount cleanup |
| CountDownProperties.PositiveCaptureTicks | src/hooks/useCountDown.ts:10-11 | `n` firings of a timer with a positive capture lower `timeLeft` by exactly `n` intervals, change nothing else and never stop it |
| CountDownProperties.StaleCaptureRunsNegative | src/hooks/useCountDown.ts:10-11 | with a positive interval, such a timer takes `timeLeft` below zero within `timeLeft / interval + 1` firings and is still running afterwards |
| CountDownProperties.FiveSecondScenario | src/hooks/useCountDown.ts:3-15 | for duration 5000 and the default interval: 3 firings leave 2000, 5 leave 0, and 6 leave -1000 with the timer still running |
| CountDownProperties.ExpiredOrphanFiresForever | src/hooks/useCountDown.ts:12-22 | a timer whose capture is not positive and which is not referenced keeps running; after its first firing every further firing is a no-op |
| CountDownProperties.ExpiredReferencedTimerStops | src/hooks/useCountDown.ts:12-22 | the referenced timer whose capture is not positive stops itself when it fires |
| CountDownProperties.ResetIsIdempotent | src/hooks/useCountDown.ts:26-29 | `reset` twice gives the same state as `reset` once |
| CountDownProperties.UnmountIsPause | src/hooks/useCountDown.ts:32-36 | the unmount cleanup has exactly the effect of `pause` |
| CountDownFixed.FixedStart | src/hooks/useCountDown.ts:8-16 | corrected `start`: it does nothing while a timer is referenced; otherwise it starts one timer and references it |
| CountDownFixed.FixedPause | src/hooks/useCountDown.ts:19-23 | corrected `pause`: it stops the referenced timer and empties `intervalRef` |
| CountDownFixed.FixedTick | src/hooks/useCountDown.ts:9-15 | corrected firing: it tests the live `timeLeft`; a positive value drops by one interval, and one smaller than an interval lands exactly on zero; zero stops the timer |
| CountDownFixed.FixedReset | src/hooks/useCountDown.ts:26-29 | corrected `reset`: it stops the timer, empties the reference and restores `duration`; `duration`, `interval` and the captures of the other timers stay as they were |
| CountDownFixed.FixedInitialInv | src/hooks/useCountDown.ts:3-5 | a non-negative duration starts the corrected hook in its invariant |
| CountDownFixed.FixedStepKeepsInv | src/hooks/useCountDown.ts:8-29 | each corrected event keeps the invariant: the running timers are exactly the referenced one (or none), and no time is negative |
| CountDownFixed.FixedInvAlongTrace | src/hooks/useCountDown.ts:8-36 | the corrected invariant holds after any feasible event sequence |
| CountDownFixed.FixedDoubleStartPauseStopsAll | src/hooks/useCountDown.ts:8-23 | in the corrected hook, two starts and a pause leave nothing running |
| CountDownFixed.FixedUnmountStopsAll | src/hooks/useCountDown.ts:32-36 | in the corrected hook, the unmount cleanup stops every timer |
| CountDownFixed.FixedTickMakesProgress | src/hooks/useCountDown.ts:10-14 | in the corrected hook, each firing either stops the countdown or lowers a non-negative `timeLeft`, so the countdown ends |
| CountDownFixed.FixedTicksCountDown | src/hooks/useCountDown.ts:10-11 | in the corrected hook, while `n` whole intervals remain, `n` firings lower `timeLeft` by exactly `n` intervals |
| CountDownFixed.FixedFiveSecondScenario | src/hooks/useCountDown.ts:3-15 | in the corrected hook, duration 5000: 3 firings leave 2000, 5 leave 0, and the sixth stops the timer with `timeLeft` at 0 |

## Left out

- React's machinery is not modelled. This covers `useState` batching, `useRef`, `useEffect` dependency tracking and when re-renders happen. Each setter and ref write is a direct field update.
- Real `setInterval`/`clearInterval` scheduling is not modelled. A firing is an explicit `Tick(id)` event. The host may deliver firings in any order. A timer that has been cleared never fires, so `Tick` requires `id` to be running.
- Timer handles are natural numbers handed out from 1 upwards. The host never hands out a handle that is still running. The truthiness test `if (intervalRef.current)` is modelled as "a handle is present". Browsers never hand out handle 0, and Node hands out an object.
- A callback captures `timeLeft` as of the render that created `start`. The model captures the value at the `start` call. The two are the same whenever `start` runs after the latest update has rendered.
- React ignores state updates after unmount. The model keeps applying the firings of leaked timers to the state after `Unmount`.
- `duration` and `interval` are fixed at the first render. A re-render with new props would change what `reset` and later `start` calls use.
- JavaScript numbers are doubles. The model uses unbounded integers, which match for integer values up to 2^53.
- The progress component computes `timeLeft / duration * 100` in floating point for a CSS gradient. This is presentation and is not modelled.
- The progress component re-runs `start` on every render because `start`'s identity changes. That depends on React render semantics and is not modelled.
- The pages, the tab-bar configuration and the page-load log are UI glue with no logic.
- The fasting-session controller (start or end a fast, history, streak, persistence, date formatting) is not part of this model. Its source is not among the files modelled.

## Findings

| source | as written | input that shows it | evidently intended | confidence | as-written member | corrected member |
|---|---|---|---|---|---|---|
| src/hooks/useCountDown.ts:10 | the zero test reads the `timeLeft` captured when `start` ran, so a timer started at a positive value never stops itself, and the decrement has no floor | duration 5000, interval 1000, `start`, six firings: `timeLeft` is -1000 and the timer is still running | test the live value; stop at zero; never go below it | high, not executed | CountDownProperties.StaleCaptureRunsNegative | CountDownFixed.FixedTickMakesProgress |
| src/hooks/useCountDown.ts:9 | `start` overwrites `intervalRef` without clearing the timer it referenced, and `pause` clears only the referenced timer | `start`, `start`, then `pause` or unmount: the first timer keeps running for ever | one timer at a time; `pause` and the unmount cleanup stop it | high, not executed | CountDownProperties.DoubleStartLeaksForever | CountDownFixed.FixedDoubleStartPauseStopsAll |

The class `CountDown.Hook` and the `After*` functions keep modelling the code
as written. This is so that the defects above are facts about the model. The
corrected behaviour lives in `CountDownFixed`, which reuses the same `State`
and `Event` types. It proves there that no timer leaks and that `timeLeft`
never goes negative.
