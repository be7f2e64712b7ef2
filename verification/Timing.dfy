/** Tick arithmetic: absolute, unbounded times against the 32-bit counters that hold them. */
module Timing {
  import opened Bytes

  /** The absolute time of a counter value in a given turn of the counter. */
  function Absolute(turn: nat, tick: nat): nat {
    turn * 0x1_0000_0000 + tick
  }

  // ----- vTaskDelayUntil ----------------------------------------------------------------------

  /** The decision of vTaskDelayUntil, from the previous wake time, the increment and the
      current tick as the 32-bit counters hold them. */
  predicate ShouldDelay(previous: nat, increment: nat, tick: nat) {
    var wake := (previous + increment) % WORD;
    if tick < previous then wake < previous && tick < wake
    else wake < previous || tick < wake
  }

  /** Wherever the counters wrap, vTaskDelayUntil blocks exactly when the wake time lies in the
      absolute future; `previous` is the absolute time of the previous wake-up and `now` is less
      than one turn of the counter later. */
  lemma DelaysExactlyWhenInFuture(previous: nat, increment: nat, now: nat)
    requires increment < WORD && previous <= now < previous + WORD
    ensures ShouldDelay(previous % WORD, increment, now % WORD) <==> now < previous + increment
  {
  }

  /** A caller that is early, because something else resumed it before its previous wake time,
      is told to delay exactly when the increment carries past a whole turn of the counter;
      otherwise it runs on although its wake time is still to come. */
  lemma EarlyCallerDelaysExactlyWhen(previous: nat, increment: nat, now: nat)
    requires increment < WORD && now < previous < now + WORD
    ensures ShouldDelay(previous % WORD, increment, now % WORD) <==> WORD < increment + (previous - now)
  {
  }

  lemma EarlyCallerMayNotDelay()
    ensures 10 < 20 + 5 && !ShouldDelay(20, 5, 10)
  {
  }

  /** The wake time stored after a number of calls. */
  function StoredWake(first: nat, increment: nat, calls: nat): nat {
    if calls == 0 then first % WORD else (StoredWake(first, increment, calls - 1) + increment) % WORD
  }

  lemma {:induction false} WakeTimesNeverDrift(first: nat, increment: nat, calls: nat)
    ensures StoredWake(first, increment, calls) == (first + calls * increment) % WORD
  {
    if calls > 0 {
      WakeTimesNeverDrift(first, increment, calls - 1);
      var before := first + (calls - 1) * increment;
      assert before + increment == first + calls * increment;
      AddBeforeWrap(before, increment);
    }
  }

  lemma AddBeforeWrap(a: nat, b: nat)
    ensures (a % WORD + b) % WORD == (a + b) % WORD
  {
  }

  // ----- block times --------------------------------------------------------------------------

  /** xTimeOutType. */
  datatype TimeOut = TimeOut(overflows: nat, entered: nat)

  /** vTaskSetTimeOutState at an absolute time. */
  function TimeOutAt(now: nat): TimeOut {
    TimeOut(now / WORD % WORD, now % WORD)
  }

  datatype Verdict = Expired | Remaining(timeOut: TimeOut, ticks: nat)

  /** xTaskCheckForTimeOut at an absolute time. */
  function Check(timeOut: TimeOut, ticks: nat, now: nat): Verdict {
    var tick := now % WORD;
    var elapsed := (tick - timeOut.entered) % WORD;
    if ticks == MAX_DELAY then Remaining(timeOut, ticks)
    else if now / WORD % WORD != timeOut.overflows && timeOut.entered <= tick then Expired
    else if elapsed < ticks then Remaining(TimeOutAt(now), ticks - elapsed)
    else Expired
  }

  /** A check reports expiry exactly when the wait has run out and otherwise takes the elapsed
      ticks off it, if and only if the counter wrapped at most once since the time was set or
      one of the two comparisons still catches the wrap. */
  lemma CheckIsExactWhen(start: nat, ticks: nat, now: nat)
    requires start <= now && ticks < MAX_DELAY
    ensures (Check(TimeOutAt(start), ticks, now) ==
              if start + ticks <= now then Expired else Remaining(TimeOutAt(now), start + ticks - now))
            <==>
            (|| now / WORD <= start / WORD + 1
             || ((now / WORD - start / WORD) % WORD != 0 && start % WORD <= now % WORD)
             || ticks <= (now - start) % WORD)
  {
    var turn, tick, turn', tick' := start / WORD, start % WORD, now / WORD, now % WORD;
    ElapsedTicks(turn, tick, turn', tick');
    SameCount(turn, turn');
    if turn' <= turn + 1 {
      ElapsedOnce(turn, tick, turn', tick');
    }
  }

  /** The difference of the counters is that of the absolute times, but for whole turns. */
  lemma ElapsedTicks(turn: nat, tick: nat, turn': nat, tick': nat)
    requires tick < WORD && tick' < WORD && Absolute(turn, tick) <= Absolute(turn', tick')
    ensures turn <= turn'
    ensures (Absolute(turn', tick') - Absolute(turn, tick)) % WORD == (tick' - tick) % WORD
    ensures turn + 2 <= turn' ==> WORD < Absolute(turn', tick') - Absolute(turn, tick)
  {
    WholeTurnsAside(turn' - turn, tick' - tick);
  }

  lemma WholeTurnsAside(turns: nat, n: int)
    ensures (turns * 0x1_0000_0000 + n) % WORD == n % WORD
  {
  }

  /** Without a full turn in between, the difference is exact. */
  lemma ElapsedOnce(turn: nat, tick: nat, turn': nat, tick': nat)
    requires tick < WORD && tick' < WORD && Absolute(turn, tick) <= Absolute(turn', tick') && turn' <= turn + 1
    ensures turn == turn' || tick' < tick ==> (tick' - tick) % WORD == Absolute(turn', tick') - Absolute(turn, tick)
    ensures turn != turn' && tick <= tick' ==> WORD <= Absolute(turn', tick') - Absolute(turn, tick)
  {
  }

  lemma SameCount(a: nat, b: nat)
    requires a <= b
    ensures (b - a) % WORD == 0 <==> b % WORD == a % WORD
  {
    var p, q := a / WORD, b / WORD;
    assert b - a == (q - p) * WORD + (b % WORD - a % WORD);
    ModOf(b - a, q - p, b % WORD - a % WORD);
  }

  lemma ModOf(x: int, n: int, r: int)
    requires x == n * WORD + r && 0 < r + WORD && r < WORD
    ensures x % WORD == if r < 0 then r + WORD else r
  {
  }

  /** Two wraps between set and check can hide an expiry. */
  lemma TwoWrapsHideAnExpiry()
    ensures Check(TimeOutAt(10), 0xffff_fffe, 2 * WORD + 5) == Remaining(TimeOutAt(2 * WORD + 5), 3)
  {
  }

  /** A blocked send or receive checks again each time it wakes, at `times`, and stops at the
      first expiry. */
  function CheckAll(v: Verdict, times: seq<nat>): Verdict
    decreases |times|
  {
    if times == [] || v.Expired? then v else CheckAll(Check(v.timeOut, v.ticks, times[0]), times[1..])
  }

  /** A wait for ever never expires, however often it is checked. */
  lemma {:induction false} WaitForEverNeverExpires(timeOut: TimeOut, times: seq<nat>)
    ensures CheckAll(Remaining(timeOut, MAX_DELAY), times) == Remaining(timeOut, MAX_DELAY)
    decreases |times|
  {
    if times != [] {
      WaitForEverNeverExpires(timeOut, times[1..]);
    }
  }

  /** Later and later times, the counter wrapping at most once in between. */
  ghost predicate Steady(from: nat, times: seq<nat>)
    decreases |times|
  {
    times == [] || (from <= times[0] && times[0] / WORD <= from / WORD + 1 && Steady(times[0], times[1..]))
  }

  /** Through any number of retries, elapsed and remaining ticks add up to the original wait,
      and the wait expires at the first check that comes no earlier than its end. */
  lemma {:induction false} WaitIsConserved(start: nat, ticks: nat, times: seq<nat>)
    requires ticks < MAX_DELAY && Steady(start, times)
    ensures var last := if times == [] then start else times[|times| - 1];
            CheckAll(Remaining(TimeOutAt(start), ticks), times) ==
              if times != [] && start + ticks <= last then Expired
              else Remaining(TimeOutAt(last), start + ticks - last)
    decreases |times|
  {
    if times != [] {
      CheckIsExactWhen(start, ticks, times[0]);
      if times[0] < start + ticks {
        WaitIsConserved(times[0], start + ticks - times[0], times[1..]);
      } else {
        SteadyGrows(times[0], times[1..]);
      }
    }
  }

  lemma {:induction false} SteadyGrows(from: nat, times: seq<nat>)
    requires Steady(from, times)
    ensures times != [] ==> from <= times[|times| - 1]
    decreases |times|
  {
    if |times| > 1 {
      SteadyGrows(times[0], times[1..]);
    }
  }
}
