/** `RateLimiter` of src/common/rate_limiter.h, step by step, against RateLimiterSpec. `clock` gives the
    readings each call makes, one after the other; posted handlers are recorded in `posted` by their byte counts. */
module RateLimiter {
  import opened Bytes
  import opened RateLimiterSpec

  class RateLimiter {
    var bytesPerSec: Rate
    var tokens: real
    var lastUpdate: int
    var waitingHandlers: seq<nat>
    var timer: Option<int>
    var posted: seq<nat>
    ghost var disturbed: bool

    ghost function View(): Limiter
      reads this
    {
      Limiter(bytesPerSec, tokens, lastUpdate, waitingHandlers, timer, posted, disturbed)
    }

    constructor (rate: Rate, now: int)
      ensures View() == New(rate, now) && Valid(View())
    {
      bytesPerSec := rate;
      tokens := rate as real;
      lastUpdate := now;
      waitingHandlers := [];
      timer := None;
      posted := [];
      disturbed := false;
    }

    /** Taking the lowered rate into account at once, but not the time since the last refill. */
    method ChangeRate(rate: Rate)
      requires Valid(View())
      modifies this
      ensures View() == RateLimiterSpec.ChangeRate(old(View()), rate) && Valid(View())
    {
      SetRateValid(View(), rate);
      disturbed := disturbed || rate < bytesPerSec || (waitingHandlers != [] && waitingHandlers[0] > bytesPerSec);
      bytesPerSec := rate;
      if tokens > bytesPerSec as real {
        tokens := bytesPerSec as real;
      }
    }

    method AsyncWait(bytes: nat, clock: Clock, ghost to: int)
      requires Valid(View()) && lastUpdate <= to && Within(View(), Wait(bytes, clock), lastUpdate, to)
      modifies this
      ensures View() == RateLimiterSpec.AsyncWait(old(View()), bytes, clock) && Valid(View())
    {
      ApplyValid(View(), Wait(bytes, clock), lastUpdate, to);
      hide Valid, Within;
      UpdateTokens(clock(0));
      if waitingHandlers == [] && tokens >= bytes as real {
        tokens := tokens - bytes as real;
        posted := posted + [bytes];
        return;
      }
      waitingHandlers := waitingHandlers + [bytes];
      if |waitingHandlers| == 1 {
        ScheduleTimer(clock, 1);
      }
    }

    method UpdateTokens(now: int)
      modifies this`tokens, this`lastUpdate
      ensures View() == Update(old(View()), now)
    {
      var elapsed := now - lastUpdate;
      lastUpdate := now;
      tokens := tokens + elapsed as real * bytesPerSec as real / 1000000.0;
      if tokens > bytesPerSec as real {
        tokens := bytesPerSec as real;
      }
    }

    /** `k` readings have been made before. */
    method ScheduleTimer(clock: Clock, k: nat)
      modifies this
      ensures View() == Schedule(old(View()), clock, k)
      decreases |waitingHandlers|
    {
      if waitingHandlers == [] {
        return;
      }
      UpdateTokens(clock(k));
      var first := waitingHandlers[0];
      if tokens >= first as real {
        tokens := tokens - first as real;
        waitingHandlers := waitingHandlers[1..];
        posted := posted + [first];
        if waitingHandlers != [] {
          ScheduleTimer(clock, k + 1);
        }
        return;
      }
      var needed := first as real - tokens;
      var delayUs := (needed * 1000000.0 / bytesPerSec as real).Floor;
      timer := Some(clock(k + 1) + delayUs);
      disturbed := false;
    }

    /** The timer's completion handler, run no earlier than its expiry. */
    method TimerFires(clock: Clock, ghost to: int)
      requires Valid(View()) && lastUpdate <= to && Within(View(), Fire(clock), lastUpdate, to)
      requires timer.Some? && clock(0) >= timer.value
      modifies this
      ensures View() == RateLimiterSpec.TimerFires(old(View()), clock) && Valid(View())
    {
      ApplyValid(View(), Fire(clock), lastUpdate, to);
      timer := None;
      ScheduleTimer(clock, 0);
    }
  }
}
