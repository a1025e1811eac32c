/** The Last.fm rate limiter: a ring of the last three request ticks, read through a
    32-bit tick counter that wraps. */
module RequestRate {
  import opened Bytes

  const RATE_LIMIT_REQUESTS: nat := 3
  /** Ten seconds at the configured 100 ticks a second. */
  const WINDOW_TICKS: nat := 1000
  const TICK_MODULUS: nat := 0x1_0000_0000

  /** What xTaskGetTickCount returns at true time `now`. */
  function Ticks(now: nat): uint32 {
    now % TICK_MODULUS
  }

  /** TickType_t subtraction. */
  function TicksSince(now: uint32, earlier: uint32): uint32 {
    if now >= earlier then now - earlier else now - earlier + TICK_MODULUS
  }

  /** The delay asked for when the oldest remembered request was stamped `oldest`. */
  function WaitTicks(now: uint32, oldest: uint32): nat {
    var elapsed := TicksSince(now, oldest);
    if elapsed >= WINDOW_TICKS then 0 else WINDOW_TICKS - elapsed
  }

  /** The wrapping difference is the true one modulo 2^32, so the true distance after the
      wait is never below the window, however often the counter wrapped in between; and
      the wait is no longer than needed while the stamp is less than one turn old. */
  lemma WaitCoversWindow(now: nat, oldest: nat)
    requires oldest <= now
    ensures now + WaitTicks(Ticks(now), Ticks(oldest)) >= oldest + WINDOW_TICKS
    ensures now - oldest < TICK_MODULUS ==>
              WaitTicks(Ticks(now), Ticks(oldest)) ==
              if now - oldest >= WINDOW_TICKS then 0 else WINDOW_TICKS - (now - oldest)
  {
    var elapsed := TicksSince(Ticks(now), Ticks(oldest));
    var turns := now / TICK_MODULUS - oldest / TICK_MODULUS;
    assert now == now / TICK_MODULUS * TICK_MODULUS + Ticks(now);
    assert oldest == oldest / TICK_MODULUS * TICK_MODULUS + Ticks(oldest);
    assert now - oldest == turns * TICK_MODULUS + Ticks(now) as int - Ticks(oldest) as int;
    assert elapsed <= now - oldest;
  }

  /** Any four consecutive requests span at least the window. */
  ghost predicate Spaced(log: seq<nat>) {
    && (forall i, j :: 0 <= i <= j < |log| ==> log[i] <= log[j])
    && (forall i :: 0 <= i < |log| - RATE_LIMIT_REQUESTS ==> log[i] + WINDOW_TICKS <= log[i + 3])
  }

  /** A request at `now` would keep the log spaced. */
  ghost predicate MayRecord(log: seq<nat>, now: nat) {
    && (log != [] ==> log[|log| - 1] <= now)
    && (|log| >= RATE_LIMIT_REQUESTS ==> log[|log| - RATE_LIMIT_REQUESTS] + WINDOW_TICKS <= now)
  }

  lemma RecordKeepsSpacing(log: seq<nat>, now: nat)
    requires Spaced(log) && MayRecord(log, now)
    ensures Spaced(log + [now])
  {
    var all := log + [now];
    forall i, j | 0 <= i <= j < |all| ensures all[i] <= all[j] {
      if j == |log| && i < |log| {
        assert log[i] <= log[|log| - 1];
      }
    }
  }

  /** Slot `k % 3` holds the stamp of request `k`, for the last three requests. */
  ghost predicate Stamps(log: seq<nat>, ticks: seq<uint32>)
    requires |ticks| == RATE_LIMIT_REQUESTS
  {
    && (|log| >= 1 ==> ticks[(|log| - 1) % 3] == Ticks(log[|log| - 1]))
    && (|log| >= 2 ==> ticks[(|log| - 2) % 3] == Ticks(log[|log| - 2]))
    && (|log| >= 3 ==> ticks[(|log| - 3) % 3] == Ticks(log[|log| - 3]))
  }

  lemma StampsStep(log: seq<nat>, ticks: seq<uint32>, now: nat)
    requires |ticks| == RATE_LIMIT_REQUESTS && Stamps(log, ticks)
    ensures Stamps(log + [now], ticks[|log| % 3 := Ticks(now)])
  {
    var n := |log|;
    assert (n - 1) % 3 == (n + 2) % 3 && (n - 2) % 3 == (n + 1) % 3;
    assert n % 3 != (n + 1) % 3 && n % 3 != (n + 2) % 3;
  }

  lemma NextSlot(n: nat)
    ensures (n + 1) % RATE_LIMIT_REQUESTS == (n % RATE_LIMIT_REQUESTS + 1) % RATE_LIMIT_REQUESTS
    ensures n % RATE_LIMIT_REQUESTS < RATE_LIMIT_REQUESTS
  {
  }

  class RateLimiter {
    const requestTicks: array<uint32>
    var requestCount: nat
    var nextIndex: nat
    /** True times of all recorded requests. */
    ghost var log: seq<nat>

    ghost predicate Valid()
      reads this, requestTicks
    {
      && requestTicks.Length == RATE_LIMIT_REQUESTS
      && nextIndex == |log| % RATE_LIMIT_REQUESTS
      && requestCount == (if |log| < RATE_LIMIT_REQUESTS then |log| else RATE_LIMIT_REQUESTS)
      && Stamps(log, requestTicks[..])
      && Spaced(log)
    }

    constructor ()
      ensures Valid() && log == [] && fresh(requestTicks)
    {
      requestTicks := new uint32[RATE_LIMIT_REQUESTS](_ => 0);
      requestCount, nextIndex := 0, 0;
      log := [];
    }

    /** Waits if need be. `now` is the time on entry, `woken` the time on return; the
        scheduler may come back late by any amount. */
    method WaitForRequestRateLimit(now: nat) returns (woken: nat)
      requires Valid() && (log != [] ==> log[|log| - 1] <= now)
      ensures woken >= now && MayRecord(log, woken)
      ensures |log| < RATE_LIMIT_REQUESTS ==> woken == now
      ensures |log| >= RATE_LIMIT_REQUESTS ==>
                TicksSince(Ticks(now), Ticks(log[|log| - RATE_LIMIT_REQUESTS])) >= WINDOW_TICKS ==> woken == now
    {
      if requestCount < RATE_LIMIT_REQUESTS {
        return now;
      }
      ghost var oldest := |log| - RATE_LIMIT_REQUESTS;
      assert oldest % RATE_LIMIT_REQUESTS == nextIndex;
      assert requestTicks[..][nextIndex] == Ticks(log[oldest]);
      WaitCoversWindow(now, log[oldest]);
      var elapsed := TicksSince(Ticks(now), requestTicks[nextIndex]);
      if elapsed >= WINDOW_TICKS {
        return now;
      }
      var wait := WINDOW_TICKS - elapsed;
      var late: nat :| true;
      return now + wait + late;
    }

    method RecordRequest(now: nat)
      requires Valid() && MayRecord(log, now)
      modifies this`requestCount, this`nextIndex, this`log, requestTicks
      ensures Valid() && log == old(log) + [now]
    {
      RecordKeepsSpacing(log, now);
      StampsStep(log, requestTicks[..], now);
      NextSlot(|log|);
      ghost var stamped := requestTicks[..][nextIndex := Ticks(now)];
      requestTicks[nextIndex] := Ticks(now);
      assert requestTicks[..] == stamped;
      nextIndex := (nextIndex + 1) % RATE_LIMIT_REQUESTS;
      if requestCount < RATE_LIMIT_REQUESTS {
        requestCount := requestCount + 1;
      }
      log := log + [now];
    }

    /** Any run of requests: each comes `gaps[i]` ticks after the previous one was let
        through, waits, and is recorded some ticks after it was woken. */
    method Requests(start: nat, gaps: seq<nat>, lags: seq<nat>)
      requires Valid() && log == [] && |lags| == |gaps|
      modifies this`requestCount, this`nextIndex, this`log, requestTicks
      ensures |log| == |gaps| && Spaced(log)
    {
      var now := start;
      for i := 0 to |gaps|
        invariant Valid() && |log| == i
        invariant log != [] ==> log[|log| - 1] <= now
      {
        now := now + gaps[i];
        var woken := WaitForRequestRateLimit(now);
        now := woken + lags[i];
        RecordRequest(now);
      }
    }
  }
}
