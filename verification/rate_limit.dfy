/** The per-key sliding-window rate limiter (codewiki_mcp/rate_limit.py).

    The limiter is an object owning a map from key to the timestamps of the
    calls it let through. The clock, the window length and the quota are
    parameters of each call, as the source reads them afresh every time;
    timestamps are whole clock ticks. */
module RateLimit {
  import opened Text

  /** The timestamps strictly later than `cutoff`, in their order. That
      these are all of them is `PruneMembers`. */
  function Prune(ts: seq<int>, cutoff: int): (r: seq<int>)
    ensures |r| <= |ts|
    ensures forall i :: 0 <= i < |r| ==> r[i] > cutoff
    decreases |ts|
  {
    if |ts| == 0 then []
    else
      var rest := Prune(ts[1..], cutoff);
      if ts[0] > cutoff then [ts[0]] + rest else rest
  }

  /** Pruning keeps exactly the timestamps later than the cutoff. */
  lemma {:induction false} PruneMembers(ts: seq<int>, cutoff: int)
    ensures forall t :: t in Prune(ts, cutoff) <==> t in ts && t > cutoff
    decreases |ts|
  {
    if |ts| > 0 {
      PruneMembers(ts[1..], cutoff);
      forall t
        ensures t in Prune(ts, cutoff) <==> t in ts && t > cutoff
      {
        assert t in ts <==> t == ts[0] || t in ts[1..] by {
          assert ts == [ts[0]] + ts[1..];
        }
      }
    }
  }

  /** Pruning keeps a list whose every entry is recent. */
  lemma {:induction false} PruneKeepsRecent(ts: seq<int>, cutoff: int)
    requires forall i :: 0 <= i < |ts| ==> ts[i] > cutoff
    ensures Prune(ts, cutoff) == ts
    decreases |ts|
  {
    if |ts| > 0 {
      PruneKeepsRecent(ts[1..], cutoff);
    }
  }

  /** Pruning at a cutoff and then at a later one is pruning at the later. */
  lemma {:induction false} PruneTwice(ts: seq<int>, c1: int, c2: int)
    requires c1 <= c2
    ensures Prune(Prune(ts, c1), c2) == Prune(ts, c2)
    decreases |ts|
  {
    if |ts| > 0 {
      PruneTwice(ts[1..], c1, c2);
      if ts[0] > c1 {
        assert ([ts[0]] + Prune(ts[1..], c1))[1..] == Prune(ts[1..], c1);
      }
    }
  }

  /** The verdict on one call and the key's list afterwards. */
  datatype Decision = Decision(allowed: bool, kept: seq<int>)

  /** One call of `check_rate_limit` on a key holding `ts`: prune to the
      window, reject when the quota is already used (keeping the pruned
      list), otherwise record `now`. */
  function Admit(ts: seq<int>, now: int, window: int, maxCalls: int): (d: Decision)
    ensures d.allowed <==> |Prune(ts, now - window)| < maxCalls
    ensures d.allowed ==> 0 < |d.kept| <= maxCalls && d.kept[|d.kept| - 1] == now
    ensures !d.allowed ==> d.kept == Prune(ts, now - window)
    ensures forall i :: 0 <= i < |d.kept| ==> d.kept[i] > now - window || window <= 0
  {
    var pruned := Prune(ts, now - window);
    if |pruned| >= maxCalls then Decision(false, pruned) else Decision(true, pruned + [now])
  }

  /** Successive calls on one key at the given times: the verdicts. */
  function Replay(ts: seq<int>, times: seq<int>, window: int, maxCalls: int): (r: seq<bool>)
    ensures |r| == |times|
    decreases |times|
  {
    if |times| == 0 then []
    else
      var d := Admit(ts, times[0], window, maxCalls);
      [d.allowed] + Replay(d.kept, times[1..], window, maxCalls)
  }

  /** One call on a list whose every entry is still in the window prunes
      nothing. */
  lemma AdmitRecent(ts: seq<int>, now: int, window: int, maxCalls: int)
    requires forall i :: 0 <= i < |ts| ==> ts[i] > now - window
    ensures Admit(ts, now, window, maxCalls)
      == Decision(|ts| < maxCalls, if |ts| >= maxCalls then ts else ts + [now])
  {
    PruneKeepsRecent(ts, now - window);
  }

  /** `Replay` one call at a time. */
  lemma ReplayStep(ts: seq<int>, times: seq<int>, i: nat, window: int, maxCalls: int)
    requires i < |times|
    ensures var d := Admit(ts, times[i], window, maxCalls);
      Replay(ts, times[i..], window, maxCalls) == [d.allowed] + Replay(d.kept, times[i + 1..], window, maxCalls)
  {
    assert times[i..][0] == times[i];
    assert times[i..][1..] == times[i + 1..];
  }

  /** Within one window nothing expires: starting from `ts`, call `i` of a
      burst is allowed exactly when fewer than `maxCalls` calls precede it
      on the key. */
  lemma {:induction false} BurstWithinWindow(ts: seq<int>, times: seq<int>, latest: int, window: int, maxCalls: int)
    requires forall i :: 0 <= i < |times| ==> latest - window < times[i] <= latest
    requires forall i :: 0 <= i < |ts| ==> ts[i] > latest - window
    ensures forall i :: 0 <= i < |times| ==> Replay(ts, times, window, maxCalls)[i] == (|ts| + i < maxCalls)
    decreases |times|
  {
    if |times| > 0 {
      var now := times[0];
      AdmitRecent(ts, now, window, maxCalls);
      var kept := if |ts| >= maxCalls then ts else ts + [now];
      assert forall i :: 0 <= i < |kept| ==> kept[i] > latest - window by {
        forall i | 0 <= i < |kept|
          ensures kept[i] > latest - window
        {
          if i < |ts| {
            assert kept[i] == ts[i];
          }
        }
      }
      assert forall i :: 0 <= i < |times| - 1 ==> latest - window < times[1..][i] <= latest by {
        forall i | 0 <= i < |times| - 1
          ensures latest - window < times[1..][i] <= latest
        {
          assert times[1..][i] == times[i + 1];
        }
      }
      BurstWithinWindow(kept, times[1..], latest, window, maxCalls);
      var tail := Replay(kept, times[1..], window, maxCalls);
      var r := Replay(ts, times, window, maxCalls);
      assert r == [|ts| < maxCalls] + tail;
      forall i | 0 <= i < |times|
        ensures r[i] == (|ts| + i < maxCalls)
      {
        if i > 0 {
          assert r[i] == tail[i - 1];
        }
      }
    }
  }

  /** With a quota of ten, ten calls at one instant pass and the eleventh
      is rejected. */
  lemma EleventhCallRejected(now: int, window: int)
    requires window > 0
    ensures Replay([], seq(11, i => now), window, 10) == seq(10, i => true) + [false]
  {
    var times := seq(11, i => now);
    BurstWithinWindow([], times, now, window, 10);
    var r := Replay([], times, window, 10);
    assert forall i :: 0 <= i < 11 ==> r[i] == (seq(10, i => true) + [false])[i];
  }

  /** The limiter's state: the timestamps per key. */
  class RateLimiter {
    var windows: map<string, seq<int>>

    constructor ()
      ensures windows == map[]
    {
      windows := map[];
    }

    /** `_windows.get(key, [])`. */
    function Timestamps(key: string): seq<int>
      reads this
    {
      if key in windows then windows[key] else []
    }

    /** No key holds more than `maxCalls` timestamps. */
    predicate Bounded(maxCalls: int)
      reads this
    {
      forall k :: k in windows ==> |windows[k]| <= maxCalls
    }

    /** `check_rate_limit`: the key's list is pruned and stored back (even
        on rejection, and even for a new key); an allowed call appends
        `now`. Every other key keeps its list. */
    method CheckRateLimit(key: string, now: int, window: int, maxCalls: int) returns (allowed: bool)
      modifies this
      ensures var d := Admit(old(Timestamps(key)), now, window, maxCalls);
        allowed == d.allowed && windows == old(windows)[key := d.kept]
      ensures forall k :: k != key ==> Timestamps(k) == old(Timestamps(k))
      ensures maxCalls >= 0 && old(Bounded(maxCalls)) ==> Bounded(maxCalls)
    {
      var timestamps := Timestamps(key);
      var pruned := Prune(timestamps, now - window);
      windows := windows[key := pruned];
      assert |pruned| <= |timestamps|;
      if |pruned| >= maxCalls {
        return false;
      }
      windows := windows[key := pruned + [now]];
      allowed := true;
    }

    /** `rate_limit_remaining`: the quota left in the window, never
        negative; nothing is stored. */
    method RateLimitRemaining(key: string, now: int, window: int, maxCalls: int) returns (n: int)
      ensures n == Max(0, maxCalls - |Prune(Timestamps(key), now - window)|)
      ensures n > 0 <==> Admit(Timestamps(key), now, window, maxCalls).allowed
    {
      var active := Prune(Timestamps(key), now - window);
      n := Max(0, maxCalls - |active|);
    }

    /** `reset_rate_limits`. */
    method ResetRateLimits()
      modifies this
      ensures windows == map[]
    {
      windows := map[];
    }
  }

  /** A burst of calls on a fresh limiter, one key: the verdicts are those
      `Replay` predicts from an empty list. */
  method BurstOnFreshLimiter(key: string, times: seq<int>, window: int, maxCalls: int) returns (verdicts: seq<bool>)
    ensures verdicts == Replay([], times, window, maxCalls)
  {
    var limiter := new RateLimiter();
    verdicts := [];
    var i := 0;
    while i < |times|
      invariant 0 <= i <= |times|
      invariant verdicts + Replay(limiter.Timestamps(key), times[i..], window, maxCalls)
             == Replay([], times, window, maxCalls)
    {
      ghost var before := limiter.Timestamps(key);
      ghost var d := Admit(before, times[i], window, maxCalls);
      ReplayStep(before, times, i, window, maxCalls);
      var ok := limiter.CheckRateLimit(key, times[i], window, maxCalls);
      assert ok == d.allowed && limiter.Timestamps(key) == d.kept;
      AppendAssoc(verdicts, [ok], Replay(d.kept, times[i + 1..], window, maxCalls));
      verdicts := verdicts + [ok];
      i := i + 1;
    }
    assert times[i..] == [];
  }

  lemma AppendAssoc(a: seq<bool>, b: seq<bool>, c: seq<bool>)
    ensures a + (b + c) == (a + b) + c
  {
  }

  /** `n` calls at one instant on one key of `limiter`: afterwards the key
      holds `n` copies of `now` (when it held none and the quota allows
      them all) and other keys are untouched. */
  method CallsAtOnce(limiter: RateLimiter, key: string, n: nat, now: int, window: int, maxCalls: int)
    requires limiter.Timestamps(key) == [] && n <= maxCalls && window > 0
    modifies limiter
    ensures |limiter.Timestamps(key)| == n
    ensures forall j :: 0 <= j < n ==> limiter.Timestamps(key)[j] == now
    ensures forall k :: k != key ==> limiter.Timestamps(k) == old(limiter.Timestamps(k))
  {
    var i := 0;
    while i < n
      invariant 0 <= i <= n
      invariant |limiter.Timestamps(key)| == i
      invariant forall j :: 0 <= j < i ==> limiter.Timestamps(key)[j] == now
      invariant forall k :: k != key ==> limiter.Timestamps(k) == old(limiter.Timestamps(k))
    {
      ghost var before := limiter.Timestamps(key);
      PruneKeepsRecent(before, now - window);
      var _ := limiter.CheckRateLimit(key, now, window, maxCalls);
      assert limiter.Timestamps(key) == before + [now];
      i := i + 1;
    }
  }

  /** Exhausting one key leaves another key allowed. */
  method KeysIndependent(a: string, b: string, now: int, window: int, maxCalls: nat) returns (exhausted: bool, other: bool)
    requires a != b && maxCalls > 0 && window > 0
    ensures !exhausted && other
  {
    var limiter := new RateLimiter();
    CallsAtOnce(limiter, a, maxCalls, now, window, maxCalls);
    PruneKeepsRecent(limiter.Timestamps(a), now - window);
    exhausted := limiter.CheckRateLimit(a, now, window, maxCalls);
    other := limiter.CheckRateLimit(b, now, window, maxCalls);
  }
}
