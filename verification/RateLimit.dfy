/** The fixed-window limiter of the authentication endpoints. */
module RateLimit {

  datatype Entry = Entry(count: nat, resetAt: int)

  datatype Limit = Limit(max: nat, windowMs: nat)

  datatype Verdict = Verdict(allowed: bool, remaining: nat, resetAt: int)

  /** The window a call at `now` is counted in: the current one, or a new one once it is over. */
  function CurrentWindow(windows: map<string, Entry>, key: string, limit: Limit, now: int): Entry {
    if key !in windows || now > windows[key].resetAt then Entry(0, now + limit.windowMs) else windows[key]
  }

  function WindowsAfter(windows: map<string, Entry>, key: string, limit: Limit, now: int): map<string, Entry> {
    var entry := CurrentWindow(windows, key, limit, now);
    windows[key := entry.(count := entry.count + 1)]
  }

  predicate Allowed(windows: map<string, Entry>, key: string, limit: Limit, now: int) {
    CurrentWindow(windows, key, limit, now).count < limit.max
  }

  class AuthRateLimiter {
    var windows: map<string, Entry>

    constructor ()
      ensures windows == map[]
    {
      windows := map[];
    }

    method CheckAuthRateLimit(ip: string, keyPrefix: string, limit: Limit, now: int) returns (verdict: Verdict)
      modifies this
      ensures var key := keyPrefix + ":" + ip;
              && windows == WindowsAfter(old(windows), key, limit, now)
              && verdict.allowed == Allowed(old(windows), key, limit, now)
              && verdict.resetAt == windows[key].resetAt
              && verdict.remaining == if windows[key].count >= limit.max then 0 else limit.max - windows[key].count
      ensures var key := keyPrefix + ":" + ip;
              var renewed := key !in old(windows) || now > old(windows)[key].resetAt;
              && key in windows && windows == old(windows)[key := windows[key]]
              && windows[key].count == (if renewed then 0 else old(windows)[key].count) + 1
              && windows[key].resetAt == (if renewed then now + limit.windowMs else old(windows)[key].resetAt)
              && (verdict.allowed <==> windows[key].count <= limit.max)
    {
      var key := keyPrefix + ":" + ip;
      if key !in windows || now > windows[key].resetAt {
        windows := windows[key := Entry(0, now + limit.windowMs)];
      }
      var entry := windows[key].(count := windows[key].count + 1);
      windows := windows[key := entry];
      var remaining := if entry.count >= limit.max then 0 else limit.max - entry.count;
      return Verdict(entry.count <= limit.max, remaining, entry.resetAt);
    }
  }

  // ---------------------------------------------------------------------------
  // Runs
  // ---------------------------------------------------------------------------

  datatype Call = Call(key: string, time: int)

  /** The clock never goes back. */
  predicate Ordered(calls: seq<Call>) {
    forall i, j :: 0 <= i < j < |calls| ==> calls[i].time <= calls[j].time
  }

  /** The allowed calls of one key with a time in the closed interval. */
  function AllowedIn(windows: map<string, Entry>, calls: seq<Call>, limit: Limit, key: string, from: int,
      until: int): nat
    decreases |calls|
  {
    if calls == [] then 0
    else
      var c := calls[0];
      var counts := c.key == key && from <= c.time <= until && Allowed(windows, c.key, limit, c.time);
      (if counts then 1 else 0) +
          AllowedIn(WindowsAfter(windows, c.key, limit, c.time), calls[1..], limit, key, from, until)
  }

  /** What the current window of a key still allows. */
  function Left(windows: map<string, Entry>, key: string, limit: Limit): nat {
    if key !in windows then limit.max
    else if windows[key].count >= limit.max then 0
    else limit.max - windows[key].count
  }

  /** Inside one window at most what it has left is allowed. */
  lemma {:induction false} WithinWindow(windows: map<string, Entry>, calls: seq<Call>, limit: Limit, key: string,
      from: int, until: int)
    requires Ordered(calls) && key in windows && until <= windows[key].resetAt
    ensures AllowedIn(windows, calls, limit, key, from, until) <= Left(windows, key, limit)
    decreases |calls|
  {
    if calls != [] {
      var c := calls[0];
      var after := WindowsAfter(windows, c.key, limit, c.time);
      if c.time > until {
        PastInterval(after, calls[1..], limit, key, from, until);
      } else {
        WithinWindow(after, calls[1..], limit, key, from, until);
      }
    }
  }

  /** After the interval nothing counts any more. */
  lemma {:induction false} PastInterval(windows: map<string, Entry>, calls: seq<Call>, limit: Limit, key: string,
      from: int, until: int)
    requires forall i :: 0 <= i < |calls| ==> calls[i].time > until
    ensures AllowedIn(windows, calls, limit, key, from, until) == 0
    decreases |calls|
  {
    if calls != [] {
      PastInterval(WindowsAfter(windows, calls[0].key, limit, calls[0].time), calls[1..], limit, key, from, until);
    }
  }

  /** An interval no longer than a window that starts inside one window ends in the next. */
  lemma {:induction false} AcrossTwoWindows(windows: map<string, Entry>, calls: seq<Call>, limit: Limit, key: string,
      from: int, until: int)
    requires Ordered(calls) && until <= from + limit.windowMs
    requires key in windows && from <= windows[key].resetAt
    ensures AllowedIn(windows, calls, limit, key, from, until) <= Left(windows, key, limit) + limit.max
    decreases |calls|
  {
    if calls != [] {
      var c := calls[0];
      var after := WindowsAfter(windows, c.key, limit, c.time);
      if c.key == key && c.time > windows[key].resetAt {
        WithinWindow(after, calls[1..], limit, key, from, until);
      } else {
        AcrossTwoWindows(after, calls[1..], limit, key, from, until);
      }
    }
  }

  function WindowsAfterAll(windows: map<string, Entry>, calls: seq<Call>, limit: Limit): map<string, Entry>
    decreases |calls|
  {
    if calls == [] then windows
    else WindowsAfterAll(WindowsAfter(windows, calls[0].key, limit, calls[0].time), calls[1..], limit)
  }

  /** The calls of a key, allowed or refused. */
  function CallsOf(calls: seq<Call>, key: string): nat
    decreases |calls|
  {
    if calls == [] then 0 else (if calls[0].key == key then 1 else 0) + CallsOf(calls[1..], key)
  }

  /**
   Until its end a window stays what it is: no call prolongs it, a refused one neither, every
   call of its key is counted and no other.
   */
  lemma {:induction false} WindowStays(windows: map<string, Entry>, calls: seq<Call>, limit: Limit, key: string)
    requires key in windows
    requires forall i :: 0 <= i < |calls| && calls[i].key == key ==> calls[i].time <= windows[key].resetAt
    ensures key in WindowsAfterAll(windows, calls, limit)
    ensures WindowsAfterAll(windows, calls, limit)[key] ==
            Entry(windows[key].count + CallsOf(calls, key), windows[key].resetAt)
    decreases |calls|
  {
    if calls != [] {
      var after := WindowsAfter(windows, calls[0].key, limit, calls[0].time);
      assert forall i :: 0 <= i < |calls[1..]| ==> calls[1..][i] == calls[i + 1];
      WindowStays(after, calls[1..], limit, key);
    }
  }

  /** Calls of other keys leave the key's window, or its absence, alone. */
  lemma {:induction false} OthersKeepWindow(windows: map<string, Entry>, calls: seq<Call>, limit: Limit, key: string)
    requires forall i :: 0 <= i < |calls| ==> calls[i].key != key
    ensures key in WindowsAfterAll(windows, calls, limit) <==> key in windows
    ensures key in windows ==> WindowsAfterAll(windows, calls, limit)[key] == windows[key]
    decreases |calls|
  {
    if calls != [] {
      OthersKeepWindow(WindowsAfter(windows, calls[0].key, limit, calls[0].time), calls[1..], limit, key);
    }
  }

  /**
   Exactly which call is allowed: inside a window as long as fewer than `max` calls of the key
   were made in it, and after its end always, however many were refused before.
   */
  lemma AllowedIff(windows: map<string, Entry>, calls: seq<Call>, limit: Limit, key: string, now: int)
    requires key in windows && limit.max >= 1
    requires forall i :: 0 <= i < |calls| && calls[i].key == key ==> calls[i].time <= windows[key].resetAt
    ensures Allowed(WindowsAfterAll(windows, calls, limit), key, limit, now) <==>
            now > windows[key].resetAt || windows[key].count + CallsOf(calls, key) < limit.max
  {
    WindowStays(windows, calls, limit, key);
  }

  /** A stored window has counted at least the call that opened it. */
  predicate Opened(windows: map<string, Entry>) {
    forall k :: k in windows ==> windows[k].count >= 1
  }

  /** The most calls an interval as long as a window can contain. */
  function Bound(limit: Limit): nat {
    if limit.max == 0 then 0 else 2 * limit.max - 1
  }

  /**
   For any mix of keys, a closed interval as long as a window contains at most `2 * max - 1`
   allowed calls of a key: the call that opened the earlier window lies before it.
   */
  lemma {:induction false} BoundHolds(windows: map<string, Entry>, calls: seq<Call>, limit: Limit, key: string,
      from: int, until: int)
    requires Opened(windows) && Ordered(calls) && until <= from + limit.windowMs
    ensures AllowedIn(windows, calls, limit, key, from, until) <= Bound(limit)
    decreases |calls|
  {
    if key in windows && from <= windows[key].resetAt {
      AcrossTwoWindows(windows, calls, limit, key, from, until);
      if limit.max == 0 {
        NothingAllowed(windows, calls, limit, key, from, until);
      }
    } else if calls != [] {
      var c := calls[0];
      var after := WindowsAfter(windows, c.key, limit, c.time);
      if c.key == key && c.time >= from {
        WithinWindow(after, calls[1..], limit, key, from, until);
      } else {
        BoundHolds(after, calls[1..], limit, key, from, until);
      }
    }
  }

  lemma {:induction false} NothingAllowed(windows: map<string, Entry>, calls: seq<Call>, limit: Limit, key: string,
      from: int, until: int)
    requires limit.max == 0
    ensures AllowedIn(windows, calls, limit, key, from, until) == 0
    decreases |calls|
  {
    if calls != [] {
      NothingAllowed(WindowsAfter(windows, calls[0].key, limit, calls[0].time), calls[1..], limit, key, from, until);
    }
  }

  /** `n` calls of one key at one moment. */
  function Burst(key: string, time: int, n: nat): seq<Call> {
    seq(n, i => Call(key, time))
  }

  /** A burst that the current window has left is allowed in full. */
  lemma {:induction false} BurstAdds(windows: map<string, Entry>, rest: seq<Call>, limit: Limit, key: string,
      time: int, n: nat,
                                     from: int, until: int)
    requires key in windows && from <= time <= until && time <= windows[key].resetAt
    requires windows[key].count + n <= limit.max
    ensures AllowedIn(windows, Burst(key, time, n) + rest, limit, key, from, until) ==
            n + AllowedIn(windows[key := windows[key].(count := windows[key].count + n)], rest, limit, key, from, until)
    decreases n
  {
    var calls := Burst(key, time, n) + rest;
    if n == 0 {
      assert calls == rest;
      assert windows[key := windows[key].(count := windows[key].count + n)] == windows;
    } else {
      assert calls[0] == Call(key, time);
      assert calls[1..] == Burst(key, time, n - 1) + rest;
      var after := WindowsAfter(windows, key, limit, time);
      BurstAdds(after, rest, limit, key, time, n - 1, from, until);
      assert after[key := after[key].(count := after[key].count + (n - 1))] ==
             windows[key := windows[key].(count := windows[key].count + n)];
    }
  }

  /** A whole window, opened right after `time` was its predecessor's end. */
  function WholeWindow(key: string, limit: Limit): seq<Call>
    requires limit.max >= 1
  {
    [Call(key, limit.windowMs + 1)] + (Burst(key, limit.windowMs + 1, limit.max - 1) + [])
  }

  /** One call, the rest of its window at its very end, and a whole window right after it. */
  function WorstCase(key: string, limit: Limit): seq<Call>
    requires limit.max >= 1
  {
    [Call(key, 0)] + (Burst(key, limit.windowMs, limit.max - 1) + WholeWindow(key, limit))
  }

  lemma WholeWindowAllowed(windows: map<string, Entry>, key: string, limit: Limit)
    requires limit.max >= 1 && key in windows && windows[key].resetAt == limit.windowMs
    ensures AllowedIn(windows, WholeWindow(key, limit), limit, key, 1, limit.windowMs + 1) == limit.max
  {
    var time := limit.windowMs + 1;
    var calls := WholeWindow(key, limit);
    assert calls[0] == Call(key, time) && calls[1..] == Burst(key, time, limit.max - 1) + [];
    var renewed := WindowsAfter(windows, key, limit, time);
    BurstAdds(renewed, [], limit, key, time, limit.max - 1, 1, time);
  }

  lemma WorstCaseIsOrdered(key: string, limit: Limit)
    requires limit.max >= 1
    ensures Ordered(WorstCase(key, limit))
  {
  }

  /** The bound is attained from the empty limiter, so no smaller one holds. */
  lemma BoundIsTight(key: string, limit: Limit)
    requires limit.max >= 1 && limit.windowMs >= 1
    ensures Ordered(WorstCase(key, limit))
    ensures AllowedIn(map[], WorstCase(key, limit), limit, key, 1, limit.windowMs + 1) == Bound(limit)
  {
    WorstCaseIsOrdered(key, limit);
    var w, m := limit.windowMs, limit.max;
    var first := map[key := Entry(1, w)];
    var rest := Burst(key, w, m - 1) + WholeWindow(key, limit);
    var calls := [Call(key, 0)] + rest;
    assert calls[0] == Call(key, 0) && calls[1..] == rest;
    assert AllowedIn(map[], calls, limit, key, 1, w + 1) == AllowedIn(first, rest, limit, key, 1, w + 1);
    BurstAdds(first, WholeWindow(key, limit), limit, key, w, m - 1, 1, w + 1);
    var full := first[key := first[key].(count := first[key].count + (m - 1))];
    WholeWindowAllowed(full, key, limit);
  }
}
