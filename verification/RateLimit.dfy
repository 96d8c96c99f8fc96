/** The rapid-bid limiter: a validator's stored bid history is cut to its newest entries,
    and a new bid is refused while too many stored entries are younger than 100 seconds. */
module RateLimit {

  const WINDOW: int := 100

  /** The newest `cap` entries, in order (RecordBidHistory's truncation). */
  function Newest<T>(log: seq<T>, cap: nat): seq<T> {
    if |log| > cap then log[|log| - cap..] else log
  }

  /** How many stored bids are younger than the window (ValidateAuctionBid's counter). */
  function Recent(history: seq<int>, now: int): nat {
    if history == [] then 0
    else Recent(history[..|history| - 1], now) + (if now - history[|history| - 1] < WINDOW then 1 else 0)
  }

  /** How many accepted bids fall into the window [from, from + 100). */
  function InWindow(log: seq<int>, from: int): nat {
    if log == [] then 0
    else InWindow(log[..|log| - 1], from) + (if from <= log[|log| - 1] < from + WINDOW then 1 else 0)
  }

  ghost predicate Ordered(log: seq<int>) {
    forall i, j :: 0 <= i <= j < |log| ==> log[i] <= log[j]
  }

  /** Any `limit` + 1 consecutive accepted bids span at least the window. */
  ghost predicate Spaced(log: seq<int>, limit: nat) {
    forall i, j :: 0 <= i && j == i + limit && j < |log| ==> log[j] - log[i] >= WINDOW
  }

  /** All of the last k entries being young, the counter has seen them. */
  lemma {:induction false} RecentAtLeast(history: seq<int>, now: int, k: nat)
    requires k <= |history|
    requires forall i :: |history| - k <= i < |history| ==> now - history[i] < WINDOW
    ensures Recent(history, now) >= k
  {
    if k > 0 {
      RecentAtLeast(history[..|history| - 1], now, k - 1);
    }
  }

  lemma {:induction false} RecentAtMost(history: seq<int>, now: int)
    ensures Recent(history, now) <= |history|
  {
    if history != [] {
      RecentAtMost(history[..|history| - 1], now);
    }
  }

  /** One accepted bid keeps the spacing, although only the newest `cap` bids were counted. */
  lemma AcceptKeepsSpacing(log: seq<int>, now: int, limit: nat, cap: nat)
    requires 1 <= limit <= cap
    requires Ordered(log + [now]) && Spaced(log, limit)
    requires Recent(Newest(log, cap), now) < limit
    ensures Spaced(log + [now], limit)
  {
    var log' := log + [now];
    forall i, j | 0 <= i && j == i + limit && j < |log'| ensures log'[j] - log'[i] >= WINDOW {
      if j == |log| && now - log'[i] < WINDOW {
        var h := Newest(log, cap);
        forall m | |h| - limit <= m < |h| ensures now - h[m] < WINDOW {
          assert h[m] == log'[|log| - |h| + m];
          assert log'[i] <= log'[|log| - |h| + m];
        }
        RecentAtLeast(h, now, limit);
      } else if j < |log| {
        assert log[j] - log[i] >= WINDOW;
      }
    }
  }

  /** The entries of an ordered log that fall into a window are consecutive. */
  lemma {:induction false} WindowIsSuffix(log: seq<int>, from: int)
    requires Ordered(log)
    requires log != [] ==> log[|log| - 1] < from + WINDOW
    ensures InWindow(log, from) <= |log|
    ensures forall i :: |log| - InWindow(log, from) <= i < |log| ==> from <= log[i]
  {
    if log != [] {
      var init := log[..|log| - 1];
      WindowIsSuffix(init, from);
    }
  }

  lemma {:induction false} SpacedBoundsWindow(log: seq<int>, limit: nat, from: int)
    requires limit >= 1 && Ordered(log) && Spaced(log, limit)
    ensures InWindow(log, from) <= limit
  {
    if log != [] {
      if log[|log| - 1] >= from + WINDOW {
        SpacedBoundsWindow(log[..|log| - 1], limit, from);
      } else {
        WindowIsSuffix(log, from);
        var n := InWindow(log, from);
        if n > 0 {
          var i := |log| - n;
          var j := if n > limit then i + limit else |log| - 1;
          assert log[j] - log[i] < WINDOW;
        }
      }
    }
  }

  /** The log of accepted bids after a sequence of attempts at the given times. */
  function Accepted(limit: nat, cap: nat, attempts: seq<int>): seq<int> {
    if attempts == [] then []
    else
      var log := Accepted(limit, cap, attempts[..|attempts| - 1]);
      var now := attempts[|attempts| - 1];
      if Recent(Newest(log, cap), now) < limit then log + [now] else log
  }

  lemma {:induction false} AcceptedIsSpaced(limit: nat, cap: nat, attempts: seq<int>)
    requires 1 <= limit <= cap
    requires Ordered(attempts)
    ensures var log := Accepted(limit, cap, attempts);
            && Ordered(log) && Spaced(log, limit)
            && (log != [] ==> attempts != [] && log[|log| - 1] <= attempts[|attempts| - 1])
  {
    if attempts != [] {
      var rest := attempts[..|attempts| - 1];
      AcceptedIsSpaced(limit, cap, rest);
      var log := Accepted(limit, cap, rest);
      var now := attempts[|attempts| - 1];
      if Recent(Newest(log, cap), now) < limit {
        assert log != [] ==> log[|log| - 1] <= rest[|rest| - 1] <= now;
        assert Ordered(log + [now]);
        AcceptKeepsSpacing(log, now, limit, cap);
      }
    }
  }

  function Burst(n: nat): seq<int> {
    seq(n, i => 0)
  }

  /** A history shorter than the limit never refuses anything. */
  lemma {:induction false} ShortHistoryAcceptsAll(limit: nat, cap: nat, n: nat)
    requires cap < limit
    ensures Accepted(limit, cap, Burst(n)) == Burst(n)
    ensures InWindow(Burst(n), 0) == n
  {
    BurstInWindow(n);
    if n > 0 {
      ShortHistoryAcceptsAll(limit, cap, n - 1);
      BurstGrows(n - 1);
      RecentAtMost(Newest(Burst(n - 1), cap), 0);
    }
  }

  lemma BurstGrows(n: nat)
    ensures Burst(n + 1)[..n] == Burst(n) && Burst(n) + [0] == Burst(n + 1)
    ensures |Burst(n + 1)| == n + 1 && Burst(n + 1)[n] == 0
  {
  }

  lemma {:induction false} BurstInWindow(n: nat)
    ensures InWindow(Burst(n), 0) == n
  {
    if n > 0 {
      BurstInWindow(n - 1);
      BurstGrows(n - 1);
    }
  }

  ghost predicate LimitHolds(limit: nat, cap: nat) {
    forall attempts: seq<int>, from: int :: Ordered(attempts) ==>
      InWindow(Accepted(limit, cap, attempts), from) <= limit
  }

  lemma LongHistoryLimits(limit: nat, cap: nat)
    requires 1 <= limit <= cap
    ensures LimitHolds(limit, cap)
  {
    forall attempts: seq<int>, from: int | Ordered(attempts)
      ensures InWindow(Accepted(limit, cap, attempts), from) <= limit
    {
      AcceptedIsSpaced(limit, cap, attempts);
      SpacedBoundsWindow(Accepted(limit, cap, attempts), limit, from);
    }
  }

  lemma Refuted(limit: nat, cap: nat, attempts: seq<int>, from: int)
    requires Ordered(attempts) && InWindow(Accepted(limit, cap, attempts), from) > limit
    ensures !LimitHolds(limit, cap)
  {
  }

  lemma BurstOrdered(n: nat)
    ensures Ordered(Burst(n))
  {
  }

  lemma ShortHistoryFails(limit: nat, cap: nat, n: nat)
    requires cap < limit < n
    ensures !LimitHolds(limit, cap)
  {
    BurstOrdered(n);
    ShortHistoryAcceptsAll(limit, cap, n);
    var burst := Burst(n);
    assert Accepted(limit, cap, burst) == burst;
    Refuted(limit, cap, burst, 0);
  }

  /** The limiter limits, on all runs with non-decreasing block times, exactly when the
      history it keeps is at least as long as the limit it enforces. */
  lemma LimitHoldsExactly(limit: nat, cap: nat)
    requires limit >= 1
    ensures LimitHolds(limit, cap) <==> limit <= cap
  {
    if limit <= cap {
      LongHistoryLimits(limit, cap);
    } else {
      ShortHistoryFails(limit, cap, limit + 1);
    }
  }
}
