/** Limiting retries (`Resilience`): a retry is allowed while the attempts of a time window are
    not used up. */
module Retries {
  /** How many of the times lie between `lo` and `hi`, both included. */
  function CountIn(times: seq<int>, lo: int, hi: int): nat
  {
    if times == [] then 0
    else CountIn(times[..|times| - 1], lo, hi) + if lo <= times[|times| - 1] <= hi then 1 else 0
  }

  /** `removeIf`: what is left of the list when times before `lo` are removed. */
  function From(times: seq<int>, lo: int): (r: seq<int>)
    ensures |r| <= |times|
  {
    if times == [] then []
    else From(times[..|times| - 1], lo) + if times[|times| - 1] < lo then [] else [times[|times| - 1]]
  }

  predicate UpTo(times: seq<int>, now: int)
  {
    forall i :: 0 <= i < |times| ==> times[i] <= now
  }

  /** Removing in two steps is removing in one. */
  lemma {:induction false} FromTwice(times: seq<int>, a: int, b: int)
    requires a <= b
    ensures From(From(times, a), b) == From(times, b)
  {
    if times != [] {
      var front, last := times[..|times| - 1], times[|times| - 1];
      FromTwice(front, a, b);
      if a <= last {
        assert (From(front, a) + [last])[..|From(front, a)|] == From(front, a);
      } else {
        assert From(front, a) + [] == From(front, a) && From(front, b) + [] == From(front, b);
      }
    }
  }

  lemma {:induction false} FromCounts(times: seq<int>, lo: int, hi: int)
    requires UpTo(times, hi)
    ensures |From(times, lo)| == CountIn(times, lo, hi)
  {
    if times != [] {
      var front := times[..|times| - 1];
      FromCounts(front, lo, hi);
    }
  }

  /** Later, fewer times are recent. */
  lemma {:induction false} CountFewer(times: seq<int>, lo: int, hi: int, lo': int, hi': int)
    requires UpTo(times, hi) && lo <= lo' && hi <= hi'
    ensures CountIn(times, lo', hi') <= CountIn(times, lo, hi)
  {
    if times != [] {
      CountFewer(times[..|times| - 1], lo, hi, lo', hi');
    }
  }

  lemma {:induction false} CountAtMost(times: seq<int>, lo: int, hi: int)
    ensures CountIn(times, lo, hi) <= |times|
  {
    if times != [] {
      CountAtMost(times[..|times| - 1], lo, hi);
    }
  }

  lemma FromSnoc(times: seq<int>, lo: int, now: int)
    requires UpTo(times, now) && lo <= now
    ensures From(times + [now], lo) == From(times, lo) + [now] && UpTo(times + [now], now)
  {
    assert (times + [now])[..|times|] == times;
  }

  /** How many attempts were made without a check that allowed them: the first ones of calls. */
  function Unchecked(checked: seq<bool>): nat
  {
    if checked == [] then 0
    else Unchecked(checked[..|checked| - 1]) + if checked[|checked| - 1] then 0 else 1
  }

  lemma UncheckedSnoc(checked: seq<bool>, b: bool)
    ensures Unchecked(checked + [b]) == Unchecked(checked) + if b then 0 else 1
  {
    assert (checked + [b])[..|checked|] == checked;
  }

  /** The window that ends with a retried attempt holds at most as many attempts as are
      configured. */
  predicate Bounded(all: seq<int>, checked: seq<bool>, window: nat, attempts: int)
  {
    && |checked| == |all|
    && forall i :: 0 <= i < |all| && checked[i] ==> CountIn(all[..i + 1], all[i] - window, all[i]) <= attempts
  }

  lemma BoundedSnoc(all: seq<int>, checked: seq<bool>, window: nat, attempts: int, t: int, b: bool)
    requires Bounded(all, checked, window, attempts)
    requires b ==> CountIn(all + [t], t - window, t) <= attempts
    ensures Bounded(all + [t], checked + [b], window, attempts)
  {
    hide CountIn;
    var more := all + [t];
    forall i | 0 <= i < |more| && (checked + [b])[i]
      ensures CountIn(more[..i + 1], more[i] - window, more[i]) <= attempts
    {
      if i < |all| {
        assert more[..i + 1] == all[..i + 1];
      } else {
        assert more[..i + 1] == more;
      }
    }
  }

  class Resilience {
    const enabled: bool
    const attempts: int
    const window: nat
    var timestamps: seq<int>
    var clock: int
    ghost var all: seq<int>         // every attempt that was ever registered
    ghost var checked: seq<bool>    // and whether a check had allowed it as a retry
    ghost var purged: int           // timestamps before this one were removed
    ghost var allowed: bool         // whether the last thing to happen was a check that allowed a retry

    /** Nothing was removed that a later check counts. */
    ghost predicate Valid()
      reads this
    {
      && timestamps == From(all, purged) && purged <= clock - window && UpTo(all, clock)
      && (allowed ==> CountIn(all, clock - window, clock) < attempts)
      && Bounded(all, checked, window, attempts)
    }

    constructor (enabled: bool, attempts: int, window: nat, now: int)
      ensures Valid() && all == [] && !allowed
      ensures this.enabled == enabled && this.attempts == attempts && this.window == window
    {
      this.enabled, this.attempts, this.window := enabled, attempts, window;
      timestamps, clock, all, checked, purged, allowed := [], now, [], [], now - window, false;
    }

    /** The clock does not go back. */
    method Now() returns (now: int)
      requires Valid()
      modifies this`clock
      ensures Valid() && old(clock) <= clock == now
    {
      now :| now >= clock;
      CountFewer(all, clock - window, clock, now - window, now);
      clock := now;
    }

    /** A retried attempt: the window that ends with it holds at most as many attempts as are
        configured. */
    method RegisterAttempt()
      requires Valid()
      modifies this
      ensures Valid() && old(clock) <= clock && all == old(all) + [clock] && !allowed
      ensures checked == old(checked) + [old(allowed)]
      ensures old(allowed) ==> CountIn(all, clock - window, clock) <= attempts
    {
      hide From, CountIn, UpTo, Bounded;
      var now := Now();
      FromSnoc(all, purged, now);
      timestamps := timestamps + [now];
      if allowed {
        RetriedBound(all, window, attempts, now, now);
      }
      BoundedSnoc(all, checked, window, attempts, now, allowed);
      all, checked, allowed := all + [now], checked + [allowed], false;
    }

    /** It counts the attempts that lie in the window up to now, although the list has been
        purged before. */
    method NumberOfAttemptsInWindow() returns (n: nat)
      requires Valid()
      modifies this
      ensures Valid() && old(clock) <= clock && all == old(all) && n == CountIn(all, clock - window, clock)
      ensures allowed == old(allowed) && checked == old(checked)
    {
      hide From, CountIn, UpTo, Bounded;
      var now := Now();
      FromTwice(all, purged, now - window);
      FromCounts(all, now - window, now);
      purged := now - window;
      timestamps := RemoveBefore(timestamps, now - window);
      n := |timestamps|;
    }

    static method RemoveBefore(times: seq<int>, lo: int) returns (kept: seq<int>)
      ensures kept == From(times, lo)
    {
      kept := [];
      var i := 0;
      while i < |times|
        invariant i <= |times| && kept == From(times[..i], lo)
      {
        assert times[..i + 1][..i] == times[..i];
        if times[i] >= lo {
          kept := kept + [times[i]];
        }
        i := i + 1;
      }
      assert times[..i] == times;
    }

    method ShouldRetry(retryable: bool) returns (retry: bool)
      requires Valid()
      modifies this
      ensures Valid() && old(clock) <= clock && all == old(all) && checked == old(checked)
      ensures retry <==> enabled && retryable && CountIn(all, clock - window, clock) < attempts
      ensures allowed == retry
    {
      retry := enabled && retryable;
      if retry {
        var n := NumberOfAttemptsInWindow();
        retry := n < attempts;
      }
      allowed := retry;
    }
  }

  /** If the next attempt after a check that allowed it is registered at `t`, then the window
      that ends at `t` holds at most as many attempts as are configured. */
  lemma RetriedBound(all: seq<int>, window: nat, attempts: int, checked: int, t: int)
    requires UpTo(all, checked) && CountIn(all, checked - window, checked) < attempts && checked <= t
    ensures CountIn(all + [t], t - window, t) <= attempts
  {
    CountFewer(all, checked - window, checked, t - window, t);
    assert (all + [t])[..|all|] == all;
  }
}
