/** The sliding-window request budget inside `C9LocalControlGuard.authorize`.  Times are integer microseconds. */
module RequestBudget {

  const WINDOW := 60_000_000

  /** The deque after its expired front is popped: the longest suffix that starts after the cutoff. */
  function Trim(events: seq<int>, cutoff: int): (r: seq<int>)
    ensures |r| <= |events|
  {
    if events != [] && events[0] <= cutoff then Trim(events[1..], cutoff) else events
  }

  predicate Admits(events: seq<int>, limit: nat, now: int) {
    |Trim(events, now - WINDOW)| < limit
  }

  function After(events: seq<int>, limit: nat, now: int): seq<int> {
    var kept := Trim(events, now - WINDOW);
    if |kept| < limit then kept + [now] else kept
  }

  class Budget {
    const limit: nat
    var events: seq<int>

    constructor (limit: nat)
      requires 1 <= limit <= 600
      ensures this.limit == limit && events == []
    {
      this.limit := limit;
      events := [];
    }

    /** The critical section of `authorize`. */
    method Authorize(now: int) returns (admitted: bool)
      modifies this
      ensures admitted == Admits(old(events), limit, now)
      ensures events == After(old(events), limit, now)
    {
      var cutoff := now - WINDOW;
      while events != [] && events[0] <= cutoff
        invariant Trim(events, cutoff) == Trim(old(events), cutoff)
        decreases |events|
      {
        events := events[1..];
      }
      if |events| >= limit {
        return false;
      }
      events := events + [now];
      admitted := true;
    }
  }

  // ----- Runs: the clock readings in the order in which they reach the lock -----

  function Deque(limit: nat, run: seq<int>): seq<int> {
    if run == [] then [] else After(Deque(limit, run[..|run| - 1]), limit, run[|run| - 1])
  }

  /** The times of the admitted requests, in order. */
  function Admitted(limit: nat, run: seq<int>): seq<int> {
    if run == [] then []
    else
      var init, now := run[..|run| - 1], run[|run| - 1];
      Admitted(limit, init) + if Admits(Deque(limit, init), limit, now) then [now] else []
  }

  predicate Sorted(times: seq<int>) {
    forall i, j :: 0 <= i < j < |times| ==> times[i] <= times[j]
  }

  /** For any clock, the deque never holds more than the limit. */
  lemma {:induction false} DequeIsBounded(limit: nat, run: seq<int>)
    ensures |Deque(limit, run)| <= limit
  {
    if run != [] {
      DequeIsBounded(limit, run[..|run| - 1]);
    }
  }

  lemma {:induction false} TrimIsSuffix(events: seq<int>, cutoff: int) returns (k: nat)
    ensures k <= |events| && Trim(events, cutoff) == events[k..]
    ensures forall i :: 0 <= i < k ==> events[i] <= cutoff
    ensures k < |events| ==> cutoff < events[k]
  {
    if events != [] && events[0] <= cutoff {
      k := TrimIsSuffix(events[1..], cutoff);
      k := k + 1;
    } else {
      k := 0;
    }
  }

  /** The first index of a sorted sequence after the cutoff; everything from it on is after the cutoff. */
  lemma SuffixAfterCutoff(admitted: seq<int>, from: nat, cutoff: int) returns (k: nat)
    requires Sorted(admitted) && from <= |admitted|
    ensures from <= k <= |admitted| && Trim(admitted[from..], cutoff) == admitted[k..]
    ensures forall i :: from <= i < k ==> admitted[i] <= cutoff
    ensures forall i :: k <= i < |admitted| ==> cutoff < admitted[i]
  {
    var rest := admitted[from..];
    k := TrimIsSuffix(rest, cutoff);
    assert rest[k..] == admitted[from + k..];
    forall i | from <= i < from + k ensures admitted[i] <= cutoff {
      assert rest[i - from] <= cutoff;
    }
    if k < |rest| {
      assert admitted[from + k] == rest[k];
    }
    k := from + k;
  }

  /** `deque` is exactly the part of `admitted` after the cutoff of a reading `now` that no admission exceeds. */
  ghost predicate RecentPast(admitted: seq<int>, deque: seq<int>, now: int, k: nat) {
    && Sorted(admitted)
    && k <= |admitted| && deque == admitted[k..]
    && (forall i :: 0 <= i < |admitted| ==> admitted[i] <= now)
    && (forall i :: 0 <= i < k ==> admitted[i] <= now - WINDOW)
    && (forall i :: k <= i < |admitted| ==> now - WINDOW < admitted[i])
  }

  lemma RecentPastAdvances(limit: nat, past: seq<int>, deque: seq<int>, before: int, from: nat, now: int) returns (k: nat)
    requires RecentPast(past, deque, before, from) && before <= now
    ensures var past' := past + if Admits(deque, limit, now) then [now] else [];
            RecentPast(past', After(deque, limit, now), now, k)
    ensures |past| - k < limit <==> Admits(deque, limit, now)
    ensures from <= k <= |past|
  {
    k := SuffixAfterCutoff(past, from, now - WINDOW);
    assert deque == past[from..];
    OlderIsOlder(past, deque, before, from, now);
    hide Trim, RecentPast;
    if Admits(deque, limit, now) {
      RecentPastGrows(past, now, k);
    } else {
      assert past + [] == past;
      RecentPastTrims(past, now, k);
    }
  }

  lemma OlderIsOlder(past: seq<int>, deque: seq<int>, before: int, from: nat, now: int)
    requires RecentPast(past, deque, before, from) && before <= now
    ensures Sorted(past) && from <= |past|
    ensures (forall i :: 0 <= i < |past| ==> past[i] <= now) && (forall i :: 0 <= i < from ==> past[i] <= now - WINDOW)
  {
    hide Sorted;
  }

  lemma RecentPastTrims(past: seq<int>, now: int, k: nat)
    requires Sorted(past) && k <= |past| && (forall i :: 0 <= i < |past| ==> past[i] <= now)
    requires (forall i :: 0 <= i < k ==> past[i] <= now - WINDOW) && (forall i :: k <= i < |past| ==> now - WINDOW < past[i])
    ensures RecentPast(past, past[k..], now, k)
  {
    hide Sorted;
  }

  lemma RecentPastGrows(past: seq<int>, now: int, k: nat)
    requires Sorted(past) && k <= |past| && (forall i :: 0 <= i < |past| ==> past[i] <= now)
    requires (forall i :: 0 <= i < k ==> past[i] <= now - WINDOW) && (forall i :: k <= i < |past| ==> now - WINDOW < past[i])
    ensures RecentPast(past + [now], past[k..] + [now], now, k)
  {
    var all := past + [now];
    assert all[k..] == past[k..] + [now];
    assert forall i :: 0 <= i < |past| ==> all[i] == past[i];
    assert Sorted(all);
    hide Sorted;
  }

  function LastOr(run: seq<int>, fallback: int): int {
    if run == [] then fallback else run[|run| - 1]
  }

  /**
   With a non-decreasing clock the admitted times are sorted and the deque is
   exactly the admitted times after the last cutoff.
   */
  lemma {:induction false} DequeIsRecentPast(limit: nat, run: seq<int>, start: int) returns (k: nat)
    requires Sorted(run)
    ensures RecentPast(Admitted(limit, run), Deque(limit, run), LastOr(run, start), k)
    decreases |run|
  {
    if run == [] {
      k := 0;
    } else {
      var n := |run| - 1;
      var init, now := run[..n], run[n];
      var before := LastOr(init, now);
      k := DequeIsRecentPast(limit, init, now);
      k := RecentPastAdvances(limit, Admitted(limit, init), Deque(limit, init), before, k, now);
    }
  }

  /** Any `limit` consecutive admissions after the i-th take it out of the window. */
  lemma {:induction false} AdmissionsAreSpread(limit: nat, run: seq<int>, i: nat)
    requires Sorted(run) && i + limit < |Admitted(limit, run)|
    ensures Admitted(limit, run)[i] + WINDOW <= Admitted(limit, run)[i + limit]
    decreases |run|
  {
    var n := |run| - 1;
    var init, now := run[..n], run[n];
    var past := Admitted(limit, init);
    if i + limit < |past| {
      AdmissionsAreSpread(limit, init, i);
    } else {
      var k := DequeIsRecentPast(limit, init, now);
      k := RecentPastAdvances(limit, past, Deque(limit, init), LastOr(init, now), k, now);
      assert Admitted(limit, run)[i] <= now - WINDOW;
    }
  }

  /** The admissions that fall into the window `[start, start + 60s)`. */
  ghost function InWindow(times: seq<int>, start: int): set<nat> {
    set i: nat | i < |times| && start <= times[i] < start + WINDOW
  }

  lemma {:induction false} SizeOfRange(s: set<nat>, lo: nat, size: nat)
    requires forall i :: i in s ==> lo <= i < lo + size
    ensures |s| <= size
    decreases size
  {
    if size == 0 {
      assert s == {};
    } else {
      SizeOfRange(s - {lo + size - 1}, lo, size - 1);
      assert s <= (s - {lo + size - 1}) + {lo + size - 1};
    }
  }

  /**
   When clock readings reach the lock in non-decreasing order, every half-open
   60-second window of the whole run holds at most `limit` admitted requests.
   */
  lemma EveryWindowIsBounded(limit: nat, run: seq<int>, start: int)
    requires Sorted(run)
    ensures |InWindow(Admitted(limit, run), start)| <= limit
  {
    var times := Admitted(limit, run);
    var _ := DequeIsRecentPast(limit, run, start);
    var lo := 0;
    while lo < |times| && times[lo] < start
      invariant 0 <= lo <= |times|
      invariant forall i :: 0 <= i < lo ==> times[i] < start
    {
      lo := lo + 1;
    }
    if lo + limit < |times| {
      AdmissionsAreSpread(limit, run, lo);
    }
    assert forall i :: lo + limit <= i < |times| ==> times[lo + limit] <= times[i];
    assert forall i :: i in InWindow(times, start) ==> lo <= i < lo + limit;
    SizeOfRange(InWindow(times, start), lo, limit);
  }
}
