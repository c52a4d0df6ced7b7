/** The sliding window on its full history: which attempts are accepted, and what that guarantees. */
module SlidingWindow {

  /** The times still inside the window at `now`. */
  function Recent(times: seq<int>, window: int, now: int): (r: seq<int>)
    ensures |r| <= |times|
  {
    if times == [] then []
    else (if now - times[0] < window then [times[0]] else []) + Recent(times[1..], window, now)
  }

  /** The accepted attempts of one key, over all its attempts so far; a refused attempt leaves no trace. */
  function Accepted(attempts: seq<int>, limit: nat, window: int): (r: seq<int>)
    ensures |r| <= |attempts|
  {
    if attempts == [] then []
    else
      var before, now := Accepted(attempts[..|attempts| - 1], limit, window), attempts[|attempts| - 1];
      if |Recent(before, window, now)| < limit then before + [now] else before
  }

  ghost predicate Ascending(times: seq<int>) {
    forall i, j :: 0 <= i < j < |times| ==> times[i] <= times[j]
  }

  ghost predicate UpTo(times: seq<int>, now: int) {
    forall i :: 0 <= i < |times| ==> times[i] <= now
  }

  /** Any limit + 1 consecutive accepted attempts span at least the window. */
  ghost predicate Spaced(times: seq<int>, limit: nat, window: int) {
    forall i :: 0 <= i && i + limit < |times| ==> times[i + limit] - times[i] >= window
  }

  lemma Regroup(a: seq<int>, b: seq<int>, c: seq<int>)
    ensures a + b + c == a + (b + c)
  {
  }

  lemma {:induction false} RecentAppend(xs: seq<int>, ys: seq<int>, window: int, now: int)
    ensures Recent(xs + ys, window, now) == Recent(xs, window, now) + Recent(ys, window, now)
  {
    if xs == [] {
      assert xs + ys == ys;
    } else {
      var head := if now - xs[0] < window then [xs[0]] else [];
      RecentAppend(xs[1..], ys, window, now);
      assert (xs + ys)[1..] == xs[1..] + ys && (xs + ys)[0] == xs[0];
      Regroup(head, Recent(xs[1..], window, now), Recent(ys, window, now));
    }
  }

  /** What expired earlier stays expired: pruning at `now` changes no later window. */
  lemma {:induction false} PruningIsInvisible(times: seq<int>, window: int, now: int, later: int)
    requires now <= later
    ensures Recent(Recent(times, window, now), window, later) == Recent(times, window, later)
  {
    if times != [] {
      PruningIsInvisible(times[1..], window, now, later);
      var head := if now - times[0] < window then [times[0]] else [];
      RecentAppend(head, Recent(times[1..], window, now), window, later);
    }
  }

  lemma {:induction false} AllExpired(times: seq<int>, window: int, now: int)
    requires forall i :: 0 <= i < |times| ==> now - times[i] >= window
    ensures Recent(times, window, now) == []
  {
    if times != [] { AllExpired(times[1..], window, now); }
  }

  /** On an ascending history the window is a suffix of it. */
  lemma {:induction false} RecentIsSuffix(times: seq<int>, window: int, now: int) returns (k: nat)
    requires Ascending(times)
    ensures k <= |times| && Recent(times, window, now) == times[k..]
    ensures forall i :: 0 <= i < |times| ==> (now - times[i] < window <==> k <= i)
  {
    if times == [] {
      k := 0;
    } else {
      var rest := times[1..];
      var j := RecentIsSuffix(rest, window, now);
      assert forall i :: 1 <= i < |times| ==> times[i] == rest[i - 1];
      assert times == [times[0]] + rest;
      assert |rest| > 0 ==> times[0] <= rest[0];
      var head := if now - times[0] < window then [times[0]] else [];
      assert Recent(times, window, now) == head + rest[j..];
      hide Recent, Ascending;
      if now - times[0] < window {
        k := 0;
        assert j == 0 && rest[0..] == rest && times[0..] == times;
      } else {
        k := j + 1;
        assert rest[j..] == times[j + 1..] && head + rest[j..] == rest[j..];
      }
    }
  }

  lemma {:induction false} AcceptedAscends(attempts: seq<int>, limit: nat, window: int, now: int)
    requires Ascending(attempts) && UpTo(attempts, now)
    ensures Ascending(Accepted(attempts, limit, window)) && UpTo(Accepted(attempts, limit, window), now)
  {
    if attempts != [] {
      AcceptedAscends(attempts[..|attempts| - 1], limit, window, attempts[|attempts| - 1]);
    }
  }

  lemma {:induction false} AcceptedIsSpaced(attempts: seq<int>, limit: nat, window: int)
    requires Ascending(attempts) && limit >= 1
    ensures Spaced(Accepted(attempts, limit, window), limit, window)
  {
    if attempts != [] {
      var rest, now := attempts[..|attempts| - 1], attempts[|attempts| - 1];
      var before := Accepted(rest, limit, window);
      AcceptedIsSpaced(rest, limit, window);
      AcceptedAscends(rest, limit, window, now);
      var k := RecentIsSuffix(before, window, now);
    }
  }

  /** The times in the half-open window that ends at `t`. */
  function Within(times: seq<int>, window: int, t: int): (r: seq<int>)
    ensures |r| <= |times|
  {
    if times == [] then []
    else (if t - window < times[0] <= t then [times[0]] else []) + Within(times[1..], window, t)
  }

  lemma {:induction false} WithinIsSlice(times: seq<int>, window: int, t: int) returns (k: nat, n: nat)
    requires Ascending(times)
    ensures k <= n <= |times| && Within(times, window, t) == times[k..n]
    ensures forall i :: 0 <= i < |times| ==> (t - window < times[i] <= t <==> k <= i < n)
  {
    if times == [] {
      k, n := 0, 0;
    } else {
      assert forall i :: 1 <= i < |times| ==> times[i] == times[1..][i - 1];
      var a, b := WithinIsSlice(times[1..], window, t);
      if t - window < times[0] <= t {
        k, n := 0, if a < b then b + 1 else 1;
        if a < b { assert times[a + 1] == times[1..][a] && a == 0; }
        assert times[0..n] == [times[0]] + times[1..][a..b];
      } else {
        k, n := a + 1, b + 1;
        assert times[1..][a..b] == times[k..n];
      }
    }
  }

  lemma SliceIsShort(times: seq<int>, limit: nat, window: int, t: int, k: nat, n: nat)
    requires k < n <= |times| && Spaced(times, limit, window) && t - window < times[k] && times[n - 1] <= t
    requires Ascending(times)
    ensures n - k <= limit
  {
    var m := if k + limit < n then k + limit else n - 1;
    assert times[m] <= times[n - 1];
  }

  /** No half-open window, wherever it ends, ever holds more than `limit` accepted attempts. */
  lemma NoWindowHoldsMore(attempts: seq<int>, limit: nat, window: int, t: int)
    requires Ascending(attempts) && limit >= 1
    ensures |Within(Accepted(attempts, limit, window), window, t)| <= limit
  {
    var times := Accepted(attempts, limit, window);
    if attempts != [] { AcceptedAscends(attempts, limit, window, attempts[|attempts| - 1]); }
    AcceptedIsSpaced(attempts, limit, window);
    var k, n := WithinIsSlice(times, window, t);
    if k < n { SliceIsShort(times, limit, window, t, k, n); }
  }

  /** At the present, the pruned list counts exactly the half-open window that ends now. */
  lemma {:induction false} RecentIsWithin(times: seq<int>, window: int, now: int)
    requires UpTo(times, now)
    ensures Recent(times, window, now) == Within(times, window, now)
  {
    if times != [] { RecentIsWithin(times[1..], window, now); }
  }

  /** An attempt is refused exactly when `limit` accepted ones fall in the window that ends with it. */
  lemma RefusedExactlyWhenFull(attempts: seq<int>, limit: nat, window: int, now: int)
    requires Ascending(attempts + [now]) && limit >= 1
    ensures Accepted(attempts + [now], limit, window) == Accepted(attempts, limit, window) <==>
              |Within(Accepted(attempts, limit, window), window, now)| == limit
  {
    var times := Accepted(attempts, limit, window);
    assert (attempts + [now])[..|attempts|] == attempts;
    forall i, j | 0 <= i < j < |attempts| ensures attempts[i] <= attempts[j] {
      assert (attempts + [now])[i] <= (attempts + [now])[j];
    }
    forall i | 0 <= i < |attempts| ensures attempts[i] <= now { assert (attempts + [now])[i] <= (attempts + [now])[|attempts|]; }
    AcceptedAscends(attempts, limit, window, now);
    RecentIsWithin(times, window, now);
    NoWindowHoldsMore(attempts, limit, window, now);
    assert times + [now] != times;
  }

  /** Once refused, waiting until the oldest counted attempt expires is enough, and nothing less is. */
  lemma LeastWait(attempts: seq<int>, limit: nat, window: int, now: int, wait: nat)
    requires Ascending(attempts) && UpTo(attempts, now) && limit >= 1
    requires |Recent(Accepted(attempts, limit, window), window, now)| >= limit
    ensures var times := Accepted(attempts, limit, window);
            && Recent(times, window, now)[0] <= now && window - (now - Recent(times, window, now)[0]) >= 1
            && (|Recent(times, window, now + wait)| < limit <==> wait >= window - (now - Recent(times, window, now)[0]))
  {
    var times := Accepted(attempts, limit, window);
    AcceptedAscends(attempts, limit, window, now);
    RecentIsWithin(times, window, now);
    NoWindowHoldsMore(attempts, limit, window, now);
    var k := RecentIsSuffix(times, window, now);
    var l := RecentIsSuffix(times, window, now + wait);
    assert times[k..][0] == times[k];
  }
}
