/** A list of attempt times looked at through a horizon: what pruning keeps, and how many
    attempts any interval of that length can hold. */
module SlidingWindow {

  /** now.saturating_sub(t) < horizon */
  predicate Fresh(t: nat, now: nat, horizon: nat) {
    (if now <= t then 0 else now - t) < horizon
  }

  function Live(window: seq<nat>, now: nat, horizon: nat): (r: seq<nat>)
    ensures forall t :: t in r <==> t in window && Fresh(t, now, horizon)
    ensures |r| <= |window|
  {
    if window == [] then []
    else
      var n := |window| - 1;
      assert window == window[..n] + [window[n]];
      Live(window[..n], now, horizon) + if Fresh(window[n], now, horizon) then [window[n]] else []
  }

  lemma LiveAppend(w: seq<nat>, t: nat, now: nat, horizon: nat)
    ensures Live(w + [t], now, horizon) == Live(w, now, horizon) + if Fresh(t, now, horizon) then [t] else []
  {
    assert (w + [t])[..|w|] == w;
  }

  /** Pruning early does not change what a later look sees. */
  lemma {:induction false} LiveLater(w: seq<nat>, now: nat, later: nat, horizon: nat)
    requires now <= later
    ensures Live(Live(w, now, horizon), later, horizon) == Live(w, later, horizon)
  {
    if w != [] {
      var n := |w| - 1;
      LiveLater(w[..n], now, later, horizon);
      assert w == w[..n] + [w[n]];
      LiveAppend(w[..n], w[n], now, horizon);
      if Fresh(w[n], now, horizon) {
        LiveAppend(Live(w[..n], now, horizon), w[n], later, horizon);
      } else {
        assert Live(w[..n], now, horizon) + [] == Live(w[..n], now, horizon);
      }
    }
  }

  /** Times within the last `horizon` seconds of now, or ahead of it. */
  function Recent(w: seq<nat>, now: nat, horizon: nat): nat {
    if w == [] then 0
    else Recent(w[..|w| - 1], now, horizon) + if now < w[|w| - 1] + horizon then 1 else 0
  }

  lemma {:induction false} LiveAreRecent(w: seq<nat>, now: nat, horizon: nat)
    requires horizon > 0
    ensures |Live(w, now, horizon)| == Recent(w, now, horizon)
  {
    if w != [] {
      LiveAreRecent(w[..|w| - 1], now, horizon);
    }
  }

  /** Vec::retain over one window. */
  method PruneWindow(window: seq<nat>, now: nat, horizon: nat) returns (live: seq<nat>)
    ensures live == Live(window, now, horizon)
  {
    live := [];
    for i := 0 to |window|
      invariant live == Live(window[..i], now, horizon)
    {
      assert window[..i + 1][..i] == window[..i];
      if Fresh(window[i], now, horizon) {
        live := live + [window[i]];
      }
    }
    assert window[..|window|] == window;
  }

  /** Attempts with a <= t < a + horizon. */
  function CountIn(w: seq<nat>, a: nat, horizon: nat): nat {
    if w == [] then 0
    else CountIn(w[..|w| - 1], a, horizon) + if a <= w[|w| - 1] < a + horizon then 1 else 0
  }

  lemma CountInAppend(w: seq<nat>, t: nat, a: nat, horizon: nat)
    ensures CountIn(w + [t], a, horizon) == CountIn(w, a, horizon) + if a <= t < a + horizon then 1 else 0
  {
    assert (w + [t])[..|w|] == w;
  }

  lemma {:induction false} CountWithinLive(w: seq<nat>, a: nat, now: nat, horizon: nat)
    requires a <= now < a + horizon
    ensures CountIn(w, a, horizon) <= |Live(w, now, horizon)|
  {
    if w != [] {
      CountWithinLive(w[..|w| - 1], a, now, horizon);
    }
  }

  ghost predicate WithinLimit(w: seq<nat>, limit: nat, horizon: nat) {
    forall a: nat :: CountIn(w, a, horizon) <= limit
  }

  /** Recording an attempt only when fewer than `limit` are live keeps every interval at most
      at the limit. */
  lemma RecordKeepsLimit(w: seq<nat>, now: nat, limit: nat, horizon: nat)
    requires WithinLimit(w, limit, horizon) && |Live(w, now, horizon)| < limit
    ensures WithinLimit(w + [now], limit, horizon)
  {
    forall a: nat ensures CountIn(w + [now], a, horizon) <= limit {
      CountInAppend(w, now, a, horizon);
      if a <= now < a + horizon {
        CountWithinLive(w, a, now, horizon);
      }
    }
  }
}
