/**
 * `scroll_results_feed`: scroll the results feed, read its height after each
 * scroll, and stop once two consecutive readings in a row equal the reading
 * before them, or when the attempts run out. The height readings the page
 * reports are an input sequence; scrolling and the pauses are not modelled.
 */
module Scroll {

  /** `max_attempts` in main_final.py. */
  const FinalMaxAttempts: nat := 25
  /** `max_attempts` in main.py. */
  const FirstMaxAttempts: nat := 60

  /** The height compared against reading `j`: the reading before it, or 0 before the first. */
  function Previous(h: seq<int>, j: nat): int
    requires j <= |h|
  {
    if j == 0 then 0 else h[j - 1]
  }

  /** Reading `j` equals the one compared against it. */
  predicate Stall(h: seq<int>, j: nat)
    requires j < |h|
  {
    h[j] == Previous(h, j)
  }

  /** Reading `j` is the second stall in a row: the loop stops right after it. */
  predicate StopsAt(h: seq<int>, j: nat)
    requires j < |h|
  {
    j >= 1 && Stall(h, j - 1) && Stall(h, j)
  }

  /**
   * The number of polls the loop makes, looking for a stop from poll `j` on:
   * one more than the first reading that stops it, or `max` if none does.
   */
  function PollsFrom(h: seq<int>, j: nat, max: nat): (n: nat)
    requires j <= max <= |h|
    ensures j <= n <= max
    ensures n < max ==> n >= 1 && StopsAt(h, n - 1)
    ensures forall k :: j <= k < n - 1 ==> !StopsAt(h, k)
    decreases max - j
  {
    if j == max then max
    else if StopsAt(h, j) then j + 1
    else PollsFrom(h, j + 1, max)
  }

  /** The number of polls the loop makes over the readings `h` with `max` attempts. */
  function Polls(h: seq<int>, max: nat): (n: nat)
    requires max <= |h|
    ensures n <= max
  {
    PollsFrom(h, 0, max)
  }

  /**
   * The loop as written: returns how many height readings it took. Without a
   * feed element it takes none. `heights` supplies at least `maxAttempts`
   * readings; only the first `polls` of them are read.
   */
  method ScrollResultsFeed(feedPresent: bool, heights: seq<int>, maxAttempts: nat) returns (polls: nat)
    requires maxAttempts <= |heights|
    ensures polls == (if feedPresent then Polls(heights, maxAttempts) else 0)
  {
    if !feedPresent {
      return 0;
    }
    var previousHeight := 0;
    var sameHeightCount := 0;
    polls := 0;
    while polls < maxAttempts
      invariant polls <= maxAttempts
      invariant previousHeight == Previous(heights, polls)
      invariant sameHeightCount == (if polls >= 1 && Stall(heights, polls - 1) then 1 else 0)
      invariant PollsFrom(heights, polls, maxAttempts) == Polls(heights, maxAttempts)
    {
      var currentHeight := heights[polls];
      polls := polls + 1;
      if currentHeight == previousHeight {
        sameHeightCount := sameHeightCount + 1;
      } else {
        sameHeightCount := 0;
      }
      if sameHeightCount >= 2 {
        return;
      }
      previousHeight := currentHeight;
    }
  }

  /**
   * The loop stops early exactly at a second consecutive stall: it makes fewer
   * than `max` polls only if the last reading was the second stall in a row,
   * and no earlier reading was.
   */
  lemma StopsOnlyAtDoubleStall(h: seq<int>, max: nat)
    requires max <= |h|
    ensures Polls(h, max) < max ==> StopsAt(h, Polls(h, max) - 1)
    ensures forall k :: 0 <= k < Polls(h, max) - 1 ==> !StopsAt(h, k)
    ensures (exists k :: 0 <= k < max && StopsAt(h, k)) ==> 2 <= Polls(h, max) && StopsAt(h, Polls(h, max) - 1)
  {
    if exists k :: 0 <= k < max && StopsAt(h, k) {
      var k :| 0 <= k < max && StopsAt(h, k);
      assert Polls(h, max) - 1 <= k;
    }
  }

  /** A feed whose height changes after every scroll is polled exactly `max` times. */
  lemma GrowingFeedUsesAllAttempts(h: seq<int>, max: nat)
    requires max <= |h|
    requires forall j :: 0 <= j < max ==> !Stall(h, j)
    ensures Polls(h, max) == max
  {
  }

  /** Heights 100, 200, 200, 200: the third and fourth readings stall, so the loop stops after four polls. */
  lemma StopsAfterFourPolls(rest: seq<int>)
    requires |rest| >= FinalMaxAttempts - 4
    ensures Polls([100, 200, 200, 200] + rest, FinalMaxAttempts) == 4
  {
    var h := [100, 200, 200, 200] + rest;
    assert !StopsAt(h, 0) && !StopsAt(h, 1) && !StopsAt(h, 2) && StopsAt(h, 3);
  }

  /** A first reading of 0 already counts as a stall: an empty feed stops after two polls. */
  lemma EmptyFeedStopsAfterTwo(rest: seq<int>, max: nat)
    requires 2 <= max <= |rest| + 2
    ensures Polls([0, 0] + rest, max) == 2
  {
    var h := [0, 0] + rest;
    assert !StopsAt(h, 0) && StopsAt(h, 1);
  }

  /**
   * The two budgets: main_final.py polls at most 25 times and main.py at most
   * 60 times, and a feed whose height changes at every reading uses the whole
   * budget in each.
   */
  lemma AttemptBudgets(h: seq<int>)
    requires FirstMaxAttempts <= |h|
    ensures Polls(h, FinalMaxAttempts) <= 25 && Polls(h, FirstMaxAttempts) <= 60
    ensures (forall j :: 0 <= j < FirstMaxAttempts ==> h[j] != Previous(h, j)) ==>
      Polls(h, FinalMaxAttempts) == 25 && Polls(h, FirstMaxAttempts) == 60
  {
    if forall j :: 0 <= j < FirstMaxAttempts ==> h[j] != Previous(h, j) {
      GrowingFeedUsesAllAttempts(h, FinalMaxAttempts);
      GrowingFeedUsesAllAttempts(h, FirstMaxAttempts);
    }
  }
}
