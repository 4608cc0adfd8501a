/**
 * Winner selection for the photo lottery: a Fisher-Yates shuffle, the pick of the
 * first `count` shuffled faces, and the interval-driven animation that shows 20
 * decorative draws before it reports the authoritative winners.
 *
 * `Math.random()` is not modelled as a global source: every shuffle receives the
 * sequence of values the random source returned, one per loop iteration, each in
 * [0, 1). The timer is a loop whose iterations are the interval's firings.
 */
module Lottery {

  function Min(a: int, b: int): int { if a <= b then a else b }

  /** A value `Math.random()` can return. */
  predicate IsRandom(r: real) { 0.0 <= r < 1.0 }

  /**
   * Enough random values for shuffling `n` elements: the loop runs for
   * i = n-1 down to 1 and consumes one value per iteration.
   */
  predicate ValidDraws(draws: seq<real>, n: nat) {
    |draws| >= n - 1 && forall k :: 0 <= k < |draws| ==> IsRandom(draws[k])
  }

  /** The index `Math.floor(r * (i + 1))` drawn in the iteration for `i`. */
  function Pick(r: real, i: nat): (j: nat)
    requires IsRandom(r)
    ensures j <= i
  {
    PickInRange(r, i);
    (r * (i + 1) as real).Floor
  }

  lemma PickInRange(r: real, i: nat)
    requires IsRandom(r)
    ensures 0 <= (r * (i + 1) as real).Floor <= i
  {
    var n := (i + 1) as real;
    assert r * n < 1.0 * n by {
      assert (1.0 - r) * n > 0.0;
    }
    var x := r * n;
    assert x.Floor as real <= x;
    assert x.Floor < i + 1;
    assert 0.0 <= x;
    assert x < x.Floor as real + 1.0;
  }

  /** `[s[i], s[j]] = [s[j], s[i]]` on a sequence. */
  function Swap<T>(s: seq<T>, i: nat, j: nat): (r: seq<T>)
    requires i < |s| && j < |s|
    ensures |r| == |s| && r[i] == s[j] && r[j] == s[i]
    ensures forall k :: 0 <= k < |s| && k != i && k != j ==> r[k] == s[k]
  {
    s[i := s[j]][j := s[i]]
  }

  /**
   * What the shuffle loop leaves behind when it starts at index `i` on the
   * contents `s`; the iteration for `i` uses draw number |s|-1-i.
   */
  function ShuffleFrom<T>(s: seq<T>, i: int, draws: seq<real>): (r: seq<T>)
    requires i < |s| && ValidDraws(draws, |s|)
    ensures |r| == |s|
    decreases i
  {
    if i <= 0 then s
    else ShuffleFrom(Swap(s, i, Pick(draws[|s| - 1 - i], i)), i - 1, draws)
  }

  /** The result of `shuffleArray` on contents `s` with the given random values. */
  function Shuffled<T>(s: seq<T>, draws: seq<real>): (r: seq<T>)
    requires ValidDraws(draws, |s|)
    ensures |r| == |s|
  {
    ShuffleFrom(s, |s| - 1, draws)
  }

  lemma SwapPermutes<T>(s: seq<T>, i: nat, j: nat)
    requires i < |s| && j < |s|
    ensures multiset(Swap(s, i, j)) == multiset(s)
  {
    var t := s[i := s[j]];
    assert multiset(t) == multiset(s) - multiset{s[i]} + multiset{s[j]};
    assert multiset(t[j := s[i]]) == multiset(t) - multiset{t[j]} + multiset{s[i]};
  }

  /** Every stage of the loop only swaps, so the contents stay a permutation. */
  lemma {:induction false} ShuffleFromPermutes<T>(s: seq<T>, i: int, draws: seq<real>)
    requires i < |s| && ValidDraws(draws, |s|)
    ensures |ShuffleFrom(s, i, draws)| == |s|
    ensures multiset(ShuffleFrom(s, i, draws)) == multiset(s)
    decreases i
  {
    if i > 0 {
      var j := Pick(draws[|s| - 1 - i], i);
      SwapPermutes(s, i, j);
      ShuffleFromPermutes(Swap(s, i, j), i - 1, draws);
    }
  }

  /** `shuffleArray` returns a permutation of its input, whatever the random values. */
  lemma ShuffledIsPermutation<T>(s: seq<T>, draws: seq<real>)
    requires ValidDraws(draws, |s|)
    ensures |Shuffled(s, draws)| == |s|
    ensures multiset(Shuffled(s, draws)) == multiset(s)
  {
    ShuffleFromPermutes(s, |s| - 1, draws);
  }

  /**
   * `shuffleArray`: copies the caller's array and swaps in place on the copy,
   * with i counting down from n-1 to 1. The method has no `modifies` clause, so
   * the caller's array is provably left as it was.
   */
  method ShuffleArray<T(==)>(input: array<T>, draws: seq<real>) returns (shuffled: seq<T>)
    requires ValidDraws(draws, input.Length)
    ensures shuffled == Shuffled(input[..], draws)
    ensures |shuffled| == input.Length && multiset(shuffled) == multiset(input[..])
    ensures input.Length <= 1 ==> shuffled == input[..]
  {
    var copy := new T[input.Length](k requires 0 <= k < input.Length reads input => input[k]);
    assert copy[..] == input[..];
    var i := copy.Length - 1;
    while i > 0
      invariant -1 <= i < copy.Length
      invariant copy.Length <= 1 ==> copy[..] == input[..]
      invariant ShuffleFrom(copy[..], i, draws) == Shuffled(input[..], draws)
    {
      var j := Pick(draws[copy.Length - 1 - i], i);
      ghost var before := copy[..];
      copy[i], copy[j] := copy[j], copy[i];
      assert copy[..] == Swap(before, i, j);
      i := i - 1;
    }
    shuffled := copy[..];
    ShuffledIsPermutation(input[..], draws);
  }

  /** The end index JavaScript's `slice(0, end)` uses on a list of length `n`. */
  function SliceEnd(end: int, n: nat): (e: nat)
    ensures e <= n
    ensures 0 <= end <= n ==> e == end
    ensures end >= n ==> e == n
    ensures end < 0 ==> e == n - Min(-end, n)
  {
    if end >= 0 then Min(end, n)
    else if n + end >= 0 then n + end
    else 0
  }

  /** The result of `selectWinners(faces, count)` with the given random values. */
  function Winners<T>(faces: seq<T>, count: int, draws: seq<real>): (r: seq<T>)
    requires ValidDraws(draws, |faces|)
    ensures |faces| == 0 ==> r == []
    ensures count >= 0 ==> |r| == Min(count, |faces|)
    ensures count < 0 ==> |r| == |faces| - Min(-count, |faces|)
  {
    if |faces| == 0 then []
    else Shuffled(faces, draws)[..SliceEnd(Min(count, |faces|), |faces|)]
  }

  /** A draw of `count` faces: as many as asked for (capped at the pool size), each
      from a distinct position of the pool. */
  predicate IsDraw<T(==)>(picked: seq<T>, pool: seq<T>, count: int) {
    && |picked| == Min(count, |pool|)
    && multiset(picked) <= multiset(pool)
  }

  lemma PrefixSubMultiset<T>(s: seq<T>, m: nat)
    requires m <= |s|
    ensures multiset(s[..m]) <= multiset(s)
  {
    assert s == s[..m] + s[m..];
  }

  /** A non-negative-length prefix of a shuffle is a draw. */
  lemma ShuffledPrefixIsDraw<T>(pool: seq<T>, count: int, draws: seq<real>)
    requires ValidDraws(draws, |pool|) && count >= 0
    ensures |Shuffled(pool, draws)| == |pool|
    ensures IsDraw(Shuffled(pool, draws)[..SliceEnd(count, |pool|)], pool, count)
  {
    ShuffledIsPermutation(pool, draws);
    PrefixSubMultiset(Shuffled(pool, draws), SliceEnd(count, |pool|));
  }

  /**
   * `selectWinners`: an empty pool gives no winners; otherwise the winners are the
   * first min(count, n) entries of a permutation of the pool, so for count >= 0
   * exactly min(count, n) faces from distinct positions, and for count >= n the
   * whole pool in some order.
   */
  lemma WinnersAreDraw<T>(faces: seq<T>, count: int, draws: seq<real>)
    requires ValidDraws(draws, |faces|)
    ensures |faces| == 0 ==> Winners(faces, count, draws) == []
    ensures count >= 0 ==> IsDraw(Winners(faces, count, draws), faces, count)
    ensures count >= |faces| ==> multiset(Winners(faces, count, draws)) == multiset(faces)
  {
    if |faces| > 0 {
      ShuffledIsPermutation(faces, draws);
      var s := Shuffled(faces, draws);
      PrefixSubMultiset(s, SliceEnd(Min(count, |faces|), |faces|));
      if count >= |faces| {
        assert s[..|faces|] == s;
      }
    }
  }

  /** `selectWinners(faces, count)`: a guard, a shuffle and a slice. */
  method SelectWinners<T(==)>(faces: array<T>, count: int, draws: seq<real>) returns (winners: seq<T>)
    requires ValidDraws(draws, faces.Length)
    ensures winners == Winners(faces[..], count, draws)
    ensures faces.Length == 0 ==> winners == []
    ensures count >= 0 ==> IsDraw(winners, faces[..], count)
  {
    if faces.Length == 0 {
      return [];
    }
    var shuffled := ShuffleArray(faces, draws);
    winners := shuffled[..SliceEnd(Min(count, faces.Length), faces.Length)];
    WinnersAreDraw(faces[..], count, draws);
  }

  /** One callback of the animation: a decorative draw or the final winners. */
  datatype Event<T> = Update(time: nat, faces: seq<T>) | Complete(time: nat, winners: seq<T>)

  const AnimationDuration: nat := 2000
  const IntervalTime: nat := 100
  /** Number of interval firings: 2000 ms / 100 ms. */
  const Steps: nat := AnimationDuration / IntervalTime

  /** The decorative draw shown at firing `k`, `shuffleArray(faces).slice(0, winnerCount)`. */
  function Flicker<T>(faces: seq<T>, winnerCount: int, draws: seq<real>): (r: seq<T>)
    requires ValidDraws(draws, |faces|)
    ensures winnerCount >= 0 ==> |r| == Min(winnerCount, |faces|)
    ensures winnerCount < 0 ==> |r| == |faces| - Min(-winnerCount, |faces|)
  {
    Shuffled(faces, draws)[..SliceEnd(winnerCount, |faces|)]
  }

  /**
   * `animateWinnerSelection`: the interval fires every 100 ms; each firing reports
   * one decorative draw (`onUpdate`), and the 20th firing clears the interval and
   * reports a fresh `selectWinners` draw (`onComplete`). The result is the trace of
   * callbacks; `tickDraws[k]` are the random values of firing k, `finalDraws` those
   * of the final selection.
   */
  method AnimateWinnerSelection<T(==)>(faces: array<T>, winnerCount: int,
                                   tickDraws: seq<seq<real>>, finalDraws: seq<real>)
    returns (trace: seq<Event<T>>)
    requires |tickDraws| >= Steps
    requires forall k :: 0 <= k < |tickDraws| ==> ValidDraws(tickDraws[k], faces.Length)
    requires ValidDraws(finalDraws, faces.Length)
    ensures |trace| == Steps + 1
    ensures forall k :: 0 <= k < Steps ==>
              trace[k] == Update((k + 1) * IntervalTime, Flicker(faces[..], winnerCount, tickDraws[k]))
    ensures trace[Steps] == Complete(AnimationDuration, Winners(faces[..], winnerCount, finalDraws))
    ensures forall k :: 0 <= k < |trace| ==> (trace[k].Complete? <==> k == Steps)
  {
    var currentStep := 0;
    var cleared := false;
    trace := [];
    while !cleared
      invariant 0 <= currentStep <= Steps
      invariant cleared <==> currentStep == Steps
      invariant |trace| == if cleared then Steps + 1 else currentStep
      invariant forall k :: 0 <= k < currentStep ==>
                  trace[k] == Update((k + 1) * IntervalTime, Flicker(faces[..], winnerCount, tickDraws[k]))
      invariant cleared ==> trace[Steps] == Complete(AnimationDuration, Winners(faces[..], winnerCount, finalDraws))
      decreases Steps - currentStep
    {
      var shuffled := ShuffleArray(faces, tickDraws[currentStep]);
      var randomFaces := shuffled[..SliceEnd(winnerCount, |shuffled|)];
      trace := trace + [Update((currentStep + 1) * IntervalTime, randomFaces)];
      currentStep := currentStep + 1;
      if currentStep >= Steps {
        cleared := true;
        var finalWinners := SelectWinners(faces, winnerCount, finalDraws);
        trace := trace + [Complete(AnimationDuration, finalWinners)];
      }
    }
  }

  /**
   * Every callback of an animation with winnerCount >= 0 carries a draw from the
   * pool: min(winnerCount, n) faces from distinct positions.
   */
  lemma AnimationEventsAreDraws<T>(faces: seq<T>, winnerCount: int,
                                   tickDraws: seq<seq<real>>, finalDraws: seq<real>, k: nat)
    requires winnerCount >= 0 && k < |tickDraws|
    requires forall i :: 0 <= i < |tickDraws| ==> ValidDraws(tickDraws[i], |faces|)
    requires ValidDraws(finalDraws, |faces|)
    ensures IsDraw(Flicker(faces, winnerCount, tickDraws[k]), faces, winnerCount)
    ensures IsDraw(Winners(faces, winnerCount, finalDraws), faces, winnerCount)
  {
    ShuffledPrefixIsDraw(faces, winnerCount, tickDraws[k]);
    WinnersAreDraw(faces, winnerCount, finalDraws);
  }

  /**
   * The final winners come from their own draw and need not match the last
   * decorative draw: with faces [0, 1] and one winner, the last flicker can show
   * [1] while the final selection is [0].
   */
  lemma RevealCanDifferFromLastFlicker()
    ensures Flicker([0, 1], 1, [0.0]) == [1]
    ensures Winners([0, 1], 1, [0.5]) == [0]
  {
    assert Pick(0.0, 1) == 0;
    assert Pick(0.5, 1) == 1;
    assert Shuffled([0, 1], [0.0]) == [1, 0];
    assert Shuffled([0, 1], [0.5]) == [0, 1];
  }
}
