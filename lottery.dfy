/**
  `get_numbers_ticket` (goit-pycore-hw-03/task_2.py): a guard on the
  parameters, then `sorted(random.sample(range(min, max + 1), quantity))`.
  The random source is a parameter: a sequence of coin flips that decides,
  number by number from `min` upwards, whether the number is drawn
  (selection sampling). Every sorted draw is reachable by some flips
  (DrawReachesEverySample), so the model fixes no more than the shape of
  the result.
*/
module Lottery {
  import opened Wrappers

  /** `random.sample` raises ValueError for a negative sample size. */
  datatype Error = SampleSizeError

  const MaxNumber: int := 1000

  /** Strictly ascending: sorted and without repeats. */
  predicate StrictlyAscending(s: seq<int>) {
    forall i, j :: 0 <= i < j < |s| ==> s[i] < s[j]
  }

  predicate Within(s: seq<int>, lo: int, hi: int) {
    forall i :: 0 <= i < |s| ==> lo <= s[i] <= hi
  }

  /** The `k` numbers of `lo..hi` the coin flips select, in ascending order. */
  function Draw(lo: int, hi: int, k: int, coins: seq<bool>): (r: seq<int>)
    requires 0 <= k <= hi - lo + 1
    ensures |r| == k && StrictlyAscending(r) && Within(r, lo, hi)
    decreases hi - lo + 1
  {
    if k == 0 then []
    else
      var rest := if coins == [] then [] else coins[1..];
      if k == hi - lo + 1 || (coins != [] && coins[0]) then [lo] + Draw(lo + 1, hi, k - 1, rest)
      else Draw(lo + 1, hi, k, rest)
  }

  /** The parameters the guard on line 9 turns away. */
  predicate Rejected(min: int, max: int, quantity: int) {
    min < 1 || max > MaxNumber || quantity > max - min + 1 || min > max
  }

  function GetNumbersTicket(min: int, max: int, quantity: int, coins: seq<bool>): (r: Result<seq<int>, Error>)
    ensures Rejected(min, max, quantity) ==> r == Ok([])
    ensures !Rejected(min, max, quantity) && quantity < 0 ==> r == Err(SampleSizeError)
    ensures !Rejected(min, max, quantity) && quantity >= 0 ==>
      r.Ok? && |r.value| == quantity && StrictlyAscending(r.value) && Within(r.value, min, max)
  {
    if Rejected(min, max, quantity) then Ok([])
    else if quantity < 0 then Err(SampleSizeError)
    else Ok(Draw(min, max, quantity, coins))
  }

  /** The coin flips that select exactly the numbers of `s`. */
  function CoinsFor(lo: int, hi: int, s: seq<int>): seq<bool>
    decreases hi - lo + 1
  {
    if lo > hi then []
    else if s != [] && s[0] == lo then [true] + CoinsFor(lo + 1, hi, s[1..])
    else [false] + CoinsFor(lo + 1, hi, s)
  }

  /** Every ascending selection of `k` numbers from `lo..hi` is a possible
      draw: the model constrains the result by its shape only. */
  lemma {:induction false} DrawReachesEverySample(lo: int, hi: int, s: seq<int>)
    requires StrictlyAscending(s) && Within(s, lo, hi) && |s| <= hi - lo + 1
    ensures Draw(lo, hi, |s|, CoinsFor(lo, hi, s)) == s
    decreases hi - lo + 1
  {
    if s != [] {
      var coins := CoinsFor(lo, hi, s);
      if s[0] == lo {
        assert coins[1..] == CoinsFor(lo + 1, hi, s[1..]) && coins[0];
        DrawReachesEverySample(lo + 1, hi, s[1..]);
        assert s == [lo] + s[1..];
      } else {
        assert coins[1..] == CoinsFor(lo + 1, hi, s) && !coins[0];
        assert forall i :: 0 <= i < |s| ==> s[i] >= s[0] > lo;
        if |s| == hi - lo + 1 {
          // all of lo..hi would be needed, but lo is missing
          AscendingFits(s, lo + 1, hi);
        }
        DrawReachesEverySample(lo + 1, hi, s);
      }
    }
  }

  /** An ascending sequence inside `lo..hi` has at most `hi - lo + 1` items. */
  lemma {:induction false} AscendingFits(s: seq<int>, lo: int, hi: int)
    requires StrictlyAscending(s) && Within(s, lo, hi)
    ensures |s| <= if hi >= lo then hi - lo + 1 else 0
    decreases |s|
  {
    if s != [] {
      AscendingFits(s[1..], s[0] + 1, hi);
    }
  }
}
