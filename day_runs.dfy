/** Runs of consecutive calendar days in a set of completed days, and the
    sorted, duplicate-free day lists both streak calculators walk over. */
module DayRuns {
  import opened HabitTypes

  function Max(a: int, b: int): int { if a >= b then a else b }

  ghost predicate StrictlyIncreasing(xs: seq<Day>) {
    forall i, j :: 0 <= i < j < |xs| ==> xs[i] < xs[j]
  }

  ghost predicate StrictlyDecreasing(xs: seq<Day>) {
    forall i, j :: 0 <= i < j < |xs| ==> xs[i] > xs[j]
  }

  /** Inserts `d` into a strictly increasing list, unless it is already there. */
  function InsertDistinct(xs: seq<Day>, d: Day): (r: seq<Day>)
    requires StrictlyIncreasing(xs)
    ensures StrictlyIncreasing(r)
    ensures forall x :: x in r <==> x in xs || x == d
  {
    if xs == [] then [d]
    else if d < xs[0] then [d] + xs
    else if d == xs[0] then xs
    else
      var tail := InsertDistinct(xs[1..], d);
      assert forall x :: x in xs[1..] ==> xs[0] < x;
      assert forall j :: 0 <= j < |tail| ==> xs[0] < tail[j] by {
        forall j | 0 <= j < |tail| ensures xs[0] < tail[j] {
          assert tail[j] in tail;
        }
      }
      [xs[0]] + tail
  }

  /** `[...new Set(ds)].sort()`: the days of `ds`, each once, ascending. */
  function SortedDistinct(ds: seq<Day>): (r: seq<Day>)
    ensures StrictlyIncreasing(r)
    ensures forall x :: x in r <==> x in ds
  {
    if ds == [] then []
    else InsertDistinct(SortedDistinct(ds[..|ds| - 1]), ds[|ds| - 1])
  }

  /** `xs.reverse()`. */
  function Reverse(xs: seq<Day>): (r: seq<Day>)
    ensures |r| == |xs|
    ensures forall i :: 0 <= i < |xs| ==> r[i] == xs[|xs| - 1 - i]
  {
    if xs == [] then [] else Reverse(xs[1..]) + [xs[0]]
  }

  /** Reversing an ascending list gives a descending one with the same days. */
  lemma ReverseOfIncreasing(xs: seq<Day>)
    requires StrictlyIncreasing(xs)
    ensures StrictlyDecreasing(Reverse(xs))
    ensures forall x :: x in Reverse(xs) <==> x in xs
  {
    var r := Reverse(xs);
    forall x | x in xs ensures x in r {
      var i :| 0 <= i < |xs| && xs[i] == x;
      assert r[|xs| - 1 - i] == x;
    }
  }

  /** Every day lo, lo + 1, ..., lo + len - 1 is in D. */
  ghost predicate Run(D: set<Day>, lo: Day, len: int) {
    forall d :: lo <= d < lo + len ==> d in D
  }

  /** The run of consecutive days in D that ends at `top` is exactly `len` long. */
  ghost predicate ExactRunTo(D: set<Day>, top: Day, len: int) {
    len >= 0 && Run(D, top - len + 1, len) && top - len !in D
  }

  /** The run of consecutive days in D that starts at `lo` is exactly `len` long. */
  ghost predicate ExactRunFrom(D: set<Day>, lo: Day, len: int) {
    len >= 0 && Run(D, lo, len) && lo + len !in D
  }

  /** `len` is the length of the longest run of consecutive days in D. */
  ghost predicate IsLongestRun(D: set<Day>, len: int) {
    len >= 0 && (exists lo :: Run(D, lo, len)) && forall lo, k :: Run(D, lo, k) ==> k <= len
  }

  /** The exact run ending at a day is unique. */
  lemma ExactRunToUnique(D: set<Day>, top: Day, a: int, b: int)
    requires ExactRunTo(D, top, a) && ExactRunTo(D, top, b)
    ensures a == b
  {
    assert Run(D, top - a + 1, a) && Run(D, top - b + 1, b);
  }

  /** The longest-run length of a set is unique, at least one for a non-empty
      set, and bounds every exact run. */
  lemma {:induction false} LongestRunFacts(D: set<Day>, len: int)
    requires IsLongestRun(D, len)
    ensures forall n :: IsLongestRun(D, n) ==> n == len
    ensures forall d :: d in D ==> len >= 1
    ensures forall top, n :: ExactRunTo(D, top, n) ==> n <= len
  {
    forall d | d in D ensures len >= 1 {
      assert Run(D, d, 1);
    }
    forall top, n | ExactRunTo(D, top, n) ensures n <= len {
      assert Run(D, top - n + 1, n);
    }
  }

  /** Adding a day above every day of `seen`: a run of the larger set either
      ends at the new day (and is bounded by the exact run there) or already
      lay in `seen`. */
  lemma RunsAfterAddingMax(seen: set<Day>, x: Day, bound: int, t: int)
    requires forall d :: d in seen ==> d < x
    requires forall lo, k :: Run(seen, lo, k) ==> k <= bound
    requires ExactRunTo(seen + {x}, x, t)
    ensures forall lo, k :: Run(seen + {x}, lo, k) ==> k <= Max(bound, t)
  {
    forall lo, k | Run(seen + {x}, lo, k) ensures k <= Max(bound, t) {
      if k > 0 {
        var top := lo + k - 1;
        assert top in seen + {x};
        if top == x {
          assert Run(seen + {x}, x - t + 1, t);
        } else {
          assert Run(seen, lo, k);
        }
      }
    }
  }

  /** Adding a day below every day of `seen`, the mirror image of
      RunsAfterAddingMax. */
  lemma RunsAfterAddingMin(seen: set<Day>, x: Day, bound: int, t: int)
    requires forall d :: d in seen ==> x < d
    requires forall lo, k :: Run(seen, lo, k) ==> k <= bound
    requires ExactRunFrom(seen + {x}, x, t)
    ensures forall lo, k :: Run(seen + {x}, lo, k) ==> k <= Max(bound, t)
  {
    forall lo, k | Run(seen + {x}, lo, k) ensures k <= Max(bound, t) {
      if k > 0 {
        assert lo in seen + {x};
        if lo == x {
          assert Run(seen + {x}, x, t);
        } else {
          assert Run(seen, lo, k);
        }
      }
    }
  }

  /** No run fits in an empty set. */
  lemma NoRunsInEmpty(D: set<Day>)
    requires D == {}
    ensures forall lo, k :: Run(D, lo, k) ==> k <= 0
  {
    forall lo, k | k > 0 ensures !Run(D, lo, k) {
      assert lo !in D;
    }
  }

  /** The runs of a one-day set are at most one day long. */
  lemma SingleDayRuns(D: set<Day>, x: Day)
    requires D == {x}
    ensures forall lo, k :: Run(D, lo, k) ==> k <= 1
  {
    forall lo, k | k > 1 ensures !Run(D, lo, k) {
      if lo == x {
        assert lo + 1 !in D;
      } else {
        assert lo !in D;
      }
    }
  }

  /** Three consecutive days: the run ending at the last one is three long,
      and so is the longest run. */
  lemma ThreeDayRun(D: set<Day>, top: Day)
    requires D == {top - 2, top - 1, top}
    ensures top in D && forall d :: d in D ==> d <= top
    ensures ExactRunTo(D, top, 3) && IsLongestRun(D, 3)
  {
    assert Run(D, top - 2, 3);
    forall lo, k | k > 3 ensures !Run(D, lo, k) {
      if lo in D {
        assert lo + 3 !in D;
      }
    }
  }
}
