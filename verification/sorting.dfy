/**
 * `Array.prototype.sort` with a comparator. The language has required a stable
 * sort since ES2019, and for a comparator whose sign flips when its arguments are
 * swapped (zero staying zero) and whose order is transitive, every stable sort
 * yields the same sequence, so a stable insertion sort stands for the engine's
 * algorithm.
 * Only the sign of the comparator's result matters.
 */
module Sorting {
  import opened Seqs

  /** A comparator: negative when the first argument goes first, positive when it goes last. */
  type Comparator<-T> = (T, T) -> real

  /** Swapping the arguments of a positive comparison gives a negative one. */
  ghost predicate SignConsistent<T(!new)>(cmp: Comparator<T>) {
    forall a, b :: cmp(a, b) > 0.0 ==> cmp(b, a) < 0.0
  }

  /** "May go before" is transitive. */
  ghost predicate Transitive<T(!new)>(cmp: Comparator<T>) {
    forall a, b, c :: cmp(a, b) <= 0.0 && cmp(b, c) <= 0.0 ==> cmp(a, c) <= 0.0
  }

  /** Every neighbouring pair is in comparator order. */
  ghost predicate Ordered<T>(s: seq<T>, cmp: Comparator<T>) {
    forall i :: 0 < i < |s| ==> cmp(s[i - 1], s[i]) <= 0.0
  }

  /** Every pair, near or far, is in comparator order. */
  ghost predicate PairwiseOrdered<T>(s: seq<T>, cmp: Comparator<T>) {
    forall i, j :: 0 <= i < j < |s| ==> cmp(s[i], s[j]) <= 0.0
  }

  /** Places `x` before the first element it does not compare after; equal elements keep `x` first. */
  function Insert<T>(x: T, s: seq<T>, cmp: Comparator<T>): (r: seq<T>)
    ensures multiset(r) == multiset(s) + multiset{x}
    ensures |r| == |s| + 1
  {
    if |s| == 0 then [x]
    else if cmp(x, s[0]) <= 0.0 then [x] + s
    else
      assert s == [s[0]] + s[1..];
      [s[0]] + Insert(x, s[1..], cmp)
  }

  /** Stable insertion sort: the earlier of two equal elements stays first (`SortStable`). */
  function Sort<T>(s: seq<T>, cmp: Comparator<T>): (r: seq<T>)
    ensures multiset(r) == multiset(s)
    ensures |r| == |s|
  {
    if |s| == 0 then []
    else
      assert s == [s[0]] + s[1..];
      Insert(s[0], Sort(s[1..], cmp), cmp)
  }

  lemma {:induction false} InsertOrdered<T(!new)>(x: T, s: seq<T>, cmp: Comparator<T>)
    requires SignConsistent(cmp) && Ordered(s, cmp)
    ensures Ordered(Insert(x, s, cmp), cmp)
    ensures |s| > 0 ==> Insert(x, s, cmp)[0] == x || Insert(x, s, cmp)[0] == s[0]
  {
    if |s| > 0 && cmp(x, s[0]) > 0.0 {
      InsertOrdered(x, s[1..], cmp);
      var rest := Insert(x, s[1..], cmp);
      assert cmp(s[0], x) < 0.0;
      if |s| > 1 {
        assert cmp(s[0], s[1]) <= 0.0;
      }
      assert cmp(s[0], rest[0]) <= 0.0;
    }
  }

  /** With a sign-consistent comparator the sort puts every neighbouring pair in order. */
  lemma {:induction false} SortOrdered<T(!new)>(s: seq<T>, cmp: Comparator<T>)
    requires SignConsistent(cmp)
    ensures Ordered(Sort(s, cmp), cmp)
  {
    if |s| > 0 {
      SortOrdered(s[1..], cmp);
      InsertOrdered(s[0], Sort(s[1..], cmp), cmp);
    }
  }

  /** Neighbouring order extends to every pair when the comparator is transitive. */
  lemma {:induction false} OrderedIsPairwise<T(!new)>(s: seq<T>, cmp: Comparator<T>)
    requires Transitive(cmp) && Ordered(s, cmp)
    ensures PairwiseOrdered(s, cmp)
  {
    forall i, j | 0 <= i < j < |s| ensures cmp(s[i], s[j]) <= 0.0 {
      var k := i + 1;
      while k < j
        invariant i < k <= j
        invariant cmp(s[i], s[k]) <= 0.0
      {
        assert cmp(s[k], s[k + 1]) <= 0.0;
        k := k + 1;
      }
    }
  }

  /** A comparator that calls everything equal leaves the sequence as it was (stability). */
  lemma {:induction false} SortNeutral<T>(s: seq<T>, cmp: Comparator<T>)
    requires forall i, j :: 0 <= i < |s| && 0 <= j < |s| ==> cmp(s[i], s[j]) == 0.0
    ensures Sort(s, cmp) == s
  {
    if |s| > 0 {
      SortNeutral(s[1..], cmp);
      assert Sort(s[1..], cmp) == s[1..];
      if |s| > 1 {
        assert cmp(s[0], s[1]) == 0.0;
      }
    }
  }

  /** The elements the comparator rates equal to `x`. */
  function TiesWith<T>(x: T, cmp: Comparator<T>): T -> bool {
    (y: T) => cmp(y, x) == 0.0
  }

  /** An element that compares strictly after `b` is not tied with anything `b` is tied with. */
  lemma PassedIsNoTie<T(!new)>(a: T, b: T, x: T, cmp: Comparator<T>)
    requires SignConsistent(cmp) && Transitive(cmp)
    requires cmp(a, b) > 0.0
    ensures !(TiesWith(x, cmp)(a) && TiesWith(x, cmp)(b))
  {
    assert cmp(b, x) == 0.0 ==> cmp(x, b) <= 0.0;
    assert cmp(a, x) <= 0.0 && cmp(x, b) <= 0.0 ==> cmp(a, b) <= 0.0;
  }

  /** An element compared after the first is placed after it. */
  lemma InsertPassed<T>(a: T, t: seq<T>, cmp: Comparator<T>)
    requires |t| > 0 && cmp(a, t[0]) > 0.0
    ensures Insert(a, t, cmp) == [t[0]] + Insert(a, t[1..], cmp)
  {
  }

  /**
   * Inserting `a` keeps the order of the elements `keep` accepts, `a` among them
   * first when it is one, provided `a` passes no element that `keep` accepts with it.
   */
  lemma {:induction false} InsertKeepsOrder<T(!new)>(a: T, t: seq<T>, cmp: Comparator<T>, keep: T -> bool)
    requires forall b :: cmp(a, b) > 0.0 ==> !(keep(a) && keep(b))
    ensures Filter(Insert(a, t, cmp), keep) == Filter([a] + t, keep)
  {
    if |t| == 0 {
      assert Insert(a, t, cmp) == [a] + t;
    } else if cmp(a, t[0]) > 0.0 {
      var t0, rest := t[0], t[1..];
      assert t == [t0] + rest;
      InsertKeepsOrder(a, rest, cmp, keep);
      InsertPassed(a, t, cmp);
      FilterCons(t0, Insert(a, rest, cmp), keep);
      FilterCons(a, rest, keep);
      FilterCons(a, t, keep);
      FilterCons(t0, rest, keep);
      if keep(a) {
        assert !keep(t0);
        var skipped: seq<T> := [];
        assert skipped + Filter(rest, keep) == Filter(rest, keep);
        assert Filter([t0] + rest, keep) == Filter(rest, keep);
        calc {
          Filter(Insert(a, t, cmp), keep);
          Filter([t0] + Insert(a, rest, cmp), keep);
          Filter(Insert(a, rest, cmp), keep);
          Filter([a] + rest, keep);
          [a] + Filter(rest, keep);
          [a] + Filter([t0] + rest, keep);
          { assert [t0] + rest == t; }
          [a] + Filter(t, keep);
          Filter([a] + t, keep);
        }
      } else {
        var skipped: seq<T> := [];
        assert skipped + Filter(rest, keep) == Filter(rest, keep);
        assert Filter([a] + rest, keep) == Filter(rest, keep);
        calc {
          Filter(Insert(a, t, cmp), keep);
          Filter([t0] + Insert(a, rest, cmp), keep);
          (if keep(t0) then [t0] else []) + Filter(Insert(a, rest, cmp), keep);
          (if keep(t0) then [t0] else []) + Filter([a] + rest, keep);
          (if keep(t0) then [t0] else []) + Filter(rest, keep);
          Filter([t0] + rest, keep);
          { assert [t0] + rest == t; }
          Filter(t, keep);
          Filter([a] + t, keep);
        }
      }
    }
  }

  /** Inserting `a` keeps the elements tied with `x` in their order: an element it passes is not its tie. */
  lemma InsertKeepsTies<T(!new)>(a: T, t: seq<T>, x: T, cmp: Comparator<T>)
    requires SignConsistent(cmp) && Transitive(cmp)
    ensures Filter(Insert(a, t, cmp), TiesWith(x, cmp)) == Filter([a] + t, TiesWith(x, cmp))
  {
    forall b | cmp(a, b) > 0.0 ensures !(TiesWith(x, cmp)(a) && TiesWith(x, cmp)(b)) {
      PassedIsNoTie(a, b, x, cmp);
    }
    InsertKeepsOrder(a, t, cmp, TiesWith(x, cmp));
  }

  /**
   * The sort is stable: for any `x`, the elements the comparator rates equal to
   * it come out in the order they went in.
   */
  lemma {:induction false} SortStable<T(!new)>(s: seq<T>, x: T, cmp: Comparator<T>)
    requires SignConsistent(cmp) && Transitive(cmp)
    ensures Filter(Sort(s, cmp), TiesWith(x, cmp)) == Filter(s, TiesWith(x, cmp))
  {
    if |s| > 0 {
      var ties := TiesWith(x, cmp);
      var sorted := Sort(s[1..], cmp);
      assert Sort(s, cmp) == Insert(s[0], sorted, cmp);
      SortStable(s[1..], x, cmp);
      InsertKeepsTies(s[0], sorted, x, cmp);
      FilterCons(s[0], sorted, ties);
      FilterCons(s[0], s[1..], ties);
      assert [s[0]] + s[1..] == s;
    }
  }
}
