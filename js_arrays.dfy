/**
 * Array operations the form code performs on lists of names:
 * `Array.from(new Set(xs))` / `[...new Set(xs)]` and `xs.filter((y) => y !== x)`.
 */
module JsArrays {

  predicate NoDuplicates<T(==)>(xs: seq<T>) {
    forall i, j :: 0 <= i < j < |xs| ==> xs[i] != xs[j]
  }

  /** Index of the first occurrence of `x` in `xs`. */
  function FirstIndex<T(==)>(xs: seq<T>, x: T): (k: nat)
    requires x in xs
    ensures k < |xs| && xs[k] == x && x !in xs[..k]
  {
    if xs[0] == x then 0 else 1 + FirstIndex(xs[1..], x)
  }

  /** `Array.from(new Set(xs))`: a Set keeps each element once, in order of first insertion. */
  function Dedup<T(==,!new)>(xs: seq<T>): (r: seq<T>)
    ensures NoDuplicates(r)
    ensures forall x :: x in r <==> x in xs
    ensures |r| <= |xs|
  {
    if xs == [] then []
    else
      var d := Dedup(xs[..|xs| - 1]);
      var last := xs[|xs| - 1];
      assert forall x :: x in xs <==> x in xs[..|xs| - 1] || x == last;
      if last in d then d else d + [last]
  }

  lemma FirstIndexOfPrefix<T(!new)>(xs: seq<T>, y: T, x: T)
    requires x in xs
    ensures FirstIndex(xs + [y], x) == FirstIndex(xs, x)
  {
    var k := FirstIndex(xs, x);
    assert (xs + [y])[k] == x && (xs + [y])[..k] == xs[..k];
    FirstIndexUnique(xs + [y], x, k);
  }

  /** The first occurrence is the only index holding `x` with no `x` before it. */
  lemma FirstIndexUnique<T(!new)>(xs: seq<T>, x: T, k: nat)
    requires k < |xs| && xs[k] == x && x !in xs[..k]
    ensures FirstIndex(xs, x) == k
  {
  }

  /** A set of items without duplicates spreads back to the same list. */
  lemma {:induction false} DedupOfDistinct<T(!new)>(xs: seq<T>)
    requires NoDuplicates(xs)
    ensures Dedup(xs) == xs
  {
    if xs != [] {
      var init := xs[..|xs| - 1];
      DedupOfDistinct(init);
      assert xs[|xs| - 1] !in init;
      assert xs == init + [xs[|xs| - 1]];
    }
  }

  /** The elements of `Dedup(xs)` appear in the order of their first occurrence in `xs`. */
  lemma {:induction false} DedupKeepsFirstOccurrenceOrder<T(!new)>(xs: seq<T>)
    ensures forall i, j :: 0 <= i < j < |Dedup(xs)| ==> FirstIndex(xs, Dedup(xs)[i]) < FirstIndex(xs, Dedup(xs)[j])
  {
    if xs != [] {
      var init := xs[..|xs| - 1];
      var last := xs[|xs| - 1];
      assert xs == init + [last];
      DedupKeepsFirstOccurrenceOrder(init);
      var d := Dedup(init);
      forall x | x in init ensures FirstIndex(xs, x) == FirstIndex(init, x) {
        FirstIndexOfPrefix(init, last, x);
      }
      if last !in d {
        FirstIndexUnique(xs, last, |xs| - 1);
        forall i | 0 <= i < |d| ensures FirstIndex(xs, d[i]) < |xs| - 1 {
          assert d[i] in init;
        }
      }
    }
  }

  /** `xs.filter((y) => y !== x)`. */
  function RemoveAll<T(==,!new)>(xs: seq<T>, x: T): (r: seq<T>)
    ensures x !in r
    ensures forall y :: y != x ==> (y in r <==> y in xs)
    ensures x !in xs ==> r == xs
    ensures |r| <= |xs|
  {
    if xs == [] then []
    else if xs[0] == x then RemoveAll(xs[1..], x)
    else [xs[0]] + RemoveAll(xs[1..], x)
  }

  lemma {:induction false} RemoveAllKeepsDistinct<T(!new)>(xs: seq<T>, x: T)
    requires NoDuplicates(xs)
    ensures NoDuplicates(RemoveAll(xs, x))
  {
    if xs != [] {
      assert NoDuplicates(xs[1..]) by {
        forall i, j | 0 <= i < j < |xs[1..]| ensures xs[1..][i] != xs[1..][j] {
          assert xs[1..][i] == xs[i + 1] && xs[1..][j] == xs[j + 1];
        }
      }
      RemoveAllKeepsDistinct(xs[1..], x);
      assert xs[0] !in xs[1..];
    }
  }

  /** Removing an element that was just appended to a list that lacked it undoes the append. */
  lemma {:induction false} RemoveAllAfterAppend<T(!new)>(xs: seq<T>, x: T)
    requires x !in xs
    ensures RemoveAll(xs + [x], x) == xs
  {
    if xs == [] {
      assert RemoveAll([x], x) == RemoveAll([x][1..], x);
    } else {
      assert (xs + [x])[1..] == xs[1..] + [x];
      RemoveAllAfterAppend(xs[1..], x);
    }
  }

  /** Appending an element absent from a duplicate-free list keeps it duplicate-free. */
  lemma AppendFreshKeepsDistinct<T(!new)>(xs: seq<T>, x: T)
    requires NoDuplicates(xs) && x !in xs
    ensures NoDuplicates(xs + [x])
  {
    forall i, j | 0 <= i < j < |xs + [x]| ensures (xs + [x])[i] != (xs + [x])[j] {
      if j == |xs| {
        assert xs[i] in xs;
      }
    }
  }

  /** The tail of a duplicate-free list is duplicate-free and lacks the head. */
  lemma DistinctTail<T>(xs: seq<T>)
    requires NoDuplicates(xs) && xs != []
    ensures NoDuplicates(xs[1..]) && xs[0] !in xs[1..]
  {
    forall i, j | 0 <= i < j < |xs[1..]| ensures xs[1..][i] != xs[1..][j] {
      assert xs[1..][i] == xs[i + 1] && xs[1..][j] == xs[j + 1];
    }
    forall k | 0 <= k < |xs[1..]| ensures xs[1..][k] != xs[0] {
      assert xs[1..][k] == xs[k + 1];
    }
  }

  /** Putting an absent element in front of a duplicate-free list keeps it duplicate-free. */
  lemma PrependFreshKeepsDistinct<T>(x: T, xs: seq<T>)
    requires NoDuplicates(xs) && x !in xs
    ensures NoDuplicates([x] + xs)
  {
    forall i, j | 0 <= i < j < |[x] + xs| ensures ([x] + xs)[i] != ([x] + xs)[j] {
      if i == 0 {
        assert ([x] + xs)[j] == xs[j - 1];
      } else {
        assert ([x] + xs)[i] == xs[i - 1] && ([x] + xs)[j] == xs[j - 1];
      }
    }
  }
}
