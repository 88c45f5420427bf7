/** What several of the models share: optional values, the maximum, and a stable insertion sort. */
module Common {

  datatype Option<T> = None | Some(value: T)

  function Max(a: nat, b: nat): nat {
    if a < b then b else a
  }

  // ----- sorting -----

  /** Puts `x` in front of the first element that it precedes. */
  function InsertBy<T>(precedes: (T, T) -> bool, x: T, xs: seq<T>): seq<T> {
    if xs == [] || precedes(x, xs[0]) then [x] + xs else [xs[0]] + InsertBy(precedes, x, xs[1..])
  }

  /** Elements of which neither precedes the other keep their order. */
  function SortBy<T>(precedes: (T, T) -> bool, xs: seq<T>): seq<T> {
    if xs == [] then [] else InsertBy(precedes, xs[|xs| - 1], SortBy(precedes, xs[..|xs| - 1]))
  }

  /** A strict weak order, as a comparison function gives it. */
  ghost predicate IsWeakOrder<T(!new)>(precedes: (T, T) -> bool) {
    && (forall a, b :: precedes(a, b) ==> !precedes(b, a))
    && (forall a, b, c :: !precedes(b, a) && !precedes(c, b) ==> !precedes(c, a))
  }

  ghost predicate OrderedBy<T>(precedes: (T, T) -> bool, xs: seq<T>) {
    forall i, j :: 0 <= i < j < |xs| ==> !precedes(xs[j], xs[i])
  }

  lemma {:induction false} InsertKeeps<T>(precedes: (T, T) -> bool, x: T, xs: seq<T>)
    ensures multiset(InsertBy(precedes, x, xs)) == multiset{x} + multiset(xs)
  {
    if xs != [] && !precedes(x, xs[0]) {
      InsertKeeps(precedes, x, xs[1..]);
      assert xs == [xs[0]] + xs[1..];
    }
  }

  lemma {:induction false} InsertOrders<T(!new)>(precedes: (T, T) -> bool, x: T, xs: seq<T>)
    requires IsWeakOrder(precedes) && OrderedBy(precedes, xs)
    ensures OrderedBy(precedes, InsertBy(precedes, x, xs))
  {
    if xs != [] {
      if precedes(x, xs[0]) {
        FirstFits(precedes, x, xs);
      } else {
        var rest := InsertBy(precedes, x, xs[1..]);
        InsertOrders(precedes, x, xs[1..]);
        InsertKeeps(precedes, x, xs[1..]);
        forall k | 0 <= k < |rest| ensures !precedes(rest[k], xs[0]) {
          assert rest[k] in multiset(rest);
          assert rest[k] == x || rest[k] in xs[1..];
        }
      }
    }
  }

  lemma FirstFits<T(!new)>(precedes: (T, T) -> bool, x: T, xs: seq<T>)
    requires IsWeakOrder(precedes) && OrderedBy(precedes, xs) && xs != [] && precedes(x, xs[0])
    ensures OrderedBy(precedes, [x] + xs)
  {
    forall k | 0 <= k < |xs| ensures !precedes(xs[k], x) {
      assert !precedes(xs[0], x) && !precedes(xs[k], xs[0]);
    }
  }

  /** Sorting only reorders the elements. */
  lemma {:induction false} SortByFacts<T(!new)>(precedes: (T, T) -> bool, xs: seq<T>)
    requires IsWeakOrder(precedes)
    ensures OrderedBy(precedes, SortBy(precedes, xs)) && multiset(SortBy(precedes, xs)) == multiset(xs)
    ensures |SortBy(precedes, xs)| == |xs|
  {
    if xs != [] {
      var n := |xs| - 1;
      SortByFacts(precedes, xs[..n]);
      hide InsertBy, OrderedBy, IsWeakOrder;
      InsertKeeps(precedes, xs[n], SortBy(precedes, xs[..n]));
      InsertOrders(precedes, xs[n], SortBy(precedes, xs[..n]));
      assert xs == xs[..n] + [xs[n]];
    }
    assert |multiset(SortBy(precedes, xs))| == |SortBy(precedes, xs)|;
  }
}
