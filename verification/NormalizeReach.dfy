/**
 Which constants the walker reaches, and which target serves which item of a GROUP BY clause.
 */
module NormalizeReach {
  import opened Common
  import opened NormalizeIds

  // ----- what is reached -----

  /** The walk over `n` comes to the leaf. */
  ghost predicate Reached(n: Node, utilityOnly: bool, leaf: Leaf)
    decreases n, 0
  {
    match n
    case Const(location, _) => location >= 0 && leaf == At(location)
    case Param(number) => leaf == Number(number)
    case TypeName => false
    case Plain(children) => ReachedIn(children, utilityOnly, false, leaf)
    case Marked(location, children) => (location >= 0 && leaf == At(location)) || ReachedIn(children, utilityOnly, false, leaf)
    case Guarded(children) => !utilityOnly && ReachedIn(children, utilityOnly, false, leaf)
    case Select(first, targets, middle, group, sort, rest) =>
      && !utilityOnly
      && (|| ReachedIn(first, utilityOnly, false, leaf) || ReachedIn(targets, utilityOnly, false, leaf)
          || ReachedIn(middle, utilityOnly, false, leaf) || ReachedIn(group, utilityOnly, true, leaf)
          || ReachedIn(sort, utilityOnly, true, leaf) || ReachedIn(rest, utilityOnly, false, leaf))
  }

  /** In GROUP BY and ORDER BY integers are not looked at. */
  ghost predicate ReachedIn(ns: seq<Node>, utilityOnly: bool, skipIntegers: bool, leaf: Leaf)
    decreases ns, 1
  {
    exists i :: 0 <= i < |ns| && !(skipIntegers && ns[i].Const? && ns[i].isInteger) && Reached(ns[i], utilityOnly, leaf)
  }

  lemma {:induction false} LeavesAreReached(n: Node, utilityOnly: bool, leaf: Leaf)
    ensures leaf in Leaves(n, utilityOnly) <==> Reached(n, utilityOnly, leaf)
    decreases n, 0
  {
    match n {
      case Plain(children) => AllAreReached(children, utilityOnly, false, leaf);
      case Marked(_, children) => AllAreReached(children, utilityOnly, false, leaf);
      case Guarded(children) => AllAreReached(children, utilityOnly, false, leaf);
      case Select(first, targets, middle, group, sort, rest) =>
        AllAreReached(first, utilityOnly, false, leaf);
        AllAreReached(targets, utilityOnly, false, leaf);
        AllAreReached(middle, utilityOnly, false, leaf);
        AllAreReached(group, utilityOnly, true, leaf);
        AllAreReached(sort, utilityOnly, true, leaf);
        AllAreReached(rest, utilityOnly, false, leaf);
      case _ =>
    }
    hide AllLeaves, ReachedIn;
  }

  lemma {:induction false} AllAreReached(ns: seq<Node>, utilityOnly: bool, skipIntegers: bool, leaf: Leaf)
    ensures leaf in AllLeaves(ns, utilityOnly, skipIntegers) <==> ReachedIn(ns, utilityOnly, skipIntegers, leaf)
    decreases ns, 1
  {
    if ns != [] {
      var n := |ns| - 1;
      AllAreReached(ns[..n], utilityOnly, skipIntegers, leaf);
      LeavesAreReached(ns[n], utilityOnly, leaf);
      hide Leaves, Reached;
      if ReachedIn(ns[..n], utilityOnly, skipIntegers, leaf) {
        var i :| 0 <= i < n && !(skipIntegers && ns[..n][i].Const? && ns[..n][i].isInteger) && Reached(ns[..n][i], utilityOnly, leaf);
        assert Reached(ns[i], utilityOnly, leaf);
      }
      if ReachedIn(ns, utilityOnly, skipIntegers, leaf) {
        var i :| 0 <= i < |ns| && !(skipIntegers && ns[i].Const? && ns[i].isInteger) && Reached(ns[i], utilityOnly, leaf);
        if i < n {
          assert Reached(ns[..n][i], utilityOnly, leaf);
        }
      }
    }
  }

  lemma OneConstant(location: nat, isInteger: bool, skipIntegers: bool)
    ensures AllLeaves([Const(location, isInteger)], false, skipIntegers)
         == if skipIntegers && isInteger then [] else [At(location)]
  {
    var ns := [Const(location, isInteger)];
    assert ns[..0] == [] && AllLeaves([], false, skipIntegers) == [];
    assert Leaves(ns[0], false) == [At(location)];
  }

  /** The clauses of a SELECT in walking order. */
  lemma ClauseOrder(isInteger: bool)
    ensures Leaves(Select([Const(0, false)], [Const(1, isInteger)], [Const(2, isInteger)], [Const(3, false)],
                          [Const(4, false)], [Const(5, isInteger)]), false)
         == [At(0), At(1), At(2), At(3), At(4), At(5)]
  {
    hide AllLeaves, LocationLeaf;
    OneConstant(0, false, false);
    OneConstant(1, isInteger, false);
    OneConstant(2, isInteger, false);
    OneConstant(3, false, true);
    OneConstant(4, false, true);
    OneConstant(5, isInteger, false);
  }

  // ----- which target serves an item -----

  /** Target `m` has served one of the first `n` items. */
  ghost predicate Served(taken: seq<Option<nat>>, n: nat, m: nat) {
    exists j :: 0 <= j < n && j < |taken| && taken[j] == Some(m)
  }

  /**
   Item `k` is served by the first target with its fingerprint that has not served an earlier item;
   an integer is served by none.
   */
  ghost predicate ServedWell<T>(fp: Node -> nat, ns: seq<Node>, targets: seq<Target<T>>, taken: seq<Option<nat>>, k: nat)
    requires k < |ns| && k < |taken|
  {
    if ns[k].Const? && ns[k].isInteger then taken[k] == None
    else match taken[k]
      case Some(m) =>
        && m < |targets| && targets[m].fp == fp(ns[k]) && !Served(taken, k, m)
        && forall i :: 0 <= i < m && targets[i].fp == fp(ns[k]) ==> Served(taken, k, i)
      case None => forall i :: 0 <= i < |targets| && targets[i].fp == fp(ns[k]) ==> Served(taken, k, i)
  }

  /** `left` are the targets at the positions `idx`, in order. */
  ghost predicate Picks<T>(targets: seq<Target<T>>, idx: seq<nat>, left: seq<Target<T>>) {
    && |idx| == |left| && (forall i :: 0 <= i < |idx| ==> idx[i] < |targets| && left[i] == targets[idx[i]])
    && forall i, j :: 0 <= i < j < |idx| ==> idx[i] < idx[j]
  }

  /** The positions that are left are those that have served nobody. */
  ghost predicate Unserved<T>(targets: seq<Target<T>>, taken: seq<Option<nat>>, n: nat, idx: seq<nat>) {
    forall m :: 0 <= m < |targets| ==> (m in idx <==> !Served(taken, n, m))
  }

  lemma Without<T>(targets: seq<Target<T>>, idx: seq<nat>, left: seq<Target<T>>, p: nat)
    requires Picks(targets, idx, left) && p < |left|
    ensures Picks(targets, idx[..p] + idx[p + 1..], left[..p] + left[p + 1..])
    ensures forall m :: m in idx[..p] + idx[p + 1..] <==> m in idx && m != idx[p]
  {
    var rest := idx[p + 1..];
    assert forall i :: 0 <= i < |rest| ==> rest[i] == idx[p + 1 + i];
    forall m ensures m in idx[..p] + rest <==> m in idx && m != idx[p] {
      if m in idx && m != idx[p] {
        var i :| 0 <= i < |idx| && idx[i] == m;
        assert if i < p then idx[..p][i] == m else rest[i - p - 1] == m;
      }
    }
  }

  lemma ServedMore(taken: seq<Option<nat>>, n: nat, last: Option<nat>, m: nat)
    requires n == |taken|
    ensures Served(taken + [last], n + 1, m) <==> Served(taken, n, m) || last == Some(m)
    ensures forall k: nat :: k <= n ==> (Served(taken + [last], k, m) <==> Served(taken, k, m))
  {
    var more := taken + [last];
    assert more[n] == last;
    forall k: nat | k <= n ensures Served(more, k, m) <==> Served(taken, k, m) {
      if Served(taken, k, m) {
        var j :| 0 <= j < k && j < |taken| && taken[j] == Some(m);
        assert more[j] == Some(m);
      }
      if Served(more, k, m) {
        var j :| 0 <= j < k && j < |more| && more[j] == Some(m);
        assert taken[j] == Some(m);
      }
    }
    if Served(more, n + 1, m) && last != Some(m) {
      var j :| 0 <= j < n + 1 && j < |more| && more[j] == Some(m);
      assert taken[j] == Some(m);
    }
    if Served(taken, n, m) {
      var j :| 0 <= j < n && j < |taken| && taken[j] == Some(m);
      assert more[j] == Some(m);
    }
  }

  lemma WellMore<T>(fp: Node -> nat, ns: seq<Node>, n: Node, targets: seq<Target<T>>, taken: seq<Option<nat>>, last: Option<nat>, k: nat)
    requires k < |ns| == |taken| && ServedWell(fp, ns, targets, taken, k)
    ensures ServedWell(fp, ns + [n], targets, taken + [last], k)
  {
    forall m: nat ensures Served(taken + [last], k, m) <==> Served(taken, k, m) {
      ServedMore(taken, |taken|, last, m);
    }
    hide Served;
  }

  /** The first target left with the fingerprint is the first one that is unserved. */
  lemma FirstLeft<T>(fp: nat, targets: seq<Target<T>>, taken: seq<Option<nat>>, idx: seq<nat>, left: seq<Target<T>>)
    requires Picks(targets, idx, left) && Unserved(targets, taken, |taken|, idx)
    ensures match FindTarget(left, fp)
            case Some(p) =>
              && targets[idx[p]] == left[p] && left[p].fp == fp && !Served(taken, |taken|, idx[p])
              && forall i :: 0 <= i < idx[p] && targets[i].fp == fp ==> Served(taken, |taken|, i)
            case None => forall i :: 0 <= i < |targets| && targets[i].fp == fp ==> Served(taken, |taken|, i)
  {
    hide Served;
    var found := FindTarget(left, fp);
    var limit := if found.Some? then idx[found.value] else |targets|;
    forall q | 0 <= q < |idx| && idx[q] < limit ensures targets[idx[q]].fp != fp {
      assert left[q] == targets[idx[q]];
    }
    assert forall m :: m in idx && m < limit ==> targets[m].fp != fp;
    if found.Some? {
      assert idx[found.value] in idx;
    }
  }

  lemma AllLeft<T>(targets: seq<Target<T>>) returns (idx: seq<nat>)
    ensures Picks(targets, idx, targets) && Unserved(targets, [], 0, idx)
  {
    idx := seq(|targets|, i requires 0 <= i < |targets| => i);
    forall m | 0 <= m < |targets| ensures m in idx {
      assert idx[m] == m;
    }
  }

  /** The GROUP BY items are served one after the other, each target serving at most one of them. */
  lemma {:induction false} GroupServed<T>(fp: Node -> nat, ns: seq<Node>, targets: seq<Target<T>>)
    returns (taken: seq<Option<nat>>, idx: seq<nat>)
    ensures |taken| == |ns| && forall k :: 0 <= k < |ns| ==> ServedWell(fp, ns, targets, taken, k)
    ensures Picks(targets, idx, Left(fp, ns, targets)) && Unserved(targets, taken, |ns|, idx)
  {
    if ns == [] {
      taken := [];
      idx := AllLeft(targets);
    } else {
      var n := |ns| - 1;
      taken, idx := GroupServed(fp, ns[..n], targets);
      taken, idx := NextServed(fp, ns[..n], ns[n], targets, taken, idx);
      assert ns[..n] + [ns[n]] == ns;
    }
  }

  /** One item more. */
  lemma NextServed<T>(fp: Node -> nat, ns: seq<Node>, n: Node, targets: seq<Target<T>>, front: seq<Option<nat>>, before: seq<nat>)
    returns (taken: seq<Option<nat>>, idx: seq<nat>)
    requires |front| == |ns| && forall k :: 0 <= k < |ns| ==> ServedWell(fp, ns, targets, front, k)
    requires Picks(targets, before, Left(fp, ns, targets)) && Unserved(targets, front, |front|, before)
    ensures |taken| == |ns| + 1 && forall k :: 0 <= k < |ns| + 1 ==> ServedWell(fp, ns + [n], targets, taken, k)
    ensures Picks(targets, idx, Left(fp, ns + [n], targets)) && Unserved(targets, taken, |ns| + 1, idx)
  {
    hide *;
    var left := Left(fp, ns, targets);
    var found := if IsIntegerConst(n) then None else FindTarget(left, fp(n));
    SameSize(targets, before, left);
    var last := if found.None? then None else Some(before[found.value]);
    taken := front + [last];
    forall k | 0 <= k < |ns| ensures ServedWell(fp, ns + [n], targets, taken, k) {
      WellMore(fp, ns, n, targets, front, last, k);
    }
    LastWell(fp, ns, n, targets, front, last, before, left);
    LeftNext(fp, ns, n, targets);
    idx := StillLeft(targets, front, last, before, left, found);
  }

  lemma SameSize<T>(targets: seq<Target<T>>, idx: seq<nat>, left: seq<Target<T>>)
    requires Picks(targets, idx, left)
    ensures |idx| == |left|
  {
  }

  lemma LeftNext<T>(fp: Node -> nat, ns: seq<Node>, n: Node, targets: seq<Target<T>>)
    ensures var left := Left(fp, ns, targets);
            var found := if IsIntegerConst(n) then None else FindTarget(left, fp(n));
            Left(fp, ns + [n], targets) == if found.None? then left else left[..found.value] + left[found.value + 1..]
  {
    hide FindTarget;
    assert (ns + [n])[..|ns|] == ns && (ns + [n])[|ns|] == n;
  }

  lemma LastWell<T>(fp: Node -> nat, ns: seq<Node>, n: Node, targets: seq<Target<T>>, front: seq<Option<nat>>, last: Option<nat>,
                    before: seq<nat>, left: seq<Target<T>>)
    requires |front| == |ns|
    requires Picks(targets, before, left) && Unserved(targets, front, |front|, before)
    requires var found := if IsIntegerConst(n) then None else FindTarget(left, fp(n));
             last == if found.None? then None else Some(before[found.value])
    ensures ServedWell(fp, ns + [n], targets, front + [last], |ns|)
  {
    FirstLeft(fp(n), targets, front, before, left);
    hide Picks, Unserved, Served, FindTarget;
    forall m: nat ensures Served(front + [last], |front|, m) <==> Served(front, |front|, m) {
      ServedMore(front, |front|, last, m);
    }
    assert (ns + [n])[|ns|] == n && (front + [last])[|front|] == last;
  }

  lemma StillLeft<T>(targets: seq<Target<T>>, front: seq<Option<nat>>, last: Option<nat>, before: seq<nat>, left: seq<Target<T>>,
                     found: Option<nat>) returns (idx: seq<nat>)
    requires Picks(targets, before, left) && Unserved(targets, front, |front|, before)
    requires found.Some? ==> found.value < |left|
    requires last == if found.None? then None else Some(before[found.value])
    ensures Picks(targets, idx, if found.None? then left else left[..found.value] + left[found.value + 1..])
    ensures Unserved(targets, front + [last], |front| + 1, idx)
  {
    idx := before;
    if found.Some? {
      Without(targets, before, left, found.value);
      idx := before[..found.value] + before[found.value + 1..];
    }
    hide Served;
    forall m | 0 <= m < |targets| ensures m in idx <==> !Served(front + [last], |front| + 1, m) {
      ServedMore(front, |front|, last, m);
    }
  }

  /** Target `m` serves the next item with this fingerprint. */
  ghost predicate Serves<T>(targets: seq<Target<T>>, fp: nat, taken: seq<Option<nat>>, m: nat) {
    && m < |targets| && targets[m].fp == fp && !Served(taken, |taken|, m)
    && forall i :: 0 <= i < m && targets[i].fp == fp ==> Served(taken, |taken|, i)
  }

  /**
   What an item behind the items `ns` records: nothing if it is an integer, the ids of the target that
   serves it if that has recorded as many as the item has constants, and otherwise ids of its own.
   */
  lemma ItemTakesOver(fp: Node -> nat, utilityOnly: bool, ns: seq<Node>, n: Node, targets: seq<Target<seq<int>>>, next: int)
    returns (taken: seq<Option<nat>>)
    ensures |taken| == |ns| && forall k :: 0 <= k < |ns| ==> ServedWell(fp, ns, targets, taken, k)
    ensures var item := EntriesItem(fp, utilityOnly, n, Left(fp, ns, targets), next);
            var places := Places(Leaves(n, utilityOnly));
            && (IsIntegerConst(n) ==> item == [])
            && (!IsIntegerConst(n) && (forall m: nat :: Serves(targets, fp(n), taken, m) ==> |targets[m].refs| != |places|) ==>
                  item == Entries(fp, utilityOnly, n, next))
            && forall m: nat :: !IsIntegerConst(n) && Serves(targets, fp(n), taken, m) && |targets[m].refs| == |places| ==>
                 |item| == |places| && forall i :: 0 <= i < |places| ==> item[i] == Location(places[i], targets[m].refs[i])
  {
    hide *;
    var idx;
    taken, idx := GroupServed(fp, ns, targets);
    var found := FindServes(targets, fp(n), taken, idx, Left(fp, ns, targets));
    ItemIs(fp, utilityOnly, n, Left(fp, ns, targets), next);
    forall m: nat | Serves(targets, fp(n), taken, m) ensures found == Some(m) {
    }
  }

  /** The first target left with the fingerprint is the one that serves. */
  lemma FindServes<T>(targets: seq<Target<T>>, fp: nat, taken: seq<Option<nat>>, idx: seq<nat>, left: seq<Target<T>>)
    returns (found: Option<nat>)
    requires Picks(targets, idx, left) && Unserved(targets, taken, |taken|, idx)
    ensures forall m: nat :: Serves(targets, fp, taken, m) ==> found == Some(m)
    ensures match FindTarget(left, fp)
            case None => found == None
            case Some(p) => found.Some? && Serves(targets, fp, taken, found.value) && targets[found.value] == left[p]
  {
    FirstLeft(fp, targets, taken, idx, left);
    hide Picks, Unserved, Served, FindTarget;
    found := match FindTarget(left, fp) case None => None case Some(p) => Some(idx[p]);
    forall m: nat | Serves(targets, fp, taken, m) ensures found == Some(m) {
      if found.Some? {
        OneServes(targets, fp, taken, m, found.value);
      }
    }
  }

  lemma ItemIs(fp: Node -> nat, utilityOnly: bool, n: Node, targets: seq<Target<seq<int>>>, next: int)
    ensures var item, places := EntriesItem(fp, utilityOnly, n, targets, next), Places(Leaves(n, utilityOnly));
            var found := FindTarget(targets, fp(n));
            && (IsIntegerConst(n) ==> item == [])
            && (!IsIntegerConst(n) && (found.None? || |targets[found.value].refs| != |places|) ==>
                  item == Entries(fp, utilityOnly, n, next))
            && (!IsIntegerConst(n) && found.Some? && |targets[found.value].refs| == |places| ==>
                  |item| == |places|
                  && forall i :: 0 <= i < |places| ==> item[i] == Location(places[i], targets[found.value].refs[i]))
  {
    hide Entries, Leaves, Places, FindTarget;
  }

  lemma OneServes<T>(targets: seq<Target<T>>, fp: nat, taken: seq<Option<nat>>, m: nat, m': nat)
    requires Serves(targets, fp, taken, m) && Serves(targets, fp, taken, m')
    ensures m == m'
  {
  }

  /** The items of a GROUP BY clause record one after the other. */
  lemma NextItem(fp: Node -> nat, utilityOnly: bool, ns: seq<Node>, n: Node, targets: seq<Target<seq<int>>>, next: int)
    ensures EntriesGroup(fp, utilityOnly, ns + [n], targets, next)
         == EntriesGroup(fp, utilityOnly, ns, targets, next)
            + EntriesItem(fp, utilityOnly, n, Left(fp, ns, targets), next + ConsumedGroup(fp, utilityOnly, ns, Counts(targets)))
  {
    hide EntriesItem, Left, ConsumedGroup;
    assert (ns + [n])[..|ns|] == ns && (ns + [n])[|ns|] == n;
  }
}
