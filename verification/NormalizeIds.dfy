/**
 The ids that `RecordConstLocation` and `const_record_walker` give to the constants of a query.

 Constants take fresh negative ids -1, -2, ...; a GROUP BY item with the fingerprint of a target
 gives its fresh ids back and takes over those recorded for the target. `Entries` says which ids
 come out, for any fingerprint function.
 */
module NormalizeIds {
  import opened Common

  /** One entry of `clocations`. */
  datatype Location = Location(location: nat, id: int)

  /**
   What the walker sees of a parse tree. `Marked` records a location of its own (-1 for none)
   before its children; `Guarded` statements are left alone when only utility statements are
   normalised; a `TypeName` is never entered.
   */
  datatype Node =
    | Const(location: int, isInteger: bool)
    | Param(number: nat)
    | TypeName
    | Plain(children: seq<Node>)
    | Marked(location: int, children: seq<Node>)
    | Guarded(children: seq<Node>)
    | Select(first: seq<Node>, targets: seq<Node>, middle: seq<Node>, group: seq<Node>, sort: seq<Node>, rest: seq<Node>)

  predicate IsIntegerConst(n: Node) {
    n.Const? && n.isInteger
  }

  /** What the walker takes note of: a constant that has a location, or a parameter. */
  datatype Leaf = At(location: nat) | Number(number: nat)

  function LocationLeaf(location: int): seq<Leaf> {
    if location >= 0 then [At(location)] else []
  }

  /** The leaves in walking order; simple integers of GROUP BY and ORDER BY are passed over. */
  function Leaves(n: Node, utilityOnly: bool): seq<Leaf>
    decreases n, 0
  {
    match n
    case Const(location, _) => LocationLeaf(location)
    case Param(number) => [Number(number)]
    case TypeName => []
    case Plain(children) => AllLeaves(children, utilityOnly, false)
    case Marked(location, children) => LocationLeaf(location) + AllLeaves(children, utilityOnly, false)
    case Guarded(children) => if utilityOnly then [] else AllLeaves(children, utilityOnly, false)
    case Select(first, targets, middle, group, sort, rest) =>
      if utilityOnly then []
      else ((((AllLeaves(first, utilityOnly, false) + AllLeaves(targets, utilityOnly, false))
              + AllLeaves(middle, utilityOnly, false)) + AllLeaves(group, utilityOnly, true))
            + AllLeaves(sort, utilityOnly, true)) + AllLeaves(rest, utilityOnly, false)
  }

  function AllLeaves(ns: seq<Node>, utilityOnly: bool, skipIntegers: bool): seq<Leaf>
    decreases ns, 1
  {
    if ns == [] then []
    else AllLeaves(ns[..|ns| - 1], utilityOnly, skipIntegers) + LeavesIn(ns[|ns| - 1], utilityOnly, skipIntegers)
  }

  /** The leaves of a list element. */
  function LeavesIn(n: Node, utilityOnly: bool, skipIntegers: bool): seq<Leaf>
    decreases n, 1
  {
    if skipIntegers && IsIntegerConst(n) then [] else Leaves(n, utilityOnly)
  }

  /** The node contains a SELECT with a target list that the walker enters. */
  predicate HasTargets(n: Node, utilityOnly: bool)
    decreases n, 0
  {
    match n
    case Plain(children) => SomeHasTargets(children, utilityOnly)
    case Marked(_, children) => SomeHasTargets(children, utilityOnly)
    case Guarded(children) => !utilityOnly && SomeHasTargets(children, utilityOnly)
    case Select(first, targets, middle, group, sort, rest) =>
      !utilityOnly
      && (targets != [] || SomeHasTargets(first, utilityOnly) || SomeHasTargets(middle, utilityOnly)
          || SomeHasTargets(group, utilityOnly) || SomeHasTargets(sort, utilityOnly) || SomeHasTargets(rest, utilityOnly))
    case _ => false
  }

  predicate SomeHasTargets(ns: seq<Node>, utilityOnly: bool)
    decreases ns, 1
  {
    ns != [] && (SomeHasTargets(ns[..|ns| - 1], utilityOnly) || HasTargets(ns[|ns| - 1], utilityOnly))
  }

  // ----- what the leaves stand for -----

  /** The constants of the leaves with consecutive fresh ids. */
  function Fresh(leaves: seq<Leaf>, next: int): seq<Location> {
    if leaves == [] then []
    else
      var front, last := leaves[..|leaves| - 1], leaves[|leaves| - 1];
      Fresh(front, next) + if last.At? then [Location(last.location, -(next + Constants(front)))] else []
  }

  /** The ids and parameter numbers of the leaves in order. */
  function Refs(leaves: seq<Leaf>, next: int): seq<int> {
    if leaves == [] then []
    else
      var front, last := leaves[..|leaves| - 1], leaves[|leaves| - 1];
      Refs(front, next) + [if last.At? then -(next + Constants(front)) else last.number]
  }

  function Constants(leaves: seq<Leaf>): nat {
    if leaves == [] then 0 else Constants(leaves[..|leaves| - 1]) + if leaves[|leaves| - 1].At? then 1 else 0
  }

  function Places(leaves: seq<Leaf>): seq<nat> {
    if leaves == [] then []
    else Places(leaves[..|leaves| - 1]) + if leaves[|leaves| - 1].At? then [leaves[|leaves| - 1].location] else []
  }

  /** The highest parameter number among the leaves and `extern`. */
  function HighestParam(leaves: seq<Leaf>, extern: nat): nat {
    if leaves == [] then extern
    else
      var front, last := HighestParam(leaves[..|leaves| - 1], extern), leaves[|leaves| - 1];
      if last.Number? && last.number > front then last.number else front
  }

  lemma {:induction false} ConstantsAppend(a: seq<Leaf>, b: seq<Leaf>, extern: nat)
    ensures Constants(a + b) == Constants(a) + Constants(b)
    ensures HighestParam(a + b, extern) == HighestParam(b, HighestParam(a, extern))
  {
    if b == [] {
      assert a + b == a;
    } else {
      var n := |b| - 1;
      assert (a + b)[..|a + b| - 1] == a + b[..n] && (a + b)[|a + b| - 1] == b[n];
      ConstantsAppend(a, b[..n], extern);
    }
  }

  lemma {:induction false} PlacesAppend(a: seq<Leaf>, b: seq<Leaf>)
    ensures Places(a + b) == Places(a) + Places(b)
  {
    if b == [] {
      assert a + b == a;
    } else {
      var n := |b| - 1;
      assert (a + b)[..|a + b| - 1] == a + b[..n] && (a + b)[|a + b| - 1] == b[n];
      PlacesAppend(a, b[..n]);
    }
  }

  lemma {:induction false} FreshAppend(a: seq<Leaf>, b: seq<Leaf>, next: int)
    ensures Fresh(a + b, next) == Fresh(a, next) + Fresh(b, next + Constants(a))
  {
    if b == [] {
      assert a + b == a;
    } else {
      var n := |b| - 1;
      assert (a + b)[..|a + b| - 1] == a + b[..n] && (a + b)[|a + b| - 1] == b[n];
      ConstantsAppend(a, b[..n], 0);
      FreshAppend(a, b[..n], next);
    }
  }

  lemma {:induction false} RefsAppend(a: seq<Leaf>, b: seq<Leaf>, next: int)
    ensures Refs(a + b, next) == Refs(a, next) + Refs(b, next + Constants(a))
  {
    if b == [] {
      assert a + b == a;
    } else {
      var n := |b| - 1;
      assert (a + b)[..|a + b| - 1] == a + b[..n] && (a + b)[|a + b| - 1] == b[n];
      ConstantsAppend(a, b[..n], 0);
      RefsAppend(a, b[..n], next);
    }
  }

  lemma LeavesAppend(a: seq<Leaf>, b: seq<Leaf>, next: int, extern: nat)
    ensures Constants(a + b) == Constants(a) + Constants(b)
    ensures Places(a + b) == Places(a) + Places(b)
    ensures Fresh(a + b, next) == Fresh(a, next) + Fresh(b, next + Constants(a))
    ensures Refs(a + b, next) == Refs(a, next) + Refs(b, next + Constants(a))
    ensures HighestParam(a + b, extern) == HighestParam(b, HighestParam(a, extern))
  {
    hide *;
    ConstantsAppend(a, b, extern);
    PlacesAppend(a, b);
    FreshAppend(a, b, next);
    RefsAppend(a, b, next);
  }

  lemma Grouping<T>(x: seq<T>, y: seq<T>, z: seq<T>)
    ensures (x + y) + z == x + (y + z)
  {
  }

  lemma {:induction false} FreshFacts(leaves: seq<Leaf>, next: int)
    ensures |Fresh(leaves, next)| == Constants(leaves) == |Places(leaves)|
    ensures forall i :: 0 <= i < Constants(leaves) ==>
              Fresh(leaves, next)[i] == Location(Places(leaves)[i], -(next + i))
    ensures |Refs(leaves, next)| == |leaves|
  {
    if leaves != [] {
      FreshFacts(leaves[..|leaves| - 1], next);
    }
  }

  // ----- the invariant of the numbering -----

  ghost predicate HasId(clocations: seq<Location>, id: int) {
    exists i :: 0 <= i < |clocations| && clocations[i].id == id
  }

  ghost predicate IdsAbove(clocations: seq<Location>, next: int) {
    forall i :: 0 <= i < |clocations| ==> 0 - next < clocations[i].id
  }

  /** The negative ids in use are exactly -1 .. -(next - 1). */
  ghost predicate Numbered(clocations: seq<Location>, next: int) {
    next >= 1 && IdsAbove(clocations, next) && forall id :: 0 - next < id < 0 ==> HasId(clocations, id)
  }

  lemma IdsAppend(a: seq<Location>, b: seq<Location>, id: int)
    ensures HasId(a + b, id) <==> HasId(a, id) || HasId(b, id)
  {
    if HasId(a, id) {
      var i :| 0 <= i < |a| && a[i].id == id;
      assert (a + b)[i].id == id;
    }
    if HasId(b, id) {
      var i :| 0 <= i < |b| && b[i].id == id;
      assert (a + b)[|a| + i].id == id;
    }
    if HasId(a + b, id) {
      var i :| 0 <= i < |a + b| && (a + b)[i].id == id;
      assert if i < |a| then a[i].id == id else b[i - |a|].id == id;
    }
  }

  /** Fresh ids extend the range in use. */
  lemma NumberedFresh(clocations: seq<Location>, leaves: seq<Leaf>, next: int)
    requires Numbered(clocations, next)
    ensures Numbered(clocations + Fresh(leaves, next), next + Constants(leaves))
  {
    FreshFacts(leaves, next);
    var fresh', k := Fresh(leaves, next), Constants(leaves);
    forall id | 0 - (next + k) < id < 0 ensures HasId(clocations + fresh', id) {
      IdsAppend(clocations, fresh', id);
      if id <= 0 - next {
        assert fresh'[0 - id - next].id == id;
      }
    }
    hide Fresh, Constants;
  }

  /** Ids that are in use already leave the range as it is. */
  lemma NumberedReuse(clocations: seq<Location>, more: seq<Location>, next: int)
    requires Numbered(clocations, next) && IdsAbove(more, next)
    ensures Numbered(clocations + more, next)
  {
    forall id | 0 - next < id < 0 ensures HasId(clocations + more, id) {
      IdsAppend(clocations, more, id);
    }
  }

  // ----- the ids that a walk gives out -----

  /** What is remembered of a target: its fingerprint and the ids recorded in it, or how many. */
  datatype Target<T> = Target(fp: nat, refs: T)

  /** The position of the first target with this fingerprint. */
  function FindTarget<T>(targets: seq<Target<T>>, fp: nat): (r: Option<nat>)
    ensures r.Some? ==> r.value < |targets| && targets[r.value].fp == fp
                        && forall i :: 0 <= i < r.value ==> targets[i].fp != fp
    ensures r.None? ==> forall i :: 0 <= i < |targets| ==> targets[i].fp != fp
  {
    if targets == [] then None
    else if targets[0].fp == fp then Some(0)
    else match FindTarget(targets[1..], fp) case None => None case Some(i) => Some(i + 1)
  }

  /** The targets that are left when the first one with this fingerprint has been used up. */
  function UsedUp<T>(targets: seq<Target<T>>, fp: nat): seq<Target<T>> {
    match FindTarget(targets, fp) case None => targets case Some(m) => targets[..m] + targets[m + 1..]
  }

  /** The targets that are left after the GROUP BY items `ns`. */
  function Left<T>(fp: Node -> nat, ns: seq<Node>, targets: seq<Target<T>>): seq<Target<T>> {
    if ns == [] then targets
    else
      var front, last := Left(fp, ns[..|ns| - 1], targets), ns[|ns| - 1];
      LeftAfter(fp, last, front)
  }

  function LeftAfter<T>(fp: Node -> nat, n: Node, targets: seq<Target<T>>): seq<Target<T>> {
    if IsIntegerConst(n) then targets else UsedUp(targets, fp(n))
  }

  /** How many ids each target offers: none once a target list within it has stopped the recording. */
  function Offers(fp: Node -> nat, utilityOnly: bool, targets: seq<Node>): (offers: seq<Target<nat>>)
    ensures |offers| == |targets|
    ensures forall i :: 0 <= i < |offers| ==> offers[i] == OfferOf(fp, utilityOnly, targets[i])
  {
    seq(|targets|, i requires 0 <= i < |targets| => OfferOf(fp, utilityOnly, targets[i]))
  }

  function OfferOf(fp: Node -> nat, utilityOnly: bool, n: Node): Target<nat> {
    Target(fp(n), if HasTargets(n, utilityOnly) then 0 else |Leaves(n, utilityOnly)|)
  }

  function Counts(targets: seq<Target<seq<int>>>): (offers: seq<Target<nat>>)
    ensures |offers| == |targets|
    ensures forall i :: 0 <= i < |offers| ==> offers[i] == Target(targets[i].fp, |targets[i].refs|)
  {
    seq(|targets|, i requires 0 <= i < |targets| => Target(targets[i].fp, |targets[i].refs|))
  }

  /** The ids that a GROUP BY item gives back: as many as it takes over. */
  function Given(fp: Node -> nat, utilityOnly: bool, n: Node, offers: seq<Target<nat>>): nat {
    match FindTarget(offers, fp(n))
    case None => 0
    case Some(m) => if offers[m].refs == |Places(Leaves(n, utilityOnly))| then offers[m].refs else 0
  }

  /** By how much the next fresh id moves on: the ids taken less those given back. */
  function Consumed(fp: Node -> nat, utilityOnly: bool, n: Node): int
    decreases n, 0
  {
    match n
    case Const(location, _) => Constants(LocationLeaf(location))
    case Param(_) => 0
    case TypeName => 0
    case Plain(children) => ConsumedAll(fp, utilityOnly, children, false)
    case Marked(location, children) => Constants(LocationLeaf(location)) + ConsumedAll(fp, utilityOnly, children, false)
    case Guarded(children) => if utilityOnly then 0 else ConsumedAll(fp, utilityOnly, children, false)
    case Select(first, targets, middle, group, sort, rest) =>
      if utilityOnly then 0
      else ((((ConsumedAll(fp, utilityOnly, first, false) + ConsumedAll(fp, utilityOnly, targets, false))
              + ConsumedAll(fp, utilityOnly, middle, false))
             + ConsumedGroup(fp, utilityOnly, group, Offers(fp, utilityOnly, targets)))
            + ConsumedAll(fp, utilityOnly, sort, true)) + ConsumedAll(fp, utilityOnly, rest, false)
  }

  function ConsumedAll(fp: Node -> nat, utilityOnly: bool, ns: seq<Node>, skipIntegers: bool): int
    decreases ns, 1
  {
    if ns == [] then 0
    else ConsumedAll(fp, utilityOnly, ns[..|ns| - 1], skipIntegers) + ConsumedIn(fp, utilityOnly, ns[|ns| - 1], skipIntegers)
  }

  function ConsumedIn(fp: Node -> nat, utilityOnly: bool, n: Node, skipIntegers: bool): int
    decreases n, 1
  {
    if skipIntegers && IsIntegerConst(n) then 0 else Consumed(fp, utilityOnly, n)
  }

  function ConsumedGroup(fp: Node -> nat, utilityOnly: bool, ns: seq<Node>, offers: seq<Target<nat>>): int
    decreases ns, 1
  {
    if ns == [] then 0
    else
      var front, last := ns[..|ns| - 1], ns[|ns| - 1];
      ConsumedGroup(fp, utilityOnly, front, offers) + ConsumedItem(fp, utilityOnly, last, Left(fp, front, offers))
  }

  function ConsumedItem(fp: Node -> nat, utilityOnly: bool, n: Node, offers: seq<Target<nat>>): int
    decreases n, 1
  {
    if IsIntegerConst(n) then 0 else Consumed(fp, utilityOnly, n) - Given(fp, utilityOnly, n, offers)
  }

  /** What is remembered of the targets `ns` when their walk begins at the fresh id `next`. */
  function Remembered(fp: Node -> nat, utilityOnly: bool, ns: seq<Node>, next: int): (targets: seq<Target<seq<int>>>)
    ensures |targets| == |ns|
  {
    if ns == [] then []
    else
      var front, last := ns[..|ns| - 1], ns[|ns| - 1];
      Remembered(fp, utilityOnly, front, next)
      + [RememberedOne(fp, utilityOnly, last, next + ConsumedAll(fp, utilityOnly, front, false))]
  }

  function RememberedOne(fp: Node -> nat, utilityOnly: bool, n: Node, next: int): Target<seq<int>> {
    Target(fp(n), if HasTargets(n, utilityOnly) then [] else Refs(Leaves(n, utilityOnly), next))
  }

  /** The ids recorded in the first target with this fingerprint. */
  function RefsFound(targets: seq<Target<seq<int>>>, fp: nat): Option<seq<int>> {
    match FindTarget(targets, fp) case None => None case Some(m) => Some(targets[m].refs)
  }

  /** The ids that a GROUP BY item takes over, if its target recorded as many as the item has constants. */
  function TakenOver(fp: Node -> nat, utilityOnly: bool, n: Node, targets: seq<Target<seq<int>>>): (r: Option<seq<int>>)
    ensures r.Some? ==> |r.value| == |Places(Leaves(n, utilityOnly))|
  {
    match RefsFound(targets, fp(n))
    case None => None
    case Some(refs) => if |refs| == |Places(Leaves(n, utilityOnly))| then Some(refs) else None
  }

  /** The new constants of a group item with the ids of its target. */
  function Reused(places: seq<nat>, refs: seq<int>): (r: seq<Location>)
    requires |places| == |refs|
    ensures |r| == |places| && forall i :: 0 <= i < |r| ==> r[i] == Location(places[i], refs[i])
  {
    seq(|places|, i requires 0 <= i < |places| => Location(places[i], refs[i]))
  }

  /** The locations and ids that the walk over a node records when it begins at the fresh id `next`. */
  function Entries(fp: Node -> nat, utilityOnly: bool, n: Node, next: int): seq<Location>
    decreases n, 0
  {
    match n
    case Const(location, _) => Fresh(LocationLeaf(location), next)
    case Param(_) => []
    case TypeName => []
    case Plain(children) => EntriesAll(fp, utilityOnly, children, false, next)
    case Marked(location, children) =>
      Fresh(LocationLeaf(location), next)
      + EntriesAll(fp, utilityOnly, children, false, next + Constants(LocationLeaf(location)))
    case Guarded(children) => if utilityOnly then [] else EntriesAll(fp, utilityOnly, children, false, next)
    case Select(first, targets, middle, group, sort, rest) =>
      if utilityOnly then []
      else
        var next1 := next + ConsumedAll(fp, utilityOnly, first, false);
        var next2 := next1 + ConsumedAll(fp, utilityOnly, targets, false);
        var next3 := next2 + ConsumedAll(fp, utilityOnly, middle, false);
        var next4 := next3 + ConsumedGroup(fp, utilityOnly, group, Offers(fp, utilityOnly, targets));
        var next5 := next4 + ConsumedAll(fp, utilityOnly, sort, true);
        ((((EntriesAll(fp, utilityOnly, first, false, next) + EntriesAll(fp, utilityOnly, targets, false, next1))
           + EntriesAll(fp, utilityOnly, middle, false, next2))
          + EntriesGroup(fp, utilityOnly, group, Remembered(fp, utilityOnly, targets, next1), next3))
         + EntriesAll(fp, utilityOnly, sort, true, next4)) + EntriesAll(fp, utilityOnly, rest, false, next5)
  }

  function EntriesAll(fp: Node -> nat, utilityOnly: bool, ns: seq<Node>, skipIntegers: bool, next: int): seq<Location>
    decreases ns, 1
  {
    if ns == [] then []
    else
      var front, last := ns[..|ns| - 1], ns[|ns| - 1];
      EntriesAll(fp, utilityOnly, front, skipIntegers, next)
      + EntriesIn(fp, utilityOnly, last, skipIntegers, next + ConsumedAll(fp, utilityOnly, front, skipIntegers))
  }

  function EntriesIn(fp: Node -> nat, utilityOnly: bool, n: Node, skipIntegers: bool, next: int): seq<Location>
    decreases n, 1
  {
    if skipIntegers && IsIntegerConst(n) then [] else Entries(fp, utilityOnly, n, next)
  }

  function EntriesGroup(fp: Node -> nat, utilityOnly: bool, ns: seq<Node>, targets: seq<Target<seq<int>>>, next: int): seq<Location>
    decreases ns, 1
  {
    if ns == [] then []
    else
      var front, last := ns[..|ns| - 1], ns[|ns| - 1];
      EntriesGroup(fp, utilityOnly, front, targets, next)
      + EntriesItem(fp, utilityOnly, last, Left(fp, front, targets), next + ConsumedGroup(fp, utilityOnly, front, Counts(targets)))
  }

  function EntriesItem(fp: Node -> nat, utilityOnly: bool, n: Node, targets: seq<Target<seq<int>>>, next: int): seq<Location>
    decreases n, 1
  {
    if IsIntegerConst(n) then []
    else match TakenOver(fp, utilityOnly, n, targets)
      case Some(refs) => Reused(Places(Leaves(n, utilityOnly)), refs)
      case None => Entries(fp, utilityOnly, n, next)
  }

  /** No GROUP BY item of a SELECT that is entered gives back more ids than it has taken. */
  predicate Sound(fp: Node -> nat, utilityOnly: bool, n: Node)
    decreases n, 0
  {
    match n
    case Plain(children) => SoundAll(fp, utilityOnly, children)
    case Marked(_, children) => SoundAll(fp, utilityOnly, children)
    case Guarded(children) => utilityOnly || SoundAll(fp, utilityOnly, children)
    case Select(first, targets, middle, group, sort, rest) =>
      utilityOnly
      || (SoundAll(fp, utilityOnly, first) && SoundAll(fp, utilityOnly, targets) && SoundAll(fp, utilityOnly, middle)
          && SoundGroup(fp, utilityOnly, group, Offers(fp, utilityOnly, targets))
          && SoundAll(fp, utilityOnly, sort) && SoundAll(fp, utilityOnly, rest))
    case _ => true
  }

  predicate SoundAll(fp: Node -> nat, utilityOnly: bool, ns: seq<Node>)
    decreases ns, 1
  {
    ns == [] || (SoundAll(fp, utilityOnly, ns[..|ns| - 1]) && Sound(fp, utilityOnly, ns[|ns| - 1]))
  }

  predicate SoundGroup(fp: Node -> nat, utilityOnly: bool, ns: seq<Node>, offers: seq<Target<nat>>)
    decreases ns, 1
  {
    ns == []
    || (var front, last := ns[..|ns| - 1], ns[|ns| - 1];
        SoundGroup(fp, utilityOnly, front, offers) && SoundItem(fp, utilityOnly, last, Left(fp, front, offers)))
  }

  predicate SoundItem(fp: Node -> nat, utilityOnly: bool, n: Node, offers: seq<Target<nat>>)
    decreases n, 1
  {
    Sound(fp, utilityOnly, n) && (IsIntegerConst(n) || Given(fp, utilityOnly, n, offers) <= Consumed(fp, utilityOnly, n))
  }

  // ----- one element of a list at a time -----

  lemma SelectIs(fp: Node -> nat, utilityOnly: bool, n: Node, next: int)
    requires n.Select? && !utilityOnly
    ensures Leaves(n, utilityOnly)
         == ((((AllLeaves(n.first, utilityOnly, false) + AllLeaves(n.targets, utilityOnly, false))
               + AllLeaves(n.middle, utilityOnly, false)) + AllLeaves(n.group, utilityOnly, true))
             + AllLeaves(n.sort, utilityOnly, true)) + AllLeaves(n.rest, utilityOnly, false)
    ensures HasTargets(n, utilityOnly)
         == (SomeHasTargets(n.first, utilityOnly) || n.targets != [] || SomeHasTargets(n.middle, utilityOnly)
             || SomeHasTargets(n.group, utilityOnly) || SomeHasTargets(n.sort, utilityOnly) || SomeHasTargets(n.rest, utilityOnly))
    ensures Sound(fp, utilityOnly, n)
         == (SoundAll(fp, utilityOnly, n.first) && SoundAll(fp, utilityOnly, n.targets) && SoundAll(fp, utilityOnly, n.middle)
             && SoundGroup(fp, utilityOnly, n.group, Offers(fp, utilityOnly, n.targets))
             && SoundAll(fp, utilityOnly, n.sort) && SoundAll(fp, utilityOnly, n.rest))
    ensures var c1, c2 := ConsumedAll(fp, utilityOnly, n.first, false), ConsumedAll(fp, utilityOnly, n.targets, false);
            var c3 := ConsumedAll(fp, utilityOnly, n.middle, false);
            var c4 := ConsumedGroup(fp, utilityOnly, n.group, Offers(fp, utilityOnly, n.targets));
            var c5, c6 := ConsumedAll(fp, utilityOnly, n.sort, true), ConsumedAll(fp, utilityOnly, n.rest, false);
            && Consumed(fp, utilityOnly, n) == ((((c1 + c2) + c3) + c4) + c5) + c6
            && Entries(fp, utilityOnly, n, next)
               == ((((EntriesAll(fp, utilityOnly, n.first, false, next) + EntriesAll(fp, utilityOnly, n.targets, false, next + c1))
                     + EntriesAll(fp, utilityOnly, n.middle, false, next + c1 + c2))
                    + EntriesGroup(fp, utilityOnly, n.group, Remembered(fp, utilityOnly, n.targets, next + c1), next + c1 + c2 + c3))
                   + EntriesAll(fp, utilityOnly, n.sort, true, next + c1 + c2 + c3 + c4))
                  + EntriesAll(fp, utilityOnly, n.rest, false, next + c1 + c2 + c3 + c4 + c5)
  {
    hide AllLeaves, SomeHasTargets, SoundAll, SoundGroup, Offers, ConsumedAll, ConsumedGroup, EntriesAll, EntriesGroup, Remembered;
  }

  lemma NoNodes(fp: Node -> nat, utilityOnly: bool, ns: seq<Node>, skipIntegers: bool, next: int)
    ensures AllLeaves(ns[..0], utilityOnly, skipIntegers) == [] && !SomeHasTargets(ns[..0], utilityOnly)
    ensures EntriesAll(fp, utilityOnly, ns[..0], skipIntegers, next) == [] && ConsumedAll(fp, utilityOnly, ns[..0], skipIntegers) == 0
    ensures SoundAll(fp, utilityOnly, ns[..0]) && Remembered(fp, utilityOnly, ns[..0], next) == [] && ns[..|ns|] == ns
  {
  }

  lemma NoItems(fp: Node -> nat, utilityOnly: bool, ns: seq<Node>, all: seq<Target<seq<int>>>, next: int)
    ensures EntriesGroup(fp, utilityOnly, ns[..0], all, next) == [] && ConsumedGroup(fp, utilityOnly, ns[..0], Counts(all)) == 0
    ensures SoundGroup(fp, utilityOnly, ns[..0], Counts(all)) && Left(fp, ns[..0], all) == all
  {
  }

  lemma NodeIn(fp: Node -> nat, utilityOnly: bool, n: Node, skipIntegers: bool, next: int)
    ensures if skipIntegers && IsIntegerConst(n)
            then
              && LeavesIn(n, utilityOnly, skipIntegers) == [] && EntriesIn(fp, utilityOnly, n, skipIntegers, next) == []
              && ConsumedIn(fp, utilityOnly, n, skipIntegers) == 0 && Sound(fp, utilityOnly, n) && !HasTargets(n, utilityOnly)
            else
              && LeavesIn(n, utilityOnly, skipIntegers) == Leaves(n, utilityOnly)
              && EntriesIn(fp, utilityOnly, n, skipIntegers, next) == Entries(fp, utilityOnly, n, next)
              && ConsumedIn(fp, utilityOnly, n, skipIntegers) == Consumed(fp, utilityOnly, n)
  {
    hide Leaves, Entries, Consumed;
  }

  lemma ItemIn(fp: Node -> nat, utilityOnly: bool, n: Node, targets: seq<Target<seq<int>>>, next: int)
    ensures if IsIntegerConst(n)
            then
              && LeavesIn(n, utilityOnly, true) == [] && EntriesItem(fp, utilityOnly, n, targets, next) == []
              && ConsumedItem(fp, utilityOnly, n, Counts(targets)) == 0 && SoundItem(fp, utilityOnly, n, Counts(targets))
              && LeftAfter(fp, n, targets) == targets && !HasTargets(n, utilityOnly)
            else LeavesIn(n, utilityOnly, true) == Leaves(n, utilityOnly) && LeftAfter(fp, n, targets) == UsedUp(targets, fp(n))
  {
    hide Leaves, Entries, Consumed, UsedUp, Given, TakenOver;
  }

  lemma LastLeaves(ns: seq<Node>, utilityOnly: bool, skipIntegers: bool)
    requires ns != []
    ensures var k := |ns| - 1;
            && AllLeaves(ns, utilityOnly, skipIntegers)
               == AllLeaves(ns[..k], utilityOnly, skipIntegers) + LeavesIn(ns[k], utilityOnly, skipIntegers)
            && SomeHasTargets(ns, utilityOnly) == (SomeHasTargets(ns[..k], utilityOnly) || HasTargets(ns[k], utilityOnly))
  {
    hide LeavesIn, HasTargets;
  }

  lemma LastEntries(fp: Node -> nat, utilityOnly: bool, ns: seq<Node>, skipIntegers: bool, next: int)
    requires ns != []
    ensures var k := |ns| - 1;
            var c := ConsumedAll(fp, utilityOnly, ns[..k], skipIntegers);
            && EntriesAll(fp, utilityOnly, ns, skipIntegers, next)
               == EntriesAll(fp, utilityOnly, ns[..k], skipIntegers, next) + EntriesIn(fp, utilityOnly, ns[k], skipIntegers, next + c)
            && ConsumedAll(fp, utilityOnly, ns, skipIntegers) == c + ConsumedIn(fp, utilityOnly, ns[k], skipIntegers)
  {
    hide EntriesIn, ConsumedIn;
  }

  lemma LastSound(fp: Node -> nat, utilityOnly: bool, ns: seq<Node>, next: int)
    requires ns != []
    ensures var k := |ns| - 1;
            && SoundAll(fp, utilityOnly, ns) == (SoundAll(fp, utilityOnly, ns[..k]) && Sound(fp, utilityOnly, ns[k]))
            && Remembered(fp, utilityOnly, ns, next)
               == Remembered(fp, utilityOnly, ns[..k], next)
                  + [RememberedOne(fp, utilityOnly, ns[k], next + ConsumedAll(fp, utilityOnly, ns[..k], false))]
  {
    hide Sound, RememberedOne, ConsumedAll;
  }

  lemma NextNode(fp: Node -> nat, utilityOnly: bool, ns: seq<Node>, i: nat, skipIntegers: bool, next: int)
    requires i < |ns|
    ensures var c := ConsumedAll(fp, utilityOnly, ns[..i], skipIntegers);
            && AllLeaves(ns[..i + 1], utilityOnly, skipIntegers)
               == AllLeaves(ns[..i], utilityOnly, skipIntegers) + LeavesIn(ns[i], utilityOnly, skipIntegers)
            && EntriesAll(fp, utilityOnly, ns[..i + 1], skipIntegers, next)
               == EntriesAll(fp, utilityOnly, ns[..i], skipIntegers, next) + EntriesIn(fp, utilityOnly, ns[i], skipIntegers, next + c)
            && ConsumedAll(fp, utilityOnly, ns[..i + 1], skipIntegers) == c + ConsumedIn(fp, utilityOnly, ns[i], skipIntegers)
    ensures SomeHasTargets(ns[..i + 1], utilityOnly) == (SomeHasTargets(ns[..i], utilityOnly) || HasTargets(ns[i], utilityOnly))
    ensures SoundAll(fp, utilityOnly, ns[..i + 1]) == (SoundAll(fp, utilityOnly, ns[..i]) && Sound(fp, utilityOnly, ns[i]))
    ensures Remembered(fp, utilityOnly, ns[..i + 1], next)
         == Remembered(fp, utilityOnly, ns[..i], next)
            + [RememberedOne(fp, utilityOnly, ns[i], next + ConsumedAll(fp, utilityOnly, ns[..i], false))]
  {
    hide *;
    var more := ns[..i + 1];
    assert more[..|more| - 1] == ns[..i] && more[|more| - 1] == ns[i];
    LastLeaves(more, utilityOnly, skipIntegers);
    LastEntries(fp, utilityOnly, more, skipIntegers, next);
    LastSound(fp, utilityOnly, more, next);
  }

  lemma LastItem(fp: Node -> nat, utilityOnly: bool, ns: seq<Node>, all: seq<Target<seq<int>>>, next: int)
    requires ns != []
    ensures var k := |ns| - 1;
            && EntriesGroup(fp, utilityOnly, ns, all, next)
               == EntriesGroup(fp, utilityOnly, ns[..k], all, next)
                  + EntriesItem(fp, utilityOnly, ns[k], Left(fp, ns[..k], all),
                                next + ConsumedGroup(fp, utilityOnly, ns[..k], Counts(all)))
            && Left(fp, ns, all) == LeftAfter(fp, ns[k], Left(fp, ns[..k], all))
  {
    hide EntriesItem, ConsumedGroup, LeftAfter, Counts;
  }

  lemma LastCounts(fp: Node -> nat, utilityOnly: bool, ns: seq<Node>, offers: seq<Target<nat>>)
    requires ns != []
    ensures var k := |ns| - 1;
            var left := Left(fp, ns[..k], offers);
            && ConsumedGroup(fp, utilityOnly, ns, offers)
               == ConsumedGroup(fp, utilityOnly, ns[..k], offers) + ConsumedItem(fp, utilityOnly, ns[k], left)
            && SoundGroup(fp, utilityOnly, ns, offers)
               == (SoundGroup(fp, utilityOnly, ns[..k], offers) && SoundItem(fp, utilityOnly, ns[k], left))
  {
    hide ConsumedItem, SoundItem, Left;
  }

  lemma NextItem(fp: Node -> nat, utilityOnly: bool, ns: seq<Node>, i: nat, all: seq<Target<seq<int>>>, next: int)
    requires i < |ns|
    ensures var c, left := ConsumedGroup(fp, utilityOnly, ns[..i], Counts(all)), Left(fp, ns[..i], Counts(all));
            && EntriesGroup(fp, utilityOnly, ns[..i + 1], all, next)
               == EntriesGroup(fp, utilityOnly, ns[..i], all, next)
                  + EntriesItem(fp, utilityOnly, ns[i], Left(fp, ns[..i], all), next + c)
            && ConsumedGroup(fp, utilityOnly, ns[..i + 1], Counts(all)) == c + ConsumedItem(fp, utilityOnly, ns[i], left)
            && SoundGroup(fp, utilityOnly, ns[..i + 1], Counts(all))
               == (SoundGroup(fp, utilityOnly, ns[..i], Counts(all)) && SoundItem(fp, utilityOnly, ns[i], left))
    ensures Left(fp, ns[..i + 1], all) == LeftAfter(fp, ns[i], Left(fp, ns[..i], all))
  {
    hide *;
    var more := ns[..i + 1];
    assert more[..|more| - 1] == ns[..i] && more[|more| - 1] == ns[i];
    LastItem(fp, utilityOnly, more, all, next);
    LastCounts(fp, utilityOnly, more, Counts(all));
  }

  // ----- counting targets instead of looking at their ids -----

  lemma {:induction false} FindCounts(targets: seq<Target<seq<int>>>, fp: nat)
    ensures FindTarget(Counts(targets), fp) == FindTarget(targets, fp)
  {
    if targets != [] {
      assert Counts(targets)[1..] == Counts(targets[1..]);
      FindCounts(targets[1..], fp);
    }
  }

  lemma UsedCounts(targets: seq<Target<seq<int>>>, fp: nat)
    ensures Counts(UsedUp(targets, fp)) == UsedUp(Counts(targets), fp)
  {
    FindCounts(targets, fp);
    hide FindTarget;
  }

  lemma {:induction false} LeftCounts(fp: Node -> nat, ns: seq<Node>, targets: seq<Target<seq<int>>>)
    ensures Counts(Left(fp, ns, targets)) == Left(fp, ns, Counts(targets))
  {
    hide UsedUp, Counts;
    if ns != [] {
      var front, last := ns[..|ns| - 1], ns[|ns| - 1];
      LeftCounts(fp, front, targets);
      UsedCounts(Left(fp, front, targets), fp(last));
    }
  }

  lemma {:induction false} RememberedAt(fp: Node -> nat, utilityOnly: bool, ns: seq<Node>, next: int, i: nat)
    requires i < |ns|
    ensures Remembered(fp, utilityOnly, ns, next)[i]
         == RememberedOne(fp, utilityOnly, ns[i], next + ConsumedAll(fp, utilityOnly, ns[..i], false))
  {
    hide RememberedOne, ConsumedAll;
    var k := |ns| - 1;
    if i < k {
      RememberedAt(fp, utilityOnly, ns[..k], next, i);
      assert ns[..k][..i] == ns[..i];
    }
  }

  lemma RememberedCounts(fp: Node -> nat, utilityOnly: bool, ns: seq<Node>, next: int)
    ensures Counts(Remembered(fp, utilityOnly, ns, next)) == Offers(fp, utilityOnly, ns)
  {
    var targets := Remembered(fp, utilityOnly, ns, next);
    hide Remembered, HasTargets, Leaves, Refs, ConsumedAll;
    forall i | 0 <= i < |ns| ensures Counts(targets)[i] == Offers(fp, utilityOnly, ns)[i] {
      RememberedAt(fp, utilityOnly, ns, next, i);
      FreshFacts(Leaves(ns[i], utilityOnly), next + ConsumedAll(fp, utilityOnly, ns[..i], false));
    }
  }

  // ----- the locations are recorded in order -----

  function PlacesOf(clocations: seq<Location>): (p: seq<nat>)
    ensures |p| == |clocations| && forall i :: 0 <= i < |p| ==> p[i] == clocations[i].location
  {
    seq(|clocations|, i requires 0 <= i < |clocations| => clocations[i].location)
  }

  lemma PlacesOfAppend(a: seq<Location>, b: seq<Location>)
    ensures PlacesOf(a + b) == PlacesOf(a) + PlacesOf(b)
  {
  }

  lemma FreshPlaces(leaves: seq<Leaf>, next: int)
    ensures PlacesOf(Fresh(leaves, next)) == Places(leaves)
  {
    FreshFacts(leaves, next);
  }

  /** The locations of all constants are recorded, in walking order, whatever the fingerprints are. */
  lemma {:induction false} EntriesPlaces(fp: Node -> nat, utilityOnly: bool, n: Node, next: int)
    ensures PlacesOf(Entries(fp, utilityOnly, n, next)) == Places(Leaves(n, utilityOnly))
    decreases n, 0
  {
    hide Fresh, Places, PlacesOf, LocationLeaf, Constants, AllLeaves, EntriesAll;
    match n {
      case Const(location, _) => FreshPlaces(LocationLeaf(location), next);
      case Param(number) => ParamPlaces(number);
      case TypeName => NoPlaces();
      case Plain(children) => AllPlaces(fp, utilityOnly, children, false, next);
      case Marked(location, children) =>
        var m := next + Constants(LocationLeaf(location));
        FreshPlaces(LocationLeaf(location), next);
        AllPlaces(fp, utilityOnly, children, false, m);
        TwoPlaces(Fresh(LocationLeaf(location), next), EntriesAll(fp, utilityOnly, children, false, m),
                  LocationLeaf(location), AllLeaves(children, utilityOnly, false));
      case Guarded(children) =>
        NoPlaces();
        AllPlaces(fp, utilityOnly, children, false, next);
      case Select(_, _, _, _, _, _) =>
        if utilityOnly {
          NoPlaces();
        } else {
          SelectPlaces(fp, utilityOnly, n, next);
        }
    }
  }

  lemma ParamPlaces(number: nat)
    ensures PlacesOf([]) == Places([Number(number)])
  {
    assert [Number(number)][..0] == [];
  }

  lemma {:induction false} SelectPlaces(fp: Node -> nat, utilityOnly: bool, n: Node, next: int)
    requires n.Select? && !utilityOnly
    ensures PlacesOf(Entries(fp, utilityOnly, n, next)) == Places(Leaves(n, utilityOnly))
    decreases n, 0, 0
  {
    hide PlacesOf, Places, EntriesAll, EntriesGroup, AllLeaves, ConsumedAll, ConsumedGroup, Remembered, Offers;
    var next1 := next + ConsumedAll(fp, utilityOnly, n.first, false);
    var next2 := next1 + ConsumedAll(fp, utilityOnly, n.targets, false);
    var next3 := next2 + ConsumedAll(fp, utilityOnly, n.middle, false);
    var next4 := next3 + ConsumedGroup(fp, utilityOnly, n.group, Offers(fp, utilityOnly, n.targets));
    var next5 := next4 + ConsumedAll(fp, utilityOnly, n.sort, true);
    AllPlaces(fp, utilityOnly, n.first, false, next);
    AllPlaces(fp, utilityOnly, n.targets, false, next1);
    AllPlaces(fp, utilityOnly, n.middle, false, next2);
    GroupPlaces(fp, utilityOnly, n.group, Remembered(fp, utilityOnly, n.targets, next1), next3);
    AllPlaces(fp, utilityOnly, n.sort, true, next4);
    AllPlaces(fp, utilityOnly, n.rest, false, next5);
    SixPlaces(EntriesAll(fp, utilityOnly, n.first, false, next), EntriesAll(fp, utilityOnly, n.targets, false, next1),
              EntriesAll(fp, utilityOnly, n.middle, false, next2),
              EntriesGroup(fp, utilityOnly, n.group, Remembered(fp, utilityOnly, n.targets, next1), next3),
              EntriesAll(fp, utilityOnly, n.sort, true, next4), EntriesAll(fp, utilityOnly, n.rest, false, next5),
              AllLeaves(n.first, utilityOnly, false), AllLeaves(n.targets, utilityOnly, false),
              AllLeaves(n.middle, utilityOnly, false), AllLeaves(n.group, utilityOnly, true),
              AllLeaves(n.sort, utilityOnly, true), AllLeaves(n.rest, utilityOnly, false));
  }

  lemma SixPlaces(e1: seq<Location>, e2: seq<Location>, e3: seq<Location>, e4: seq<Location>, e5: seq<Location>, e6: seq<Location>,
                  l1: seq<Leaf>, l2: seq<Leaf>, l3: seq<Leaf>, l4: seq<Leaf>, l5: seq<Leaf>, l6: seq<Leaf>)
    requires PlacesOf(e1) == Places(l1) && PlacesOf(e2) == Places(l2) && PlacesOf(e3) == Places(l3)
    requires PlacesOf(e4) == Places(l4) && PlacesOf(e5) == Places(l5) && PlacesOf(e6) == Places(l6)
    ensures PlacesOf(((((e1 + e2) + e3) + e4) + e5) + e6) == Places(((((l1 + l2) + l3) + l4) + l5) + l6)
  {
    hide *;
    TwoPlaces(e1, e2, l1, l2);
    TwoPlaces(e1 + e2, e3, l1 + l2, l3);
    TwoPlaces((e1 + e2) + e3, e4, (l1 + l2) + l3, l4);
    TwoPlaces(((e1 + e2) + e3) + e4, e5, ((l1 + l2) + l3) + l4, l5);
    TwoPlaces((((e1 + e2) + e3) + e4) + e5, e6, (((l1 + l2) + l3) + l4) + l5, l6);
  }

  lemma TwoPlaces(e1: seq<Location>, e2: seq<Location>, l1: seq<Leaf>, l2: seq<Leaf>)
    requires PlacesOf(e1) == Places(l1) && PlacesOf(e2) == Places(l2)
    ensures PlacesOf(e1 + e2) == Places(l1 + l2)
  {
    hide *;
    PlacesOfAppend(e1, e2);
    PlacesAppend(l1, l2);
  }

  lemma {:induction false} AllPlaces(fp: Node -> nat, utilityOnly: bool, ns: seq<Node>, skipIntegers: bool, next: int)
    ensures PlacesOf(EntriesAll(fp, utilityOnly, ns, skipIntegers, next)) == Places(AllLeaves(ns, utilityOnly, skipIntegers))
    decreases ns, 1
  {
    hide PlacesOf, Places, EntriesIn, LeavesIn, ConsumedAll;
    if ns == [] {
      NoPlaces();
    } else {
      var front, last := ns[..|ns| - 1], ns[|ns| - 1];
      var m := next + ConsumedAll(fp, utilityOnly, front, skipIntegers);
      AllPlaces(fp, utilityOnly, front, skipIntegers, next);
      PlacesIn(fp, utilityOnly, last, skipIntegers, m);
      TwoPlaces(EntriesAll(fp, utilityOnly, front, skipIntegers, next), EntriesIn(fp, utilityOnly, last, skipIntegers, m),
                AllLeaves(front, utilityOnly, skipIntegers), LeavesIn(last, utilityOnly, skipIntegers));
    }
  }

  lemma NoPlaces()
    ensures PlacesOf([]) == Places([])
  {
  }

  lemma {:induction false} PlacesIn(fp: Node -> nat, utilityOnly: bool, n: Node, skipIntegers: bool, next: int)
    ensures PlacesOf(EntriesIn(fp, utilityOnly, n, skipIntegers, next)) == Places(LeavesIn(n, utilityOnly, skipIntegers))
    decreases n, 1
  {
    NoPlaces();
    EntriesPlaces(fp, utilityOnly, n, next);
    hide PlacesOf, Places, Entries, Leaves;
  }

  lemma {:induction false} ItemPlaces(fp: Node -> nat, utilityOnly: bool, n: Node, targets: seq<Target<seq<int>>>, next: int)
    ensures PlacesOf(EntriesItem(fp, utilityOnly, n, targets, next)) == Places(LeavesIn(n, utilityOnly, true))
    decreases n, 1
  {
    NoPlaces();
    EntriesPlaces(fp, utilityOnly, n, next);
    hide Places, Entries, Leaves, TakenOver;
  }

  lemma {:induction false} GroupPlaces(fp: Node -> nat, utilityOnly: bool, ns: seq<Node>, targets: seq<Target<seq<int>>>, next: int)
    ensures PlacesOf(EntriesGroup(fp, utilityOnly, ns, targets, next)) == Places(AllLeaves(ns, utilityOnly, true))
    decreases ns, 1
  {
    hide PlacesOf, Places, EntriesItem, LeavesIn, ConsumedGroup, Left, Counts;
    if ns == [] {
      NoPlaces();
    } else {
      var front, last := ns[..|ns| - 1], ns[|ns| - 1];
      var m := next + ConsumedGroup(fp, utilityOnly, front, Counts(targets));
      GroupPlaces(fp, utilityOnly, front, targets, next);
      ItemPlaces(fp, utilityOnly, last, Left(fp, front, targets), m);
      TwoPlaces(EntriesGroup(fp, utilityOnly, front, targets, next), EntriesItem(fp, utilityOnly, last, Left(fp, front, targets), m),
                AllLeaves(front, utilityOnly, true), LeavesIn(last, utilityOnly, true));
    }
  }

  // ----- nodes without target lists -----

  /** What holds of a node or a list in which no ids are taken over. */
  ghost predicate IsFresh(entries: seq<Location>, consumed: int, leaves: seq<Leaf>, next: int) {
    entries == Fresh(leaves, next) && consumed == Constants(leaves)
  }

  lemma FreshTogether(e1: seq<Location>, c1: int, l1: seq<Leaf>, e2: seq<Location>, c2: int, l2: seq<Leaf>, next: int)
    requires IsFresh(e1, c1, l1, next) && IsFresh(e2, c2, l2, next + c1)
    ensures IsFresh(e1 + e2, c1 + c2, l1 + l2, next)
  {
    hide Fresh, Constants;
    FreshAppend(l1, l2, next);
    ConstantsAppend(l1, l2, 0);
  }

  lemma ParamFresh(number: nat, next: int, extern: nat)
    ensures var l := [Number(number)];
            Fresh(l, next) == [] && Constants(l) == 0 && Places(l) == [] && Refs(l, next) == [number]
            && HighestParam(l, extern) == if number > extern then number else extern
  {
    assert [Number(number)][..0] == [];
  }

  lemma ConstFresh(location: nat, next: int, extern: nat)
    ensures var l := [At(location)];
            Fresh(l, next) == [Location(location, 0 - next)] && Constants(l) == 1 && Refs(l, next) == [0 - next]
            && HighestParam(l, extern) == extern
  {
    assert [At(location)][..0] == [];
  }

  /** Without a target list every constant takes a fresh id of its own. */
  lemma {:induction false} NoneTakenOver(fp: Node -> nat, utilityOnly: bool, n: Node, next: int)
    requires !HasTargets(n, utilityOnly)
    ensures IsFresh(Entries(fp, utilityOnly, n, next), Consumed(fp, utilityOnly, n), Leaves(n, utilityOnly), next)
    ensures Sound(fp, utilityOnly, n)
    decreases n, 0
  {
    hide IsFresh, Fresh, Constants, LocationLeaf, EntriesAll, ConsumedAll, AllLeaves, SoundAll, SomeHasTargets;
    match n {
      case Const(location, _) => FreshIs(LocationLeaf(location), next);
      case Param(number) => ParamIsFresh(number, next);
      case TypeName => NothingFresh(next);
      case Plain(children) => NoneInAll(fp, utilityOnly, children, false, next);
      case Marked(location, children) =>
        var l := LocationLeaf(location);
        var c := Constants(l);
        FreshIs(l, next);
        NoneInAll(fp, utilityOnly, children, false, next + c);
        FreshTogether(Fresh(l, next), c, l, EntriesAll(fp, utilityOnly, children, false, next + c),
                      ConsumedAll(fp, utilityOnly, children, false), AllLeaves(children, utilityOnly, false), next);
      case Guarded(children) =>
        if utilityOnly {
          NothingFresh(next);
        } else {
          NoneInAll(fp, utilityOnly, children, false, next);
        }
      case Select(_, _, _, _, _, _) =>
        if utilityOnly {
          NothingFresh(next);
        } else {
          NoneInSelect(fp, utilityOnly, n, next);
        }
    }
  }

  lemma FreshIs(leaves: seq<Leaf>, next: int)
    ensures IsFresh(Fresh(leaves, next), Constants(leaves), leaves, next)
  {
  }

  lemma ParamIsFresh(number: nat, next: int)
    ensures IsFresh([], 0, [Number(number)], next)
  {
    ParamFresh(number, next, 0);
  }

  lemma {:induction false} NoneInAll(fp: Node -> nat, utilityOnly: bool, ns: seq<Node>, skipIntegers: bool, next: int)
    requires !SomeHasTargets(ns, utilityOnly)
    ensures IsFresh(EntriesAll(fp, utilityOnly, ns, skipIntegers, next), ConsumedAll(fp, utilityOnly, ns, skipIntegers),
                    AllLeaves(ns, utilityOnly, skipIntegers), next)
    ensures SoundAll(fp, utilityOnly, ns)
    decreases ns, 1
  {
    hide *;
    if ns == [] {
      NoNodes(fp, utilityOnly, ns, skipIntegers, next);
      NothingFresh(next);
    } else {
      var front, last := ns[..|ns| - 1], ns[|ns| - 1];
      var c := ConsumedAll(fp, utilityOnly, front, skipIntegers);
      LastLeaves(ns, utilityOnly, skipIntegers);
      LastEntries(fp, utilityOnly, ns, skipIntegers, next);
      LastSound(fp, utilityOnly, ns, next);
      NoneInAll(fp, utilityOnly, front, skipIntegers, next);
      NoneIn(fp, utilityOnly, last, skipIntegers, next + c);
      FreshTogether(EntriesAll(fp, utilityOnly, front, skipIntegers, next), c, AllLeaves(front, utilityOnly, skipIntegers),
                    EntriesIn(fp, utilityOnly, last, skipIntegers, next + c), ConsumedIn(fp, utilityOnly, last, skipIntegers),
                    LeavesIn(last, utilityOnly, skipIntegers), next);
    }
  }

  lemma NothingFresh(next: int)
    ensures IsFresh([], 0, [], next)
  {
  }

  lemma {:induction false} NoneIn(fp: Node -> nat, utilityOnly: bool, n: Node, skipIntegers: bool, next: int)
    requires !HasTargets(n, utilityOnly)
    ensures IsFresh(EntriesIn(fp, utilityOnly, n, skipIntegers, next), ConsumedIn(fp, utilityOnly, n, skipIntegers),
                    LeavesIn(n, utilityOnly, skipIntegers), next)
    ensures Sound(fp, utilityOnly, n)
    decreases n, 1
  {
    NothingFresh(next);
    NoneTakenOver(fp, utilityOnly, n, next);
    hide IsFresh, Entries, Consumed, Leaves, Sound;
  }

  lemma {:induction false} NoneInItem(fp: Node -> nat, utilityOnly: bool, n: Node, next: int)
    requires !HasTargets(n, utilityOnly)
    ensures LeftAfter<nat>(fp, n, []) == [] && LeftAfter<seq<int>>(fp, n, []) == []
    ensures ConsumedItem(fp, utilityOnly, n, []) == ConsumedIn(fp, utilityOnly, n, true)
    ensures EntriesItem(fp, utilityOnly, n, [], next) == EntriesIn(fp, utilityOnly, n, true, next)
    ensures SoundItem(fp, utilityOnly, n, [])
    decreases n, 1
  {
    hide Entries, Consumed, Leaves, Sound, IsFresh, Given, TakenOver, UsedUp;
    NoneTakenOver(fp, utilityOnly, n, next);
    NoneOffered(fp, utilityOnly, n);
    var entries, consumed := Entries(fp, utilityOnly, n, next), Consumed(fp, utilityOnly, n);
    FreshIsNotNegative(entries, consumed, Leaves(n, utilityOnly), next);
  }

  lemma NoneOffered(fp: Node -> nat, utilityOnly: bool, n: Node)
    ensures UsedUp<nat>([], fp(n)) == [] && UsedUp<seq<int>>([], fp(n)) == []
    ensures Given(fp, utilityOnly, n, []) == 0 && TakenOver(fp, utilityOnly, n, []) == None
  {
    hide Leaves, Places;
  }

  lemma FreshIsNotNegative(entries: seq<Location>, consumed: int, leaves: seq<Leaf>, next: int)
    requires IsFresh(entries, consumed, leaves, next)
    ensures consumed >= 0
  {
    hide Fresh;
  }

  /** GROUP BY items without targets to match are walked like any others. */
  lemma {:induction false} NoneToMatch(fp: Node -> nat, utilityOnly: bool, ns: seq<Node>, next: int)
    requires !SomeHasTargets(ns, utilityOnly)
    ensures Left<nat>(fp, ns, []) == [] && Left<seq<int>>(fp, ns, []) == []
    ensures ConsumedGroup(fp, utilityOnly, ns, []) == ConsumedAll(fp, utilityOnly, ns, true)
    ensures SoundGroup(fp, utilityOnly, ns, [])
    decreases ns, 1
  {
    if ns != [] {
      hide ConsumedIn, ConsumedItem, SoundItem, HasTargets, LeftAfter;
      var front, last := ns[..|ns| - 1], ns[|ns| - 1];
      NoneToMatch(fp, utilityOnly, front, next);
      NoneInItem(fp, utilityOnly, last, next);
    }
  }

  lemma {:induction false} NoneMatched(fp: Node -> nat, utilityOnly: bool, ns: seq<Node>, next: int)
    requires !SomeHasTargets(ns, utilityOnly)
    ensures EntriesGroup(fp, utilityOnly, ns, [], next) == EntriesAll(fp, utilityOnly, ns, true, next)
    decreases ns, 2
  {
    hide EntriesIn, EntriesItem, HasTargets, Counts, Left, ConsumedGroup, ConsumedAll;
    if ns != [] {
      var front, last := ns[..|ns| - 1], ns[|ns| - 1];
      NoneMatched(fp, utilityOnly, front, next);
      NoneToMatch(fp, utilityOnly, front, next);
      NoneInItem(fp, utilityOnly, last, next + ConsumedGroup(fp, utilityOnly, front, Counts([])));
      assert Counts([]) == [];
    }
  }

  lemma {:induction false} NoneInSelect(fp: Node -> nat, utilityOnly: bool, n: Node, next: int)
    requires n.Select? && !utilityOnly && !HasTargets(n, utilityOnly)
    ensures IsFresh(Entries(fp, utilityOnly, n, next), Consumed(fp, utilityOnly, n), Leaves(n, utilityOnly), next)
    ensures Sound(fp, utilityOnly, n)
    decreases n, 0, 0
  {
    hide IsFresh, EntriesAll, EntriesGroup, AllLeaves, ConsumedAll, ConsumedGroup, Remembered, Offers, SoundAll, SoundGroup,
         SomeHasTargets;
    var c1 := ConsumedAll(fp, utilityOnly, n.first, false);
    var c2 := ConsumedAll(fp, utilityOnly, n.targets, false);
    var c3 := ConsumedAll(fp, utilityOnly, n.middle, false);
    var c4 := ConsumedAll(fp, utilityOnly, n.group, true);
    var c5 := ConsumedAll(fp, utilityOnly, n.sort, true);
    NoTargetList(fp, utilityOnly, next + c1);
    NoneInAll(fp, utilityOnly, n.first, false, next);
    NoneInAll(fp, utilityOnly, n.targets, false, next + c1);
    NoneInAll(fp, utilityOnly, n.middle, false, next + c1 + c2);
    NoneToMatch(fp, utilityOnly, n.group, next + c1 + c2 + c3);
    NoneMatched(fp, utilityOnly, n.group, next + c1 + c2 + c3);
    NoneInAll(fp, utilityOnly, n.group, true, next + c1 + c2 + c3);
    NoneInAll(fp, utilityOnly, n.sort, true, next + c1 + c2 + c3 + c4);
    NoneInAll(fp, utilityOnly, n.rest, false, next + c1 + c2 + c3 + c4 + c5);
    SixFresh(EntriesAll(fp, utilityOnly, n.first, false, next), c1, AllLeaves(n.first, utilityOnly, false),
             EntriesAll(fp, utilityOnly, n.targets, false, next + c1), c2, AllLeaves(n.targets, utilityOnly, false),
             EntriesAll(fp, utilityOnly, n.middle, false, next + c1 + c2), c3, AllLeaves(n.middle, utilityOnly, false),
             EntriesAll(fp, utilityOnly, n.group, true, next + c1 + c2 + c3), c4, AllLeaves(n.group, utilityOnly, true),
             EntriesAll(fp, utilityOnly, n.sort, true, next + c1 + c2 + c3 + c4), c5, AllLeaves(n.sort, utilityOnly, true),
             EntriesAll(fp, utilityOnly, n.rest, false, next + c1 + c2 + c3 + c4 + c5),
             ConsumedAll(fp, utilityOnly, n.rest, false), AllLeaves(n.rest, utilityOnly, false), next);
  }

  lemma NoTargetList(fp: Node -> nat, utilityOnly: bool, next: int)
    ensures Remembered(fp, utilityOnly, [], next) == [] && Offers(fp, utilityOnly, []) == []
    ensures !SomeHasTargets([], utilityOnly)
  {
  }

  lemma SixFresh(e1: seq<Location>, c1: int, l1: seq<Leaf>, e2: seq<Location>, c2: int, l2: seq<Leaf>,
                 e3: seq<Location>, c3: int, l3: seq<Leaf>, e4: seq<Location>, c4: int, l4: seq<Leaf>,
                 e5: seq<Location>, c5: int, l5: seq<Leaf>, e6: seq<Location>, c6: int, l6: seq<Leaf>, next: int)
    requires IsFresh(e1, c1, l1, next) && IsFresh(e2, c2, l2, next + c1) && IsFresh(e3, c3, l3, next + c1 + c2)
    requires IsFresh(e4, c4, l4, next + c1 + c2 + c3) && IsFresh(e5, c5, l5, next + c1 + c2 + c3 + c4)
    requires IsFresh(e6, c6, l6, next + c1 + c2 + c3 + c4 + c5)
    ensures IsFresh(((((e1 + e2) + e3) + e4) + e5) + e6, ((((c1 + c2) + c3) + c4) + c5) + c6, ((((l1 + l2) + l3) + l4) + l5) + l6, next)
  {
    hide *;
    FreshTogether(e1, c1, l1, e2, c2, l2, next);
    FreshTogether(e1 + e2, c1 + c2, l1 + l2, e3, c3, l3, next);
    FreshTogether((e1 + e2) + e3, (c1 + c2) + c3, (l1 + l2) + l3, e4, c4, l4, next);
    FreshTogether(((e1 + e2) + e3) + e4, ((c1 + c2) + c3) + c4, ((l1 + l2) + l3) + l4, e5, c5, l5, next);
    FreshTogether((((e1 + e2) + e3) + e4) + e5, (((c1 + c2) + c3) + c4) + c5, (((l1 + l2) + l3) + l4) + l5, e6, c6, l6, next);
  }

  // ----- how many ids are taken -----

  /** No more ids are taken than there are constants, and none are lost when no item gives back too many. */
  lemma {:induction false} ConsumedBounds(fp: Node -> nat, utilityOnly: bool, n: Node)
    ensures Consumed(fp, utilityOnly, n) <= |Places(Leaves(n, utilityOnly))|
    ensures Sound(fp, utilityOnly, n) ==> Consumed(fp, utilityOnly, n) >= 0
    decreases n, 0
  {
    match n {
      case Const(location, _) => FreshFacts(LocationLeaf(location), 0);
      case Param(number) => assert [Number(number)][..0] == [];
      case TypeName =>
      case Plain(children) => AllBounds(fp, utilityOnly, children, false);
      case Marked(location, children) =>
        FreshFacts(LocationLeaf(location), 0);
        AllBounds(fp, utilityOnly, children, false);
        PlacesAppend(LocationLeaf(location), AllLeaves(children, utilityOnly, false));
        hide Fresh, Places, LocationLeaf, AllLeaves, ConsumedAll, SoundAll;
      case Guarded(children) => AllBounds(fp, utilityOnly, children, false);
      case Select(_, _, _, _, _, _) =>
        if !utilityOnly {
          SelectBounds(fp, utilityOnly, n);
        }
    }
  }

  lemma {:induction false} SelectBounds(fp: Node -> nat, utilityOnly: bool, n: Node)
    requires n.Select? && !utilityOnly
    ensures Consumed(fp, utilityOnly, n) <= |Places(Leaves(n, utilityOnly))|
    ensures Sound(fp, utilityOnly, n) ==> Consumed(fp, utilityOnly, n) >= 0
    decreases n, 0, 0
  {
    hide Places, AllLeaves, ConsumedAll, ConsumedGroup, Offers, SoundAll, SoundGroup;
    AllBounds(fp, utilityOnly, n.first, false);
    AllBounds(fp, utilityOnly, n.targets, false);
    AllBounds(fp, utilityOnly, n.middle, false);
    GroupBounds(fp, utilityOnly, n.group, Offers(fp, utilityOnly, n.targets));
    AllBounds(fp, utilityOnly, n.sort, true);
    AllBounds(fp, utilityOnly, n.rest, false);
    var l1, l2 := AllLeaves(n.first, utilityOnly, false), AllLeaves(n.targets, utilityOnly, false);
    var l3 := AllLeaves(n.middle, utilityOnly, false);
    var l4, l5, l6 := AllLeaves(n.group, utilityOnly, true), AllLeaves(n.sort, utilityOnly, true), AllLeaves(n.rest, utilityOnly, false);
    PlacesAppend(l1, l2);
    PlacesAppend(l1 + l2, l3);
    PlacesAppend((l1 + l2) + l3, l4);
    PlacesAppend(((l1 + l2) + l3) + l4, l5);
    PlacesAppend((((l1 + l2) + l3) + l4) + l5, l6);
  }

  lemma {:induction false} AllBounds(fp: Node -> nat, utilityOnly: bool, ns: seq<Node>, skipIntegers: bool)
    ensures ConsumedAll(fp, utilityOnly, ns, skipIntegers) <= |Places(AllLeaves(ns, utilityOnly, skipIntegers))|
    ensures SoundAll(fp, utilityOnly, ns) ==> ConsumedAll(fp, utilityOnly, ns, skipIntegers) >= 0
    decreases ns, 1
  {
    hide Places, ConsumedIn, LeavesIn, Sound;
    if ns != [] {
      var front, last := ns[..|ns| - 1], ns[|ns| - 1];
      AllBounds(fp, utilityOnly, front, skipIntegers);
      BoundsIn(fp, utilityOnly, last, skipIntegers);
      PlacesAppend(AllLeaves(front, utilityOnly, skipIntegers), LeavesIn(last, utilityOnly, skipIntegers));
    }
  }

  lemma {:induction false} BoundsIn(fp: Node -> nat, utilityOnly: bool, n: Node, skipIntegers: bool)
    ensures ConsumedIn(fp, utilityOnly, n, skipIntegers) <= |Places(LeavesIn(n, utilityOnly, skipIntegers))|
    ensures Sound(fp, utilityOnly, n) ==> ConsumedIn(fp, utilityOnly, n, skipIntegers) >= 0
    decreases n, 1
  {
    ConsumedBounds(fp, utilityOnly, n);
    hide Places, Consumed, Leaves, Sound;
  }

  lemma {:induction false} GroupBounds(fp: Node -> nat, utilityOnly: bool, ns: seq<Node>, offers: seq<Target<nat>>)
    ensures ConsumedGroup(fp, utilityOnly, ns, offers) <= |Places(AllLeaves(ns, utilityOnly, true))|
    ensures SoundGroup(fp, utilityOnly, ns, offers) ==> ConsumedGroup(fp, utilityOnly, ns, offers) >= 0
    decreases ns, 1
  {
    hide Places, ConsumedItem, LeavesIn, SoundItem, Left;
    if ns != [] {
      var front, last := ns[..|ns| - 1], ns[|ns| - 1];
      GroupBounds(fp, utilityOnly, front, offers);
      ItemBounds(fp, utilityOnly, last, Left(fp, front, offers));
      PlacesAppend(AllLeaves(front, utilityOnly, true), LeavesIn(last, utilityOnly, true));
    }
  }

  lemma {:induction false} ItemBounds(fp: Node -> nat, utilityOnly: bool, n: Node, offers: seq<Target<nat>>)
    ensures ConsumedItem(fp, utilityOnly, n, offers) <= |Places(LeavesIn(n, utilityOnly, true))|
    ensures SoundItem(fp, utilityOnly, n, offers) ==> ConsumedItem(fp, utilityOnly, n, offers) >= 0
    decreases n, 1
  {
    ConsumedBounds(fp, utilityOnly, n);
    hide Places, Consumed, Leaves, Sound, Given;
  }

  // ----- giving ids back -----

  ghost predicate RefsAbove(refs: seq<int>, next: int) {
    forall i :: 0 <= i < |refs| ==> 0 - next < refs[i]
  }

  lemma {:induction false} RefsInRange(leaves: seq<Leaf>, next: int)
    requires next >= 1
    ensures RefsAbove(Refs(leaves, next), next + Constants(leaves))
  {
    if leaves != [] {
      RefsInRange(leaves[..|leaves| - 1], next);
    }
  }

  ghost predicate AllAbove(targets: seq<Target<seq<int>>>, next: int) {
    forall i :: 0 <= i < |targets| ==> RefsAbove(targets[i].refs, next)
  }

  lemma AboveStays(targets: seq<Target<seq<int>>>, next: int, more: int)
    requires AllAbove(targets, next) && next <= more
    ensures AllAbove(targets, more)
  {
  }

  /** The ids recorded in the targets have been given out. */
  lemma {:induction false} RememberedAbove(fp: Node -> nat, utilityOnly: bool, ns: seq<Node>, next: int)
    requires next >= 1 && SoundAll(fp, utilityOnly, ns)
    ensures AllAbove(Remembered(fp, utilityOnly, ns, next), next + ConsumedAll(fp, utilityOnly, ns, false))
  {
    hide *;
    if ns == [] {
      NoneAbove(fp, utilityOnly, next);
    } else {
      var front, last := ns[..|ns| - 1], ns[|ns| - 1];
      LastEntries(fp, utilityOnly, ns, false, next);
      LastSound(fp, utilityOnly, ns, next);
      RememberedAbove(fp, utilityOnly, front, next);
      AllBounds(fp, utilityOnly, front, false);
      ConsumedBounds(fp, utilityOnly, last);
      var m := next + ConsumedAll(fp, utilityOnly, front, false);
      NodeIn(fp, utilityOnly, last, false, m);
      OneAbove(fp, utilityOnly, last, m);
      MoreAbove(Remembered(fp, utilityOnly, front, next), m, RememberedOne(fp, utilityOnly, last, m),
                m + Consumed(fp, utilityOnly, last));
    }
  }

  lemma NoneAbove(fp: Node -> nat, utilityOnly: bool, next: int)
    ensures AllAbove(Remembered(fp, utilityOnly, [], next), next + ConsumedAll(fp, utilityOnly, [], false))
  {
  }

  lemma MoreAbove(targets: seq<Target<seq<int>>>, next: int, target: Target<seq<int>>, more: int)
    requires AllAbove(targets, next) && next <= more && RefsAbove(target.refs, more)
    ensures AllAbove(targets + [target], more)
  {
  }

  lemma OneAbove(fp: Node -> nat, utilityOnly: bool, n: Node, next: int)
    requires next >= 1
    ensures RefsAbove(RememberedOne(fp, utilityOnly, n, next).refs, next + Consumed(fp, utilityOnly, n))
  {
    RefsInRange(Leaves(n, utilityOnly), next);
    if !HasTargets(n, utilityOnly) {
      NoneTakenOver(fp, utilityOnly, n, next);
    }
    hide Consumed, HasTargets, Leaves, Refs, Constants, Entries, Fresh;
  }

  /**
   Taking over `refs` and giving as many ids back keeps the numbering if and only if that many
   have been taken. Otherwise the next fresh id is one that is in use, if it is an id at all.
   */
  lemma GivesBack(clocations: seq<Location>, next: int, consumed: int, places: seq<nat>, refs: seq<int>)
    requires Numbered(clocations, next) && |refs| == |places| && RefsAbove(refs, next) && consumed <= |refs|
    ensures var now, next' := clocations + Reused(places, refs), next + consumed - |refs|;
            && (Numbered(now, next') <==> |refs| <= consumed)
            && (|refs| > consumed && next' >= 1 ==> HasId(now, 0 - next'))
  {
    var more, next' := Reused(places, refs), next + consumed - |refs|;
    if |refs| <= consumed {
      NumberedReuse(clocations, more, next);
    } else if next' >= 1 {
      assert HasId(clocations, 0 - next');
      IdsAppend(clocations, more, 0 - next');
      BelowIsNot(clocations + more, next');
    }
  }

  lemma BelowIsNot(clocations: seq<Location>, next: int)
    requires HasId(clocations, 0 - next)
    ensures !Numbered(clocations, next)
  {
  }

  lemma NoneUsedUp(targets: seq<Target<seq<int>>>, fp: nat)
    ensures targets == [] ==> UsedUp(targets, fp) == []
  {
  }

  /** What becomes of a GROUP BY item with and without a match. */
  lemma ItemCases(fp: Node -> nat, utilityOnly: bool, n: Node, targets: seq<Target<seq<int>>>, next: int)
    requires !IsIntegerConst(n)
    ensures PlacesOf(Entries(fp, utilityOnly, n, next)) == Places(Leaves(n, utilityOnly))
    ensures var found := RefsFound(targets, fp(n));
            if found.Some? && |found.value| == |Entries(fp, utilityOnly, n, next)| then
              && |found.value| == |Places(Leaves(n, utilityOnly))|
              && EntriesItem(fp, utilityOnly, n, targets, next) == Reused(Places(Leaves(n, utilityOnly)), found.value)
              && Given(fp, utilityOnly, n, Counts(targets)) == |found.value|
            else
              && EntriesItem(fp, utilityOnly, n, targets, next) == Entries(fp, utilityOnly, n, next)
              && Given(fp, utilityOnly, n, Counts(targets)) == 0
  {
    EntriesPlaces(fp, utilityOnly, n, next);
    FindCounts(targets, fp(n));
    hide Places, Leaves, Entries, FindTarget;
  }

  lemma ItemSays(fp: Node -> nat, utilityOnly: bool, n: Node, offers: seq<Target<nat>>)
    requires !IsIntegerConst(n)
    ensures ConsumedItem(fp, utilityOnly, n, offers) == Consumed(fp, utilityOnly, n) - Given(fp, utilityOnly, n, offers)
    ensures SoundItem(fp, utilityOnly, n, offers)
        <==> Sound(fp, utilityOnly, n) && Given(fp, utilityOnly, n, offers) <= Consumed(fp, utilityOnly, n)
  {
    hide Consumed, Given, Sound;
  }

  lemma AboveFound(targets: seq<Target<seq<int>>>, fp: nat, next: int)
    requires AllAbove(targets, next)
    ensures var found := RefsFound(targets, fp); found.Some? ==> RefsAbove(found.value, next)
  {
    hide RefsAbove;
  }

  /** The targets that are left stay below the next fresh id. */
  lemma RestAbove(fp: Node -> nat, utilityOnly: bool, n: Node, targets: seq<Target<seq<int>>>, next: int)
    requires AllAbove(targets, next) && SoundItem(fp, utilityOnly, n, Counts(targets)) && !IsIntegerConst(n)
    ensures AllAbove(UsedUp(targets, fp(n)), next + ConsumedItem(fp, utilityOnly, n, Counts(targets)))
  {
    var rest := UsedUp(targets, fp(n));
    hide Given, Consumed, Sound, FindTarget;
    forall i | 0 <= i < |rest| ensures RefsAbove(rest[i].refs, next + ConsumedItem(fp, utilityOnly, n, Counts(targets))) {
      assert rest[i] in targets;
    }
  }

  // ----- when fingerprints tell enough -----

  /** A target with the fingerprint of a GROUP BY item that has a target list has one too. */
  ghost predicate PairsAgree(fp: Node -> nat, utilityOnly: bool, targets: seq<Node>, group: seq<Node>) {
    forall a, b :: a in targets && b in group && fp(a) == fp(b) && HasTargets(b, utilityOnly) ==> HasTargets(a, utilityOnly)
  }

  /** The fingerprints that are compared, those of targets and GROUP BY items of one SELECT, tell about target lists. */
  ghost predicate Agree(fp: Node -> nat, utilityOnly: bool, n: Node)
    decreases n, 0
  {
    match n
    case Plain(children) => AgreeAll(fp, utilityOnly, children)
    case Marked(_, children) => AgreeAll(fp, utilityOnly, children)
    case Guarded(children) => utilityOnly || AgreeAll(fp, utilityOnly, children)
    case Select(first, targets, middle, group, sort, rest) =>
      utilityOnly
      || (AgreeAll(fp, utilityOnly, first) && AgreeAll(fp, utilityOnly, targets) && AgreeAll(fp, utilityOnly, middle)
          && AgreeAll(fp, utilityOnly, group) && PairsAgree(fp, utilityOnly, targets, group)
          && AgreeAll(fp, utilityOnly, sort) && AgreeAll(fp, utilityOnly, rest))
    case _ => true
  }

  ghost predicate AgreeAll(fp: Node -> nat, utilityOnly: bool, ns: seq<Node>)
    decreases ns, 1
  {
    ns == [] || (AgreeAll(fp, utilityOnly, ns[..|ns| - 1]) && Agree(fp, utilityOnly, ns[|ns| - 1]))
  }

  /** Fingerprints that tell whether there is a target list agree on every tree. */
  lemma {:induction false} TellingAgrees(fp: Node -> nat, utilityOnly: bool, n: Node)
    requires forall a, b :: fp(a) == fp(b) ==> HasTargets(a, utilityOnly) == HasTargets(b, utilityOnly)
    ensures Agree(fp, utilityOnly, n)
    decreases n, 0
  {
    hide HasTargets;
    match n {
      case Plain(children) => TellingAllAgrees(fp, utilityOnly, children);
      case Marked(_, children) => TellingAllAgrees(fp, utilityOnly, children);
      case Guarded(children) => TellingAllAgrees(fp, utilityOnly, children);
      case Select(first, targets, middle, group, sort, rest) =>
        TellingAllAgrees(fp, utilityOnly, first);
        TellingAllAgrees(fp, utilityOnly, targets);
        TellingAllAgrees(fp, utilityOnly, middle);
        TellingAllAgrees(fp, utilityOnly, group);
        TellingAllAgrees(fp, utilityOnly, sort);
        TellingAllAgrees(fp, utilityOnly, rest);
      case _ =>
    }
  }

  lemma {:induction false} TellingAllAgrees(fp: Node -> nat, utilityOnly: bool, ns: seq<Node>)
    requires forall a, b :: fp(a) == fp(b) ==> HasTargets(a, utilityOnly) == HasTargets(b, utilityOnly)
    ensures AgreeAll(fp, utilityOnly, ns)
    decreases ns, 1
  {
    hide HasTargets, Agree;
    if ns != [] {
      TellingAllAgrees(fp, utilityOnly, ns[..|ns| - 1]);
      TellingAgrees(fp, utilityOnly, ns[|ns| - 1]);
    }
  }

  /** If they do, no item gives back more ids than it has taken. */
  lemma {:induction false} AgreeIsSound(fp: Node -> nat, utilityOnly: bool, n: Node)
    requires Agree(fp, utilityOnly, n)
    ensures Sound(fp, utilityOnly, n)
    decreases n, 0
  {
    hide SoundGroup, Offers, PairsAgree;
    match n {
      case Plain(children) => AgreeAllIsSound(fp, utilityOnly, children);
      case Marked(_, children) => AgreeAllIsSound(fp, utilityOnly, children);
      case Guarded(children) =>
        if !utilityOnly {
          AgreeAllIsSound(fp, utilityOnly, children);
        }
      case Select(first, targets, middle, group, sort, rest) =>
        if !utilityOnly {
          AgreeAllIsSound(fp, utilityOnly, first);
          AgreeAllIsSound(fp, utilityOnly, targets);
          AgreeAllIsSound(fp, utilityOnly, middle);
          PairsOffer(fp, utilityOnly, targets, group);
          AgreeGroupIsSound(fp, utilityOnly, group, Offers(fp, utilityOnly, targets));
          AgreeAllIsSound(fp, utilityOnly, sort);
          AgreeAllIsSound(fp, utilityOnly, rest);
        }
      case Const(_, _) =>
      case Param(_) =>
      case TypeName =>
    }
  }

  lemma {:induction false} AgreeAllIsSound(fp: Node -> nat, utilityOnly: bool, ns: seq<Node>)
    requires AgreeAll(fp, utilityOnly, ns)
    ensures SoundAll(fp, utilityOnly, ns)
    decreases ns, 1
  {
    hide Agree, Sound;
    if ns != [] {
      AgreeAllIsSound(fp, utilityOnly, ns[..|ns| - 1]);
      AgreeIsSound(fp, utilityOnly, ns[|ns| - 1]);
    }
  }

  /** Items with a target list of their own are offered nothing. */
  ghost predicate OffersNothing(fp: Node -> nat, utilityOnly: bool, n: Node, offers: seq<Target<nat>>) {
    HasTargets(n, utilityOnly) ==> forall i :: 0 <= i < |offers| && offers[i].fp == fp(n) ==> offers[i].refs == 0
  }

  lemma PairsOffer(fp: Node -> nat, utilityOnly: bool, targets: seq<Node>, group: seq<Node>)
    requires PairsAgree(fp, utilityOnly, targets, group)
    ensures forall k :: 0 <= k < |group| ==> OffersNothing(fp, utilityOnly, group[k], Offers(fp, utilityOnly, targets))
  {
    hide HasTargets, Leaves;
    var offers := Offers(fp, utilityOnly, targets);
    forall k, i | 0 <= k < |group| && HasTargets(group[k], utilityOnly) && 0 <= i < |offers| && offers[i].fp == fp(group[k])
      ensures offers[i].refs == 0
    {
      assert targets[i] in targets && group[k] in group;
    }
  }

  lemma {:induction false} LeftOffers(fp: Node -> nat, utilityOnly: bool, ns: seq<Node>, offers: seq<Target<nat>>, n: Node)
    requires OffersNothing(fp, utilityOnly, n, offers)
    ensures OffersNothing(fp, utilityOnly, n, Left(fp, ns, offers))
  {
    if ns != [] {
      LeftOffers(fp, utilityOnly, ns[..|ns| - 1], offers, n);
      hide HasTargets, FindTarget;
    }
  }

  lemma {:induction false} AgreeGroupIsSound(fp: Node -> nat, utilityOnly: bool, ns: seq<Node>, offers: seq<Target<nat>>)
    requires AgreeAll(fp, utilityOnly, ns)
    requires forall k :: 0 <= k < |ns| ==> OffersNothing(fp, utilityOnly, ns[k], offers)
    ensures SoundGroup(fp, utilityOnly, ns, offers)
    decreases ns, 1
  {
    hide Agree, SoundItem, OffersNothing, Left;
    if ns != [] {
      var front, last := ns[..|ns| - 1], ns[|ns| - 1];
      AgreeGroupIsSound(fp, utilityOnly, front, offers);
      LeftOffers(fp, utilityOnly, front, offers, last);
      AgreeItemIsSound(fp, utilityOnly, last, Left(fp, front, offers));
    }
  }

  lemma {:induction false} AgreeItemIsSound(fp: Node -> nat, utilityOnly: bool, n: Node, offers: seq<Target<nat>>)
    requires Agree(fp, utilityOnly, n) && OffersNothing(fp, utilityOnly, n, offers)
    ensures SoundItem(fp, utilityOnly, n, offers)
    decreases n, 1
  {
    AgreeIsSound(fp, utilityOnly, n);
    ConsumedBounds(fp, utilityOnly, n);
    if !HasTargets(n, utilityOnly) {
      NoneTakenOver(fp, utilityOnly, n, 0);
      FreshFacts(Leaves(n, utilityOnly), 0);
    }
    hide Agree, Sound, Consumed, HasTargets, Leaves, Places, Constants, Fresh, Refs, Entries;
  }

  // ----- the numbers that are printed -----

  /** A negative id is printed above the parameters of the query, any other one as it is. */
  function PrintedId(extern: nat, id: int): int {
    if id < 0 then extern + (0 - id) else id
  }

  lemma {:induction false} ParamsBelow(leaves: seq<Leaf>, extern: nat, k: nat)
    requires k < |leaves| && leaves[k].Number?
    ensures leaves[k].number <= HighestParam(leaves, extern)
  {
    if k < |leaves| - 1 {
      ParamsBelow(leaves[..|leaves| - 1], extern, k);
    }
  }

  /** Fresh ids print above every parameter, and without a gap. */
  lemma PrintedAbove(clocations: seq<Location>, next: int, leaves: seq<Leaf>)
    requires Numbered(clocations, next)
    ensures var extern := HighestParam(leaves, 0);
            && (forall k :: 0 <= k < |leaves| && leaves[k].Number? ==> leaves[k].number <= extern)
            && (forall i :: 0 <= i < |clocations| && clocations[i].id < 0 ==>
                  extern < PrintedId(extern, clocations[i].id) < extern + next)
            && (forall n :: extern < n < extern + next ==> Prints(clocations, extern, n))
  {
    var extern := HighestParam(leaves, 0);
    forall k | 0 <= k < |leaves| && leaves[k].Number? ensures leaves[k].number <= extern {
      ParamsBelow(leaves, 0, k);
    }
    forall n | extern < n < extern + next ensures Prints(clocations, extern, n) {
      var id := extern - n;
      assert HasId(clocations, id);
      var i :| 0 <= i < |clocations| && clocations[i].id == id;
      assert PrintedId(extern, clocations[i].id) == n;
    }
  }

  /** Some constant is printed as parameter `n`. */
  ghost predicate Prints(clocations: seq<Location>, extern: nat, n: int) {
    exists i :: 0 <= i < |clocations| && PrintedId(extern, clocations[i].id) == n
  }
}
