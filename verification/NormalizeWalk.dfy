/**
 Numbering the constants of a query: `RecordConstLocation` and `const_record_walker`.

 The negative ids in use are exactly -1 down to one above the next fresh one, at every moment of
 the walk, if and only if no GROUP BY item gives back more ids than it has taken (`Sound`).
 */
module NormalizeWalk {
  import opened Common
  import opened NormalizeIds

  /** The fields of `pgssConstLocations` that the walk changes. */
  datatype Snap = Snap(clocations: seq<Location>, highest: int, extern: nat, refs: Option<seq<int>>)

  function Recorded(refs: Option<seq<int>>, more: seq<int>): Option<seq<int>> {
    match refs case None => None case Some(r) => Some(r + more)
  }

  /**
   A walk over `leaves`: `entries` are appended and the next fresh id moves on by `consumed`. When
   no SELECT with a target list is met, the ids are recorded.
   */
  ghost predicate After(s: Snap, t: Snap, leaves: seq<Leaf>, entries: seq<Location>, consumed: int, hasTargets: bool) {
    && t.clocations == s.clocations + entries && t.highest == s.highest + consumed
    && t.extern == HighestParam(leaves, s.extern)
    && (if hasTargets then t.refs.None?
        else consumed == Constants(leaves) && t.refs == Recorded(s.refs, Refs(leaves, s.highest)))
  }

  lemma AfterNothing(s: Snap)
    ensures After(s, s, [], [], 0, false)
  {
    assert s.clocations + [] == s.clocations;
    assert s.refs.Some? ==> s.refs.value + [] == s.refs.value;
  }

  lemma AfterThen(s: Snap, t: Snap, u: Snap, a: seq<Leaf>, d: seq<Location>, c: int, one: bool,
                  b: seq<Leaf>, e: seq<Location>, k: int, two: bool)
    requires After(s, t, a, d, c, one) && After(t, u, b, e, k, two)
    ensures After(s, u, a + b, d + e, c + k, one || two)
  {
    LeavesAppend(a, b, s.highest, s.extern);
    hide Refs, Constants, HighestParam;
    Grouping(s.clocations, d, e);
    if !one && !two && s.refs.Some? {
      Grouping(s.refs.value, Refs(a, s.highest), Refs(b, t.highest));
    }
  }

  lemma AfterWeaker(s: Snap, t: Snap, leaves: seq<Leaf>, entries: seq<Location>, consumed: int, hasTargets: bool)
    requires After(s, t, leaves, entries, consumed, hasTargets) && t.refs.None?
    ensures After(s, t, leaves, entries, consumed, true)
  {
  }

  /** A walk that starts recording afresh and stops recording when it is done. */
  lemma AfterTarget(s: Snap, t: Snap, leaves: seq<Leaf>, entries: seq<Location>, consumed: int, hasTargets: bool)
    requires After(s.(refs := Some([])), t, leaves, entries, consumed, hasTargets)
    ensures After(s, t.(refs := None), leaves, entries, consumed, true)
    ensures (if t.refs.Some? then t.refs.value else []) == if hasTargets then [] else Refs(leaves, s.highest)
  {
    assert [] + Refs(leaves, s.highest) == Refs(leaves, s.highest);
    hide Refs;
  }

  /** The tail from `from` on with other ids. */
  function WithIds(clocations: seq<Location>, from: nat, ids: seq<int>): seq<Location>
    requires |clocations| == from + |ids|
  {
    clocations[..from] + Reused(PlacesOf(clocations[from..]), ids)
  }

  /** A GROUP BY item has taken over the ids of its target and given as many back. */
  lemma AfterReuse(s: Snap, t: Snap, leaves: seq<Leaf>, entries: seq<Location>, consumed: int, hasTargets: bool, refs: seq<int>)
    requires After(s, t, leaves, entries, consumed, hasTargets) && s.refs.None?
    requires PlacesOf(entries) == Places(leaves) && |refs| == |entries|
    ensures |t.clocations| == |s.clocations| + |refs|
    ensures WithIds(t.clocations, |s.clocations|, refs) == s.clocations + Reused(Places(leaves), refs)
    ensures After(s, t.(clocations := WithIds(t.clocations, |s.clocations|, refs), highest := t.highest - |refs|),
                  leaves, Reused(Places(leaves), refs), consumed - |refs|, true)
  {
    hide Places, Refs, Constants, HighestParam;
    assert t.clocations[|s.clocations|..] == entries && t.clocations[..|s.clocations|] == s.clocations;
  }

  class ConstLocations {
    const utilityOnly: bool
    const fp: Node -> nat
    var clocations: seq<Location>
    var highest: int
    var extern: nat
    var refs: Option<seq<int>>
    /** The numbering has been sound after every GROUP BY item so far. */
    ghost var kept: bool

    ghost function Now(): Snap
      reads this
    {
      Snap(clocations, highest, extern, refs)
    }

    ghost predicate Ready()
      reads this
    {
      kept ==> Numbered(clocations, highest)
    }

    constructor (utilityOnly: bool, fp: Node -> nat)
      ensures this.utilityOnly == utilityOnly && this.fp == fp && Now() == Snap([], 1, 0, None)
      ensures kept && Ready()
    {
      this.utilityOnly, this.fp := utilityOnly, fp;
      clocations, highest, extern, refs, kept := [], 1, 0, None, true;
    }

    /** `RecordConstLocation` */
    method RecordConstLocation(location: int)
      requires Ready()
      modifies this
      ensures Ready() && kept == old(kept)
      ensures var l := LocationLeaf(location);
              After(old(Now()), Now(), l, Fresh(l, old(highest)), Constants(l), false)
      ensures kept && location >= 0 ==> !HasId(old(clocations), 0 - old(highest))
    {
      AfterNothing(Now());
      if kept {
        NumberedFresh(clocations, LocationLeaf(location), highest);
      }
      if location >= 0 {
        ConstFresh(location, highest, extern);
        hide Fresh, Refs, Constants, HighestParam;
        clocations := clocations + [Location(location, 0 - highest)];
        if refs.Some? {
          refs := Some(refs.value + [0 - highest]);
        }
        highest := highest + 1;
      }
    }

    /** The `T_ParamRef` case. */
    method RecordParam(number: nat)
      requires Ready()
      modifies this
      ensures Ready() && kept == old(kept) && After(old(Now()), Now(), [Number(number)], [], 0, false)
    {
      ParamFresh(number, highest, extern);
      AfterNothing(Now());
      hide Refs, Constants, HighestParam, Numbered;
      if number > extern {
        extern := number;
      }
      if refs.Some? {
        refs := Some(refs.value + [number]);
      }
    }

    /** `const_record_walker` */
    method Walk(n: Node)
      requires Ready()
      modifies this
      ensures Ready() && kept == (old(kept) && Sound(fp, utilityOnly, n))
      ensures After(old(Now()), Now(), Leaves(n, utilityOnly), Entries(fp, utilityOnly, n, old(highest)),
                    Consumed(fp, utilityOnly, n), HasTargets(n, utilityOnly))
      decreases n, 6
    {
      ghost var s := Now();
      AfterNothing(s);
      hide After, Numbered, AllLeaves, SomeHasTargets, LocationLeaf, EntriesAll, ConsumedAll, SoundAll, Fresh, Constants, Ready;
      match n {
        case Const(location, _) => RecordConstLocation(location);
        case Param(number) => RecordParam(number);
        case TypeName =>
        case Plain(children) => WalkAll(children, false);
        case Marked(location, children) =>
          RecordConstLocation(location);
          ghost var t := Now();
          WalkAll(children, false);
          AfterThen(s, t, Now(), LocationLeaf(location), Fresh(LocationLeaf(location), s.highest),
                    Constants(LocationLeaf(location)), false,
                    AllLeaves(children, utilityOnly, false), EntriesAll(fp, utilityOnly, children, false, t.highest),
                    ConsumedAll(fp, utilityOnly, children, false), SomeHasTargets(children, utilityOnly));
          AfterHighest(s, t, LocationLeaf(location), Fresh(LocationLeaf(location), s.highest), Constants(LocationLeaf(location)), false);
        case Guarded(children) =>
          if !utilityOnly {
            WalkAll(children, false);
          }
        case Select(_, _, _, _, _, _) =>
          if !utilityOnly {
            WalkSelect(n);
          }
      }
    }

    /** The nodes of a list, simple integers left out where the clause asks for it. */
    method WalkAll(ns: seq<Node>, skipIntegers: bool)
      requires Ready()
      modifies this
      ensures Ready() && kept == (old(kept) && SoundAll(fp, utilityOnly, ns))
      ensures After(old(Now()), Now(), AllLeaves(ns, utilityOnly, skipIntegers),
                    EntriesAll(fp, utilityOnly, ns, skipIntegers, old(highest)),
                    ConsumedAll(fp, utilityOnly, ns, skipIntegers), SomeHasTargets(ns, utilityOnly))
      decreases ns, 8
    {
      hide *;
      ghost var s, k := Now(), kept;
      NowIs(this);
      AfterNothing(s);
      NoNodes(fp, utilityOnly, ns, skipIntegers, s.highest);
      var i := 0;
      while i < |ns|
        invariant 0 <= i <= |ns| && Ready() && kept == (k && SoundAll(fp, utilityOnly, ns[..i]))
        invariant After(s, Now(), AllLeaves(ns[..i], utilityOnly, skipIntegers),
                        EntriesAll(fp, utilityOnly, ns[..i], skipIntegers, s.highest),
                        ConsumedAll(fp, utilityOnly, ns[..i], skipIntegers), SomeHasTargets(ns[..i], utilityOnly))
      {
        WalkNext(ns, i, skipIntegers, s);
        i := i + 1;
      }
      assert ns[..|ns|] == ns;
    }

    /** The next node of a list. */
    method WalkNext(ns: seq<Node>, i: nat, skipIntegers: bool, ghost s: Snap)
      requires Ready() && i < |ns|
      requires After(s, Now(), AllLeaves(ns[..i], utilityOnly, skipIntegers),
                     EntriesAll(fp, utilityOnly, ns[..i], skipIntegers, s.highest),
                     ConsumedAll(fp, utilityOnly, ns[..i], skipIntegers), SomeHasTargets(ns[..i], utilityOnly))
      modifies this
      ensures Ready() && kept == (old(kept) && Sound(fp, utilityOnly, ns[i]))
      ensures SoundAll(fp, utilityOnly, ns[..i + 1]) == (SoundAll(fp, utilityOnly, ns[..i]) && Sound(fp, utilityOnly, ns[i]))
      ensures After(s, Now(), AllLeaves(ns[..i + 1], utilityOnly, skipIntegers),
                    EntriesAll(fp, utilityOnly, ns[..i + 1], skipIntegers, s.highest),
                    ConsumedAll(fp, utilityOnly, ns[..i + 1], skipIntegers), SomeHasTargets(ns[..i + 1], utilityOnly))
      decreases ns, 7
    {
      hide *;
      ghost var t := Now();
      NowIs(this);
      AfterHighest(s, t, AllLeaves(ns[..i], utilityOnly, skipIntegers), EntriesAll(fp, utilityOnly, ns[..i], skipIntegers, s.highest),
                   ConsumedAll(fp, utilityOnly, ns[..i], skipIntegers), SomeHasTargets(ns[..i], utilityOnly));
      AfterNothing(t);
      NodeIn(fp, utilityOnly, ns[i], skipIntegers, t.highest);
      if !(skipIntegers && IsIntegerConst(ns[i])) {
        Walk(ns[i]);
      }
      AfterThen(s, t, Now(), AllLeaves(ns[..i], utilityOnly, skipIntegers), EntriesAll(fp, utilityOnly, ns[..i], skipIntegers, s.highest),
                ConsumedAll(fp, utilityOnly, ns[..i], skipIntegers), SomeHasTargets(ns[..i], utilityOnly),
                LeavesIn(ns[i], utilityOnly, skipIntegers), EntriesIn(fp, utilityOnly, ns[i], skipIntegers, t.highest),
                ConsumedIn(fp, utilityOnly, ns[i], skipIntegers), HasTargets(ns[i], utilityOnly));
      NextNode(fp, utilityOnly, ns, i, skipIntegers, s.highest);
    }

    /** The target list: every element is walked with a recording of its own. */
    method WalkTargets(ns: seq<Node>) returns (targets: seq<Target<seq<int>>>)
      requires Ready()
      modifies this
      ensures Ready() && kept == (old(kept) && SoundAll(fp, utilityOnly, ns))
      ensures After(old(Now()), Now(), AllLeaves(ns, utilityOnly, false), EntriesAll(fp, utilityOnly, ns, false, old(highest)),
                    ConsumedAll(fp, utilityOnly, ns, false), ns != [])
      ensures targets == Remembered(fp, utilityOnly, ns, old(highest)) && (kept ==> AllAbove(targets, highest))
      decreases ns, 8
    {
      hide *;
      ghost var s, k := Now(), kept;
      NowIs(this);
      AfterNothing(s);
      NoNodes(fp, utilityOnly, ns, false, s.highest);
      NumberedStart(this);
      targets := [];
      var i := 0;
      while i < |ns|
        invariant 0 <= i <= |ns| && Ready() && kept == (k && SoundAll(fp, utilityOnly, ns[..i]))
        invariant After(s, Now(), AllLeaves(ns[..i], utilityOnly, false), EntriesAll(fp, utilityOnly, ns[..i], false, s.highest),
                        ConsumedAll(fp, utilityOnly, ns[..i], false), i > 0)
        invariant targets == Remembered(fp, utilityOnly, ns[..i], s.highest)
      {
        var target := WalkNextTarget(ns, i, s);
        targets := targets + [target];
        i := i + 1;
      }
      assert ns[..|ns|] == ns;
      if kept {
        RememberedAbove(fp, utilityOnly, ns, s.highest);
        NowHighest(this, s, AllLeaves(ns, utilityOnly, false), EntriesAll(fp, utilityOnly, ns, false, s.highest),
                   ConsumedAll(fp, utilityOnly, ns, false), ns != []);
      }
    }

    /** The next target. */
    method WalkNextTarget(ns: seq<Node>, i: nat, ghost s: Snap) returns (target: Target<seq<int>>)
      requires Ready() && i < |ns|
      requires After(s, Now(), AllLeaves(ns[..i], utilityOnly, false), EntriesAll(fp, utilityOnly, ns[..i], false, s.highest),
                     ConsumedAll(fp, utilityOnly, ns[..i], false), i > 0)
      modifies this
      ensures Ready() && kept == (old(kept) && Sound(fp, utilityOnly, ns[i]))
      ensures SoundAll(fp, utilityOnly, ns[..i + 1]) == (SoundAll(fp, utilityOnly, ns[..i]) && Sound(fp, utilityOnly, ns[i]))
      ensures After(s, Now(), AllLeaves(ns[..i + 1], utilityOnly, false), EntriesAll(fp, utilityOnly, ns[..i + 1], false, s.highest),
                    ConsumedAll(fp, utilityOnly, ns[..i + 1], false), true)
      ensures Remembered(fp, utilityOnly, ns[..i + 1], s.highest) == Remembered(fp, utilityOnly, ns[..i], s.highest) + [target]
      decreases ns, 7
    {
      hide *;
      ghost var t := Now();
      NowIs(this);
      ghost var l, e := AllLeaves(ns[..i], utilityOnly, false), EntriesAll(fp, utilityOnly, ns[..i], false, s.highest);
      ghost var c := ConsumedAll(fp, utilityOnly, ns[..i], false);
      AfterHighest(s, t, l, e, c, i > 0);
      target := WalkTarget(ns[i]);
      NodeIn(fp, utilityOnly, ns[i], false, t.highest);
      AfterThen(s, t, Now(), l, e, c, i > 0, LeavesIn(ns[i], utilityOnly, false), EntriesIn(fp, utilityOnly, ns[i], false, t.highest),
                ConsumedIn(fp, utilityOnly, ns[i], false), true);
      NextNode(fp, utilityOnly, ns, i, false, s.highest);
    }

    /** One target: what it records is remembered with its fingerprint. */
    method WalkTarget(n: Node) returns (target: Target<seq<int>>)
      requires Ready()
      modifies this
      ensures Ready() && kept == (old(kept) && Sound(fp, utilityOnly, n))
      ensures After(old(Now()), Now(), Leaves(n, utilityOnly), Entries(fp, utilityOnly, n, old(highest)),
                    Consumed(fp, utilityOnly, n), true)
      ensures target == RememberedOne(fp, utilityOnly, n, old(highest))
      decreases n, 7
    {
      hide After, Leaves, Entries, Consumed, HasTargets, Refs, Sound, Numbered;
      ghost var s := Now();
      refs := Some([]);
      ghost var s' := Now();
      assert s' == s.(refs := Some([]));
      Walk(n);
      ghost var t := Now();
      AfterTarget(s, t, Leaves(n, utilityOnly), Entries(fp, utilityOnly, n, s.highest), Consumed(fp, utilityOnly, n),
                  HasTargets(n, utilityOnly));
      target := Target(fp(n), if refs.Some? then refs.value else []);
      refs := None;
      assert Now() == t.(refs := None);
    }

    /**
     A GROUP BY item. When the first target with its fingerprint recorded as many ids as the item
     has constants, the item takes those ids and gives as many back.
     */
    method VisitGroupItem(n: Node, targets: seq<Target<seq<int>>>, ghost some: bool) returns (rest: seq<Target<seq<int>>>)
      requires Ready() && !IsIntegerConst(n)
      requires (if some then refs.None? else targets == []) && (kept ==> AllAbove(targets, highest))
      modifies this
      ensures Ready() && kept == (old(kept) && SoundItem(fp, utilityOnly, n, Counts(targets)))
      ensures After(old(Now()), Now(), Leaves(n, utilityOnly), EntriesItem(fp, utilityOnly, n, targets, old(highest)),
                    ConsumedItem(fp, utilityOnly, n, Counts(targets)), some || HasTargets(n, utilityOnly))
      ensures rest == UsedUp(targets, fp(n)) && (kept ==> AllAbove(rest, highest))
      ensures if some then refs.None? else rest == []
      decreases n, 7
    {
      hide *;
      ghost var s, k := Now(), kept;
      NowIs(this);
      ReadyNow(this);
      var found;
      found, rest := Match(targets, fp(n));
      var previous := |clocations|;
      Walk(n);
      ghost var t := Now();
      NowIs(this);
      ReadyNow(this);
      ItemAfter(fp, utilityOnly, n, targets, some, s, t);
      ItemKept(fp, utilityOnly, n, targets, s, t, some || HasTargets(n, utilityOnly), k, kept);
      TakeOver(found, previous);
      NowIs(this);
      kept := kept && Numbered(clocations, highest);
      ReadyIs(this);
      NowIs(this);
      NoneUsedUp(targets, fp(n));
    }

    /** The search among the targets, which removes the one it finds. */
    method Match(targets: seq<Target<seq<int>>>, fp: nat) returns (found: Option<seq<int>>, rest: seq<Target<seq<int>>>)
      ensures found == RefsFound(targets, fp) && rest == UsedUp(targets, fp)
    {
      found, rest := None, targets;
      var m := FindTarget(targets, fp);
      if m.Some? {
        found := Some(targets[m.value].refs);
        rest := targets[..m.value] + targets[m.value + 1..];
      }
    }

    /** The ids of the new entries are replaced, and as many given back, if their numbers agree. */
    method TakeOver(found: Option<seq<int>>, previous: nat)
      requires previous <= |clocations|
      modifies this`clocations, this`highest
      ensures Now() == AfterItem(old(Now()), found, previous)
    {
      if found.Some? && |found.value| == |clocations| - previous {
        AssignIds(previous, found.value);
        highest := highest - |found.value|;
      }
    }

    /** The loop that overwrites the ids from `from` on. */
    method AssignIds(from: nat, ids: seq<int>)
      requires |clocations| == from + |ids|
      modifies this`clocations
      ensures clocations == WithIds(old(clocations), from, ids)
    {
      var i := from;
      while i < |clocations|
        invariant from <= i <= |clocations| == |old(clocations)|
        invariant forall k :: 0 <= k < |clocations| ==>
                    clocations[k] == if from <= k < i then Location(old(clocations)[k].location, ids[k - from]) else old(clocations)[k]
      {
        clocations := clocations[i := clocations[i].(id := ids[i - from])];
        i := i + 1;
      }
    }

    /** The GROUP BY clause; simple integers are passed over. */
    method WalkGroup(ns: seq<Node>, all: seq<Target<seq<int>>>)
      requires Ready() && (all != [] ==> refs.None?) && (kept ==> AllAbove(all, highest))
      modifies this
      ensures Ready() && kept == (old(kept) && SoundGroup(fp, utilityOnly, ns, Counts(all)))
      ensures After(old(Now()), Now(), AllLeaves(ns, utilityOnly, true), EntriesGroup(fp, utilityOnly, ns, all, old(highest)),
                    ConsumedGroup(fp, utilityOnly, ns, Counts(all)), all != [] || SomeHasTargets(ns, utilityOnly))
      decreases ns, 8
    {
      hide *;
      ghost var s, k := Now(), kept;
      NowIs(this);
      AfterNothing(s);
      if all != [] {
        AfterWeaker(s, s, [], [], 0, false);
      }
      NoNodes(fp, utilityOnly, ns, true, s.highest);
      NoItems(fp, utilityOnly, ns, all, s.highest);
      var targets := all;
      var i := 0;
      while i < |ns|
        invariant 0 <= i <= |ns| && Ready() && kept == (k && SoundGroup(fp, utilityOnly, ns[..i], Counts(all)))
        invariant (if all != [] then refs.None? else targets == []) && (kept ==> AllAbove(targets, highest))
        invariant targets == Left(fp, ns[..i], all)
        invariant After(s, Now(), AllLeaves(ns[..i], utilityOnly, true), EntriesGroup(fp, utilityOnly, ns[..i], all, s.highest),
                        ConsumedGroup(fp, utilityOnly, ns[..i], Counts(all)), all != [] || SomeHasTargets(ns[..i], utilityOnly))
      {
        targets := WalkItem(ns, i, all, targets, s);
        i := i + 1;
      }
      assert ns[..|ns|] == ns;
    }

    /** The next item of a GROUP BY clause. */
    method WalkItem(ns: seq<Node>, i: nat, ghost all: seq<Target<seq<int>>>, targets: seq<Target<seq<int>>>, ghost s: Snap)
      returns (rest: seq<Target<seq<int>>>)
      requires Ready() && i < |ns| && targets == Left(fp, ns[..i], all)
      requires (if all != [] then refs.None? else targets == []) && (kept ==> AllAbove(targets, highest))
      requires After(s, Now(), AllLeaves(ns[..i], utilityOnly, true), EntriesGroup(fp, utilityOnly, ns[..i], all, s.highest),
                     ConsumedGroup(fp, utilityOnly, ns[..i], Counts(all)), all != [] || SomeHasTargets(ns[..i], utilityOnly))
      modifies this
      ensures Ready() && kept == (old(kept) && SoundItem(fp, utilityOnly, ns[i], Left(fp, ns[..i], Counts(all))))
      ensures SoundGroup(fp, utilityOnly, ns[..i + 1], Counts(all))
           == (SoundGroup(fp, utilityOnly, ns[..i], Counts(all)) && SoundItem(fp, utilityOnly, ns[i], Left(fp, ns[..i], Counts(all))))
      ensures (if all != [] then refs.None? else rest == []) && (kept ==> AllAbove(rest, highest))
      ensures rest == Left(fp, ns[..i + 1], all)
      ensures After(s, Now(), AllLeaves(ns[..i + 1], utilityOnly, true), EntriesGroup(fp, utilityOnly, ns[..i + 1], all, s.highest),
                    ConsumedGroup(fp, utilityOnly, ns[..i + 1], Counts(all)), all != [] || SomeHasTargets(ns[..i + 1], utilityOnly))
      decreases ns, 7
    {
      hide *;
      ghost var t, n, some := Now(), ns[i], all != [];
      NowIs(this);
      ghost var l, e := AllLeaves(ns[..i], utilityOnly, true), EntriesGroup(fp, utilityOnly, ns[..i], all, s.highest);
      ghost var c, h := ConsumedGroup(fp, utilityOnly, ns[..i], Counts(all)), all != [] || SomeHasTargets(ns[..i], utilityOnly);
      AfterHighest(s, t, l, e, c, h);
      LeftCounts(fp, ns[..i], all);
      AfterNothing(t);
      ItemIn(fp, utilityOnly, n, targets, t.highest);
      rest := targets;
      if !IsIntegerConst(ns[i]) {
        rest := VisitGroupItem(ns[i], targets, some);
      } else if some {
        AfterWeaker(t, t, [], [], 0, false);
      }
      AfterThen(s, t, Now(), l, e, c, h, LeavesIn(n, utilityOnly, true), EntriesItem(fp, utilityOnly, n, targets, t.highest),
                ConsumedItem(fp, utilityOnly, n, Counts(targets)), some || HasTargets(n, utilityOnly));
      NextNode(fp, utilityOnly, ns, i, true, s.highest);
      NextItem(fp, utilityOnly, ns, i, all, s.highest);
    }

    /** `const_record_walker`, the `T_SelectStmt` case: clause after clause. */
    method WalkSelect(n: Node)
      requires Ready() && n.Select? && !utilityOnly
      modifies this
      ensures Ready() && kept == (old(kept) && Sound(fp, utilityOnly, n))
      ensures After(old(Now()), Now(), Leaves(n, utilityOnly), Entries(fp, utilityOnly, n, old(highest)),
                    Consumed(fp, utilityOnly, n), HasTargets(n, utilityOnly))
      decreases n, 5
    {
      hide *;
      ghost var s := Now();
      NowIs(this);
      SelectIs(fp, utilityOnly, n, s.highest);
      WalkAll(n.first, false);
      ghost var t1, l1, h1 := Now(), AllLeaves(n.first, utilityOnly, false), SomeHasTargets(n.first, utilityOnly);
      ghost var e1, c1 := EntriesAll(fp, utilityOnly, n.first, false, s.highest), ConsumedAll(fp, utilityOnly, n.first, false);
      AfterHighest(s, t1, l1, e1, c1, h1);
      NowIs(this);
      var targets := WalkTargets(n.targets);
      NowIs(this);
      ghost var t2, l2, h2 := Now(), AllLeaves(n.targets, utilityOnly, false), n.targets != [];
      ghost var e2, c2 := EntriesAll(fp, utilityOnly, n.targets, false, t1.highest), ConsumedAll(fp, utilityOnly, n.targets, false);
      AfterHighest(t1, t2, l2, e2, c2, h2);
      AfterThen(s, t1, t2, l1, e1, c1, h1, l2, e2, c2, h2);
      WalkAll(n.middle, false);
      NowIs(this);
      ghost var t3, l3, h3 := Now(), AllLeaves(n.middle, utilityOnly, false), SomeHasTargets(n.middle, utilityOnly);
      ghost var e3, c3 := EntriesAll(fp, utilityOnly, n.middle, false, t2.highest), ConsumedAll(fp, utilityOnly, n.middle, false);
      AfterHighest(t2, t3, l3, e3, c3, h3);
      AfterThen(s, t2, t3, l1 + l2, e1 + e2, c1 + c2, h1 || h2, l3, e3, c3, h3);
      StaysOff(t1, t2, t3, l2, e2, c2, h2, l3, e3, c3, h3);
      if kept {
        AllBounds(fp, utilityOnly, n.middle, false);
        AboveStays(targets, t2.highest, t3.highest);
      }
      RememberedCounts(fp, utilityOnly, n.targets, t1.highest);
      WalkGroup(n.group, targets);
      ghost var t4, l4, h4 := Now(), AllLeaves(n.group, utilityOnly, true), targets != [] || SomeHasTargets(n.group, utilityOnly);
      ghost var e4 := EntriesGroup(fp, utilityOnly, n.group, targets, t3.highest);
      ghost var c4 := ConsumedGroup(fp, utilityOnly, n.group, Offers(fp, utilityOnly, n.targets));
      AfterHighest(t3, t4, l4, e4, c4, h4);
      AfterThen(s, t3, t4, (l1 + l2) + l3, (e1 + e2) + e3, (c1 + c2) + c3, h1 || h2 || h3, l4, e4, c4, h4);
      NowIs(this);
      WalkAll(n.sort, true);
      NowIs(this);
      ghost var t5, l5, h5 := Now(), AllLeaves(n.sort, utilityOnly, true), SomeHasTargets(n.sort, utilityOnly);
      ghost var e5, c5 := EntriesAll(fp, utilityOnly, n.sort, true, t4.highest), ConsumedAll(fp, utilityOnly, n.sort, true);
      AfterHighest(t4, t5, l5, e5, c5, h5);
      AfterThen(s, t4, t5, ((l1 + l2) + l3) + l4, ((e1 + e2) + e3) + e4, ((c1 + c2) + c3) + c4, h1 || h2 || h3 || h4, l5, e5, c5, h5);
      WalkAll(n.rest, false);
      ghost var t6, l6, h6 := Now(), AllLeaves(n.rest, utilityOnly, false), SomeHasTargets(n.rest, utilityOnly);
      ghost var e6, c6 := EntriesAll(fp, utilityOnly, n.rest, false, t5.highest), ConsumedAll(fp, utilityOnly, n.rest, false);
      AfterThen(s, t5, t6, (((l1 + l2) + l3) + l4) + l5, (((e1 + e2) + e3) + e4) + e5, (((c1 + c2) + c3) + c4) + c5,
                h1 || h2 || h3 || h4 || h5, l6, e6, c6, h6);
    }
  }

  lemma AfterHighest(s: Snap, t: Snap, leaves: seq<Leaf>, entries: seq<Location>, consumed: int, hasTargets: bool)
    requires After(s, t, leaves, entries, consumed, hasTargets)
    ensures t.highest == s.highest + consumed
  {
  }

  /** Once a target list has been walked nothing is recorded until the next one. */
  lemma StaysOff(s: Snap, t: Snap, u: Snap, a: seq<Leaf>, d: seq<Location>, c: int, one: bool,
                 b: seq<Leaf>, e: seq<Location>, k: int, two: bool)
    requires After(s, t, a, d, c, one) && After(t, u, b, e, k, two)
    ensures one ==> u.refs.None?
  {
  }

  lemma NowHighest(state: ConstLocations, s: Snap, leaves: seq<Leaf>, entries: seq<Location>, consumed: int, hasTargets: bool)
    requires After(s, state.Now(), leaves, entries, consumed, hasTargets)
    ensures state.highest == s.highest + consumed
  {
  }

  lemma NumberedStart(state: ConstLocations)
    requires state.Ready()
    ensures state.kept ==> state.highest >= 1
  {
  }

  lemma ReadyNow(state: ConstLocations)
    requires state.Ready()
    ensures state.kept ==> Numbered(state.clocations, state.highest)
  {
  }

  lemma ReadyIs(state: ConstLocations)
    requires state.kept ==> Numbered(state.clocations, state.highest)
    ensures state.Ready()
  {
  }

  lemma NowIs(state: ConstLocations)
    ensures state.Now() == Snap(state.clocations, state.highest, state.extern, state.refs)
  {
  }

  /** The state once the ids of a matching target have been taken over, if there is one. */
  ghost function AfterItem(t: Snap, found: Option<seq<int>>, previous: nat): Snap
    requires previous <= |t.clocations|
  {
    match found
    case None => t
    case Some(refs) =>
      if |refs| != |t.clocations| - previous then t
      else t.(clocations := WithIds(t.clocations, previous, refs), highest := t.highest - |refs|)
  }

  lemma ItemAfter(fp: Node -> nat, utilityOnly: bool, n: Node, targets: seq<Target<seq<int>>>, some: bool, s: Snap, t: Snap)
    requires !IsIntegerConst(n) && if some then s.refs.None? else targets == []
    requires After(s, t, Leaves(n, utilityOnly), Entries(fp, utilityOnly, n, s.highest), Consumed(fp, utilityOnly, n),
                   HasTargets(n, utilityOnly))
    ensures |s.clocations| <= |t.clocations|
    ensures After(s, AfterItem(t, RefsFound(targets, fp(n)), |s.clocations|), Leaves(n, utilityOnly),
                  EntriesItem(fp, utilityOnly, n, targets, s.highest), ConsumedItem(fp, utilityOnly, n, Counts(targets)),
                  some || HasTargets(n, utilityOnly))
    ensures some ==> t.refs.None?
  {
    hide Places, Leaves, Entries, Consumed, RefsFound, HasTargets, Given, EntriesItem, WithIds, Refs, Constants, HighestParam, PlacesOf,
         FindTarget;
    ItemCases(fp, utilityOnly, n, targets, s.highest);
    NoneFound(targets, fp(n));
    var leaves, entries, consumed := Leaves(n, utilityOnly), Entries(fp, utilityOnly, n, s.highest), Consumed(fp, utilityOnly, n);
    var found := RefsFound(targets, fp(n));
    if found.Some? && |found.value| == |entries| {
      AfterReuse(s, t, leaves, entries, consumed, HasTargets(n, utilityOnly), found.value);
    }
  }

  lemma NoneFound(targets: seq<Target<seq<int>>>, fp: nat)
    ensures targets == [] ==> RefsFound(targets, fp) == None
  {
  }

  /** The numbering holds after an item exactly when the item gives back no more than it has taken. */
  lemma ItemKept(fp: Node -> nat, utilityOnly: bool, n: Node, targets: seq<Target<seq<int>>>, s: Snap, t: Snap, hasTargets: bool,
                 k: bool, walked: bool)
    requires !IsIntegerConst(n) && walked == (k && Sound(fp, utilityOnly, n))
    requires k ==> Numbered(s.clocations, s.highest) && AllAbove(targets, s.highest)
    requires walked ==> Numbered(t.clocations, t.highest)
    requires After(s, t, Leaves(n, utilityOnly), Entries(fp, utilityOnly, n, s.highest), Consumed(fp, utilityOnly, n),
                   HasTargets(n, utilityOnly))
    requires |s.clocations| <= |t.clocations|
    requires After(s, AfterItem(t, RefsFound(targets, fp(n)), |s.clocations|), Leaves(n, utilityOnly),
                   EntriesItem(fp, utilityOnly, n, targets, s.highest), ConsumedItem(fp, utilityOnly, n, Counts(targets)), hasTargets)
    ensures var u := AfterItem(t, RefsFound(targets, fp(n)), |s.clocations|);
            && ((walked && Numbered(u.clocations, u.highest)) <==> (k && SoundItem(fp, utilityOnly, n, Counts(targets))))
            && (walked && Numbered(u.clocations, u.highest) ==> AllAbove(UsedUp(targets, fp(n)), u.highest))
  {
    hide *;
    var entries, consumed := Entries(fp, utilityOnly, n, s.highest), Consumed(fp, utilityOnly, n);
    var u := AfterItem(t, RefsFound(targets, fp(n)), |s.clocations|);
    ItemCases(fp, utilityOnly, n, targets, s.highest);
    ConsumedBounds(fp, utilityOnly, n);
    AfterSays(s, t, Leaves(n, utilityOnly), entries, consumed, HasTargets(n, utilityOnly));
    AfterSays(s, u, Leaves(n, utilityOnly), EntriesItem(fp, utilityOnly, n, targets, s.highest),
              ConsumedItem(fp, utilityOnly, n, Counts(targets)), hasTargets);
    ItemSays(fp, utilityOnly, n, Counts(targets));
    var found := RefsFound(targets, fp(n));
    if walked {
      AboveFound(targets, fp(n), s.highest);
      if found.Some? && |found.value| == |entries| {
        GivesBack(s.clocations, s.highest, consumed, Places(Leaves(n, utilityOnly)), found.value);
      }
      if SoundItem(fp, utilityOnly, n, Counts(targets)) {
        RestAbove(fp, utilityOnly, n, targets, s.highest);
      }
    }
  }

  lemma AfterSays(s: Snap, t: Snap, leaves: seq<Leaf>, entries: seq<Location>, consumed: int, hasTargets: bool)
    requires After(s, t, leaves, entries, consumed, hasTargets)
    ensures t.clocations == s.clocations + entries && t.highest == s.highest + consumed
  {
  }

  /**
   The walk over a whole query. The numbering is sound after every GROUP BY item if and only if no
   item gives back more ids than it has taken.
   */
  method NumberConstants(tree: Node, utilityOnly: bool, fp: Node -> nat)
    returns (clocations: seq<Location>, extern: nat, ghost next: int, ghost kept: bool)
    ensures clocations == Entries(fp, utilityOnly, tree, 1) && next == 1 + Consumed(fp, utilityOnly, tree)
    ensures PlacesOf(clocations) == Places(Leaves(tree, utilityOnly))
    ensures extern == HighestParam(Leaves(tree, utilityOnly), 0)
    ensures forall i :: 0 <= i < |clocations| && clocations[i].id < 0 ==> extern < PrintedId(extern, clocations[i].id)
    ensures kept <==> Sound(fp, utilityOnly, tree)
    ensures kept ==> Numbered(clocations, next)
  {
    var state := new ConstLocations(utilityOnly, fp);
    state.Walk(tree);
    EntriesPlaces(fp, utilityOnly, tree, 1);
    hide Numbered, Leaves, HighestParam, Places, Entries, Consumed, Sound;
    clocations, extern, next, kept := state.clocations, state.extern, state.highest, state.kept;
    assert [] + Entries(fp, utilityOnly, tree, 1) == Entries(fp, utilityOnly, tree, 1);
  }
}
