/** A query in which an id is given out twice, when fingerprints do not tell a target and a GROUP BY item apart. */
module NormalizeRepeats {
  import opened NormalizeIds

  const ONE_FINGERPRINT: Node -> nat := _ => 0

  /** A GROUP BY item that takes over an id within itself: two constants, one of them with a fresh id. */
  function InnerSelect(): Node {
    Select([], [Const(30, false)], [], [Const(40, false)], [], [])
  }

  function TwoConstants(): Node {
    Plain([Const(10, false), Const(20, false)])
  }

  /** `SELECT` of two constants, grouped by the item, and a constant behind it. */
  function OuterSelect(): Node {
    Select([], [TwoConstants()], [], [InnerSelect()], [], [Const(50, false)])
  }

  lemma OneConst(location: nat, skipIntegers: bool, next: int)
    ensures var ns, fp := [Const(location, false)], ONE_FINGERPRINT;
            && AllLeaves(ns, false, skipIntegers) == [At(location)] == Leaves(ns[0], false) && !SomeHasTargets(ns, false)
            && EntriesAll(fp, false, ns, skipIntegers, next) == [Location(location, -next)] == Entries(fp, false, ns[0], next)
            && ConsumedAll(fp, false, ns, skipIntegers) == 1 == Consumed(fp, false, ns[0]) && SoundAll(fp, false, ns)
            && Places([At(location)]) == [location] && Refs([At(location)], next) == [-next]
  {
    ConstFresh(location, next, 0);
    assert [At(location)][..0] == [];
    assert [Const(location, false)][..0] == [];
    hide Fresh, Refs, Constants, HighestParam;
    LastLeaves([Const(location, false)], false, skipIntegers);
    LastEntries(ONE_FINGERPRINT, false, [Const(location, false)], skipIntegers, next);
  }

  /** A GROUP BY clause of one item and a single target, which the item matches. */
  lemma OneItem(n: Node, refs: seq<int>, next: int)
    requires !IsIntegerConst(n) && |refs| == |Places(Leaves(n, false))|
    ensures var fp, ns, targets := ONE_FINGERPRINT, [n], [Target(0, refs)];
            && EntriesGroup(fp, false, ns, targets, next) == Reused(Places(Leaves(n, false)), refs)
            && ConsumedGroup(fp, false, ns, [Target(0, |refs|)]) == Consumed(fp, false, n) - |refs|
            && SoundGroup(fp, false, ns, [Target(0, |refs|)]) == (Sound(fp, false, n) && |refs| <= Consumed(fp, false, n))
            && AllLeaves(ns, false, true) == Leaves(n, false)
  {
    hide Places, Leaves, Consumed, Sound, Entries;
    assert [n][..0] == [];
  }

  lemma OneTarget(n: Node, refs: seq<int>, next: int)
    requires !HasTargets(n, false) && Refs(Leaves(n, false), next) == refs && |refs| == |Leaves(n, false)|
    ensures Remembered(ONE_FINGERPRINT, false, [n], next) == [Target(0, refs)]
    ensures Offers(ONE_FINGERPRINT, false, [n]) == [Target(0, |refs|)]
  {
    hide Leaves, Refs, HasTargets;
    assert [n][..0] == [];
  }

  lemma NoClause(skipIntegers: bool, next: int)
    ensures var fp := ONE_FINGERPRINT;
            && AllLeaves([], false, skipIntegers) == [] && EntriesAll(fp, false, [], skipIntegers, next) == []
            && ConsumedAll(fp, false, [], skipIntegers) == 0 && SoundAll(fp, false, []) && !SomeHasTargets([], false)
  {
  }

  /** The item records the locations 30 and 40 and takes one id. */
  lemma InnerIs()
    ensures var n, fp := InnerSelect(), ONE_FINGERPRINT;
            && Leaves(n, false) == [At(30), At(40)] && Places(Leaves(n, false)) == [30, 40]
            && Consumed(fp, false, n) == 1
  {
    hide *;
    var n, fp := InnerSelect(), ONE_FINGERPRINT;
    InnerParts();
    SelectIs(fp, false, n, 3);
    NoClause(false, 3);
    NoClause(true, 3);
    OneConst(30, false, 3);
    OneConst(40, true, 4);
    OneConst(40, false, 4);
    ConstNoTargets(30);
    ConstNoTargets(40);
    OneTarget(Const(30, false), [-3], 3);
    OneItem(Const(40, false), [-3], 4);
    TwoPlacesAre(30, 40);
  }

  lemma InnerParts()
    ensures var n := InnerSelect();
            n.Select? && n.first == n.middle == n.sort == n.rest == [] && n.targets == [Const(30, false)] && n.group == [Const(40, false)]
  {
  }

  lemma ConstNoTargets(location: nat)
    ensures !HasTargets(Const(location, false), false) && !IsIntegerConst(Const(location, false))
  {
  }

  lemma TwoPlacesAre(a: nat, b: nat)
    ensures Places([At(a), At(b)]) == [a, b]
  {
    assert [At(a), At(b)] == [At(a)] + [At(b)] && [At(a)][..0] == [] && [At(b)][..0] == [];
    PlacesAppend([At(a)], [At(b)]);
  }

  lemma TwoConstantsAre()
    ensures var n, fp := TwoConstants(), ONE_FINGERPRINT;
            && !HasTargets(n, false) && Leaves(n, false) == [At(10), At(20)] && Refs(Leaves(n, false), 1) == [-1, -2]
            && Entries(fp, false, n, 1) == [Location(10, -1), Location(20, -2)] && Consumed(fp, false, n) == 2 && Sound(fp, false, n)
  {
    var n, fp := TwoConstants(), ONE_FINGERPRINT;
    NoConstTargets();
    NoneTakenOver(fp, false, n, 1);
    TwoLeaves();
    hide Entries, Consumed, HasTargets, Sound, Leaves;
  }

  lemma NoConstTargets()
    ensures !HasTargets(TwoConstants(), false)
  {
    var ns := [Const(10, false), Const(20, false)];
    assert ns[..1] == [Const(10, false)] && [Const(10, false)][..0] == [];
  }

  lemma TwoLeaves()
    ensures var l := Leaves(TwoConstants(), false);
            && l == [At(10), At(20)] && Refs(l, 1) == [-1, -2] && Constants(l) == 2
            && Fresh(l, 1) == [Location(10, -1), Location(20, -2)]
  {
    var ns := [Const(10, false), Const(20, false)];
    assert ns[..1] == [Const(10, false)] && [Const(10, false)][..0] == [];
    assert [At(10), At(20)] == [At(10)] + [At(20)];
    ConstFresh(10, 1, 0);
    ConstFresh(20, 2, 0);
    LeavesAppend([At(10)], [At(20)], 1, 0);
    hide Refs, Constants, Fresh;
  }

  /**
   The item gives back two ids but has taken one. The constant behind it, at location 50, gets the id
   of the constant at location 20.
   */
  lemma IdRepeats()
    ensures var tree, fp := OuterSelect(), ONE_FINGERPRINT;
            && !Sound(fp, false, tree)
            && Entries(fp, false, tree, 1)
               == [Location(10, -1), Location(20, -2), Location(30, -1), Location(40, -2), Location(50, -2)]
  {
    hide *;
    var n, fp := OuterSelect(), ONE_FINGERPRINT;
    OuterParts();
    SelectIs(fp, false, n, 1);
    NoClause(false, 1);
    NoClause(false, 3);
    NoClause(true, 2);
    TwoConstantsAre();
    InnerIs();
    InnerNoInteger();
    OneTarget(TwoConstants(), [-1, -2], 1);
    OneOfList(TwoConstants(), 1);
    OneItem(InnerSelect(), [-1, -2], 3);
    OneConst(50, false, 2);
    ReusedAre();
  }

  lemma OuterParts()
    ensures var n := OuterSelect();
            n.Select? && n.first == n.middle == n.sort == [] && n.targets == [TwoConstants()] && n.group == [InnerSelect()]
            && n.rest == [Const(50, false)]
  {
    hide TwoConstants, InnerSelect;
  }

  lemma InnerNoInteger()
    ensures !IsIntegerConst(InnerSelect())
  {
  }

  lemma OneOfList(n: Node, next: int)
    ensures var ns, fp := [n], ONE_FINGERPRINT;
            && EntriesAll(fp, false, ns, false, next) == Entries(fp, false, n, next)
            && ConsumedAll(fp, false, ns, false) == Consumed(fp, false, n)
  {
    hide Entries, Consumed;
    assert [n][..0] == [];
  }

  lemma ReusedAre()
    ensures Reused([30, 40], [-1, -2]) == [Location(30, -1), Location(40, -2)]
  {
  }
}
