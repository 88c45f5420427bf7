/**
 When the shared cache is sound: its entries are keyed by the list alone, so that a list has to be
 reached with the same items, under the same field and at the same depth, whenever it is sorted.
 */
module FingerprintSites {
  import opened FingerprintSpec
  import opened FingerprintCache

  /** The walk sorts the list `id` as `s`. */
  ghost predicate Sorts(t: Tree, place: Place, depth: nat, id: nat, s: Site)
    decreases t
  {
    depth < 100 &&
    match t
    case Struct(tag, fields) => exists i :: 0 <= i < |fields| && FieldSorts(tag, fields[i], depth, id, s)
    case ListNode(own, items) =>
      || (IsSorted(place) && id == own && s == Site(items, place, depth + 1))
      || exists i :: 0 <= i < |items| && Sorts(items[i], place, depth + 1, id, s)
    case _ => false
  }

  ghost predicate FieldSorts(tag: string, f: Field, depth: nat, id: nat, s: Site)
    decreases f
  {
    IsVisited(f) &&
    if f.via.Direct? then exists i :: 0 <= i < |f.child.fields| && FieldSorts(f.child.tag, f.child.fields[i], depth + 1, id, s)
    else Sorts(f.child, Place(tag, f.name), depth + 1, id, s)
  }

  lemma {:induction false} PlacedSorts(site: nat -> Site, t: Tree, place: Place, depth: nat, id: nat, s: Site)
    requires Placed(site, t, place, depth) && Sorts(t, place, depth, id, s)
    ensures site(id) == s
    decreases t
  {
    match t {
      case Struct(tag, fields) =>
        var i :| 0 <= i < |fields| && FieldSorts(tag, fields[i], depth, id, s);
        FieldPlacedSorts(site, tag, fields[i], depth, id, s);
      case ListNode(own, items) =>
        if !(IsSorted(place) && id == own && s == Site(items, place, depth + 1)) {
          var i :| 0 <= i < |items| && Sorts(items[i], place, depth + 1, id, s);
          PlacedSorts(site, items[i], place, depth + 1, id, s);
        }
    }
  }

  lemma {:induction false} FieldPlacedSorts(site: nat -> Site, tag: string, f: Field, depth: nat, id: nat, s: Site)
    requires FieldPlaced(site, tag, f, depth) && FieldSorts(tag, f, depth, id, s)
    ensures site(id) == s
    decreases f
  {
    if f.via.Direct? {
      var i :| 0 <= i < |f.child.fields| && FieldSorts(f.child.tag, f.child.fields[i], depth + 1, id, s);
      FieldPlacedSorts(site, f.child.tag, f.child.fields[i], depth + 1, id, s);
    } else {
      PlacedSorts(site, f.child, Place(tag, f.name), depth + 1, id, s);
    }
  }

  ghost predicate Tells(site: nat -> Site, t: Tree, place: Place, depth: nat) {
    forall id, s :: Sorts(t, place, depth, id, s) ==> site(id) == s
  }

  ghost predicate FieldTells(site: nat -> Site, tag: string, f: Field, depth: nat) {
    forall id, s :: FieldSorts(tag, f, depth, id, s) ==> site(id) == s
  }

  lemma {:induction false} TellsPlaced(site: nat -> Site, t: Tree, place: Place, depth: nat)
    requires Tells(site, t, place, depth)
    ensures Placed(site, t, place, depth)
    decreases t
  {
    if depth < DEPTH_LIMIT {
      match t {
        case Struct(tag, fields) =>
          forall i | 0 <= i < |fields| ensures FieldPlaced(site, tag, fields[i], depth) {
            forall id: nat, s | FieldSorts(tag, fields[i], depth, id, s) ensures site(id) == s {
              assert Sorts(t, place, depth, id, s);
            }
            FieldTellsPlaced(site, tag, fields[i], depth);
          }
        case ListNode(id, items) =>
          forall i | 0 <= i < |items| ensures Placed(site, items[i], place, depth + 1) {
            var item, below := items[i], depth + 1;
            forall other: nat, s | Sorts(item, place, below, other, s) ensures site(other) == s {
              assert Sorts(t, place, depth, other, s);
            }
            TellsPlaced(site, items[i], place, depth + 1);
          }
          assert IsSorted(place) ==> Sorts(t, place, depth, id, Site(items, place, depth + 1));
        case _ =>
      }
    }
  }

  lemma {:induction false} FieldTellsPlaced(site: nat -> Site, tag: string, f: Field, depth: nat)
    requires FieldTells(site, tag, f, depth)
    ensures FieldPlaced(site, tag, f, depth)
    decreases f
  {
    if IsVisited(f) {
      if f.via.Direct? {
        forall i | 0 <= i < |f.child.fields| ensures FieldPlaced(site, f.child.tag, f.child.fields[i], depth + 1) {
          var inner, below := f.child.fields[i], depth + 1;
          forall id: nat, s | FieldSorts(f.child.tag, inner, below, id, s) ensures site(id) == s {
            assert FieldSorts(tag, f, depth, id, s);
          }
          FieldTellsPlaced(site, f.child.tag, f.child.fields[i], depth + 1);
        }
      } else {
        var here, below := Place(tag, f.name), depth + 1;
        forall id: nat, s | Sorts(f.child, here, below, id, s) ensures site(id) == s {
          assert FieldSorts(tag, f, depth, id, s);
        }
        TellsPlaced(site, f.child, Place(tag, f.name), depth + 1);
      }
    }
  }

  /** Every list is sorted in one way only. */
  ghost predicate SortedOneWay(t: Tree) {
    forall id, s, s' :: Sorts(t, NOWHERE, 0, id, s) && Sorts(t, NOWHERE, 0, id, s') ==> s == s'
  }

  ghost predicate CanCache(t: Tree) {
    exists site: nat -> Site :: Placed(site, t, NOWHERE, 0)
  }

  /** The demand of `FingerprintTree` is met exactly when no list is sorted in two ways. */
  lemma CacheExactly(t: Tree)
    ensures CanCache(t) <==> SortedOneWay(t)
  {
    if SortedOneWay(t) {
      var site := (id: nat) => if exists s :: Sorts(t, NOWHERE, 0, id, s) then var s :| Sorts(t, NOWHERE, 0, id, s); s
                        else Site([], NOWHERE, 0);
      assert Tells(site, t, NOWHERE, 0);
      TellsPlaced(site, t, NOWHERE, 0);
    }
    if CanCache(t) {
      var site: nat -> Site :| Placed(site, t, NOWHERE, 0);
      forall id, s, s' | Sorts(t, NOWHERE, 0, id, s) && Sorts(t, NOWHERE, 0, id, s') ensures s == s' {
        PlacedSorts(site, t, NOWHERE, 0, id, s);
        PlacedSorts(site, t, NOWHERE, 0, id, s');
      }
    }
  }

  // ----- how deep sorted lists are nested -----

  /** Without sorted lists there is no nesting, and a list of such items is nested once where it is sorted. */
  lemma {:induction false} FlatNesting(items: seq<Tree>, id: nat, place: Place, depth: nat)
    requires depth < 99 && forall i :: 0 <= i < |items| ==> items[i].Scalar? || items[i].Null? || items[i].Ignored?
    ensures NestingItems(items, place, depth + 1) == 0
    ensures Nesting(ListNode(id, items), place, depth)
         == if place.field in {"fromClause", "targetList", "cols", "rexpr", "valuesLists", "args"} then 1 else 0
  {
    if items != [] {
      FlatNesting(items[..|items| - 1], id, place, depth);
    }
  }
}
