/**
 Normalisation from the parse tree to the text: the walk numbers the constants, and their numbers
 are what the text shows in their places.
 */
module NormalizeQuery {
  import I = NormalizeIds
  import W = NormalizeWalk
  import L = NormalizeLengths
  import opened NormalizeRewrite

  /** What `RecordConstLocation` leaves to be filled in: a location, an id, no length yet. */
  function Entries(clocations: seq<I.Location>): (entries: seq<L.Entry>)
    ensures |entries| == |clocations|
    ensures forall i :: 0 <= i < |entries| ==> entries[i] == L.Entry(clocations[i].location, -1, clocations[i].id)
  {
    seq(|clocations|, i requires 0 <= i < |clocations| => L.Entry(clocations[i].location, -1, clocations[i].id))
  }

  /** The interval stands at a constant that the walk visited, and its number is the one recorded there. */
  ghost predicate ShowsConstant(clocations: seq<I.Location>, x: Interval) {
    exists i :: 0 <= i < |clocations| && clocations[i] == I.Location(x.off, x.id)
  }

  lemma RecordedShows(clocations: seq<I.Location>, x: Interval)
    requires WasRecorded(Entries(clocations), x)
    ensures ShowsConstant(clocations, x)
  {
    var i :| 0 <= i < |clocations| && Entries(clocations)[i].location == x.off && Entries(clocations)[i].id == x.id;
    assert clocations[i] == I.Location(x.off, x.id);
  }

  /** A fresh id is shown as a number above every parameter of the query. */
  ghost predicate AboveParams(tree: I.Node, utilityOnly: bool, extern: nat, x: Interval) {
    forall k :: 0 <= k < |I.Leaves(tree, utilityOnly)| && I.Leaves(tree, utilityOnly)[k].Number? ==>
      I.Leaves(tree, utilityOnly)[k].number < ParamNumber(extern, x.id)
  }

  lemma FreshAbove(tree: I.Node, utilityOnly: bool, extern: nat, x: Interval)
    requires extern == I.HighestParam(I.Leaves(tree, utilityOnly), 0) && x.id < 0
    ensures AboveParams(tree, utilityOnly, extern, x)
  {
    var leaves := I.Leaves(tree, utilityOnly);
    forall k | 0 <= k < |leaves| && leaves[k].Number? ensures leaves[k].number < ParamNumber(extern, x.id) {
      I.ParamsBelow(leaves, 0, k);
    }
  }

  /** The numbers of `PrintedAbove` are those that are printed. */
  lemma SameNumbers(extern: nat, id: int)
    ensures I.PrintedId(extern, id) == ParamNumber(extern, id)
  {
  }

  /** What the parser promises about the constants of the tree: they start at tokens and do not overlap. */
  ghost predicate PlacesPromised(query: string, tokens: seq<L.Token>, places: seq<nat>) {
    && (forall p :: p in places ==> L.IsConstantStart(query, tokens, p))
    && (forall p, q :: p in places && q in places && p < q ==> L.ConstantEnd(query, tokens, p) <= q)
  }

  lemma PromiseCarries(query: string, tokens: seq<L.Token>, clocations: seq<I.Location>)
    requires PlacesPromised(query, tokens, I.PlacesOf(clocations))
    ensures L.Promised(query, tokens, L.Sort(Entries(clocations)))
  {
    var entries := Entries(clocations);
    L.SortKeeps(entries);
    var sorted := L.Sort(entries);
    hide L.Sort, L.IsConstantStart, L.ConstantEnd;
    forall i | 0 <= i < |sorted| ensures sorted[i].location in I.PlacesOf(clocations) {
      assert sorted[i] in multiset(sorted);
      assert sorted[i] in entries;
      var j :| 0 <= j < |entries| && entries[j] == sorted[i];
      assert I.PlacesOf(clocations)[j] == sorted[i].location;
    }
  }

  /** Every place is the location of a sorted entry. */
  lemma PlaceIsSorted(clocations: seq<I.Location>, p: nat) returns (i: nat)
    requires p in I.PlacesOf(clocations)
    ensures i < |L.Sort(Entries(clocations))| && L.Sort(Entries(clocations))[i].location == p
  {
    var entries := Entries(clocations);
    L.SortKeeps(entries);
    var sorted := L.Sort(entries);
    hide L.Sort;
    var j :| 0 <= j < |clocations| && clocations[j].location == p;
    assert entries[j] in multiset(entries);
    assert entries[j] in sorted;
    i :| 0 <= i < |sorted| && sorted[i] == entries[j];
  }

  /**
   `pg_query_normalize`: the text is the query with recorded constants replaced by the ids of
   `Entries`, the fresh ones by numbers above every parameter of the query, whatever the fingerprints
   are. When the parser keeps its promise, every constant of the tree is replaced exactly once and as
   a whole. `fits` tells whether the ids are in the range of C's int; nothing is said otherwise.
   */
  method Normalize(query: string, tokens: seq<L.Token>, tree: I.Node, utilityOnly: bool, fp: I.Node -> nat)
    returns (fits: bool, norm: array<char>, length: nat, extern: nat, ghost chosen: seq<Interval>)
    requires L.TokensOk(query, tokens)
    ensures extern == I.HighestParam(I.Leaves(tree, utilityOnly), 0)
    ensures fits ==> Disjoint(chosen, |query|) && length < norm.Length
    ensures fits ==> length <= |query| + 10 * |I.Places(I.Leaves(tree, utilityOnly))|
    ensures fits ==> norm[..length] == Fill(query, chosen, Symbols(extern, chosen))
    ensures fits ==> query == Fill(query, chosen, Originals(query, chosen))
    ensures fits ==> forall k :: 0 <= k < |chosen| ==>
                       && chosen[k].off in I.Places(I.Leaves(tree, utilityOnly))
                       && I.Location(chosen[k].off, chosen[k].id) in I.Entries(fp, utilityOnly, tree, 1)
                       && (chosen[k].id < 0 ==> AboveParams(tree, utilityOnly, extern, chosen[k]))
    ensures fits && I.Sound(fp, utilityOnly, tree) ==> forall k :: 0 <= k < |chosen| && chosen[k].id < 0 ==>
                       ParamNumber(extern, chosen[k].id) <= extern + |I.Places(I.Leaves(tree, utilityOnly))|
    ensures var places := I.Places(I.Leaves(tree, utilityOnly));
            fits && PlacesPromised(query, tokens, places) ==>
              && (forall p :: p in places ==> ReplacedOnce(chosen, p))
              && (forall k :: 0 <= k < |chosen| ==> IsWholeConstant(query, tokens, chosen[k]))
  {
    ghost var next, kept;
    var clocations;
    clocations, extern, next, kept := W.NumberConstants(tree, utilityOnly, fp);
    var entries := Entries(clocations);
    fits := true;
    var i := 0;
    while i < |clocations|
      invariant 0 <= i <= |clocations|
      invariant fits ==> forall j :: 0 <= j < i ==> IdsFit(extern, clocations[j].id)
    {
      fits := fits && IdsFit(extern, clocations[i].id);
      i := i + 1;
    }
    if !fits {
      norm, length, chosen := new char[0], 0, [];
      return;
    }
    hide *;
    norm, length, chosen := NormalizeRewrite.Normalize(query, tokens, entries, extern);
    forall k | 0 <= k < |chosen|
      ensures chosen[k].off in I.Places(I.Leaves(tree, utilityOnly))
      ensures I.Location(chosen[k].off, chosen[k].id) in clocations
      ensures chosen[k].id < 0 ==> AboveParams(tree, utilityOnly, extern, chosen[k])
      ensures kept && chosen[k].id < 0 ==>
                ParamNumber(extern, chosen[k].id) <= extern + |I.Places(I.Leaves(tree, utilityOnly))|
    {
      RecordedShows(clocations, chosen[k]);
      ShownPlace(clocations, chosen[k]);
      if kept && chosen[k].id < 0 {
        I.ConsumedBounds(fp, utilityOnly, tree);
        FreshWithin(clocations, next, extern, chosen[k]);
      }
      if chosen[k].id < 0 {
        FreshAbove(tree, utilityOnly, extern, chosen[k]);
      }
    }
    ghost var places := I.Places(I.Leaves(tree, utilityOnly));
    if PlacesPromised(query, tokens, places) {
      PromiseCarries(query, tokens, clocations);
      forall p | p in places ensures ReplacedOnce(chosen, p) {
        var j := PlaceIsSorted(clocations, p);
      }
    }
  }

  /** While the numbering is sound, fresh ids are shown within as many numbers as have been given out. */
  lemma FreshWithin(clocations: seq<I.Location>, next: int, extern: nat, x: Interval)
    requires I.Numbered(clocations, next) && ShowsConstant(clocations, x) && x.id < 0
    ensures ParamNumber(extern, x.id) < extern + next
  {
    var i :| 0 <= i < |clocations| && clocations[i] == I.Location(x.off, x.id);
    assert 0 - next < clocations[i].id;
  }

  lemma ShownPlace(clocations: seq<I.Location>, x: Interval)
    requires ShowsConstant(clocations, x)
    ensures x.off in I.PlacesOf(clocations) && I.Location(x.off, x.id) in clocations
  {
    var i :| 0 <= i < |clocations| && clocations[i] == I.Location(x.off, x.id);
    assert I.PlacesOf(clocations)[i] == x.off;
  }
}
