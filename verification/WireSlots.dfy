/**
 The two-pass bookkeeping of the decoder: the slots that scanning counts for a repeated field
 are enough for the elements that the second pass stores, whatever the input bytes are.
 */
module WireSlots {
  import opened Common
  import opened Bytes
  import opened Varint
  import opened Schema
  import opened WireMessage
  import opened WireFormat

  /** Slots counted for field `i` while scanning `recs`. */
  function Counted(fields: seq<Field>, recs: seq<Rec>, i: nat): nat
    requires CountsOk(fields, recs) && i < |fields|
  {
    if recs == [] then 0
    else Counted(fields, recs[..|recs| - 1], i) + CountedBy(fields, recs[|recs| - 1], i)
  }

  function CountedBy(fields: seq<Field>, r: Rec, i: nat): nat
    requires CountOk(fields, r) && i < |fields|
  {
    if FindField(fields, TagAsInt(r.tag)) == i && fields[i].rule.Repeated? then SlotsFor(fields[i], r).value else 0
  }

  /** Unknown fields counted while scanning. */
  function CountedUnknown(fields: seq<Field>, recs: seq<Rec>): nat
    requires TagsOk(recs)
  {
    if recs == [] then 0
    else CountedUnknown(fields, recs[..|recs| - 1])
         + if FindField(fields, TagAsInt(recs[|recs| - 1].tag)) < 0 then 1 else 0
  }

  /** Elements stored so far for field `i`. */
  function Stored(m: Message, i: nat): nat
    requires i < |m.slots|
  {
    if m.slots[i].List? then |m.slots[i].vs| else 0
  }

  lemma {:induction false} TerminatorsSplit(s: seq<byte>, n: nat)
    requires n <= |s|
    ensures Terminators(s) == Terminators(s[..n]) + Terminators(s[n..])
  {
    if n > 0 {
      TerminatorsSplit(s[1..], n - 1);
      assert s[..n][1..] == s[1..][..n - 1] && s[1..][n - 1..] == s[n..];
    } else {
      assert s[..0] == [] && s[0..] == s;
    }
  }

  lemma {:induction false} OneTerminator(s: seq<byte>)
    requires IsVarint(s)
    ensures Terminators(s) == 1
  {
    if |s| > 1 {
      assert s[1..][|s| - 2] == s[|s| - 1];
      OneTerminator(s[1..]);
    } else {
      assert s[1..] == [];
    }
  }

  /** A packed member of any bytes never yields more elements than were counted for it. */
  lemma {:induction false} PackedFitsCount(ty: FieldType, s: seq<byte>)
    requires CountPacked(ty, s).Some?
    ensures |PackedValues(ty, s).0| <= CountPacked(ty, s).value
    ensures PackedValues(ty, s).1 && !ty.BOOL? ==> |PackedValues(ty, s).0| == CountPacked(ty, s).value
    decreases |s|
  {
    var w := FixedWidth(ty);
    if s == [] {
    } else if w > 0 {
      if w <= |s| {
        assert |s[w..]| % w == 0 && |s[w..]| / w == |s| / w - 1;
        PackedFitsCount(ty, s[w..]);
      }
    } else {
      var n := VarintLength(s, 10);
      if n > 0 {
        TerminatorsSplit(s, n);
        OneTerminator(s[..n]);
        PackedFitsCount(ty, s[n..]);
      }
    }
  }

  lemma CountsPrefix(fields: seq<Field>, recs: seq<Rec>, k: nat)
    requires k <= |recs|
    ensures CountsOk(fields, recs) ==> CountsOk(fields, recs[..k])
    ensures TagsOk(recs) ==> TagsOk(recs[..k])
  {
  }

  /** The records of a longer prefix count no fewer slots. */
  lemma {:induction false} CountedGrows(fields: seq<Field>, recs: seq<Rec>, k: nat, i: nat)
    requires CountsOk(fields, recs) && k <= |recs| && i < |fields|
    ensures CountsOk(fields, recs[..k]) && Counted(fields, recs[..k], i) <= Counted(fields, recs, i)
    decreases |recs| - k
  {
    hide CountOk, CountedBy;
    if k == |recs| {
      assert recs[..k] == recs;
    } else {
      CountedGrows(fields, recs, k + 1, i);
      assert recs[..k + 1][..k] == recs[..k];
    }
  }

  lemma {:induction false} CountedUnknownGrows(fields: seq<Field>, recs: seq<Rec>, k: nat)
    requires TagsOk(recs) && k <= |recs|
    ensures CountedUnknown(fields, recs[..k]) <= CountedUnknown(fields, recs)
    decreases |recs| - k
  {
    if k == |recs| {
      assert recs[..k] == recs;
    } else {
      CountedUnknownGrows(fields, recs, k + 1);
      assert recs[..k + 1][..k] == recs[..k];
    }
  }

  /** One record stores at most the slots counted for it, and touches no other list. */
  lemma OneRecordFits(schema: seq<Desc>, fields: seq<Field>, r: Rec, m: Message, n: nat, i: nat)
    requires CountOk(fields, r) && |r.data| < n && |m.slots| == |fields| && i < |fields|
    requires ParseMember(schema, fields, r, m, n).Done?
    requires fields[i].rule.Repeated? <==> m.slots[i].List?
    ensures var m' := ParseMember(schema, fields, r, m, n).value;
            && (fields[i].rule.Repeated? <==> m'.slots[i].List?)
            && Stored(m', i) <= Stored(m, i) + CountedBy(fields, r, i)
            && (!fields[i].ty.BOOL? ==> Stored(m', i) == Stored(m, i) + CountedBy(fields, r, i))
            && |m'.unknown| == |m.unknown| + if FindField(fields, TagAsInt(r.tag)) < 0 then 1 else 0
  {
    var k := FindField(fields, TagAsInt(r.tag));
    if k >= 0 && IsPackedMember(fields[k], r) {
      PackedFitsCount(fields[k].ty, Payload(r));
    }
    hide PackedValues, ParseValue, CountPacked, VarintLength, Payload;
  }

  ghost predicate ListsWhereRepeated(fields: seq<Field>, m: Message) {
    |m.slots| == |fields| && forall i :: 0 <= i < |fields| ==> (fields[i].rule.Repeated? <==> m.slots[i].List?)
  }

  lemma InitLists(schema: seq<Desc>, k: nat)
    requires k < |schema|
    ensures ListsWhereRepeated(schema[k].fields, Init(schema, k))
    ensures forall i :: 0 <= i < |schema[k].fields| ==> Stored(Init(schema, k), i) == 0
  {
  }

  /** What the records replayed have stored is what was counted for them. */
  lemma {:induction false} ReplayFits(schema: seq<Desc>, k: nat, recs: seq<Rec>, n: nat, i: nat)
    requires k < |schema| && i < |schema[k].fields|
    requires CountsOk(schema[k].fields, recs) && TagsOk(recs) && ShorterThan(recs, n)
    requires Replay(schema, schema[k].fields, recs, Init(schema, k), n).Done?
    ensures var fields, m := schema[k].fields, Replay(schema, schema[k].fields, recs, Init(schema, k), n).value;
            && (fields[i].rule.Repeated? <==> m.slots[i].List?)
            && Stored(m, i) <= Counted(fields, recs, i)
            && (!fields[i].ty.BOOL? ==> Stored(m, i) == Counted(fields, recs, i))
            && |m.unknown| == CountedUnknown(fields, recs)
  {
    var fields := schema[k].fields;
    if recs == [] {
      InitLists(schema, k);
    } else {
      var prefix, r := recs[..|recs| - 1], recs[|recs| - 1];
      ReplayFits(schema, k, prefix, n, i);
      var m := Replay(schema, fields, prefix, Init(schema, k), n).value;
      hide ParseMember, Init, CountOk, CountedBy, FindField, Stored;
      OneRecordFits(schema, fields, r, m, n, i);
    }
  }

  lemma CountedWithNext(fields: seq<Field>, recs: seq<Rec>, p: nat, i: nat)
    requires CountsOk(fields, recs) && p < |recs| && i < |fields|
    ensures CountsOk(fields, recs[..p]) && CountOk(fields, recs[p])
    ensures Counted(fields, recs[..p], i) + CountedBy(fields, recs[p], i) <= Counted(fields, recs, i)
  {
    CountedGrows(fields, recs, p + 1, i);
    var next := recs[..p + 1];
    assert next[..p] == recs[..p] && next[p] == recs[p];
    hide CountedBy, CountOk;
  }

  /**
   At every moment of the second pass, for input of any bytes that the first pass accepts: with
   what record `p` may still add, no list holds more elements than were counted, and once all
   records are replayed every list but a boolean one is exactly full; unknown fields likewise.
   */
  lemma SecondPassFits(schema: seq<Desc>, k: nat, s: seq<byte>, p: nat, i: nat)
    requires k < |schema| && i < |schema[k].fields|
    requires Scan(s).Some? && CountsOk(schema[k].fields, Scan(s).value) && p <= |Scan(s).value|
    ensures var fields, recs := schema[k].fields, Scan(s).value;
            && TagsOk(recs) && TagsOk(recs[..p]) && ShorterThan(recs[..p], |s|)
            && var o := Replay(schema, fields, recs[..p], Init(schema, k), |s|);
            o.Done? ==>
              && Stored(o.value, i) + (if p < |recs| then CountedBy(fields, recs[p], i) else 0) <= Counted(fields, recs, i)
              && |o.value.unknown| <= CountedUnknown(fields, recs)
              && (p == |recs| && !fields[i].ty.BOOL? ==> Stored(o.value, i) == Counted(fields, recs, i))
              && (p == |recs| ==> |o.value.unknown| == CountedUnknown(fields, recs))
  {
    ScannedTags(s);
    var fields, recs := schema[k].fields, Scan(s).value;
    hide Scan, Replay, Counted, CountedBy, CountedUnknown, Stored, CountOk, Init;
    assert recs[..|recs|] == recs;
    if Replay(schema, fields, recs[..p], Init(schema, k), |s|).Done? {
      ReplayFits(schema, k, recs[..p], |s|, i);
      CountedUnknownGrows(fields, recs, p);
      if p < |recs| {
        CountedWithNext(fields, recs, p, i);
      }
    }
  }
}
