/**
 Message descriptors, and the lookup of a field by its number.

 A schema is a table of descriptors; a message-typed field names its descriptor by index,
 so descriptors may refer to each other and to themselves.
 */
module Schema {
  import opened Bytes

  datatype FieldType =
    | SINT32 | INT32 | ENUM | UINT32
    | SINT64 | INT64 | UINT64
    | FIXED32 | SFIXED32 | FIXED64 | SFIXED64
    | BOOL | STRING | BYTES
    | MESSAGE(desc: nat)

  /** Label and flags of a field: the oneof flag takes precedence over the label. */
  datatype Rule = Unlabeled | Optional | Oneof(group: nat) | Repeated(packed: bool)

  datatype Field = Field(id: nat, ty: FieldType, rule: Rule)

  /** A run of consecutive field numbers and the index of its first field. */
  datatype IntRange = IntRange(start: int, origIndex: nat)

  /** `ranges` ends with a sentinel whose index is the number of fields. */
  datatype Desc = Desc(fields: seq<Field>, ranges: seq<IntRange>, groups: nat)

  predicate IsPointer(ty: FieldType) {
    ty.STRING? || ty.MESSAGE?
  }

  /** `is_packable_type` */
  predicate IsPackable(ty: FieldType) {
    !ty.STRING? && !ty.BYTES? && !ty.MESSAGE?
  }

  /** Field index `j` belongs to run `k`. */
  ghost predicate InRun(d: Desc, k: int, j: int) {
    0 <= k < |d.ranges| - 1 && d.ranges[k].origIndex <= j < d.ranges[k + 1].origIndex
  }

  /** The ranges list the field numbers run by run. */
  ghost predicate RangesMatch(d: Desc) {
    && |d.ranges| >= 1
    && d.ranges[0].origIndex == 0
    && d.ranges[|d.ranges| - 1].origIndex == |d.fields|
    && (forall k :: 0 <= k < |d.ranges| - 1 ==> d.ranges[k].origIndex < d.ranges[k + 1].origIndex)
    && (forall k, j :: InRun(d, k, j)
          ==> j < |d.fields| && d.fields[j].id == d.ranges[k].start + (j - d.ranges[k].origIndex))
  }

  ghost predicate WellFormedField(f: Field, groups: nat, descs: nat) {
    && 1 <= f.id < TWO_31
    && (f.ty.MESSAGE? ==> f.ty.desc < descs)
    && (f.rule.Oneof? ==> f.rule.group < groups)
    && (f.rule.Repeated? && f.rule.packed ==> IsPackable(f.ty))
  }

  ghost predicate WellFormedDesc(d: Desc, descs: nat) {
    && (forall i, j :: 0 <= i < j < |d.fields| ==> d.fields[i].id < d.fields[j].id)
    && (forall i :: 0 <= i < |d.fields| ==> WellFormedField(d.fields[i], d.groups, descs))
    && RangesMatch(d)
  }

  ghost predicate WellFormed(schema: seq<Desc>) {
    forall k :: 0 <= k < |schema| ==> WellFormedDesc(schema[k], |schema|)
  }

  /** The index of the field numbered `id`, or -1. */
  function FindField(fields: seq<Field>, id: int): (i: int)
    ensures -1 <= i < |fields|
    ensures i >= 0 ==> fields[i].id == id
    ensures i < 0 ==> forall j :: 0 <= j < |fields| ==> fields[j].id != id
  {
    if fields == [] then -1
    else if fields[|fields| - 1].id == id then |fields| - 1
    else FindField(fields[..|fields| - 1], id)
  }

  /** Distinct field numbers make the search exact. */
  lemma FindFieldExact(d: Desc, descs: nat, i: nat)
    requires WellFormedDesc(d, descs) && i < |d.fields|
    ensures FindField(d.fields, d.fields[i].id) == i
  {
    var j := FindField(d.fields, d.fields[i].id);
    assert j >= 0 && d.fields[j].id == d.fields[i].id;
  }

  /** A tag read as a C int: numbers from 2^31 turn negative. */
  function TagAsInt(tag: nat): int
    requires tag < TWO_32
  {
    if tag < TWO_31 then tag else tag - TWO_32
  }

  lemma TagAsIntIs(tag: nat)
    requires tag < 0x1_0000_0000
    ensures -0x8000_0000 <= TagAsInt(tag) < 0x8000_0000 && TagAsInt(tag) % 0x1_0000_0000 == tag
  {
  }

  /** Field numbers grow from run to run, so the runs can be searched by halving. */
  lemma RunsAscend(d: Desc, descs: nat, k: nat, l: nat)
    requires WellFormedDesc(d, descs) && k < l < |d.ranges| - 1
    ensures d.ranges[k].start + (d.ranges[k + 1].origIndex - d.ranges[k].origIndex) <= d.ranges[l].start
  {
    OrigIndexAscends(d, k + 1, l);
    var last := d.ranges[k + 1].origIndex - 1;
    var first := d.ranges[l].origIndex;
    OrigIndexAscends(d, l + 1, |d.ranges| - 1);
    assert InRun(d, k, last) && InRun(d, l, first);
    assert d.fields[last].id == d.ranges[k].start + (last - d.ranges[k].origIndex);
    assert d.fields[first].id == d.ranges[l].start;
    assert d.fields[last].id < d.fields[first].id;
  }

  lemma {:induction false} OrigIndexAscends(d: Desc, k: nat, l: nat)
    requires RangesMatch(d) && k <= l < |d.ranges|
    ensures d.ranges[k].origIndex <= d.ranges[l].origIndex
    ensures k < l ==> d.ranges[k].origIndex < d.ranges[l].origIndex
    decreases l - k
  {
    if k < l {
      OrigIndexAscends(d, k + 1, l);
    }
  }

  /** Every field index lies in exactly the run that the search looks for. */
  lemma {:induction false} RunOf(d: Desc, j: nat, k: nat) returns (run: nat)
    requires RangesMatch(d) && k < |d.ranges| && d.ranges[k].origIndex <= j < |d.fields|
    ensures InRun(d, run, j)
    decreases |d.ranges| - k
  {
    assert k < |d.ranges| - 1;
    if j < d.ranges[k + 1].origIndex {
      run := k;
    } else {
      run := RunOf(d, j, k + 1);
    }
  }

  /** The value is not a field number in run `k`. */
  ghost predicate Misses(d: Desc, k: int, value: int)
    requires 0 <= k < |d.ranges| - 1
  {
    value < d.ranges[k].start
    || value >= d.ranges[k].start + (d.ranges[k + 1].origIndex - d.ranges[k].origIndex)
  }

  lemma NotAField(d: Desc, descs: nat, value: int)
    requires WellFormedDesc(d, descs)
    requires forall k :: 0 <= k < |d.ranges| - 1 ==> Misses(d, k, value)
    ensures FindField(d.fields, value) == -1
  {
    forall j | 0 <= j < |d.fields| ensures d.fields[j].id != value {
      var run := RunOf(d, j, 0);
      assert Misses(d, run, value);
    }
  }

  lemma IsThatField(d: Desc, descs: nat, k: nat, value: int)
    requires WellFormedDesc(d, descs) && k < |d.ranges| - 1 && !Misses(d, k, value)
    ensures FindField(d.fields, value) == value - d.ranges[k].start + d.ranges[k].origIndex
  {
    var j := value - d.ranges[k].start + d.ranges[k].origIndex;
    assert InRun(d, k, j);
    FindFieldExact(d, descs, j);
  }

  /** `int_range_lookup`: a binary search over the runs finds each field number, and only those. */
  method IntRangeLookup(d: Desc, value: int, ghost descs: nat) returns (index: int)
    requires WellFormedDesc(d, descs)
    ensures index == FindField(d.fields, value)
  {
    var nRanges := |d.ranges| - 1;
    if nRanges == 0 {
      NotAField(d, descs, value);
      return -1;
    }
    var start, n := 0, nRanges;
    while n > 1
      invariant 0 <= n && 0 <= start && start + n <= nRanges
      invariant forall k :: 0 <= k < start || start + n <= k < nRanges ==> Misses(d, k, value)
    {
      var mid := start + n / 2;
      if value < d.ranges[mid].start {
        forall k | mid < k < start + n ensures Misses(d, k, value) {
          RunsAscend(d, descs, mid, k);
        }
        n := mid - start;
      } else if value >= d.ranges[mid].start + (d.ranges[mid + 1].origIndex - d.ranges[mid].origIndex) {
        forall k | start <= k < mid ensures Misses(d, k, value) {
          RunsAscend(d, descs, k, mid);
        }
        var newStart := mid + 1;
        n := start + n - newStart;
        start := newStart;
      } else {
        IsThatField(d, descs, mid, value);
        return value - d.ranges[mid].start + d.ranges[mid].origIndex;
      }
    }
    if n > 0 {
      var startOrigIndex := d.ranges[start].origIndex;
      var rangeSize := d.ranges[start + 1].origIndex - startOrigIndex;
      if d.ranges[start].start <= value < d.ranges[start].start + rangeSize {
        IsThatField(d, descs, start, value);
        return value - d.ranges[start].start + startOrigIndex;
      }
    }
    NotAField(d, descs, value);
    return -1;
  }
}
