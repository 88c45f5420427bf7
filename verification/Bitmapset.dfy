/**
 Bitmap sets: words of 64 bits with no trailing zero word, null being the only empty set.
 Each operation refines the one on finite sets of naturals.
 */
module Bitmapset {

  const BITS_PER_BITMAPWORD: nat := 64

  // ----- one word -----

  function Pow2(n: nat): (r: nat)
    ensures r >= 1
  {
    if n == 0 then 1 else 2 * Pow2(n - 1)
  }

  predicate Bit(w: nat, i: nat) {
    if i == 0 then w % 2 == 1 else Bit(w / 2, i - 1)
  }

  /** `w | 1 << i` */
  function SetBit(w: nat, i: nat): (r: nat)
    ensures r > 0
  {
    if i == 0 then w - w % 2 + 1 else 2 * SetBit(w / 2, i - 1) + w % 2
  }

  /** `w & ~0 << i` */
  function IgnoreBelow(w: nat, i: nat): nat {
    if i == 0 then w else 2 * IgnoreBelow(w / 2, i - 1)
  }

  /** `bmw_popcount` */
  function Popcount(w: nat): nat {
    if w == 0 then 0 else w % 2 + Popcount(w / 2)
  }

  /** `bmw_rightmost_one_pos` */
  function RightmostOnePos(w: nat): (r: nat)
    requires w > 0
    ensures Bit(w, r) && forall i: nat :: i < r ==> !Bit(w, i)
  {
    if w % 2 == 1 then 0 else 1 + RightmostOnePos(w / 2)
  }

  lemma {:induction false} SetBitSets(w: nat, i: nat, j: nat)
    ensures Bit(SetBit(w, i), j) <==> i == j || Bit(w, j)
  {
    if i > 0 && j > 0 {
      SetBitSets(w / 2, i - 1, j - 1);
    }
  }

  lemma {:induction false} SetBitFits(w: nat, i: nat, n: nat)
    requires w < Pow2(n) && i < n
    ensures SetBit(w, i) < Pow2(n)
  {
    var p := Pow2(n - 1);
    assert Pow2(n) == 2 * p && w / 2 < p;
    if i > 0 {
      SetBitFits(w / 2, i - 1, n - 1);
    }
  }

  lemma {:induction false} IgnoresBelow(w: nat, i: nat, j: nat)
    ensures Bit(IgnoreBelow(w, i), j) <==> j >= i && Bit(w, j)
  {
    if i > 0 && j > 0 {
      IgnoresBelow(w / 2, i - 1, j - 1);
    }
  }

  lemma {:induction false} NoBits(i: nat)
    ensures !Bit(0, i)
  {
    if i > 0 {
      NoBits(i - 1);
    }
  }

  /** A word of `n` bits has its bits below `n`. */
  lemma {:induction false} BitsFit(w: nat, i: nat, n: nat)
    requires w < Pow2(n) && Bit(w, i)
    ensures i < n
  {
    if w == 0 {
      NoBits(i);
    } else if i > 0 {
      BitsFit(w / 2, i - 1, n - 1);
    }
  }

  ghost predicate SameBits(v: nat, w: nat) {
    forall i: nat :: Bit(v, i) <==> Bit(w, i)
  }

  lemma {:induction false} SameWord(v: nat, w: nat)
    requires SameBits(v, w)
    ensures v == w
  {
    if v == 0 {
      if w > 0 {
        NoBits(RightmostOnePos(w));
      }
    } else if w == 0 {
      NoBits(RightmostOnePos(v));
    } else {
      assert Bit(v, 0) <==> Bit(w, 0);
      forall i: nat ensures Bit(v / 2, i) <==> Bit(w / 2, i) {
        assert Bit(v, i + 1) <==> Bit(w, i + 1);
      }
      SameWord(v / 2, w / 2);
    }
  }

  // ----- words as sets -----

  predicate AllWords(words: seq<nat>) {
    forall k :: 0 <= k < |words| ==> words[k] < Pow2(BITS_PER_BITMAPWORD)
  }

  /** `bms_is_valid_set` for a set that is not null */
  predicate Canonical(words: seq<nat>) {
    AllWords(words) && words != [] && words[|words| - 1] != 0
  }

  /** Where a set has `x`: the test of `bms_is_member`. */
  predicate Has(words: seq<nat>, x: nat) {
    x / BITS_PER_BITMAPWORD < |words| && Bit(words[x / BITS_PER_BITMAPWORD], x % BITS_PER_BITMAPWORD)
  }

  function Members(words: seq<nat>): set<nat> {
    set x: nat | x < BITS_PER_BITMAPWORD * |words| && Has(words, x)
  }

  lemma HasIsMember(words: seq<nat>, x: nat)
    ensures x in Members(words) <==> Has(words, x)
  {
  }

  lemma Halved(w: nat, p: nat)
    requires p > 0
    ensures w / (2 * p) == w / 2 / p
  {
    var q, r := w / 2 / p, w / 2 % p;
    assert w / 2 == p * q + r;
    assert w == (2 * p) * q + (2 * r + w % 2) && 0 <= 2 * r + w % 2 < 2 * p;
    Quotient(w, 2 * p, q, 2 * r + w % 2);
  }

  lemma Multiples(d: nat, a: nat, b: nat)
    requires a < b
    ensures d * b >= d * a + d
  {
    assert d * b == d * (b - a - 1) + d * (a + 1);
  }

  lemma Quotient(w: nat, d: nat, q: nat, r: nat)
    requires w == d * q + r && r < d
    ensures w / d == q
  {
    if w / d < q {
      Multiples(d, w / d, q);
    } else if w / d > q {
      Multiples(d, q, w / d);
    }
  }

  lemma {:induction false} BitIs(w: nat, i: nat)
    ensures Bit(w, i) <==> w / Pow2(i) % 2 == 1
  {
    if i > 0 {
      BitIs(w / 2, i - 1);
      Halved(w, Pow2(i - 1));
    }
  }

  /** Member `x` is bit `x % 64` of word `x / 64`. */
  lemma BitOfMember(words: seq<nat>, x: nat)
    ensures x in Members(words) <==> x / 64 < |words| && words[x / 64] / Pow2(x % 64) % 2 == 1
  {
    HasIsMember(words, x);
    if x / 64 < |words| {
      BitIs(words[x / 64], x % 64);
    }
    hide Bit, Pow2;
  }

  lemma FourMore(n: nat)
    ensures Pow2(n + 4) == 16 * Pow2(n) && Pow2(0) == 1
  {
    assert Pow2(n + 4) == 2 * Pow2(n + 3) && Pow2(n + 2) == 2 * Pow2(n + 1);
  }

  lemma SixteenMore(n: nat)
    ensures Pow2(n + 16) == 0x1_0000 * Pow2(n)
  {
    hide Pow2;
    FourMore(n);
    FourMore(n + 4);
    FourMore(n + 8);
    FourMore(n + 12);
  }

  lemma WordLimit()
    ensures Pow2(64) == 0x1_0000_0000_0000_0000
  {
    hide Pow2;
    FourMore(0);
    SixteenMore(0);
    SixteenMore(16);
    SixteenMore(32);
    SixteenMore(48);
  }

  /** The bits of a word whose first bit stands for `off`. */
  function Bits(w: nat, off: nat): set<nat>
  {
    if w == 0 then {} else (if w % 2 == 1 then {off} else {}) + Bits(w / 2, off + 1)
  }

  lemma {:induction false} InBits(w: nat, off: nat, x: nat)
    ensures x in Bits(w, off) <==> x >= off && Bit(w, x - off)
  {
    if w == 0 {
      if x >= off {
        NoBits(x - off);
      }
    } else {
      InBits(w / 2, off + 1, x);
    }
  }

  lemma {:induction false} CountBits(w: nat, off: nat)
    ensures |Bits(w, off)| == Popcount(w)
  {
    if w > 0 {
      CountBits(w / 2, off + 1);
      InBits(w / 2, off + 1, off);
    }
  }

  function SumPopcount(words: seq<nat>): nat {
    if words == [] then 0 else SumPopcount(words[..|words| - 1]) + Popcount(words[|words| - 1])
  }

  lemma HasSplit(words: seq<nat>, w: nat, x: nat)
    requires w < Pow2(BITS_PER_BITMAPWORD)
    ensures Has(words + [w], x) <==> Has(words, x) || x in Bits(w, BITS_PER_BITMAPWORD * |words|)
    ensures !(Has(words, x) && x in Bits(w, BITS_PER_BITMAPWORD * |words|))
  {
    var off := BITS_PER_BITMAPWORD * |words|;
    InBits(w, off, x);
    if x >= off {
      LastWord(|words|, x);
      if Bit(w, x - off) {
        BitsFit(w, x - off, BITS_PER_BITMAPWORD);
      }
    }
    hide Bit, Bits;
  }

  lemma LastWord(k: nat, x: nat)
    requires x >= BITS_PER_BITMAPWORD * k
    ensures x / BITS_PER_BITMAPWORD >= k
    ensures x < BITS_PER_BITMAPWORD * (k + 1) <==> x / BITS_PER_BITMAPWORD == k
    ensures x < BITS_PER_BITMAPWORD * (k + 1) ==> x % BITS_PER_BITMAPWORD == x - BITS_PER_BITMAPWORD * k
  {
  }

  lemma MembersSplit(words: seq<nat>, w: nat)
    requires w < Pow2(BITS_PER_BITMAPWORD)
    ensures var high := Bits(w, BITS_PER_BITMAPWORD * |words|);
            Members(words + [w]) == Members(words) + high && Members(words) !! high
  {
    hide *;
    var high := Bits(w, BITS_PER_BITMAPWORD * |words|);
    forall x: nat
      ensures x in Members(words + [w]) <==> x in Members(words) || x in high
      ensures !(x in Members(words) && x in high)
    {
      HasSplit(words, w, x);
      HasIsMember(words + [w], x);
      HasIsMember(words, x);
    }
  }

  /** The number of members is the sum of the counts of the words. */
  lemma {:induction false} CountMembers(words: seq<nat>)
    requires AllWords(words)
    ensures |Members(words)| == SumPopcount(words)
  {
    if words != [] {
      var n := |words| - 1;
      var rest, w := words[..n], words[n];
      CountMembers(rest);
      assert words == rest + [w];
      MembersSplit(rest, w);
      CountBits(w, BITS_PER_BITMAPWORD * n);
    }
  }

  /** A canonical form that is longer has a member that the shorter one has no room for. */
  lemma LongerDiffers(short: seq<nat>, long: seq<nat>)
    requires Canonical(long) && |short| < |long|
    ensures Members(short) != Members(long)
  {
    var n := |long| - 1;
    var i := RightmostOnePos(long[n]);
    BitsFit(long[n], i, BITS_PER_BITMAPWORD);
    var x := BITS_PER_BITMAPWORD * n + i;
    assert x / BITS_PER_BITMAPWORD == n && x % BITS_PER_BITMAPWORD == i;
    HasIsMember(short, x);
    HasIsMember(long, x);
  }

  /** Words are a canonical form of the set: two sets are equal exactly when their words are. */
  lemma CanonicalForm(a: seq<nat>, b: seq<nat>)
    requires Canonical(a) && Canonical(b)
    ensures Members(a) == Members(b) <==> a == b
  {
    if Members(a) == Members(b) {
      if |a| < |b| {
        LongerDiffers(a, b);
      } else if |b| < |a| {
        LongerDiffers(b, a);
      } else {
        forall k | 0 <= k < |a| ensures a[k] == b[k] {
          SameWordAt(a, b, k);
        }
      }
    }
  }

  lemma SameWordAt(a: seq<nat>, b: seq<nat>, k: nat)
    requires AllWords(a) && AllWords(b) && Members(a) == Members(b) && k < |a| && k < |b|
    ensures a[k] == b[k]
  {
    forall i: nat ensures Bit(a[k], i) <==> Bit(b[k], i) {
      if i < BITS_PER_BITMAPWORD {
        var x := BITS_PER_BITMAPWORD * k + i;
        assert x / BITS_PER_BITMAPWORD == k && x % BITS_PER_BITMAPWORD == i;
        HasIsMember(a, x);
        HasIsMember(b, x);
      } else {
        if Bit(a[k], i) {
          BitsFit(a[k], i, BITS_PER_BITMAPWORD);
        }
        if Bit(b[k], i) {
          BitsFit(b[k], i, BITS_PER_BITMAPWORD);
        }
      }
    }
    SameWord(a[k], b[k]);
  }

  lemma NotEmpty(words: seq<nat>)
    requires Canonical(words)
    ensures Members(words) != {}
  {
    LongerDiffers([], words);
    assert Members([]) == {};
  }

  lemma ZeroWords(words: seq<nat>, n: nat)
    requires AllWords(words)
    ensures var more := words + seq(n, _ => 0); AllWords(more) && Members(more) == Members(words)
  {
    var more := words + seq(n, _ => 0);
    assert Pow2(BITS_PER_BITMAPWORD) >= 1;
    hide Members, Has;
    forall x: nat ensures x in Members(more) <==> x in Members(words) {
      HasIsMember(more, x);
      HasIsMember(words, x);
      HasMore(words, n, x);
    }
  }

  lemma HasMore(words: seq<nat>, n: nat, x: nat)
    ensures Has(words + seq(n, _ => 0), x) <==> Has(words, x)
  {
    NoBits(x % BITS_PER_BITMAPWORD);
    hide Bit;
  }

  lemma AddsBit(words: seq<nat>, x: nat)
    requires AllWords(words) && x / BITS_PER_BITMAPWORD < |words|
    ensures var k := x / BITS_PER_BITMAPWORD; var added := words[k := SetBit(words[k], x % BITS_PER_BITMAPWORD)];
            AllWords(added) && Members(added) == Members(words) + {x}
  {
    hide Bit, Pow2, SetBit, Members;
    var k, i := x / BITS_PER_BITMAPWORD, x % BITS_PER_BITMAPWORD;
    var added := words[k := SetBit(words[k], i)];
    SetBitFits(words[k], i, BITS_PER_BITMAPWORD);
    forall y: nat ensures y in Members(added) <==> y in Members(words) || y == x {
      HasIsMember(added, y);
      HasIsMember(words, y);
      SetBitSets(words[k], i, y % BITS_PER_BITMAPWORD);
    }
  }

  class Bitmapset {
    var words: array<nat>

    constructor (words: array<nat>)
      ensures this.words == words
    {
      this.words := words;
    }
  }

  ghost predicate IsSet(a: Bitmapset?)
    reads a, if a == null then {} else {a.words}
  {
    a != null ==> Canonical(a.words[..])
  }

  ghost function Elements(a: Bitmapset?): set<nat>
    reads a, if a == null then {} else {a.words}
  {
    if a == null then {} else Members(a.words[..])
  }

  ghost function Memory(a: Bitmapset?): set<object>
    reads a
  {
    if a == null then {} else var header: object := a; {header, a.words}
  }

  /** `bms_make_singleton`; a negative member is an error. */
  method MakeSingleton(x: int) returns (ok: bool, result: Bitmapset?)
    ensures ok <==> x >= 0
    ensures ok ==> result != null && IsSet(result) && Elements(result) == {x} && fresh(Memory(result))
  {
    if x < 0 {
      return false, null;
    }
    var wordnum, bitnum := x / BITS_PER_BITMAPWORD, x % BITS_PER_BITMAPWORD;
    var words := new nat[wordnum + 1](_ => 0);
    ghost var zero: seq<nat> := [];
    ZeroWords(zero, wordnum + 1);
    assert words[..] == zero + seq(wordnum + 1, _ => 0);
    AddsBit(words[..], x);
    ghost var all := words[..];
    words[wordnum] := SetBit(0, bitnum);
    assert words[..] == all[wordnum := SetBit(all[wordnum], bitnum)];
    result := new Bitmapset(words);
    ok := true;
  }

  /** `bms_is_member`; a negative member is an error. */
  method IsMember(x: int, a: Bitmapset?) returns (ok: bool, member: bool)
    requires IsSet(a)
    ensures ok <==> x >= 0
    ensures ok ==> (member <==> x in Elements(a))
  {
    if x < 0 {
      return false, false;
    }
    if a == null {
      return true, false;
    }
    var wordnum, bitnum := x / BITS_PER_BITMAPWORD, x % BITS_PER_BITMAPWORD;
    HasIsMember(a.words[..], x);
    return true, wordnum < a.words.Length && Bit(a.words[wordnum], bitnum);
  }

  /** `bms_equal` */
  method Equal(a: Bitmapset?, b: Bitmapset?) returns (equal: bool)
    requires IsSet(a) && IsSet(b)
    ensures equal <==> Elements(a) == Elements(b)
  {
    if a == null {
      if b != null {
        NotEmpty(b.words[..]);
      }
      return b == null;
    }
    if b == null {
      NotEmpty(a.words[..]);
      return false;
    }
    CanonicalForm(a.words[..], b.words[..]);
    if a.words.Length != b.words.Length {
      return false;
    }
    var i := 0;
    while i < a.words.Length
      invariant 0 <= i <= a.words.Length && a.words[..i] == b.words[..i]
    {
      if a.words[i] != b.words[i] {
        assert a.words[..][i] != b.words[..][i];
        return false;
      }
      i := i + 1;
    }
    assert a.words[..] == a.words[..i] && b.words[..] == b.words[..i];
    return true;
  }

  /** `bms_num_members` */
  method NumMembers(a: Bitmapset?) returns (result: nat)
    requires IsSet(a)
    ensures result == |Elements(a)|
  {
    result := 0;
    if a == null {
      return;
    }
    var wordnum := 0;
    while wordnum < a.words.Length
      invariant 0 <= wordnum <= a.words.Length && result == SumPopcount(a.words[..wordnum])
    {
      var w := a.words[wordnum];
      if w != 0 {
        result := result + Popcount(w);
      }
      assert a.words[..wordnum + 1][..wordnum] == a.words[..wordnum];
      wordnum := wordnum + 1;
    }
    assert a.words[..] == a.words[..wordnum];
    CountMembers(a.words[..]);
  }

  /** `bms_add_member`; a negative member is an error and changes nothing. */
  method AddMember(a: Bitmapset?, x: int) returns (ok: bool, result: Bitmapset?)
    requires IsSet(a)
    modifies Memory(a)
    ensures ok <==> x >= 0
    ensures ok ==> result != null && IsSet(result) && Elements(result) == old(Elements(a)) + {x}
    ensures ok ==> fresh(Memory(result) - old(Memory(a)))
    ensures !ok ==> IsSet(a) && Elements(a) == old(Elements(a))
  {
    if x < 0 {
      return false, a;
    }
    if a == null {
      ok, result := MakeSingleton(x);
      return;
    }
    var wordnum, bitnum := x / BITS_PER_BITMAPWORD, x % BITS_PER_BITMAPWORD;
    if wordnum >= a.words.Length {
      Enlarge(a, wordnum + 1);
    }
    ghost var all := a.words[..];
    AddsBit(all, x);
    a.words[wordnum] := SetBit(a.words[wordnum], bitnum);
    assert a.words[..] == all[wordnum := SetBit(all[wordnum], bitnum)];
    return true, a;
  }

  /** The enlargement within `bms_add_member`: zero words up to `nwords`. */
  method Enlarge(a: Bitmapset, nwords: nat)
    requires AllWords(a.words[..]) && nwords > a.words.Length
    modifies a
    ensures fresh(a.words) && a.words.Length == nwords
    ensures AllWords(a.words[..]) && Members(a.words[..]) == old(Members(a.words[..]))
  {
    hide *;
    ghost var was := a.words[..];
    var oldnwords := a.words.Length;
    var words := new nat[nwords];
    forall i | 0 <= i < oldnwords {
      words[i] := a.words[i];
    }
    a.words := words;
    var i := oldnwords;
    while i < nwords
      invariant oldnwords <= i <= nwords && a.words == words && words[..oldnwords] == was
      invariant forall k :: oldnwords <= k < i ==> words[k] == 0
    {
      words[i] := 0;
      i := i + 1;
    }
    ZeroWords(was, nwords - oldnwords);
    assert words[..] == was + seq(nwords - oldnwords, _ => 0);
  }

  /** `-2`, or the smallest member above `prevbit`. */
  ghost predicate IsNext(members: set<nat>, prevbit: int, result: int) {
    if result == -2 then forall x :: x in members ==> x <= prevbit
    else result > prevbit && result >= 0 && result in members && forall x :: x in members && x > prevbit ==> x >= result
  }

  /** No member lies from `from` up to where word `wordnum` begins. */
  ghost predicate NoneBefore(words: seq<nat>, from: nat, wordnum: nat) {
    forall x: nat :: from <= x < BITS_PER_BITMAPWORD * wordnum ==> !Has(words, x)
  }

  /** The word in which the search is ends it with the first bit that is left. */
  lemma FirstInWord(words: seq<nat>, from: nat, wordnum: nat, start: nat)
    requires AllWords(words) && wordnum < |words| && NoneBefore(words, from, wordnum)
    requires StartsAt(from, wordnum, start)
    ensures var w := IgnoreBelow(words[wordnum], start);
            if w == 0 then NoneBefore(words, from, wordnum + 1)
            else IsNext(Members(words), from - 1, wordnum * BITS_PER_BITMAPWORD + RightmostOnePos(w))
  {
    if IgnoreBelow(words[wordnum], start) == 0 {
      NoneInWord(words, from, wordnum, start);
    } else {
      FoundInWord(words, from, wordnum, start);
    }
  }

  /** The bits of word `k`. */
  lemma InWord(words: seq<nat>, k: nat, x: nat)
    requires k < |words| && BITS_PER_BITMAPWORD * k <= x < BITS_PER_BITMAPWORD * (k + 1)
    ensures Has(words, x) <==> Bit(words[k], x - BITS_PER_BITMAPWORD * k)
  {
    LastWord(k, x);
  }

  /** Where the search begins in a word. */
  ghost predicate StartsAt(from: nat, k: nat, start: nat) {
    && k >= from / BITS_PER_BITMAPWORD
    && start == if k == from / BITS_PER_BITMAPWORD then from % BITS_PER_BITMAPWORD else 0
  }

  lemma StartsThere(from: nat, k: nat, start: nat)
    requires StartsAt(from, k, start)
    ensures from <= BITS_PER_BITMAPWORD * k + start
    ensures start > 0 ==> from == BITS_PER_BITMAPWORD * k + start
  {
  }

  lemma NoneInWord(words: seq<nat>, from: nat, wordnum: nat, start: nat)
    requires wordnum < |words| && NoneBefore(words, from, wordnum) && IgnoreBelow(words[wordnum], start) == 0
    requires StartsAt(from, wordnum, start)
    ensures NoneBefore(words, from, wordnum + 1)
  {
    StartsThere(from, wordnum, start);
    hide Has, Bit, IgnoreBelow, StartsAt;
    forall x: nat | from <= x < BITS_PER_BITMAPWORD * (wordnum + 1) ensures !Has(words, x) {
      if x >= BITS_PER_BITMAPWORD * wordnum {
        InWord(words, wordnum, x);
        IgnoresBelow(words[wordnum], start, x - BITS_PER_BITMAPWORD * wordnum);
        NoBits(x - BITS_PER_BITMAPWORD * wordnum);
      }
    }
  }

  lemma FirstIsNext(words: seq<nat>, from: nat, r: nat)
    requires from <= r && Has(words, r) && forall x: nat :: from <= x < r ==> !Has(words, x)
    ensures IsNext(Members(words), from - 1, r)
  {
    HasIsMember(words, r);
    hide Has, Members;
    forall x | x in Members(words) && x > from - 1 ensures x >= r {
      HasIsMember(words, x);
    }
  }

  /** The first bit of a word that is left is the first one from where the search begins. */
  lemma FirstBit(w: nat, start: nat, i: nat)
    requires w < Pow2(BITS_PER_BITMAPWORD) && IgnoreBelow(w, start) > 0 && i == RightmostOnePos(IgnoreBelow(w, start))
    ensures start <= i < BITS_PER_BITMAPWORD && Bit(w, i) && forall j: nat :: start <= j < i ==> !Bit(w, j)
  {
    IgnoresBelow(w, start, i);
    BitsFit(w, i, BITS_PER_BITMAPWORD);
    hide Bit, IgnoreBelow, RightmostOnePos, Pow2;
    forall j: nat | start <= j < i ensures !Bit(w, j) {
      IgnoresBelow(w, start, j);
    }
  }

  lemma FoundInWord(words: seq<nat>, from: nat, wordnum: nat, start: nat)
    requires AllWords(words) && wordnum < |words| && NoneBefore(words, from, wordnum)
    requires StartsAt(from, wordnum, start) && IgnoreBelow(words[wordnum], start) > 0
    ensures IsNext(Members(words), from - 1,
                   wordnum * BITS_PER_BITMAPWORD + RightmostOnePos(IgnoreBelow(words[wordnum], start)))
  {
    StartsThere(from, wordnum, start);
    hide Has, Bit, IgnoreBelow, StartsAt, Members, RightmostOnePos, IsNext;
    var i := RightmostOnePos(IgnoreBelow(words[wordnum], start));
    FirstBit(words[wordnum], start, i);
    var r := wordnum * BITS_PER_BITMAPWORD + i;
    InWord(words, wordnum, r);
    forall x: nat | from <= x < r ensures !Has(words, x) {
      if BITS_PER_BITMAPWORD * wordnum <= x {
        InWord(words, wordnum, x);
      }
    }
    FirstIsNext(words, from, r);
  }

  lemma NextWord(from: nat, k: nat, start: nat)
    requires StartsAt(from, k, start)
    ensures StartsAt(from, k + 1, 0)
  {
  }

  lemma SearchBegins(words: seq<nat>, from: nat)
    ensures StartsAt(from, from / BITS_PER_BITMAPWORD, from % BITS_PER_BITMAPWORD)
    ensures NoneBefore(words, from, from / BITS_PER_BITMAPWORD)
  {
  }

  lemma NoneLeft(words: seq<nat>, from: nat, wordnum: nat)
    requires NoneBefore(words, from, wordnum) && wordnum >= |words|
    ensures IsNext(Members(words), from - 1, -2)
  {
    forall x | x in Members(words) ensures x < from {
      HasIsMember(words, x);
    }
  }

  /** `bms_next_member` */
  method NextMember(a: Bitmapset?, prevbit: int) returns (result: int)
    requires IsSet(a) && prevbit >= -1
    ensures IsNext(Elements(a), prevbit, result)
  {
    if a == null {
      return -2;
    }
    var from := prevbit + 1;
    var start: nat := from % BITS_PER_BITMAPWORD;
    var wordnum := from / BITS_PER_BITMAPWORD;
    SearchBegins(a.words[..], from);
    hide StartsAt, NoneBefore, Has, Bit, IgnoreBelow, RightmostOnePos, Members, IsNext;
    while wordnum < a.words.Length
      invariant StartsAt(from, wordnum, start) && NoneBefore(a.words[..], from, wordnum)
    {
      NextWord(from, wordnum, start);
      FirstInWord(a.words[..], from, wordnum, start);
      var w := IgnoreBelow(a.words[wordnum], start);
      if w != 0 {
        return wordnum * BITS_PER_BITMAPWORD + RightmostOnePos(w);
      }
      start := 0;
      wordnum := wordnum + 1;
    }
    NoneLeft(a.words[..], from, wordnum);
    return -2;
  }

  ghost predicate Ascending(s: seq<int>) {
    forall i, j :: 0 <= i < j < |s| ==> s[i] < s[j]
  }

  /** The members below `x`, all of them once the search has ended, are those visited. */
  ghost predicate Visited(visited: seq<int>, members: set<nat>, x: int) {
    && Ascending(visited)
    && (x == -2 || (x >= 0 && x in members))
    && forall y: int :: y in visited <==> y >= 0 && y in members && (x == -2 || y < x)
  }

  lemma VisitNext(visited: seq<int>, members: set<nat>, x: int, next: int)
    requires Visited(visited, members, x) && x != -2 && IsNext(members, x, next)
    ensures Visited(visited + [x], members, next)
  {
    var more := visited + [x];
    assert forall i :: 0 <= i < |visited| ==> visited[i] in visited;
    forall y: int ensures y in more <==> y >= 0 && y in members && (next == -2 || y < next) {
    }
  }

  lemma {:induction false} CountVisited(visited: seq<int>, members: set<nat>)
    requires Ascending(visited) && forall y: int :: y in visited <==> y >= 0 && y in members
    ensures |visited| == |members|
  {
    if visited == [] {
      assert members == {};
    } else {
      var n := |visited| - 1;
      assert visited[n] in visited;
      var last: nat := visited[n];
      var rest := visited[..n];
      forall y: int ensures y in rest <==> y >= 0 && y in members - {last} {
        assert visited == rest + [last];
        assert y in visited <==> y in rest || y == last;
        assert last !in rest;
      }
      CountVisited(rest, members - {last});
    }
  }

  /** The iteration from -1 yields every member once, ascending, `bms_num_members` of them. */
  method Iterate(a: Bitmapset?) returns (visited: seq<int>)
    requires IsSet(a)
    ensures Ascending(visited)
    ensures forall y: int :: y in visited <==> y >= 0 && y in Elements(a)
    ensures |visited| == |Elements(a)|
  {
    visited := [];
    ghost var members := Elements(a);
    var bound := if a == null then 0 else BITS_PER_BITMAPWORD * a.words.Length;
    var x := NextMember(a, -1);
    while x >= 0
      invariant Visited(visited, members, x)
      decreases if x < 0 then 0 else bound - x
    {
      var next := NextMember(a, x);
      VisitNext(visited, members, x, next);
      visited := visited + [x];
      x := next;
    }
    CountVisited(visited, members);
  }

  /** Sets built by adding members one by one hold just those, in canonical form. */
  method AddAll(members: seq<nat>) returns (a: Bitmapset?)
    ensures IsSet(a) && Elements(a) == (set x | x in members)
  {
    a := null;
    var i := 0;
    while i < |members|
      invariant 0 <= i <= |members| && IsSet(a) && fresh(Memory(a))
      invariant Elements(a) == set x | x in members[..i]
    {
      assert members[..i + 1] == members[..i] + [members[i]];
      var ok;
      ok, a := AddMember(a, members[i]);
      i := i + 1;
    }
    assert members[..i] == members;
  }
}
