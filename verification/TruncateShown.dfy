/**
 What becomes of the placeholders of a truncated tree in the text that is shown.
 */
module TruncateShown {
  import opened Bytes
  import opened TruncateText
  import opened Truncate

  // ----- the three replacements, in letters -----

  predicate IsAscii(s: string) {
    forall i :: 0 <= i < |s| ==> s[i] < '\U{80}'
  }

  function Ascii(s: string): (b: seq<byte>)
    requires IsAscii(s)
    ensures |b| == |s| && forall i :: 0 <= i < |s| ==> b[i] == s[i] as int
  {
    seq(|s|, i requires 0 <= i < |s| => s[i] as int)
  }

  /** The horizontal ellipsis U+2026 in UTF-8, between double quotes. */
  lemma LettersAre()
    ensures PLACEHOLDER == Ascii("\"") + [0xE2, 0x80, 0xA6] + Ascii("\"")
    ensures SELECT == Ascii("SELECT ") && AS == Ascii(" AS ") && WHERE == Ascii("WHERE ") && DOTS == Ascii("...")
  {
  }

  // ----- a single occurrence -----

  lemma NothingReplaced(s: seq<byte>, p: seq<byte>, r: seq<byte>)
    requires p != [] && Absent(s, p)
    ensures Replace(s, p, r) == s
  {
    ReplaceSkips(s, p, r, |s|);
    assert s[|s|..] == [] && Replace([], p, r) == [] && s[..|s|] + [] == s;
  }

  lemma OneReplaced(a: seq<byte>, p: seq<byte>, r: seq<byte>, b: seq<byte>)
    requires p != [] && AbsentBefore(a + p + b, p, |a|) && Absent(b, p)
    ensures Replace(a + p + b, p, r) == a + r + b
  {
    var s := a + p + b;
    ReplaceSkips(s, p, r, |a|);
    assert s[|a|..] == p + b && s[..|a|] == a;
    assert (p + b)[..|p|] == p && (p + b)[|p|..] == b;
    NothingReplaced(b, p, r);
    assert a + (r + b) == a + r + b;
  }

  /** Without the byte `c` there is no pattern that has it. */
  lemma AbsentWithout(s: seq<byte>, p: seq<byte>, c: byte)
    requires c in p && c !in s
    ensures Absent(s, p)
  {
    var j :| 0 <= j < |p| && p[j] == c;
    forall k: nat ensures !Occurs(s, p, k) {
      if k + |p| <= |s| {
        assert s[k..k + |p|][j] == s[k + j];
      }
    }
  }

  /** A byte of the pattern at its place. */
  lemma OccursAt(s: seq<byte>, p: seq<byte>, k: nat, j: nat)
    requires Occurs(s, p, k) && j < |p|
    ensures s[k + j] == p[j]
  {
    assert s[k..k + |p|][j] == s[k + j];
  }

  /** The pattern cannot start before `n` when its byte at `j` is not found up to there. */
  lemma NotBefore(s: seq<byte>, p: seq<byte>, j: nat, n: nat)
    requires j < |p| && n + j <= |s| && forall i :: j <= i < n + j ==> s[i] != p[j]
    ensures AbsentBefore(s, p, n)
  {
    forall k: nat | k < n ensures !Occurs(s, p, k) {
      if Occurs(s, p, k) {
        OccursAt(s, p, k, j);
      }
    }
  }

  // ----- what is shown -----

  /** Text without double quotes. */
  predicate IsPlain(s: seq<byte>) {
    34 !in s
  }

  lemma PlainAbsent(s: seq<byte>)
    requires IsPlain(s)
    ensures Absent(s, PLACEHOLDER) && Absent(s, SELECT + WHERE + PLACEHOLDER) && Absent(s, SELECT + PLACEHOLDER + AS + PLACEHOLDER)
  {
    AbsentWithout(s, PLACEHOLDER, 34);
    assert (SELECT + WHERE + PLACEHOLDER)[13] == 34 && (SELECT + PLACEHOLDER + AS + PLACEHOLDER)[7] == 34;
    AbsentWithout(s, SELECT + WHERE + PLACEHOLDER, 34);
    AbsentWithout(s, SELECT + PLACEHOLDER + AS + PLACEHOLDER, 34);
  }

  /** A placeholder becomes three dots. */
  lemma DotsFor(a: seq<byte>, b: seq<byte>)
    requires IsPlain(a) && IsPlain(b)
    ensures Replace(a + PLACEHOLDER + b, PLACEHOLDER, DOTS) == a + DOTS + b
  {
    var s := a + PLACEHOLDER + b;
    PlainAbsent(b);
    NotBefore(s, PLACEHOLDER, 0, |a|);
    OneReplaced(a, PLACEHOLDER, DOTS, b);
  }

  /** The double quotes around the only placeholder. */
  lemma Quotes(a: seq<byte>, b: seq<byte>, i: nat)
    requires IsPlain(a) && IsPlain(b)
    ensures var s := a + PLACEHOLDER + b; i < |s| ==> (s[i] == 34 <==> i == |a| || i == |a| + 4)
  {
  }

  lemma TwoQuotes(a: seq<byte>, b: seq<byte>, i: nat, j: nat)
    requires IsPlain(a) && IsPlain(b)
    requires var s := a + PLACEHOLDER + b; i < j < |s| && s[i] == 34 && s[j] == 34
    ensures i == |a| && j == |a| + 4
  {
    Quotes(a, b, i);
    Quotes(a, b, j);
  }

  lemma NoTarget(a: seq<byte>, b: seq<byte>)
    requires IsPlain(a) && IsPlain(b)
    ensures Absent(a + PLACEHOLDER + b, SELECT + PLACEHOLDER + AS + PLACEHOLDER)
  {
    var s, p := a + PLACEHOLDER + b, SELECT + PLACEHOLDER + AS + PLACEHOLDER;
    assert p[7] == 34 && p[16] == 34;
    forall k: nat ensures !Occurs(s, p, k) {
      if Occurs(s, p, k) {
        OccursAt(s, p, k, 7);
        OccursAt(s, p, k, 16);
        assert s[k + 7] == 34 && s[k + 16] == 34;
        TwoQuotes(a, b, k + 7, k + 16);
      }
    }
  }

  predicate EndsWith(s: seq<byte>, p: seq<byte>) {
    |p| <= |s| && s[|s| - |p|..] == p
  }

  lemma EndsThere(a: seq<byte>, b: seq<byte>, k: nat)
    requires Occurs(a + PLACEHOLDER + b, SELECT + WHERE + PLACEHOLDER, k) && k + 13 == |a|
    ensures EndsWith(a, SELECT + WHERE)
  {
    var s, p := a + PLACEHOLDER + b, SELECT + WHERE + PLACEHOLDER;
    assert a[k..] == s[k..k + |p|][..13] == p[..13] == SELECT + WHERE;
  }

  lemma NoCondition(a: seq<byte>, b: seq<byte>)
    requires IsPlain(a) && IsPlain(b) && !EndsWith(a, SELECT + WHERE)
    ensures Absent(a + PLACEHOLDER + b, SELECT + WHERE + PLACEHOLDER)
  {
    var s, p := a + PLACEHOLDER + b, SELECT + WHERE + PLACEHOLDER;
    assert p[13] == 34 && p[17] == 34;
    forall k: nat ensures !Occurs(s, p, k) {
      if Occurs(s, p, k) {
        OccursAt(s, p, k, 13);
        OccursAt(s, p, k, 17);
        TwoQuotes(a, b, k + 13, k + 17);
        EndsThere(a, b, k);
      }
    }
  }

  /** A placeholder in any other place: three dots. */
  lemma PlaceholderShown(a: seq<byte>, b: seq<byte>)
    requires IsPlain(a) && IsPlain(b) && !EndsWith(a, SELECT + WHERE)
    ensures Shown(a + PLACEHOLDER + b) == a + DOTS + b
  {
    var s := a + PLACEHOLDER + b;
    NoTarget(a, b);
    NothingReplaced(s, SELECT + PLACEHOLDER + AS + PLACEHOLDER, SELECT + PLACEHOLDER);
    NoCondition(a, b);
    NothingReplaced(s, SELECT + WHERE + PLACEHOLDER, PLACEHOLDER);
    DotsFor(a, b);
  }

  /** A condition that was printed without its statement: the keywords in front of it go. */
  lemma ConditionShown(a: seq<byte>, b: seq<byte>)
    requires IsPlain(a) && IsPlain(b)
    ensures Shown(a + SELECT + WHERE + PLACEHOLDER + b) == a + DOTS + b
  {
    var p := SELECT + WHERE + PLACEHOLDER;
    var before := a + SELECT + WHERE;
    var s := a + p + b;
    assert s == before + PLACEHOLDER + b && IsPlain(before);
    assert a + SELECT + WHERE + PLACEHOLDER + b == s;
    NoTarget(before, b);
    NothingReplaced(s, SELECT + PLACEHOLDER + AS + PLACEHOLDER, SELECT + PLACEHOLDER);
    PlainAbsent(b);
    assert p[13] == 34;
    NotBefore(s, p, 13, |a|);
    OneReplaced(a, p, PLACEHOLDER, b);
    DotsFor(a, b);
  }

  /** A target list that was cut: its placeholder has a name, which goes. */
  lemma TargetShown(a: seq<byte>, b: seq<byte>)
    requires IsPlain(a) && IsPlain(b)
    ensures Shown(a + SELECT + PLACEHOLDER + AS + PLACEHOLDER + b) == a + SELECT + DOTS + b
  {
    var p, before := SELECT + PLACEHOLDER + AS + PLACEHOLDER, a + SELECT;
    var s := a + p + b;
    assert a + SELECT + PLACEHOLDER + AS + PLACEHOLDER + b == s && IsPlain(before);
    PlainAbsent(b);
    assert p[7] == 34;
    NotBefore(s, p, 7, |a|);
    OneReplaced(a, p, SELECT + PLACEHOLDER, b);
    var s1 := before + PLACEHOLDER + b;
    assert a + (SELECT + PLACEHOLDER) + b == s1;
    assert !EndsWith(before, SELECT + WHERE) by {
      assert before[|before| - 2] == 84 && (SELECT + WHERE)[11] == 69;
    }
    NoCondition(before, b);
    NothingReplaced(s1, SELECT + WHERE + PLACEHOLDER, PLACEHOLDER);
    DotsFor(before, b);
  }
}
