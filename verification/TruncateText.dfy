/**
 Editing query text in place: clipping multi-byte text and replacing placeholders.

 Text is UTF-8 (section 3 of RFC 3629) without zero bytes; a buffer holds it with a zero byte
 behind it.
 */
module TruncateText {
  import opened Bytes

  // ----- characters -----

  /** `pg_utf_mblen` */
  function CharLength(b: byte): (n: nat)
    ensures 1 <= n <= 4
  {
    if b < 128 then 1
    else if 192 <= b < 224 then 2
    else if 224 <= b < 240 then 3
    else if 240 <= b < 248 then 4
    else 1
  }

  predicate IsContinuation(b: byte) {
    128 <= b < 192
  }

  /** The bits at the top of a byte: none, 10, 110, 1110 or 11110 (UTF-8, section 3 of RFC 3629). */
  lemma TopBits(b: byte)
    ensures IsContinuation(b) <==> b / 64 == 2
    ensures CharLength(b) == if b / 32 == 6 then 2 else if b / 16 == 14 then 3 else if b / 8 == 30 then 4 else 1
  {
  }

  /** The first character of the text is complete. */
  predicate StartsWithChar(s: seq<byte>) {
    && s != [] && s[0] != 0 && !IsContinuation(s[0]) && s[0] < 248 && CharLength(s[0]) <= |s|
    && forall i :: 1 <= i < CharLength(s[0]) ==> IsContinuation(s[i])
  }

  /** Complete characters, none of them zero. */
  predicate IsUtf8(s: seq<byte>) {
    s != [] ==> StartsWithChar(s) && IsUtf8(s[CharLength(s[0])..])
  }

  /** The number of characters, `pg_mbstrlen`. */
  function Chars(s: seq<byte>): (n: nat)
    requires IsUtf8(s)
    ensures n <= |s|
  {
    if s == [] then 0 else 1 + Chars(s[CharLength(s[0])..])
  }

  /** The bytes of the first `k` characters. */
  function BytesOf(s: seq<byte>, k: nat): (n: nat)
    requires IsUtf8(s)
    ensures n <= |s|
  {
    if s == [] || k == 0 then 0 else CharLength(s[0]) + BytesOf(s[CharLength(s[0])..], k - 1)
  }

  /** The first character and what is behind it. */
  lemma Step(s: seq<byte>, k: nat)
    requires IsUtf8(s) && s != []
    ensures var l := CharLength(s[0]);
            && l <= |s| && StartsWithChar(s) && IsUtf8(s[l..]) && Chars(s) == 1 + Chars(s[l..])
            && (k > 0 ==> BytesOf(s, k) == l + BytesOf(s[l..], k - 1))
  {
    hide CharLength, IsContinuation;
  }

  lemma Nothing(s: seq<byte>)
    requires IsUtf8(s)
    ensures BytesOf(s, 0) == 0 && IsUtf8([]) && Chars([]) == 0 && s[..0] == [] && s[0..] == s && (Chars(s) > 0 ==> s != [])
  {
  }

  /** A character in front of whole characters. */
  lemma Front(s: seq<byte>)
    requires StartsWithChar(s) && IsUtf8(s[CharLength(s[0])..])
    ensures IsUtf8(s) && Chars(s) == 1 + Chars(s[CharLength(s[0])..])
  {
    hide IsContinuation;
  }

  lemma FrontPart(s: seq<byte>, n: nat)
    requires StartsWithChar(s) && CharLength(s[0]) <= n <= |s|
    ensures StartsWithChar(s[..n])
  {
  }

  lemma FrontMore(s: seq<byte>, t: seq<byte>)
    requires StartsWithChar(s)
    ensures StartsWithChar(s + t) && s != [] && CharLength(s[0]) <= |s|
  {
  }

  /** Cutting behind a character leaves whole characters on both sides. */
  lemma {:induction false} CutBehind(s: seq<byte>, k: nat)
    requires IsUtf8(s) && k <= Chars(s)
    ensures var n := BytesOf(s, k);
            && IsUtf8(s[..n]) && IsUtf8(s[n..])
            && Chars(s[..n]) == k && Chars(s[n..]) == Chars(s) - k && k <= n
    decreases k
  {
    hide *;
    Nothing(s);
    if k > 0 {
      Step(s, k);
      var l, n := CharLength(s[0]), BytesOf(s, k);
      CutBehind(s[l..], k - 1);
      assert s[n..] == s[l..][n - l..] && s[..n][l..] == s[l..][..n - l];
      FrontPart(s, n);
      Front(s[..n]);
    }
  }

  lemma {:induction false} Utf8Append(s: seq<byte>, t: seq<byte>)
    requires IsUtf8(s) && IsUtf8(t)
    ensures IsUtf8(s + t) && Chars(s + t) == Chars(s) + Chars(t)
  {
    hide *;
    Nothing(t);
    if s == [] {
      assert s + t == t;
    } else {
      Step(s, 0);
      var l := CharLength(s[0]);
      Utf8Append(s[l..], t);
      assert (s + t)[l..] == s[l..] + t;
      FrontMore(s, t);
      Front(s + t);
    }
  }

  // ----- clipping -----

  /**
   `pg_mbcharcliplen`: whole characters while there are at most `limit` of them and fewer than
   `len` bytes have gone before.
   */
  function Clip(s: seq<byte>, len: int, limit: int): (k: nat)
    requires IsUtf8(s)
    ensures k <= Chars(s) && (k == 0 || k <= limit)
    decreases |s|
  {
    if len <= 0 || s == [] || limit <= 0 then 0
    else 1 + Clip(s[CharLength(s[0])..], len - CharLength(s[0]), limit - 1)
  }

  lemma {:induction false} BytesSplit(s: seq<byte>, k: nat)
    requires IsUtf8(s) && k < Chars(s)
    ensures var n := BytesOf(s, k);
            n < |s| && IsUtf8(s[n..]) && BytesOf(s, k + 1) == n + CharLength(s[n])
  {
    hide *;
    Nothing(s);
    Step(s, k + 1);
    var l := CharLength(s[0]);
    Nothing(s[l..]);
    if k > 0 {
      Step(s, k);
      BytesSplit(s[l..], k - 1);
      var n := BytesOf(s[l..], k - 1);
      assert s[l..][n..] == s[l + n..];
    }
  }

  /** The first `taken` characters are counted, and the rest is to be clipped. */
  ghost predicate Clipping(str: seq<byte>, length: int, limit: int, taken: nat, clen: nat, len: int, rest: seq<byte>) {
    && IsUtf8(str) && taken <= Chars(str) && clen == BytesOf(str, taken) && rest == str[clen..] && IsUtf8(rest)
    && Clip(str, length, limit) == taken + Clip(rest, len, limit - taken)
  }

  lemma ClipStart(str: seq<byte>, length: int, limit: int)
    requires IsUtf8(str)
    ensures Clipping(str, length, limit, 0, 0, length, str)
  {
    assert str[0..] == str;
  }

  lemma ClipNext(str: seq<byte>, length: int, limit: int, taken: nat, clen: nat, len: int, rest: seq<byte>)
    requires Clipping(str, length, limit, taken, clen, len, rest) && len > 0 && rest != [] && taken < limit
    ensures var l := CharLength(rest[0]);
            l <= |rest| && Clipping(str, length, limit, taken + 1, clen + l, len - l, rest[l..])
  {
    hide *;
    ClippingFacts(str, length, limit, taken, clen, len, rest);
    CutBehind(str, taken);
    Step(rest, 0);
    BytesSplit(str, taken);
    CutBehind(str, taken + 1);
    var l := CharLength(rest[0]);
    assert rest[l..] == str[clen + l..];
    ClipOne(rest, len, limit - taken);
    ClippingIs(str, length, limit, taken + 1, clen + l, len - l, rest[l..]);
  }

  lemma ClippingFacts(str: seq<byte>, length: int, limit: int, taken: nat, clen: nat, len: int, rest: seq<byte>)
    requires Clipping(str, length, limit, taken, clen, len, rest)
    ensures IsUtf8(str) && taken <= Chars(str) && clen == BytesOf(str, taken) && rest == str[clen..] && IsUtf8(rest)
    ensures Clip(str, length, limit) == taken + Clip(rest, len, limit - taken)
  {
    hide IsUtf8, Clip, Chars, BytesOf;
  }

  lemma ClippingIs(str: seq<byte>, length: int, limit: int, taken: nat, clen: nat, len: int, rest: seq<byte>)
    requires IsUtf8(str) && taken <= Chars(str) && clen == BytesOf(str, taken) && rest == str[clen..] && IsUtf8(rest)
    requires Clip(str, length, limit) == taken + Clip(rest, len, limit - taken)
    ensures Clipping(str, length, limit, taken, clen, len, rest)
  {
    hide IsUtf8, Clip, Chars, BytesOf;
  }

  lemma ClipOne(s: seq<byte>, len: int, limit: int)
    requires IsUtf8(s) && s != [] && len > 0 && limit > 0
    ensures var l := CharLength(s[0]);
            l <= |s| && IsUtf8(s[l..]) && Clip(s, len, limit) == 1 + Clip(s[l..], len - l, limit - 1)
  {
    Step(s, 0);
    hide StartsWithChar, CharLength;
  }

  lemma ClipDone(str: seq<byte>, length: int, limit: int, taken: nat, clen: nat, len: int, rest: seq<byte>)
    requires Clipping(str, length, limit, taken, clen, len, rest) && (len <= 0 || rest == [] || taken >= limit)
    ensures clen == BytesOf(str, Clip(str, length, limit))
  {
  }

  method CharClipLength(str: seq<byte>, length: int, limit: int) returns (clen: nat)
    requires IsUtf8(str)
    ensures clen == BytesOf(str, Clip(str, length, limit))
  {
    hide *;
    ClipStart(str, length, limit);
    clen := 0;
    var nch: nat, len, rest, more := 0, length, str, true;
    while more && len > 0 && rest != []
      invariant if more then Clipping(str, length, limit, nch, clen, len, rest) else clen == BytesOf(str, Clip(str, length, limit))
      decreases more, |rest|
    {
      more, clen, len, rest := ClipTurn(str, length, limit, nch, clen, len, rest);
      nch := nch + 1;
    }
    if more {
      ClipDone(str, length, limit, nch, clen, len, rest);
    }
  }

  /** One turn of the loop; it ends once there are more characters than allowed. */
  method ClipTurn(str: seq<byte>, length: int, limit: int, nch: nat, clen: nat, len: int, rest: seq<byte>)
    returns (more: bool, clen': nat, len': int, rest': seq<byte>)
    requires IsUtf8(str) && Clipping(str, length, limit, nch, clen, len, rest) && len > 0 && rest != []
    ensures if more then Clipping(str, length, limit, nch + 1, clen', len', rest') && |rest'| < |rest|
            else clen' == BytesOf(str, Clip(str, length, limit))
  {
    hide *;
    var l := CharLength(rest[0]);
    if nch + 1 > limit {
      ClipDone(str, length, limit, nch, clen, len, rest);
      return false, clen, len, rest;
    }
    ClipNext(str, length, limit, nch, clen, len, rest);
    return true, clen + l, len - l, rest[l..];
  }

  /** All of the characters that `limit` allows are kept exactly when the byte budget lasts. */
  lemma {:induction false} ClipExact(s: seq<byte>, len: int, limit: nat)
    requires IsUtf8(s) && limit <= Chars(s)
    ensures Clip(s, len, limit) == limit <==> limit == 0 || BytesOf(s, limit - 1) < len
    decreases limit
  {
    if limit > 0 {
      var l := CharLength(s[0]);
      if limit > 1 {
        ClipExact(s[l..], len - l, limit - 1);
      } else {
        assert Clip(s[l..], len - l, 0) == 0 && BytesOf(s, 0) == 0;
      }
    }
  }

  // ----- truncating to a number of characters -----

  const DOTS: seq<byte> := [46, 46, 46]

  lemma Ascii(c: byte, s: seq<byte>)
    requires 0 < c < 128 && IsUtf8(s)
    ensures IsUtf8([c] + s) && Chars([c] + s) == 1 + Chars(s)
  {
    assert ([c] + s)[1..] == s;
    Front([c] + s);
  }

  lemma DotsAreText()
    ensures IsUtf8(DOTS) && Chars(DOTS) == 3
  {
    Nothing([]);
    Ascii(46, []);
    Ascii(46, [46] + []);
    Ascii(46, [46] + ([46] + []));
    assert [46] + ([46] + ([46] + [])) == DOTS;
    hide *;
  }

  /** The text cut to a number of characters, dots in place of what is missing. */
  function Clipped(text: seq<byte>, max: nat): seq<byte>
    requires IsUtf8(text)
  {
    if Chars(text) <= max then text else text[..BytesOf(text, Clip(text, Chars(text), max - 3))] + DOTS
  }

  /** Three characters fewer than allowed are kept exactly when the byte budget lasts. */
  lemma ClippedChars(text: seq<byte>, max: nat)
    requires IsUtf8(text) && Chars(text) > max >= 3
    ensures IsUtf8(Clipped(text, max)) && Chars(Clipped(text, max)) <= max
    ensures Chars(Clipped(text, max)) == max <==> max == 3 || BytesOf(text, max - 4) < Chars(text)
  {
    hide IsUtf8, Chars, BytesOf, Clip;
    TruncatedFacts(text, max);
    DotsAreText();
    Utf8Append(text[..BytesOf(text, Clip(text, Chars(text), max - 3))], DOTS);
  }

  lemma ClippedIs(text: seq<byte>, max: nat)
    requires IsUtf8(text)
    ensures Clipped(text, max) ==
            if Chars(text) <= max then text else text[..BytesOf(text, Clip(text, Chars(text), max - 3))] + DOTS
  {
  }

  /**
   `truncate_mbstr`: `n` bytes of text stand in the buffer, a zero byte behind them. The text
   ends up with whole characters, and with at most `max` of them unless it is too long for a
   limit below three; from three on the dots fit into the buffer as it is.
   */
  method TruncateMbstr(buf: array<byte>, n: nat, max: nat) returns (n': nat)
    requires n < buf.Length && buf[n] == 0 && IsUtf8(buf[..n]) && (max >= 3 || buf.Length >= 4)
    modifies buf
    ensures n' < buf.Length && buf[n'] == 0 && IsUtf8(buf[..n']) && (max >= 3 ==> n' <= n)
    ensures Chars(buf[..n']) <= max <==> max >= 3 || Chars(old(buf[..n])) <= max
    ensures buf[..n'] == Clipped(old(buf[..n]), max)
  {
    hide *;
    ghost var text := buf[..n];
    var chars := CountChars(buf[..n]);
    ClippedIs(text, max);
    if chars <= max {
      return n;
    }
    TruncatedFacts(text, max);
    DotsAreText();
    var bytes := CharClipLength(buf[..n], chars, max - 3);
    ghost var kept := text[..bytes];
    assert buf[..bytes] == kept;
    WriteDots(buf, bytes);
    n' := bytes + 3;
    Utf8Append(kept, DOTS);
  }

  /** `strncpy` of the dots and the zero byte behind them. */
  method WriteDots(buf: array<byte>, at: nat)
    requires at + 3 < buf.Length
    modifies buf
    ensures buf[..at + 3] == old(buf[..at]) + DOTS && buf[at + 3] == 0
  {
    ghost var kept := buf[..at];
    buf[at], buf[at + 1], buf[at + 2], buf[at + 3] := 46, 46, 46, 0;
    assert buf[..at] == kept && buf[at..at + 3] == DOTS;
    assert buf[..at + 3] == buf[..at] + buf[at..at + 3];
  }

  lemma TruncatedFacts(text: seq<byte>, max: nat)
    requires IsUtf8(text) && Chars(text) > max
    ensures var k := Clip(text, Chars(text), max - 3);
            && IsUtf8(text[..BytesOf(text, k)]) && Chars(text[..BytesOf(text, k)]) == k
            && (max < 3 ==> k == 0 && BytesOf(text, k) == 0)
            && (max >= 3 ==> k <= max - 3 && BytesOf(text, k) + 3 < |text|
                             && (k == max - 3 <==> max == 3 || BytesOf(text, max - 4) < Chars(text)))
  {
    hide IsUtf8, Chars, BytesOf, Clip;
    var k := Clip(text, Chars(text), max - 3);
    CutBehind(text, k);
    Nothing(text);
    if max >= 3 {
      ClipExact(text, Chars(text), max - 3);
      CutBehind(text, k);
      AtLeastChars(text, k);
    }
  }

  lemma AtLeastChars(s: seq<byte>, k: nat)
    requires IsUtf8(s) && k <= Chars(s)
    ensures BytesOf(s, k) + (Chars(s) - k) <= |s|
  {
    CutBehind(s, k);
    hide IsUtf8, BytesOf;
  }

  /** `pg_mbstrlen` */
  method CountChars(s: seq<byte>) returns (n: nat)
    requires IsUtf8(s)
    ensures n == Chars(s)
  {
    hide IsUtf8, Chars, StartsWithChar, CharLength;
    var rest := s;
    n := 0;
    while rest != []
      invariant IsUtf8(rest) && n + Chars(rest) == Chars(s)
      decreases |rest|
    {
      Step(rest, 0);
      rest := rest[CharLength(rest[0])..];
      n := n + 1;
    }
    Nothing(rest);
  }

  /** `n` copies of one character. */
  function Copies(c: seq<byte>, n: nat): seq<byte> {
    if n == 0 then [] else c + Copies(c, n - 1)
  }

  /**
   The byte budget of the clipping is the number of characters, so text of four-byte characters
   is cut shorter than the limit allows as soon as four times what is kept reaches its length.
   */
  lemma FourByteText(c: seq<byte>, n: nat, max: nat)
    requires |c| == 4 && StartsWithChar(c) && CharLength(c[0]) == 4 && 3 <= max < n
    ensures var text := Copies(c, n);
            && IsUtf8(text) && Chars(text) == n
            && (Clip(text, n, max - 3) == max - 3 <==> max == 3 || 4 * (max - 4) < n)
  {
    CopiesFacts(c, n, 0);
    if max > 3 {
      CopiesFacts(c, n, max - 4);
    }
    ClipExact(Copies(c, n), n, max - 3);
    hide *;
  }

  lemma {:induction false} CopiesFacts(c: seq<byte>, n: nat, k: nat)
    requires |c| == 4 && StartsWithChar(c) && CharLength(c[0]) == 4 && k <= n
    ensures IsUtf8(Copies(c, n)) && Chars(Copies(c, n)) == n && BytesOf(Copies(c, n), k) == 4 * k
  {
    hide StartsWithChar, CharLength, IsUtf8, Chars, BytesOf;
    if n > 0 {
      var rest := Copies(c, n - 1);
      CopiesFacts(c, n - 1, if k > 0 then k - 1 else 0);
      FrontMore(c, rest);
      assert (c + rest)[4..] == rest && (c + rest)[0] == c[0];
      Front(c + rest);
      Step(c + rest, k);
      Nothing(c + rest);
    } else {
      Nothing2();
    }
  }

  lemma Nothing2()
    ensures IsUtf8([]) && Chars([]) == 0 && BytesOf([], 0) == 0
  {
  }

  // ----- replacing -----

  /** Left-to-right replacement; what has been replaced is not looked at again. */
  function Replace(s: seq<byte>, p: seq<byte>, r: seq<byte>): seq<byte>
    requires p != []
  {
    if |s| < |p| then s
    else if s[..|p|] == p then r + Replace(s[|p|..], p, r)
    else [s[0]] + Replace(s[1..], p, r)
  }

  /** The pattern occurs at this position. */
  predicate Occurs(s: seq<byte>, p: seq<byte>, i: nat) {
    i + |p| <= |s| && s[i..i + |p|] == p
  }

  /** The pattern does not occur before `i`. */
  ghost predicate AbsentBefore(s: seq<byte>, p: seq<byte>, i: nat) {
    forall k: nat :: k < i ==> !Occurs(s, p, k)
  }

  ghost predicate Absent(s: seq<byte>, p: seq<byte>) {
    forall k: nat :: !Occurs(s, p, k)
  }

  /** Without an occurrence before `i` the bytes before `i` stay. */
  lemma {:induction false} ReplaceSkips(s: seq<byte>, p: seq<byte>, r: seq<byte>, i: nat)
    requires p != [] && i <= |s| && forall k: nat :: k < i ==> !Occurs(s, p, k)
    ensures Replace(s, p, r) == s[..i] + Replace(s[i..], p, r)
    decreases i
  {
    if i == 0 {
      assert s[0..] == s && s[..0] + Replace(s, p, r) == Replace(s, p, r);
    } else {
      ShiftOccurs(s, p, i);
      ReplaceSkips(s[1..], p, r, i - 1);
      SkipOne(s, p, r);
      hide Replace, Occurs;
      assert s[1..][i - 1..] == s[i..] && [s[0]] + s[1..][..i - 1] == s[..i];
      var x := Replace(s[i..], p, r);
      assert [s[0]] + (s[1..][..i - 1] + x) == ([s[0]] + s[1..][..i - 1]) + x;
    }
  }

  lemma SkipOne(s: seq<byte>, p: seq<byte>, r: seq<byte>)
    requires p != [] && s != [] && !Occurs(s, p, 0)
    ensures Replace(s, p, r) == [s[0]] + Replace(s[1..], p, r)
  {
    if |s| < |p| {
      assert s == [s[0]] + s[1..];
    }
  }

  lemma ShiftOccurs(s: seq<byte>, p: seq<byte>, i: nat)
    requires 0 < i <= |s| && forall k: nat :: k < i ==> !Occurs(s, p, k)
    ensures !Occurs(s, p, 0) && forall k: nat :: k < i - 1 ==> !Occurs(s[1..], p, k)
  {
    forall k: nat | k < i - 1 ensures !Occurs(s[1..], p, k) {
      assert !Occurs(s, p, k + 1);
      if k + |p| <= |s[1..]| {
        assert s[1..][k..k + |p|] == s[k + 1..k + 1 + |p|];
      }
    }
  }

  /** `strstr` from position `from` on. */
  method Find(buf: array<byte>, from: nat, n: nat, p: seq<byte>) returns (at: nat)
    requires from <= n <= buf.Length && p != []
    ensures from <= at <= n && AbsentBefore(buf[from..n], p, at - from)
    ensures at < n ==> at + |p| <= n && Occurs(buf[from..n], p, at - from)
    ensures at == n ==> Absent(buf[from..n], p)
  {
    ghost var all, s := buf[..], buf[from..n];
    assert s == all[from..n];
    at := from;
    while at + |p| <= n && buf[at..at + |p|] != p
      invariant from <= at <= n && forall k: nat :: k < at - from ==> !Occurs(s, p, k)
    {
      Inside(all, from, n, at, at + |p|);
      at := at + 1;
    }
    if at + |p| > n {
      at := n;
    } else {
      Inside(all, from, n, at, at + |p|);
    }
  }

  lemma Inside(all: seq<byte>, from: nat, n: nat, i: nat, j: nat)
    requires from <= i <= j <= n <= |all|
    ensures all[from..n][i - from..j - from] == all[i..j]
  {
    var x, y := all[from..n][i - from..j - from], all[i..j];
    assert forall k :: 0 <= k < |y| ==> x[k] == all[i + k] == y[k];
  }

  /** `memcpy` */
  method Copy(buf: array<byte>, at: nat, r: seq<byte>)
    requires at + |r| <= buf.Length
    modifies buf
    ensures buf[..] == old(buf[..at]) + r + old(buf[at + |r|..])
  {
    ghost var front, back := buf[..at], buf[at + |r|..];
    var i := 0;
    while i < |r|
      invariant 0 <= i <= |r| && buf[..at] == front && buf[at..at + i] == r[..i] && buf[at + |r|..] == back
    {
      buf[at + i] := r[i];
      i := i + 1;
    }
    assert buf[..] == buf[..at] + buf[at..at + |r|] + buf[at + |r|..];
  }

  /** `memmove` of `k` bytes to the left. */
  method MoveLeft(buf: array<byte>, to: nat, from: nat, k: nat)
    requires to <= from && from + k <= buf.Length
    modifies buf
    ensures buf[..to] == old(buf[..to]) && buf[to..to + k] == old(buf[from..from + k])
  {
    ghost var front, moved := buf[..to], buf[from..from + k];
    var j := 0;
    while j < k
      invariant 0 <= j <= k
      invariant forall i :: 0 <= i < to ==> buf[i] == front[i]
      invariant forall i :: to <= i < to + j ==> buf[i] == moved[i - to]
      invariant forall i :: from + j <= i < from + k ==> buf[i] == moved[i - from]
    {
      buf[to + j] := buf[from + j];
      j := j + 1;
    }
  }

  /** The replacement over the pattern and what is behind it, its zero byte included, moved up. */
  method Overwrite(buf: array<byte>, at: nat, n: nat, plen: nat, r: seq<byte>)
    requires |r| <= plen && at + plen <= n < buf.Length
    modifies buf
    ensures buf[..n + 1 - plen + |r|] == old(buf[..at]) + r + old(buf[at + plen..n + 1])
  {
    ghost var front, back, k := buf[..at], buf[at + plen..n + 1], n + 1 - (at + plen);
    ghost var behind := buf[at + |r|..];
    Copy(buf, at, r);
    assert buf[..at + |r|] == front + r;
    assert buf[at + plen..n + 1] == behind[plen - |r|..plen - |r| + k] == back;
    MoveLeft(buf, at + |r|, at + plen, n + 1 - (at + plen));
    var end := n + 1 - plen + |r|;
    assert buf[..end] == buf[..at + |r|] + buf[at + |r|..at + |r| + k];
  }

  /** The text replaced so far and the rest of it. */
  ghost predicate Replacing(text: seq<byte>, p: seq<byte>, r: seq<byte>, done: seq<byte>, rest: seq<byte>)
    requires p != []
  {
    Replace(text, p, r) == done + Replace(rest, p, r)
  }

  lemma ReplaceNext(text: seq<byte>, p: seq<byte>, r: seq<byte>, done: seq<byte>, rest: seq<byte>, i: nat)
    requires p != [] && Replacing(text, p, r, done, rest)
    requires Occurs(rest, p, i) && AbsentBefore(rest, p, i)
    ensures Replacing(text, p, r, done + rest[..i] + r, rest[i + |p|..])
  {
    ReplaceSkips(rest, p, r, i);
    assert rest[i..][..|p|] == rest[i..i + |p|] && rest[i..][|p|..] == rest[i + |p|..];
    var x := Replace(rest[i + |p|..], p, r);
    assert Replace(rest[i..], p, r) == r + x;
    hide Replace, Occurs;
    assert done + (rest[..i] + (r + x)) == (done + rest[..i] + r) + x;
  }

  lemma ReplaceEnds(text: seq<byte>, p: seq<byte>, r: seq<byte>, done: seq<byte>, rest: seq<byte>)
    requires p != [] && Replacing(text, p, r, done, rest) && Absent(rest, p)
    ensures Replace(text, p, r) == done + rest
  {
    ReplaceSkips(rest, p, r, |rest|);
    assert rest[..|rest|] == rest && rest[|rest|..] == [] && Replace([], p, r) == [];
    hide Replace;
    assert rest + [] == rest;
  }

  /** `global_replace`: the text in the buffer is replaced in place. */
  method GlobalReplace(buf: array<byte>, n: nat, p: seq<byte>, r: seq<byte>) returns (n': nat)
    requires n < buf.Length && buf[n] == 0 && p != [] && |r| <= |p|
    modifies buf
    ensures n' <= n && buf[n'] == 0 && buf[..n'] == Replace(old(buf[..n]), p, r)
  {
    ghost var text := buf[..n];
    assert [] + Replace(text, p, r) == Replace(text, p, r);
    assert buf[..0] == [] && buf[0..n] == text;
    n' := n;
    var s: nat, more := 0, true;
    while more
      invariant s <= n' <= n && buf[n'] == 0
      invariant if more then Replacing(text, p, r, buf[..s], buf[s..n']) else buf[..n'] == Replace(text, p, r)
      decreases more, n' - s
    {
      more, s, n' := ReplaceOne(buf, s, n', p, r, text);
    }
  }

  /** One turn of the loop: the next occurrence, or the end. */
  method ReplaceOne(buf: array<byte>, s: nat, n: nat, p: seq<byte>, r: seq<byte>, ghost text: seq<byte>)
    returns (more: bool, s': nat, n': nat)
    requires s <= n < buf.Length && buf[n] == 0 && p != [] && |r| <= |p| && Replacing(text, p, r, buf[..s], buf[s..n])
    modifies buf
    ensures s' <= n' <= n && buf[n'] == 0
    ensures if more then Replacing(text, p, r, buf[..s'], buf[s'..n']) && n' - s' < n - s else buf[..n'] == Replace(text, p, r)
  {
    hide *;
    ghost var done, rest := buf[..s], buf[s..n];
    var at := Find(buf, s, n, p);
    if at == n {
      ReplaceEnds(text, p, r, done, rest);
      assert buf[..n] == done + rest;
      return false, s, n;
    }
    ReplaceNext(text, p, r, done, rest, at - s);
    n' := PutOver(buf, s, at, n, |p|, r);
    s', more := at + |r|, true;
  }

  /** Puts the replacement over the pattern at `at`. */
  method PutOver(buf: array<byte>, s: nat, at: nat, n: nat, plen: nat, r: seq<byte>) returns (n': nat)
    requires s <= at && at + plen <= n < buf.Length && buf[n] == 0 && |r| <= plen
    modifies buf
    ensures n' == n - plen + |r| && at + |r| <= n' && buf[n'] == 0
    ensures buf[..at + |r|] == old(buf[..s]) + old(buf[s..n])[..at - s] + r
    ensures buf[at + |r|..n'] == old(buf[s..n])[at - s + plen..]
  {
    ghost var all, tail := buf[..], buf[at + plen..n];
    ghost var front := buf[..at];
    Around(all, s, at, plen, n);
    assert front == all[..at] && buf[at + plen..n + 1] == all[at + plen..n + 1];
    Overwrite(buf, at, n, plen, r);
    n' := n - plen + |r|;
    Replaced(buf[..n' + 1], front, r, all[s..n][at - s + plen..]);
    ghost var w := buf[..n' + 1];
    assert buf[..at + |r|] == w[..at + |r|] && buf[at + |r|..n'] == w[at + |r|..n'] && buf[n'] == w[n'];
  }

  lemma Around(all: seq<byte>, s: nat, at: nat, plen: nat, n: nat)
    requires s <= at && at + plen <= n < |all| && all[n] == 0
    ensures all[..at] == all[..s] + all[s..n][..at - s]
    ensures all[at + plen..n + 1] == all[s..n][at - s + plen..] + [0]
  {
  }

  lemma Replaced(w: seq<byte>, front: seq<byte>, r: seq<byte>, tail: seq<byte>)
    requires w == front + r + (tail + [0])
    ensures var k := |front| + |r|;
            w[..k] == front + r && w[k..k + |tail|] == tail && w[k + |tail|] == 0
  {
  }

  lemma {:induction false} BehindText(p: seq<byte>, rest: seq<byte>)
    requires IsUtf8(p) && IsUtf8(p + rest)
    ensures IsUtf8(rest)
  {
    hide *;
    if p == [] {
      assert p + rest == rest;
    } else {
      Step(p, 0);
      Step(p + rest, 0);
      var l := CharLength(p[0]);
      assert (p + rest)[l..] == p[l..] + rest;
      BehindText(p[l..], rest);
    }
  }

  /** A pattern that starts with an ASCII character does not occur inside of a character. */
  lemma NotInside(s: seq<byte>, p: seq<byte>, k: nat)
    requires StartsWithChar(s) && p != [] && p[0] < 128 && 0 < k < CharLength(s[0])
    ensures !Occurs(s, p, k)
  {
    if Occurs(s, p, k) {
      OccursFirst(s, p, k);
    }
  }

  lemma OccursFirst(s: seq<byte>, p: seq<byte>, k: nat)
    requires p != [] && Occurs(s, p, k)
    ensures k < |s| && s[k] == p[0]
  {
    assert s[k..k + |p|][0] == s[k];
  }

  /** Replacing text by text leaves text. */
  lemma {:induction false} ReplaceKeepsText(s: seq<byte>, p: seq<byte>, r: seq<byte>)
    requires IsUtf8(s) && IsUtf8(p) && IsUtf8(r) && p != [] && p[0] < 128
    ensures IsUtf8(Replace(s, p, r))
    decreases |s|
  {
    if s != [] {
      Step(s, 0);
      if Occurs(s, p, 0) {
        var rest := s[|p|..];
        assert s == p + rest && s[..|p|] == p;
        BehindText(p, rest);
        ReplaceKeepsText(rest, p, r);
        Utf8Append(r, Replace(rest, p, r));
      } else {
        var l := CharLength(s[0]);
        forall k: nat | k < l ensures !Occurs(s, p, k) {
          if k > 0 {
            NotInside(s, p, k);
          }
        }
        ReplaceSkips(s, p, r, l);
        ReplaceKeepsText(s[l..], p, r);
        hide Replace, IsUtf8, Chars, Occurs;
        FrontMore(s[..l], Replace(s[l..], p, r)) by {
          FrontPart(s, l);
        }
        var t := s[..l] + Replace(s[l..], p, r);
        assert t[l..] == Replace(s[l..], p, r) && t[0] == s[0];
        Front(t);
      }
    }
  }
}
