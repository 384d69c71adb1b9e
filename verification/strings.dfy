/** The JavaScript string operations the client and the keyword matcher rely on:
    `trim`, `startsWith`, `includes`, `split` with a one-character separator and
    `toLowerCase` (ASCII letters only). Characters are abstract: a `char` stands for
    one JavaScript string unit. */
module Strings {

  /** The code points ECMAScript counts as WhiteSpace or LineTerminator; `trim` and
      `parseInt` skip exactly these. */
  predicate IsJsSpace(c: char) {
    var n := c as int;
    || n == 0x09 || n == 0x0A || n == 0x0B || n == 0x0C || n == 0x0D
    || n == 0x20 || n == 0xA0 || n == 0x1680
    || (0x2000 <= n <= 0x200A)
    || n == 0x2028 || n == 0x2029 || n == 0x202F || n == 0x205F
    || n == 0x3000 || n == 0xFEFF
  }

  predicate AllSpace(s: string) {
    forall i :: 0 <= i < |s| ==> IsJsSpace(s[i])
  }

  predicate StartsWith(s: string, prefix: string) {
    |prefix| <= |s| && s[..|prefix|] == prefix
  }

  /** `a` is a tail of `b`. */
  predicate IsSuffix(a: string, b: string) {
    |a| <= |b| && b[|b| - |a|..] == a
  }

  /** Every character of `s` in `[lo, hi)` is white space. */
  predicate SpaceBetween(s: string, lo: int, hi: int)
    requires 0 <= lo && hi <= |s|
  {
    forall m :: lo <= m < hi ==> IsJsSpace(s[m])
  }

  lemma SpaceSlice(s: string, lo: nat, hi: nat)
    requires lo <= hi <= |s| && SpaceBetween(s, lo, hi)
    ensures AllSpace(s[lo..hi])
  {
    assert forall m :: 0 <= m < hi - lo ==> s[lo..hi][m] == s[lo + m];
  }

  /** The first index at or after `i` that does not hold white space, or `|s|`. */
  function LeadingFrom(s: string, i: nat): (k: nat)
    requires i <= |s|
    ensures i <= k <= |s|
    ensures SpaceBetween(s, i, k)
    ensures k < |s| ==> !IsJsSpace(s[k])
    decreases |s| - i
  {
    if i == |s| || !IsJsSpace(s[i]) then i else LeadingFrom(s, i + 1)
  }

  /** The last index at or before `j`, and not below `lo`, just past a non-space character. */
  function TrailingDown(s: string, lo: nat, j: nat): (k: nat)
    requires lo <= j <= |s|
    ensures lo <= k <= j
    ensures SpaceBetween(s, k, j)
    ensures k > lo ==> !IsJsSpace(s[k - 1])
    decreases j
  {
    if j == lo || !IsJsSpace(s[j - 1]) then j else TrailingDown(s, lo, j - 1)
  }

  /** Number of white-space characters at the start of `s`. */
  function LeadingSpace(s: string): (k: nat)
    ensures k <= |s|
    ensures AllSpace(s[..k])
    ensures k < |s| ==> !IsJsSpace(s[k])
  {
    var k := LeadingFrom(s, 0);
    SpaceSlice(s, 0, k);
    k
  }

  /** `r` is `s` with the white space before position `i` and after `r` removed. */
  predicate TrimsTo(s: string, r: string, i: int) {
    && 0 <= i && i + |r| <= |s|
    && s[i..i + |r|] == r
    && AllSpace(s[..i])
    && AllSpace(s[i + |r|..])
  }

  /** JavaScript's `String.prototype.trim`. */
  function Trim(s: string): (r: string)
    ensures TrimsTo(s, r, LeadingSpace(s))
    ensures r != [] ==> !IsJsSpace(r[0]) && !IsJsSpace(r[|r| - 1])
    ensures r == [] <==> AllSpace(s)
  {
    var k := LeadingSpace(s);
    var j := TrailingDown(s, k, |s|);
    SpaceSlice(s, j, |s|);
    assert s[j..|s|] == s[j..];
    assert SpaceBetween(s, 0, k) by {
      assert forall m :: 0 <= m < k ==> s[m] == s[..k][m];
    }
    assert j == k ==> SpaceBetween(s, 0, |s|);
    s[k..j]
  }

  lemma TrimIdempotent(s: string)
    ensures Trim(Trim(s)) == Trim(s)
  {
    var r := Trim(s);
    assert LeadingSpace(r) == 0;
    assert TrailingDown(r, 0, |r|) == |r|;
  }

  /** `trim` removes exactly the padding around a word that starts and ends with a non-space. */
  lemma TrimPadded(lead: string, w: string, tail: string)
    requires AllSpace(lead) && AllSpace(tail)
    requires |w| > 0 && !IsJsSpace(w[0]) && !IsJsSpace(w[|w| - 1])
    ensures Trim(lead + w + tail) == w
  {
    var s := lead + w + tail;
    assert s == lead + (w + tail);
    LeadingSpaceOfPadded(lead, w + tail);
    PaddedLayout(lead, w, tail);
    TrimWindow(s, |lead|, |w|);
  }

  lemma PaddedLayout(lead: string, w: string, tail: string)
    requires AllSpace(tail) && |w| > 0
    ensures (lead + w + tail)[|lead|..|lead| + |w|] == w
    ensures (lead + w + tail)[|lead| + |w| - 1] == w[|w| - 1]
    ensures forall j :: |lead| + |w| <= j < |lead + w + tail| ==> IsJsSpace((lead + w + tail)[j])
  {
    var s := lead + w + tail;
    assert forall j :: |lead| + |w| <= j < |s| ==> s[j] == tail[j - |lead| - |w|];
  }

  /** The trim of `s` is the window of `n` characters after its leading white space when
      the window ends with a visible character and only white space follows it. */
  lemma TrimWindow(s: string, i: nat, n: nat)
    requires LeadingSpace(s) == i
    requires n > 0 && i + n <= |s|
    requires !IsJsSpace(s[i + n - 1])
    requires forall j :: i + n <= j < |s| ==> IsJsSpace(s[j])
    ensures Trim(s) == s[i..i + n]
  {
    var r := Trim(s);
    SpaceFrom(s, i + |r|);
    assert |r| >= n;
    assert r[|r| - 1] == s[i + |r| - 1];
  }

  lemma SpaceFrom(t: string, k: nat)
    requires k <= |t| && AllSpace(t[k..])
    ensures forall j :: k <= j < |t| ==> IsJsSpace(t[j])
  {
    assert forall j :: k <= j < |t| ==> t[j] == t[k..][j - k];
  }

  lemma {:induction false} LeadingSpaceOfPadded(lead: string, rest: string)
    requires AllSpace(lead)
    requires |rest| > 0 && !IsJsSpace(rest[0])
    ensures LeadingSpace(lead + rest) == |lead|
    decreases |lead|
  {
    if |lead| > 0 {
      assert (lead + rest)[1..] == lead[1..] + rest;
      LeadingSpaceOfPadded(lead[1..], rest);
    } else {
      assert lead + rest == rest;
    }
  }

  /** After white space only, the trim starts at the first visible character. */
  lemma TrimStartsAt(lead: string, rest: string)
    requires AllSpace(lead)
    requires |rest| > 0 && !IsJsSpace(rest[0])
    ensures |Trim(lead + rest)| > 0 && Trim(lead + rest)[0] == rest[0]
  {
    var s := lead + rest;
    LeadingSpaceOfPadded(lead, rest);
    assert s[|lead|] == rest[0];
    var r := Trim(s);
    assert r != [] by {
      assert !AllSpace(s) by { assert !IsJsSpace(s[|lead|]); }
    }
    assert r[0] == s[|lead|..|lead| + |r|][0];
  }

  /** Appending a white-space character does not change the trim. */
  lemma TrimAppendSpace(s: string, c: char)
    requires IsJsSpace(c)
    ensures Trim(s + [c]) == Trim(s)
  {
    var r := Trim(s);
    if r == [] {
      assert AllSpace(s + [c]) by {
        assert forall j :: 0 <= j < |s| ==> (s + [c])[j] == s[j];
      }
    } else {
      var i := LeadingSpace(s);
      var lead := s[..i];
      var tail := s[i + |r|..];
      assert s == lead + r + tail by {
        assert s == s[..i] + s[i..i + |r|] + s[i + |r|..];
      }
      assert AllSpace(tail + [c]) by {
        assert forall j :: 0 <= j < |tail| ==> (tail + [c])[j] == tail[j];
      }
      assert s + [c] == lead + r + (tail + [c]);
      TrimPadded(lead, r, tail + [c]);
    }
  }

  /** ASCII lowering of one character; every other character is kept. */
  function LowerChar(c: char): char {
    if 'A' <= c <= 'Z' then (c as int + 32) as char else c
  }

  /** `toLowerCase` restricted to the ASCII letters. */
  function Lower(s: string): (r: string)
    ensures |r| == |s|
    ensures forall i :: 0 <= i < |s| && 'A' <= s[i] <= 'Z' ==> r[i] as int == s[i] as int + 32
    ensures forall i :: 0 <= i < |s| && !('A' <= s[i] <= 'Z') ==> r[i] == s[i]
    ensures forall i :: 0 <= i < |r| ==> !('A' <= r[i] <= 'Z')
  {
    seq(|s|, i requires 0 <= i < |s| => LowerChar(s[i]))
  }

  lemma LowerConcat(a: string, b: string)
    ensures Lower(a + b) == Lower(a) + Lower(b)
  {
  }

  lemma LowerIdempotent(s: string)
    ensures Lower(Lower(s)) == Lower(s)
  {
  }

  /** `p` occurs in `s` starting at index `i`. */
  predicate OccursAt(s: string, p: string, i: int) {
    0 <= i && i + |p| <= |s| && s[i..i + |p|] == p
  }

  lemma OccursShift(s: string, p: string)
    requires |s| > 0
    ensures forall i :: OccursAt(s[1..], p, i) ==> OccursAt(s, p, i + 1)
    ensures forall i :: i >= 1 && OccursAt(s, p, i) ==> OccursAt(s[1..], p, i - 1)
  {
    forall i | OccursAt(s[1..], p, i)
      ensures OccursAt(s, p, i + 1)
    {
      assert s[1..][i..i + |p|] == s[i + 1..i + 1 + |p|];
    }
    forall i | i >= 1 && OccursAt(s, p, i)
      ensures OccursAt(s[1..], p, i - 1)
    {
      assert s[1..][i - 1..i - 1 + |p|] == s[i..i + |p|];
    }
  }

  /** JavaScript's `String.prototype.includes`. */
  function Includes(s: string, p: string): (b: bool)
    ensures b <==> exists i :: OccursAt(s, p, i)
    decreases |s|
  {
    if |p| > |s| then false
    else if s[..|p|] == p then
      assert OccursAt(s, p, 0);
      true
    else
      OccursShift(s, p);
      assert !OccursAt(s, p, 0);
      Includes(s[1..], p)
  }

  /** The inverse of `Split`: the pieces glued back together with the separator between them. */
  function Join(pieces: seq<string>, sep: char): string
    decreases |pieces|
  {
    if |pieces| == 0 then ""
    else if |pieces| == 1 then pieces[0]
    else pieces[0] + [sep] + Join(pieces[1..], sep)
  }

  lemma JoinExtendHead(c: char, pieces: seq<string>, sep: char)
    requires |pieces| >= 1
    ensures Join([[c] + pieces[0]] + pieces[1..], sep) == [c] + Join(pieces, sep)
  {
    var ps := [[c] + pieces[0]] + pieces[1..];
    assert ps[1..] == pieces[1..];
  }

  /** JavaScript's `split` with a one-character separator: the maximal separator-free
      pieces of `s`, in order; the empty string splits into one empty piece. */
  function Split(s: string, sep: char): (pieces: seq<string>)
    ensures |pieces| >= 1
    ensures forall k :: 0 <= k < |pieces| ==> sep !in pieces[k]
    ensures Join(pieces, sep) == s
    decreases |s|
  {
    if |s| == 0 then [""]
    else
      var tail := Split(s[1..], sep);
      if s[0] == sep then
        assert ([""] + tail)[1..] == tail;
        assert s == [sep] + s[1..];
        [""] + tail
      else
        JoinExtendHead(s[0], tail, sep);
        assert s == [s[0]] + s[1..];
        [[s[0]] + tail[0]] + tail[1..]
  }

  /** `Split` unrolled once on its first character. */
  lemma SplitCons(c: char, t: string, sep: char)
    ensures Split([c] + t, sep) ==
              if c == sep then [""] + Split(t, sep) else [[c] + Split(t, sep)[0]] + Split(t, sep)[1..]
  {
    assert ([c] + t)[1..] == t;
  }

  /** Splitting distributes over any separator occurrence: the pieces of `a`, then those of `b`. */
  lemma {:induction false} SplitConcat(a: string, b: string, sep: char)
    ensures Split(a + [sep] + b, sep) == Split(a, sep) + Split(b, sep)
    decreases |a|
  {
    if |a| == 0 {
      assert a + [sep] + b == [sep] + b;
      SplitCons(sep, b, sep);
    } else {
      var a' := a[1..];
      SplitConcat(a', b, sep);
      ConsDistributes(a[0], a' + [sep] + b, a', Split(b, sep), sep);
      ConsShape(a, b, sep);
    }
  }

  lemma ConsShape(a: string, b: string, sep: char)
    requires |a| > 0
    ensures a + [sep] + b == [a[0]] + (a[1..] + [sep] + b)
    ensures a == [a[0]] + a[1..]
  {
  }

  /** A character put in front of two texts whose pieces differ by a common tail keeps them so. */
  lemma ConsDistributes(c: char, x: string, y: string, back: seq<string>, sep: char)
    requires Split(x, sep) == Split(y, sep) + back
    ensures Split([c] + x, sep) == Split([c] + y, sep) + back
  {
    SplitCons(c, x, sep);
    SplitCons(c, y, sep);
    if c == sep {
      AppendAssoc([""], Split(y, sep), back);
    } else {
      ExtendFirstPiece([c], Split(y, sep), back);
    }
  }

  /** Gluing text onto the first piece commutes with appending further pieces. */
  lemma ExtendFirstPiece(head: string, front: seq<string>, back: seq<string>)
    requires |front| >= 1
    ensures [head + (front + back)[0]] + (front + back)[1..] == ([head + front[0]] + front[1..]) + back
  {
    assert (front + back)[0] == front[0];
    assert (front + back)[1..] == front[1..] + back;
  }

  lemma AppendAssoc<T>(x: seq<T>, y: seq<T>, z: seq<T>)
    ensures x + (y + z) == (x + y) + z
  {
  }

  lemma {:induction false} SplitWithoutSeparator(s: string, sep: char)
    requires sep !in s
    ensures Split(s, sep) == [s]
    decreases |s|
  {
    if |s| > 0 {
      SplitWithoutSeparator(s[1..], sep);
      assert [s[0]] + s[1..] == s;
    }
  }

  /** `Split` undoes `Join` when no piece contains the separator. */
  lemma {:induction false} SplitJoin(pieces: seq<string>, sep: char)
    requires |pieces| >= 1
    requires forall k :: 0 <= k < |pieces| ==> sep !in pieces[k]
    ensures Split(Join(pieces, sep), sep) == pieces
    decreases |pieces|
  {
    if |pieces| == 1 {
      SplitWithoutSeparator(pieces[0], sep);
    } else {
      SplitJoin(pieces[1..], sep);
      SplitConcat(pieces[0], Join(pieces[1..], sep), sep);
      SplitWithoutSeparator(pieces[0], sep);
      assert [pieces[0]] + pieces[1..] == pieces;
    }
  }

  /** A character in no piece and distinct from the separator is not in the joined string. */
  lemma {:induction false} JoinAvoids(pieces: seq<string>, sep: char, c: char)
    requires c != sep
    requires forall k :: 0 <= k < |pieces| ==> c !in pieces[k]
    ensures c !in Join(pieces, sep)
    decreases |pieces|
  {
    if |pieces| > 1 {
      JoinAvoids(pieces[1..], sep, c);
    }
  }
}
