/**
 * The parts of Go's `strings` and `bytes` packages that the daemons rely on.
 * A Go string is a sequence of bytes; here it is a Dafny `string` holding one
 * character per byte, so lengths and indices are byte lengths and byte indices
 * as in Go.
 */
module Strings {

  /** `pat` occurs in `s` starting at index `k`. */
  ghost predicate OccursAt<T>(s: seq<T>, pat: seq<T>, k: int)
  {
    0 <= k && k + |pat| <= |s| && s[k..k + |pat|] == pat
  }

  /** Index of the first occurrence of `pat` in `s`, or -1 (strings.Index, bytes.Index). */
  function IndexOf<T(==)>(s: seq<T>, pat: seq<T>): (r: int)
    ensures r == -1 || OccursAt(s, pat, r)
    decreases |s|
  {
    if |s| < |pat| then -1
    else if s[..|pat|] == pat then 0
    else
      var i := IndexOf(s[1..], pat);
      if i == -1 then -1
      else
        assert s[1..][i..i + |pat|] == s[i + 1..i + 1 + |pat|];
        i + 1
  }

  /** IndexOf finds the first occurrence, and finds nothing exactly when there is none. */
  lemma {:induction false} IndexOfFirst<T>(s: seq<T>, pat: seq<T>)
    ensures var r := IndexOf(s, pat);
      && (r == -1 ==> forall k :: !OccursAt(s, pat, k))
      && (r != -1 ==> forall k :: 0 <= k < r ==> !OccursAt(s, pat, k))
    decreases |s|
  {
    if |s| >= |pat| && s[..|pat|] != pat {
      IndexOfFirst(s[1..], pat);
      forall k | OccursAt(s, pat, k) && k != 0 ensures OccursAt(s[1..], pat, k - 1) {
        assert s[1..][k - 1..k - 1 + |pat|] == s[k..k + |pat|];
      }
    }
  }

  /** An occurrence with none before it is the one IndexOf finds. */
  lemma IndexOfAt<T>(s: seq<T>, pat: seq<T>, i: nat)
    requires OccursAt(s, pat, i)
    requires forall k :: 0 <= k < i ==> !OccursAt(s, pat, k)
    ensures IndexOf(s, pat) == i
  {
    IndexOfFirst(s, pat);
  }

  /** Index of the first `c` in `s`, or -1 (strings.IndexRune for an ASCII rune). */
  function IndexOfChar(s: string, c: char): (r: int)
    ensures r == -1 || (0 <= r < |s| && s[r] == c)
    decreases |s|
  {
    if |s| == 0 then -1
    else if s[0] == c then 0
    else
      var i := IndexOfChar(s[1..], c);
      if i == -1 then -1 else i + 1
  }

  /** IndexOfChar finds the first `c`, and finds nothing exactly when there is no `c`. */
  lemma {:induction false} IndexOfCharFirst(s: string, c: char)
    ensures var r := IndexOfChar(s, c);
      && (r == -1 <==> c !in s)
      && (r != -1 ==> c !in s[..r])
    decreases |s|
  {
    if |s| > 0 && s[0] != c {
      IndexOfCharFirst(s[1..], c);
      assert s == [s[0]] + s[1..];
      var i := IndexOfChar(s[1..], c);
      if i != -1 {
        assert s[..i + 1] == [s[0]] + s[1..][..i];
      }
    }
  }

  /** A `c` with no `c` before it is the one IndexOfChar finds. */
  lemma IndexOfCharAt(s: string, c: char, i: nat)
    requires i < |s| && s[i] == c && c !in s[..i]
    ensures IndexOfChar(s, c) == i
  {
    IndexOfCharFirst(s, c);
    assert s[i] in s;
  }

  /** A slice holds no character that the whole lacks. */
  lemma SliceChars<T>(s: seq<T>, i: nat, j: nat)
    requires i <= j <= |s|
    ensures forall c :: c in s[i..j] ==> c in s
  {
    forall c | c in s[i..j] ensures c in s {
      var k :| 0 <= k < j - i && s[i..j][k] == c;
      assert s[i + k] == c;
    }
  }

  /** strings.HasPrefix: `s` begins with `prefix`. */
  predicate HasPrefix(s: string, prefix: string)
  {
    |prefix| <= |s| && forall k :: 0 <= k < |prefix| ==> s[k] == prefix[k]
  }

  /** The bytes that Go's unicode.IsSpace accepts when they stand alone (ASCII white space). */
  predicate IsSpace(c: char)
  {
    c == ' ' || c == '\t' || c == '\n' || c == '\r' || c == '\U{000B}' || c == '\U{000C}'
  }

  /** The first index from `i` on that is not white space, or |s|. */
  function SpanStart(s: string, i: nat): (b: nat)
    requires i <= |s|
    ensures i <= b <= |s|
    ensures b == |s| || !IsSpace(s[b])
    decreases |s| - i
  {
    if i < |s| && IsSpace(s[i]) then SpanStart(s, i + 1) else i
  }

  /** The end of `s[lo..j]` once its trailing white space is dropped. */
  function SpanEnd(s: string, lo: nat, j: nat): (e: nat)
    requires lo <= j <= |s|
    ensures lo <= e <= j
    ensures e == lo || !IsSpace(s[e - 1])
    decreases j
  {
    if lo < j && IsSpace(s[j - 1]) then SpanEnd(s, lo, j - 1) else j
  }

  /** SpanStart skips only white space. */
  lemma {:induction false} SpanStartSkips(s: string, i: nat)
    requires i <= |s|
    ensures forall k :: i <= k < SpanStart(s, i) ==> IsSpace(s[k])
    decreases |s| - i
  {
    if i < |s| && IsSpace(s[i]) {
      SpanStartSkips(s, i + 1);
    }
  }

  /** SpanEnd drops only white space. */
  lemma {:induction false} SpanEndSkips(s: string, lo: nat, j: nat)
    requires lo <= j <= |s|
    ensures forall k :: SpanEnd(s, lo, j) <= k < j ==> IsSpace(s[k])
    decreases j
  {
    if lo < j && IsSpace(s[j - 1]) {
      SpanEndSkips(s, lo, j - 1);
    }
  }

  /** `s` neither begins nor ends with white space. */
  predicate Trimmed(s: string)
  {
    s == [] || (!IsSpace(s[0]) && !IsSpace(s[|s| - 1]))
  }

  /** strings.TrimSpace: `s` without the white space at either end. */
  function TrimSpace(s: string): (r: string)
    ensures |r| <= |s|
    ensures Trimmed(r)
  {
    var b := SpanStart(s, 0);
    s[b..SpanEnd(s, b, |s|)]
  }

  /** TrimSpace leaves a string alone exactly when it is already trimmed. */
  lemma TrimSpaceFixed(s: string)
    ensures TrimSpace(s) == s <==> Trimmed(s)
  {
    if Trimmed(s) && s != [] {
      assert SpanStart(s, 0) == 0;
      assert SpanEnd(s, 0, |s|) == |s|;
    }
  }

  /**
   * What TrimSpace keeps is the piece of `s` from `b`, the length of the
   * leading white space, to `e`; everything before `b` and from `e` on is white space.
   */
  lemma TrimSpaceWithin(s: string)
    ensures var r, b := TrimSpace(s), SpanStart(s, 0);
      var e := b + |r|;
      && e <= |s|
      && (forall j :: 0 <= j < |r| ==> r[j] == s[b + j])
      && (forall i :: 0 <= i < b ==> IsSpace(s[i]))
      && (forall i :: e <= i < |s| ==> IsSpace(s[i]))
  {
    var b := SpanStart(s, 0);
    SpanStartSkips(s, 0);
    SpanEndSkips(s, b, |s|);
  }

  /** Trimming brings in no character that `s` lacks. */
  lemma TrimSpaceSubset(s: string)
    ensures forall c :: c in TrimSpace(s) ==> c in s
  {
    var b := SpanStart(s, 0);
    SliceChars(s, b, SpanEnd(s, b, |s|));
  }

  /**
   * strings.Split with a one-character separator: the pieces between the
   * separators, so that a string with n separators yields n + 1 pieces.
   */
  function Split(s: string, sep: char): (r: seq<string>)
    ensures |r| >= 1
    decreases |s|
  {
    var i := IndexOfChar(s, sep);
    if i == -1 then [s] else [s[..i]] + Split(s[i + 1..], sep)
  }

  /** No piece of a split holds the separator. */
  lemma {:induction false} SplitPieces(s: string, sep: char)
    ensures forall piece :: piece in Split(s, sep) ==> sep !in piece
    decreases |s|
  {
    var i := IndexOfChar(s, sep);
    IndexOfCharFirst(s, sep);
    if i != -1 {
      SplitPieces(s[i + 1..], sep);
      assert Split(s, sep) == [s[..i]] + Split(s[i + 1..], sep);
    }
  }

  /** strings.Join with a one-character separator. */
  function Join(parts: seq<string>, sep: char): string
  {
    if |parts| == 0 then ""
    else if |parts| == 1 then parts[0]
    else parts[0] + [sep] + Join(parts[1..], sep)
  }

  /** Splitting loses nothing: joining the pieces again gives back the text. */
  lemma {:induction false} JoinSplit(s: string, sep: char)
    ensures Join(Split(s, sep), sep) == s
    decreases |s|
  {
    var i := IndexOfChar(s, sep);
    if i != -1 {
      var rest := Split(s[i + 1..], sep);
      JoinSplit(s[i + 1..], sep);
      assert Split(s, sep) == [s[..i]] + rest;
      assert s == s[..i] + [sep] + s[i + 1..];
    }
  }

  /** Joining separator-free pieces and splitting again gives back the pieces. */
  lemma {:induction false} SplitJoin(parts: seq<string>, sep: char)
    requires |parts| >= 1
    requires forall i :: 0 <= i < |parts| ==> sep !in parts[i]
    ensures Split(Join(parts, sep), sep) == parts
    decreases |parts|
  {
    if |parts| > 1 {
      var s := Join(parts, sep);
      assert s == parts[0] + [sep] + Join(parts[1..], sep);
      assert s[..|parts[0]|] == parts[0];
      IndexOfCharAt(s, sep, |parts[0]|);
      assert s[|parts[0]| + 1..] == Join(parts[1..], sep);
      SplitJoin(parts[1..], sep);
    } else {
      assert Join(parts, sep) == parts[0];
    }
  }

  /** The number of pieces is one more than the number of separators. */
  lemma {:induction false} SplitCount(s: string, sep: char)
    ensures |Split(s, sep)| == multiset(s)[sep] + 1
    decreases |s|
  {
    var i := IndexOfChar(s, sep);
    IndexOfCharFirst(s, sep);
    if i != -1 {
      SplitCount(s[i + 1..], sep);
      assert s == s[..i] + [sep] + s[i + 1..];
      assert multiset(s) == multiset(s[..i]) + multiset{sep} + multiset(s[i + 1..]);
      assert multiset(s[..i])[sep] == 0;
    } else {
      assert multiset(s)[sep] == 0;
    }
  }
}
