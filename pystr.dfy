/**
 * The Python `str` operations that the request handlers of main.py are
 * built from: `in`, `split`, `rsplit(sep, 1)`, `lower` and `strip`, on
 * strings seen as sequences of code points.
 */
module PyStr {

  /** First position of `c` in `s`: where `str.split` cuts first. */
  function IndexOf(s: string, c: char): (i: nat)
    requires c in s
    ensures i < |s| && s[i] == c && c !in s[..i]
  {
    if s[0] == c then 0
    else
      var j := IndexOf(s[1..], c);
      assert s[..j + 1] == [s[0]] + s[1..][..j];
      j + 1
  }

  /** Last position of `c` in `s`: where `str.rsplit(c, 1)` cuts. */
  function LastIndexOf(s: string, c: char): (i: nat)
    requires c in s
    ensures i < |s| && s[i] == c && c !in s[i + 1..]
  {
    if s[|s| - 1] == c then |s| - 1
    else
      var j := LastIndexOf(s[..|s| - 1], c);
      assert s[j + 1..] == s[..|s| - 1][j + 1..] + [s[|s| - 1]];
      j
  }

  /** The first occurrence is the only one with no occurrence before it. */
  lemma IndexOfUnique(s: string, c: char, j: nat)
    requires j < |s| && s[j] == c && c !in s[..j]
    ensures c in s && IndexOf(s, c) == j
  {
    var k := IndexOf(s, c);
    assert forall m :: 0 <= m < j ==> s[m] != c by {
      forall m | 0 <= m < j ensures s[m] != c { assert s[m] == s[..j][m]; }
    }
    assert forall m :: 0 <= m < k ==> s[m] != c by {
      forall m | 0 <= m < k ensures s[m] != c { assert s[m] == s[..k][m]; }
    }
  }

  /** The last occurrence is the only one with no occurrence after it. */
  lemma LastIndexOfUnique(s: string, c: char, j: nat)
    requires j < |s| && s[j] == c && c !in s[j + 1..]
    ensures c in s && LastIndexOf(s, c) == j
  {
    var k := LastIndexOf(s, c);
    assert forall m :: j < m < |s| ==> s[m] != c by {
      forall m | j < m < |s| ensures s[m] != c { assert s[m] == s[j + 1..][m - j - 1]; }
    }
    assert forall m :: k < m < |s| ==> s[m] != c by {
      forall m | k < m < |s| ensures s[m] != c { assert s[m] == s[k + 1..][m - k - 1]; }
    }
  }

  /** `sep.join(pieces)`. */
  function Join(pieces: seq<string>, sep: char): string
  {
    if |pieces| == 0 then ""
    else if |pieces| == 1 then pieces[0]
    else pieces[0] + [sep] + Join(pieces[1..], sep)
  }

  /**
   * `s.split(sep)` for a one-character separator: the pieces between
   * separators, one more than there are separators.
   */
  function Split(s: string, sep: char): (pieces: seq<string>)
    ensures |pieces| > 0
    decreases |s|
  {
    if sep !in s then [s]
    else
      var i := IndexOf(s, sep);
      [s[..i]] + Split(s[i + 1..], sep)
  }

  /** A split has one more piece than there are separators. */
  lemma {:induction false} SplitCount(s: string, sep: char)
    ensures |Split(s, sep)| == Count(s, sep) + 1
    decreases |s|
  {
    if sep !in s {
      CountAbsent(s, sep);
    } else {
      var i := IndexOf(s, sep);
      CountPastFirst(s, sep);
      SplitStep(s, sep);
      SplitCount(s[i + 1..], sep);
    }
  }

  /** The separators of `s` are its first one and those after it. */
  lemma CountPastFirst(s: string, sep: char)
    requires sep in s
    ensures Count(s, sep) == 1 + Count(s[IndexOf(s, sep) + 1..], sep)
  {
    var i := IndexOf(s, sep);
    var rest := s[i + 1..];
    assert s == s[..i] + ([sep] + rest) && ([sep] + rest)[1..] == rest;
    CountAppend(s[..i], [sep] + rest, sep);
    CountAbsent(s[..i], sep);
  }

  /** How many times `c` occurs in `s`: `s.count(c)`. */
  function Count(s: string, c: char): nat
  {
    if s == [] then 0 else (if s[0] == c then 1 else 0) + Count(s[1..], c)
  }

  lemma {:induction false} CountAppend(a: string, b: string, c: char)
    ensures Count(a + b, c) == Count(a, c) + Count(b, c)
  {
    if a != [] {
      CountAppend(a[1..], b, c);
      assert (a + b)[0] == a[0] && (a + b)[1..] == a[1..] + b;
    } else {
      assert a + b == b;
    }
  }

  lemma {:induction false} CountAbsent(s: string, c: char)
    requires c !in s
    ensures Count(s, c) == 0
  {
    if s != [] {
      CountAbsent(s[1..], c);
    }
  }

  /** No piece of a split holds the separator. */
  lemma {:induction false} SplitPiecesLackSep(s: string, sep: char)
    ensures forall i :: 0 <= i < |Split(s, sep)| ==> sep !in Split(s, sep)[i]
    decreases |s|
  {
    if sep in s {
      var i := IndexOf(s, sep);
      SplitPiecesLackSep(s[i + 1..], sep);
    }
  }

  /** Joining the pieces of a split with the separator gives the string back. */
  lemma {:induction false} JoinSplit(s: string, sep: char)
    ensures Join(Split(s, sep), sep) == s
    decreases |s|
  {
    if sep in s {
      var i := IndexOf(s, sep);
      var rest := Split(s[i + 1..], sep);
      JoinSplit(s[i + 1..], sep);
      assert Split(s, sep) == [s[..i]] + rest;
      assert ([s[..i]] + rest)[1..] == rest;
      assert s == s[..i] + [sep] + s[i + 1..];
    }
  }

  /** A string free of the separator is its own only piece. */
  lemma SplitAbsent(s: string, sep: char)
    requires sep !in s
    ensures Split(s, sep) == [s]
  {
  }

  /** A piece free of the separator, then the separator, splits off first. */
  lemma SplitFirst(a: string, sep: char, rest: string)
    requires sep !in a
    ensures Split(a + [sep] + rest, sep) == [a] + Split(rest, sep)
  {
    var s := a + [sep] + rest;
    assert s[..|a|] == a && s[|a| + 1..] == rest;
    IndexOfUnique(s, sep, |a|);
  }

  /** One step of `split`: the text before the first separator, then the rest. */
  lemma SplitStep(s: string, sep: char)
    requires sep in s
    ensures Split(s, sep) == [s[..IndexOf(s, sep)]] + Split(s[IndexOf(s, sep) + 1..], sep)
  {
  }

  /** `pieces[-1]`. */
  function LastPiece(pieces: seq<string>): string
    requires |pieces| > 0
  {
    pieces[|pieces| - 1]
  }

  lemma LastOfCons(x: string, xs: seq<string>)
    requires |xs| > 0
    ensures LastPiece([x] + xs) == LastPiece(xs)
  {
  }

  /** A separator found in a suffix is found in the whole at the shifted place. */
  lemma LastIndexOfSuffix(s: string, i: nat, c: char)
    requires i < |s| && c in s[i + 1..]
    ensures c in s && LastIndexOf(s, c) == i + 1 + LastIndexOf(s[i + 1..], c)
  {
    var k := LastIndexOf(s[i + 1..], c);
    assert s[i + 1 + k + 1..] == s[i + 1..][k + 1..];
    LastIndexOfUnique(s, c, i + 1 + k);
  }

  /** `s.split(sep)[-1]` is the text after the last separator. */
  lemma {:induction false} SplitLastFollowsLastSep(s: string, sep: char)
    requires sep in s
    ensures LastPiece(Split(s, sep)) == s[LastIndexOf(s, sep) + 1..]
    decreases |s|
  {
    var i := IndexOf(s, sep);
    var rest := s[i + 1..];
    LastOfSplitStep(s, sep);
    if sep in rest {
      SplitLastFollowsLastSep(rest, sep);
      LastIndexOfSuffixTail(s, i, sep);
    } else {
      SplitAbsent(rest, sep);
      LastIndexOfUnique(s, sep, i);
    }
  }

  /** The last piece of a split is the last piece of what follows the first separator. */
  lemma LastOfSplitStep(s: string, sep: char)
    requires sep in s
    ensures LastPiece(Split(s, sep)) == LastPiece(Split(s[IndexOf(s, sep) + 1..], sep))
  {
    var i := IndexOf(s, sep);
    SplitStep(s, sep);
    LastOfCons(s[..i], Split(s[i + 1..], sep));
  }

  /** The text after the last separator, found from a suffix that holds it. */
  lemma LastIndexOfSuffixTail(s: string, i: nat, c: char)
    requires i < |s| && c in s[i + 1..]
    ensures s[LastIndexOf(s, c) + 1..] == s[i + 1..][LastIndexOf(s[i + 1..], c) + 1..]
  {
    var k := LastIndexOf(s[i + 1..], c);
    LastIndexOfSuffix(s, i, c);
    assert s[i + 1 + k + 1..] == s[i + 1..][k + 1..];
  }

  /**
   * `s.rsplit(sep, 1)[0]`: everything before the last separator, or the
   * whole of `s` when it holds none.
   */
  function BeforeLast(s: string, sep: char): (head: string)
    ensures sep !in s ==> head == s
    ensures sep in s ==>
      |head| < |s| && s == head + [sep] + s[|head| + 1..] && sep !in s[|head| + 1..]
  {
    if sep in s then
      var i := LastIndexOf(s, sep);
      assert s == s[..i] + [sep] + s[i + 1..];
      s[..i]
    else s
  }

  /** `str.lower` on one code point; only ASCII letters are mapped. */
  function LowerChar(c: char): char
  {
    if 'A' <= c <= 'Z' then (c as int - 'A' as int + 'a' as int) as char else c
  }

  /** `str.lower`, code point by code point (ASCII case mapping). */
  function Lower(s: string): (r: string)
    ensures |r| == |s|
  {
    seq(|s|, i requires 0 <= i < |s| => LowerChar(s[i]))
  }

  /**
   * What `lower` does to each code point: an ASCII capital becomes its
   * small letter, 32 code points on; every other code point is kept; so no
   * capital is left.
   */
  lemma LowerMeaning(s: string)
    ensures forall i :: 0 <= i < |s| ==> !('A' <= Lower(s)[i] <= 'Z')
    ensures forall i :: 0 <= i < |s| && !('A' <= s[i] <= 'Z') ==> Lower(s)[i] == s[i]
    ensures forall i :: 0 <= i < |s| && 'A' <= s[i] <= 'Z' ==>
      'a' <= Lower(s)[i] <= 'z' && Lower(s)[i] as int - s[i] as int == 32
  {
  }

  /** Lower-casing twice is lower-casing once. */
  lemma LowerIdempotent(s: string)
    ensures Lower(Lower(s)) == Lower(s)
  {
    LowerMeaning(s);
  }

  lemma LowerAppend(a: string, b: string)
    ensures Lower(a + b) == Lower(a) + Lower(b)
  {
  }

  /** The code points `str.isspace` accepts, hence those `str.strip` removes. */
  predicate IsSpace(c: char)
  {
    c == ' ' || '\t' <= c <= '\r' || '\U{1C}' <= c <= '\U{1F}'
    || c == '\U{85}' || c == '\U{A0}' || c == '\U{1680}'
    || '\U{2000}' <= c <= '\U{200A}' || c == '\U{2028}' || c == '\U{2029}'
    || c == '\U{202F}' || c == '\U{205F}' || c == '\U{3000}'
  }

  predicate AllSpace(s: string)
  {
    forall i :: 0 <= i < |s| ==> IsSpace(s[i])
  }

  /** How many white-space code points `s` starts with. */
  function LeadingSpace(s: string): (n: nat)
    ensures n <= |s|
    ensures AllSpace(s[..n])
    ensures n < |s| ==> !IsSpace(s[n])
  {
    if s != [] && IsSpace(s[0]) then
      LeadingSpace(s[1..]) + 1
    else 0
  }

  /** How many white-space code points `s` ends with. */
  function TrailingSpace(s: string): (n: nat)
    ensures n <= |s|
    ensures AllSpace(s[|s| - n..])
    ensures n < |s| ==> !IsSpace(s[|s| - n - 1])
  {
    if s != [] && IsSpace(s[|s| - 1]) then
      TrailingSpace(s[..|s| - 1]) + 1
    else 0
  }

  /**
   * `str.strip()`: `s` without the white space at either end; what is left
   * neither starts nor ends with white space.
   */
  function Strip(s: string): (r: string)
    ensures |r| <= |s|
    ensures r == [] || (!IsSpace(r[0]) && !IsSpace(r[|r| - 1]))
  {
    var t := s[LeadingSpace(s)..];
    t[..|t| - TrailingSpace(t)]
  }

  /** A string with no white space at either end is left alone by `strip`. */
  lemma StripTrimmed(s: string)
    requires s == [] || (!IsSpace(s[0]) && !IsSpace(s[|s| - 1]))
    ensures Strip(s) == s
  {
  }

  /** White space in front of a non-space is exactly what LeadingSpace counts. */
  lemma {:induction false} LeadingSpaceOf(pre: string, rest: string)
    requires AllSpace(pre) && rest != [] && !IsSpace(rest[0])
    ensures LeadingSpace(pre + rest) == |pre|
  {
    if pre != [] {
      assert (pre + rest)[1..] == pre[1..] + rest;
      LeadingSpaceOf(pre[1..], rest);
    }
  }

  /** White space after a non-space is exactly what TrailingSpace counts. */
  lemma {:induction false} TrailingSpaceOf(rest: string, post: string)
    requires AllSpace(post) && rest != [] && !IsSpace(rest[|rest| - 1])
    ensures TrailingSpace(rest + post) == |post|
  {
    if post != [] {
      assert (rest + post)[..|rest + post| - 1] == rest + post[..|post| - 1];
      TrailingSpaceOf(rest, post[..|post| - 1]);
    }
  }

  /** `strip` removes white space padding and nothing else. */
  lemma StripPadded(pre: string, s: string, post: string)
    requires AllSpace(pre) && AllSpace(post)
    requires s != [] && !IsSpace(s[0]) && !IsSpace(s[|s| - 1])
    ensures Strip(pre + s + post) == s
  {
    var whole := pre + s + post;
    assert whole == pre + (s + post);
    LeadingSpaceOf(pre, s + post);
    var t := whole[|pre|..];
    assert t == s + post;
    TrailingSpaceOf(s, post);
    assert t[..|t| - |post|] == s;
  }

  /** A string of white space only is wholly counted as leading white space. */
  lemma {:induction false} LeadingSpaceAll(s: string)
    requires AllSpace(s)
    ensures LeadingSpace(s) == |s|
  {
    if s != [] {
      LeadingSpaceAll(s[1..]);
    }
  }

  /** `strip` turns a piece of white space only into the empty string. */
  lemma StripAllSpace(s: string)
    requires AllSpace(s)
    ensures Strip(s) == ""
  {
    LeadingSpaceAll(s);
  }
}
