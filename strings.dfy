/**
 * The string operations the validation core relies on, with JavaScript's
 * meaning: `indexOf` and `lastIndexOf` for one character, `split` on one
 * character, and `toLowerCase` restricted to ASCII letters.
 */
module Strings {

  /** Position of the first `c` in `s`, or `|s|` when there is none. */
  function IndexOf(s: string, c: char): (r: nat)
    ensures r <= |s|
    ensures r < |s| ==> s[r] == c
    ensures forall j :: 0 <= j < r ==> s[j] != c
  {
    if s == [] then 0
    else if s[0] == c then 0
    else 1 + IndexOf(s[1..], c)
  }

  /** Position of the last `c` in `s`, or `|s|` when there is none. */
  function LastIndexOf(s: string, c: char): (r: nat)
    ensures r <= |s|
    ensures r < |s| ==> s[r] == c && forall j :: r < j < |s| ==> s[j] != c
    ensures r == |s| ==> c !in s
  {
    if s == [] then 0
    else if s[|s| - 1] == c then |s| - 1
    else
      var k := LastIndexOf(s[..|s| - 1], c);
      if k == |s| - 1 then |s| else k
  }

  /** The parts joined back together with `c` between consecutive parts. */
  function JoinWith(parts: seq<string>, c: char): string
    requires |parts| >= 1
  {
    if |parts| == 1 then parts[0] else parts[0] + [c] + JoinWith(parts[1..], c)
  }

  /**
   * `s.split(c)`: the maximal pieces of `s` that do not contain `c`, in order.
   * As in JavaScript there is always at least one part ("".split(c) is [""]).
   */
  function SplitOn(s: string, c: char): (parts: seq<string>)
    ensures |parts| >= 1
    ensures forall k :: 0 <= k < |parts| ==> c !in parts[k]
    ensures JoinWith(parts, c) == s
    decreases |s|
  {
    var i := IndexOf(s, c);
    if i == |s| then [s] else [s[..i]] + SplitOn(s[i + 1..], c)
  }

  /** The first part of a split is everything before the first separator. */
  lemma SplitFirstPart(s: string, c: char)
    ensures SplitOn(s, c)[0] == s[..IndexOf(s, c)]
    ensures |SplitOn(s, c)| == 1 <==> c !in s
  {
    var i := IndexOf(s, c);
    if i == |s| {
      assert s[..i] == s;
    } else {
      assert s[i] == c;
    }
  }

  /** Splitting undoes joining pieces that do not contain the separator. */
  lemma {:induction false} SplitJoin(parts: seq<string>, c: char)
    requires |parts| >= 1
    requires forall k :: 0 <= k < |parts| ==> c !in parts[k]
    ensures SplitOn(JoinWith(parts, c), c) == parts
    decreases |parts|
  {
    var s := JoinWith(parts, c);
    var p := parts[0];
    IndexOfAbsent(p, c);
    if |parts| == 1 {
      assert s == p;
    } else {
      var rest := JoinWith(parts[1..], c);
      assert s == p + [c] + rest;
      assert s == p + ([c] + rest);
      IndexOfAfterPrefix(p, c, [c] + rest);
      assert IndexOf(s, c) == |p|;
      assert s[..|p|] == p;
      assert s[|p| + 1..] == rest;
      SplitJoin(parts[1..], c);
      assert parts == [p] + parts[1..];
    }
  }

  /** A string that does not contain `c` has its `IndexOf` at the end. */
  lemma IndexOfAbsent(s: string, c: char)
    requires c !in s
    ensures IndexOf(s, c) == |s|
  {
  }

  /** A `c` with no `c` before it is the one `IndexOf` finds. */
  lemma IndexOfFirst(s: string, c: char, i: nat)
    requires i < |s| && s[i] == c
    requires forall j :: 0 <= j < i ==> s[j] != c
    ensures IndexOf(s, c) == i
  {
  }

  /** A `c` with no `c` after it is the one `LastIndexOf` finds. */
  lemma LastIndexOfLast(s: string, c: char, i: nat)
    requires i < |s| && s[i] == c
    requires forall j :: i < j < |s| ==> s[j] != c
    ensures LastIndexOf(s, c) == i
  {
  }

  /** The first `c` of `p + [c] + q` is just after `p` when `p` has none. */
  lemma IndexOfAfterPrefix(p: string, c: char, q: string)
    requires c !in p
    requires |q| > 0 && q[0] == c
    ensures IndexOf(p + q, c) == |p|
  {
    var s := p + q;
    assert s[|p|] == c;
    assert forall j :: 0 <= j < |p| ==> s[j] == p[j];
  }

  /** JavaScript's `message || fallback` on strings: the empty string is falsy. */
  function OrElse(message: string, fallback: string): (r: string)
    ensures message != "" ==> r == message
    ensures message == "" ==> r == fallback
    ensures r == "" <==> message == "" && fallback == ""
  {
    if message != "" then message else fallback
  }

  /** `[A-Za-z]` */
  predicate IsAsciiLetter(c: char)
  {
    IsUpper(c) || IsLower(c)
  }

  /** `[A-Z]` */
  predicate IsUpper(c: char)
  {
    'A' <= c <= 'Z'
  }

  /** `[a-z]` */
  predicate IsLower(c: char)
  {
    'a' <= c <= 'z'
  }

  /** `[0-9]` */
  predicate IsDigit(c: char)
  {
    '0' <= c <= '9'
  }

  /** The characters JavaScript's `.` does not match (no `s` flag). */
  predicate IsLineTerminator(c: char)
  {
    c == '\n' || c == '\r' || c == '\U{2028}' || c == '\U{2029}'
  }

  /** JavaScript's `toLowerCase` on one character, for ASCII. */
  function LowerChar(c: char): (d: char)
    ensures !IsUpper(d)
    ensures IsUpper(c) ==> IsLower(d) && d as int == c as int + 32
    ensures !IsUpper(c) ==> d == c
  {
    if IsUpper(c) then (c as int + 32) as char else c
  }

  /** JavaScript's `toLowerCase`, for ASCII: character by character. */
  function Lower(s: string): (r: string)
    ensures |r| == |s|
    ensures forall i :: 0 <= i < |s| ==> r[i] == LowerChar(s[i])
  {
    seq(|s|, i requires 0 <= i < |s| => LowerChar(s[i]))
  }

  /** Lowering twice is lowering once. */
  lemma LowerIdempotent(s: string)
    ensures Lower(Lower(s)) == Lower(s)
  {
    var once := Lower(s);
    var twice := Lower(once);
    assert forall i :: 0 <= i < |s| ==> twice[i] == once[i];
  }

  /** Lowering a concatenation lowers each side. */
  lemma LowerConcat(a: string, b: string)
    ensures Lower(a + b) == Lower(a) + Lower(b)
  {
    var l, r := Lower(a + b), Lower(a) + Lower(b);
    forall j | 0 <= j < |a + b| ensures l[j] == r[j] {
      if j < |a| {
        assert (a + b)[j] == a[j];
      } else {
        assert (a + b)[j] == b[j - |a|];
      }
    }
  }

  /** Each part lowered. */
  function LowerAll(parts: seq<string>): (r: seq<string>)
    ensures |r| == |parts|
    ensures forall k :: 0 <= k < |parts| ==> r[k] == Lower(parts[k])
  {
    if parts == [] then [] else [Lower(parts[0])] + LowerAll(parts[1..])
  }

  /** Lowering a join lowers each part and keeps a non-letter separator. */
  lemma {:induction false} LowerJoin(parts: seq<string>, c: char)
    requires |parts| >= 1
    requires !IsAsciiLetter(c)
    ensures Lower(JoinWith(parts, c)) == JoinWith(LowerAll(parts), c)
    decreases |parts|
  {
    if |parts| > 1 {
      var rest := JoinWith(parts[1..], c);
      LowerConcat(parts[0] + [c], rest);
      LowerConcat(parts[0], [c]);
      assert Lower([c]) == [c];
      LowerJoin(parts[1..], c);
      assert LowerAll(parts)[1..] == LowerAll(parts[1..]);
    }
  }

  /** Lowering commutes with splitting on a character that is not a letter. */
  lemma LowerSplit(s: string, c: char)
    requires !IsAsciiLetter(c)
    ensures SplitOn(Lower(s), c) == LowerAll(SplitOn(s, c))
  {
    var parts := SplitOn(s, c);
    LowerJoin(parts, c);
    var lowered := LowerAll(parts);
    forall k | 0 <= k < |lowered| ensures c !in lowered[k] {
      assert forall i :: 0 <= i < |parts[k]| ==> lowered[k][i] == LowerChar(parts[k][i]);
    }
    SplitJoin(lowered, c);
  }

  /** Lowering a slice is slicing the lowered string. */
  lemma LowerSlice(s: string, a: nat, b: nat)
    requires a <= b <= |s|
    ensures Lower(s[a..b]) == Lower(s)[a..b]
  {
    var l, r := Lower(s[a..b]), Lower(s)[a..b];
    forall j | 0 <= j < |l| ensures l[j] == r[j] {
      assert s[a..b][j] == s[a + j];
    }
  }

  lemma LowerPrefix(s: string, n: nat)
    requires n <= |s|
    ensures Lower(s[..n]) == Lower(s)[..n]
  {
    var l, r := Lower(s[..n]), Lower(s)[..n];
    forall j | 0 <= j < n ensures l[j] == r[j] {
      assert s[..n][j] == s[j];
    }
  }

  lemma LowerSuffix(s: string, n: nat)
    requires n <= |s|
    ensures Lower(s[n..]) == Lower(s)[n..]
  {
    var l, r := Lower(s[n..]), Lower(s)[n..];
    forall j | 0 <= j < |s| - n ensures l[j] == r[j] {
      assert s[n..][j] == s[n + j];
    }
  }

  /** Lowering moves no non-letter. */
  lemma LowerIndexOf(s: string, c: char)
    requires !IsAsciiLetter(c)
    ensures IndexOf(Lower(s), c) == IndexOf(s, c)
    ensures LastIndexOf(Lower(s), c) == LastIndexOf(s, c)
  {
    var t := Lower(s);
    assert forall j :: 0 <= j < |s| ==> (t[j] == c <==> s[j] == c);
  }
}
