/** The string operations of Python the scripts rely on: `strip()`, `in` on
    strings, `split`, `startswith`/`endswith`, `str(int)` and the code-point
    order that `sorted` uses. Strings are sequences of Unicode scalar values. */
module Text {

  /** Python's `str.isspace()` for one character: the characters `strip()`
      with no argument removes. */
  predicate IsSpace(c: char)
  {
    var n := c as int;
    (9 <= n <= 13) || (0x1c <= n <= 0x20) || n == 0x85 || n == 0xa0 || n == 0x1680
    || (0x2000 <= n <= 0x200a) || n == 0x2028 || n == 0x2029 || n == 0x202f
    || n == 0x205f || n == 0x3000
  }

  /** How many whitespace characters `s` starts with. */
  function LeadingSpaces(s: string): (n: nat)
    ensures n <= |s|
    ensures forall i :: 0 <= i < n ==> IsSpace(s[i])
    ensures n < |s| ==> !IsSpace(s[n])
  {
    if s != [] && IsSpace(s[0]) then 1 + LeadingSpaces(s[1..]) else 0
  }

  /** How many whitespace characters `s` ends with. */
  function TrailingSpaces(s: string): (n: nat)
    ensures n <= |s|
    ensures forall i :: |s| - n <= i < |s| ==> IsSpace(s[i])
    ensures n < |s| ==> !IsSpace(s[|s| - n - 1])
  {
    if s != [] && IsSpace(s[|s| - 1]) then 1 + TrailingSpaces(s[..|s| - 1]) else 0
  }

  /** `s.lstrip()`. */
  function TrimStart(s: string): string
  {
    if s != [] && IsSpace(s[0]) then TrimStart(s[1..]) else s
  }

  /** `s.rstrip()`. */
  function TrimEnd(s: string): string
  {
    if s != [] && IsSpace(s[|s| - 1]) then TrimEnd(s[..|s| - 1]) else s
  }

  /** `s.strip()`. */
  function Strip(s: string): string
  {
    TrimEnd(TrimStart(s))
  }

  lemma {:induction false} TrimStartDrops(s: string)
    ensures TrimStart(s) == s[LeadingSpaces(s)..]
  {
    if s != [] && IsSpace(s[0]) {
      TrimStartDrops(s[1..]);
    }
  }

  lemma {:induction false} TrimEndDrops(s: string)
    ensures TrimEnd(s) == s[..|s| - TrailingSpaces(s)]
  {
    if s != [] && IsSpace(s[|s| - 1]) {
      TrimEndDrops(s[..|s| - 1]);
    }
  }

  /** `r` is `s` with the whitespace run `s[..lo]` before it and only
      whitespace after it. */
  ghost predicate StrippedAt(s: string, lo: int, r: string)
  {
    0 <= lo && lo + |r| <= |s| && r == s[lo..lo + |r|]
    && (forall j :: 0 <= j < lo ==> IsSpace(s[j]))
    && (forall j :: lo + |r| <= j < |s| ==> IsSpace(s[j]))
  }

  lemma StripIsSlice(s: string)
    ensures Strip(s) == s[LeadingSpaces(s)..][..|s| - LeadingSpaces(s) - TrailingSpaces(s[LeadingSpaces(s)..])]
  {
    TrimStartDrops(s);
    TrimEndDrops(s[LeadingSpaces(s)..]);
  }

  /** What `strip()` leaves: a run of `s` with only whitespace around it and
      no whitespace at either of its ends. */
  lemma StripSpec(s: string)
    ensures Strip(s) == [] || (!IsSpace(Strip(s)[0]) && !IsSpace(Strip(s)[|Strip(s)| - 1]))
    ensures exists lo :: StrippedAt(s, lo, Strip(s))
  {
    StripEnds(s);
    StripRun(s);
  }

  lemma StripEnds(s: string)
    ensures Strip(s) == [] || (!IsSpace(Strip(s)[0]) && !IsSpace(Strip(s)[|Strip(s)| - 1]))
  {
    var lo := LeadingSpaces(s);
    var t := s[lo..];
    var n := TrailingSpaces(t);
    StripIsSlice(s);
    var r := Strip(s);
    assert r == t[..|t| - n];
    if r != [] {
      assert r[0] == t[0];
      assert r[|r| - 1] == t[|t| - n - 1];
    }
  }

  lemma StripRun(s: string)
    ensures StrippedAt(s, LeadingSpaces(s), Strip(s))
  {
    var lo := LeadingSpaces(s);
    var t := s[lo..];
    var n := TrailingSpaces(t);
    StripIsSlice(s);
    var r := Strip(s);
    assert r == s[lo..|s| - n];
    assert lo + |r| == |s| - n;
    SpacesAfter(s, lo);
  }

  /** The trailing whitespace of `s[lo..]` is whitespace of `s`. */
  lemma SpacesAfter(s: string, lo: nat)
    requires lo <= |s|
    ensures forall j :: |s| - TrailingSpaces(s[lo..]) <= j < |s| ==> IsSpace(s[j])
  {
    var t := s[lo..];
    forall j | |s| - TrailingSpaces(t) <= j < |s| ensures IsSpace(s[j]) {
      assert s[j] == t[j - lo];
    }
  }

  /** `s.startswith(p)` and `s.endswith(p)`. */
  predicate StartsWith(s: string, p: string) { p <= s }

  predicate EndsWith(s: string, p: string)
  {
    |p| <= |s| && s[|s| - |p|..] == p
  }

  /** `p` occurs in `s` at position `i`. */
  predicate OccursAt(p: string, s: string, i: int)
  {
    0 <= i && i + |p| <= |s| && s[i..i + |p|] == p
  }

  /** Python's `p in s` for strings, by scanning `s` from the left. */
  function ContainsSubstring(s: string, p: string): bool
    decreases |s|
  {
    if |p| > |s| then false
    else if p <= s then true
    else ContainsSubstring(s[1..], p)
  }

  /** The scan finds `p` exactly when `p` occurs somewhere in `s`. */
  lemma {:induction false} ContainsSubstringSpec(s: string, p: string)
    ensures ContainsSubstring(s, p) <==> exists i :: OccursAt(p, s, i)
    decreases |s|
  {
    if |p| > |s| {
    } else if p <= s {
      assert OccursAt(p, s, 0);
    } else {
      OccursLater(p, s);
      ContainsSubstringSpec(s[1..], p);
    }
  }

  /** When `p` is not a prefix of `s`, its occurrences in `s` are those in
      `s[1..]`, one position further on. */
  lemma OccursLater(p: string, s: string)
    requires |p| <= |s| && !(p <= s)
    ensures (exists i :: OccursAt(p, s, i)) <==> (exists i :: OccursAt(p, s[1..], i))
  {
    if i :| OccursAt(p, s, i) {
      assert i != 0 by { assert s[..|p|] != p; }
      assert s[1..][i - 1..i - 1 + |p|] == s[i..i + |p|];
      assert OccursAt(p, s[1..], i - 1);
    }
    if i :| OccursAt(p, s[1..], i) {
      assert s[1..][i..i + |p|] == s[i + 1..i + 1 + |p|];
      assert OccursAt(p, s, i + 1);
    }
  }

  /** The text before the first `c`, i.e. `s.split(c)[0]`. */
  function BeforeFirst(s: string, c: char): (r: string)
    ensures r <= s
    ensures c !in r
    ensures |r| < |s| ==> s[|r|] == c
  {
    if s == [] || s[0] == c then [] else [s[0]] + BeforeFirst(s[1..], c)
  }

  /** `s.split(c)` for a one-character separator: the pieces between the
      separators, as many as there are separators plus one. */
  function Split(s: string, c: char): (pieces: seq<string>)
    ensures |pieces| >= 1
    ensures forall k :: 0 <= k < |pieces| ==> c !in pieces[k]
    ensures pieces[0] == BeforeFirst(s, c)
    decreases |s|
  {
    var head := BeforeFirst(s, c);
    if |head| == |s| then [s] else [head] + Split(s[|head| + 1..], c)
  }

  /** `c.join(pieces)`. */
  function Join(pieces: seq<string>, c: char): string
    requires |pieces| >= 1
  {
    if |pieces| == 1 then pieces[0] else pieces[0] + [c] + Join(pieces[1..], c)
  }

  lemma SplitStep(s: string, c: char)
    requires |BeforeFirst(s, c)| < |s|
    ensures Split(s, c) == [BeforeFirst(s, c)] + Split(s[|BeforeFirst(s, c)| + 1..], c)
  {
  }

  lemma JoinCons(head: string, pieces: seq<string>, c: char)
    requires |pieces| >= 1
    ensures Join([head] + pieces, c) == head + [c] + Join(pieces, c)
  {
    assert ([head] + pieces)[1..] == pieces;
  }

  /** Splitting and joining again gives back the text. */
  lemma {:induction false} JoinSplit(s: string, c: char)
    ensures Join(Split(s, c), c) == s
    decreases |s|
  {
    var head := BeforeFirst(s, c);
    if |head| < |s| {
      var rest := s[|head| + 1..];
      SplitStep(s, c);
      JoinSplit(rest, c);
      JoinCons(head, Split(rest, c), c);
      assert s[..|head|] == head && s[|head|] == c;
      assert s == head + [c] + rest;
    }
  }

  /** Joining pieces that do not contain the separator and splitting again
      gives back the pieces. */
  lemma {:induction false} SplitJoin(pieces: seq<string>, c: char)
    requires |pieces| >= 1
    requires forall k :: 0 <= k < |pieces| ==> c !in pieces[k]
    ensures Split(Join(pieces, c), c) == pieces
    decreases |pieces|
  {
    var s := Join(pieces, c);
    if |pieces| == 1 {
      BeforeFirstWithout(s, c);
    } else {
      var rest := Join(pieces[1..], c);
      SplitJoin(pieces[1..], c);
      BeforeFirstOfConcat(pieces[0], rest, c);
      assert s[|pieces[0]| + 1..] == rest;
    }
  }

  lemma BeforeFirstWithout(s: string, c: char)
    requires c !in s
    ensures BeforeFirst(s, c) == s
  {
    assert forall k :: 0 <= k < |s| ==> s[k] != c;
  }

  lemma BeforeFirstOfConcat(a: string, b: string, c: char)
    requires c !in a
    ensures BeforeFirst(a + [c] + b, c) == a
  {
    var s := a + [c] + b;
    var r := BeforeFirst(s, c);
    assert s[|a|] == c;
    assert forall k :: 0 <= k < |a| ==> s[k] == a[k] && s[k] != c;
    assert forall k :: 0 <= k < |r| ==> s[k] == r[k] && s[k] != c;
    assert r == s[..|r|] == a;
  }

  /** The decimal digits of a natural number, as `str(n)` writes them. */
  function NatToString(n: nat): (r: string)
    ensures |r| >= 1
    ensures forall k :: 0 <= k < |r| ==> '0' <= r[k] <= '9'
    ensures |r| > 1 ==> r[0] != '0'
  {
    var d := ['0' + (n % 10) as char];
    if n < 10 then d else NatToString(n / 10) + d
  }

  /** `str(i)` for an int. */
  function IntToString(i: int): string
  {
    if i < 0 then "-" + NatToString(-i) else NatToString(i)
  }

  /** The number a string of decimal digits denotes. */
  function DigitsValue(s: string): nat
    requires forall k :: 0 <= k < |s| ==> '0' <= s[k] <= '9'
  {
    if s == [] then 0 else 10 * DigitsValue(s[..|s| - 1]) + (s[|s| - 1] - '0') as int
  }

  /** `str(n)` is read back as `n`. */
  lemma {:induction false} NatToStringValue(n: nat)
    ensures DigitsValue(NatToString(n)) == n
  {
    var r := NatToString(n);
    if n >= 10 {
      NatToStringValue(n / 10);
      assert r[..|r| - 1] == NatToString(n / 10);
    }
  }

  /** Python's `a <= b` for strings: code point by code point, a proper
      prefix first. */
  predicate LessEq(a: string, b: string)
  {
    a == [] || (b != [] && (a[0] < b[0] || (a[0] == b[0] && LessEq(a[1..], b[1..]))))
  }

  lemma {:induction false} LessEqTotal(a: string, b: string)
    ensures LessEq(a, b) || LessEq(b, a)
  {
    if a != [] && b != [] && a[0] == b[0] { LessEqTotal(a[1..], b[1..]); }
  }

  lemma {:induction false} LessEqAntisymmetric(a: string, b: string)
    requires LessEq(a, b) && LessEq(b, a)
    ensures a == b
  {
    if a != [] && b != [] {
      LessEqAntisymmetric(a[1..], b[1..]);
      assert a == [a[0]] + a[1..] && b == [b[0]] + b[1..];
    }
  }

  lemma {:induction false} LessEqTransitive(a: string, b: string, c: string)
    requires LessEq(a, b) && LessEq(b, c)
    ensures LessEq(a, c)
  {
    if a != [] && b != [] && c != [] && a[0] == b[0] == c[0] {
      LessEqTransitive(a[1..], b[1..], c[1..]);
    }
  }

  predicate Sorted(xs: seq<string>)
  {
    forall i, j :: 0 <= i < j < |xs| ==> LessEq(xs[i], xs[j])
  }

  /** A string no greater than the head of a sorted list can go in front. */
  lemma ConsSorted(h: string, xs: seq<string>)
    requires Sorted(xs) && (xs == [] || LessEq(h, xs[0]))
    ensures Sorted([h] + xs)
  {
    var r := [h] + xs;
    forall i, j | 0 <= i < j < |r| ensures LessEq(r[i], r[j]) {
      if i == 0 && j > 1 {
        LessEqTransitive(h, xs[0], xs[j - 1]);
      }
    }
  }

  /** Inserting `x` into a sorted list. */
  function Insert(x: string, xs: seq<string>): (r: seq<string>)
    requires Sorted(xs)
    ensures Sorted(r) && multiset(r) == multiset(xs) + multiset{x}
  {
    if xs == [] || LessEq(x, xs[0]) then
      ConsSorted(x, xs);
      assert multiset([x] + xs) == multiset{x} + multiset(xs);
      [x] + xs
    else
      LessEqTotal(x, xs[0]);
      var rest := Insert(x, xs[1..]);
      assert xs == [xs[0]] + xs[1..];
      assert LessEq(xs[0], rest[0]) by {
        assert rest[0] in multiset(rest);
        if rest[0] != x {
          assert rest[0] in multiset(xs[1..]);
          var j :| 0 <= j < |xs[1..]| && xs[1..][j] == rest[0];
          assert xs[j + 1] == rest[0];
        }
      }
      ConsSorted(xs[0], rest);
      [xs[0]] + rest
  }

  /** `sorted(xs)`: the same strings in ascending order. */
  function SortStrings(xs: seq<string>): (r: seq<string>)
    ensures Sorted(r) && multiset(r) == multiset(xs)
  {
    if xs == [] then []
    else
      assert xs == [xs[0]] + xs[1..];
      Insert(xs[0], SortStrings(xs[1..]))
  }

  /** A sorted arrangement of a multiset of strings is unique, so any correct
      sort (Python's included) returns exactly `SortStrings(xs)`. */
  lemma {:induction false} SortedUnique(a: seq<string>, b: seq<string>)
    requires Sorted(a) && Sorted(b) && multiset(a) == multiset(b)
    ensures a == b
    decreases |a|
  {
    if a != [] {
      assert |b| == |multiset(b)| == |a|;
      SameSmallest(a, b);
      assert a == [a[0]] + a[1..] && b == [b[0]] + b[1..];
      assert multiset(a[1..]) == multiset(a) - multiset{a[0]};
      assert multiset(b[1..]) == multiset(b) - multiset{b[0]};
      SortedTail(a);
      SortedTail(b);
      SortedUnique(a[1..], b[1..]);
    }
  }

  lemma SortedTail(a: seq<string>)
    requires Sorted(a) && a != []
    ensures Sorted(a[1..])
  {
    forall i, j | 0 <= i < j < |a| - 1 ensures LessEq(a[1..][i], a[1..][j]) {
      assert a[1..][i] == a[i + 1] && a[1..][j] == a[j + 1];
    }
  }

  lemma SameSmallest(a: seq<string>, b: seq<string>)
    requires Sorted(a) && Sorted(b) && multiset(a) == multiset(b) && a != [] && b != []
    ensures a[0] == b[0]
  {
    assert a[0] in multiset(b) && b[0] in multiset(a);
    var i :| 0 <= i < |b| && b[i] == a[0];
    var j :| 0 <= j < |a| && a[j] == b[0];
    if i > 0 && j > 0 {
      assert LessEq(b[0], b[i]) && LessEq(a[0], a[j]);
      LessEqAntisymmetric(a[0], b[0]);
    }
  }
}
