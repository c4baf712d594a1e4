/**
 * The string operations the store relies on: `str.lower()` (ASCII letters),
 * the substring test `q in s`, and Python's ordering of strings, which
 * `sorted` uses: lexicographic by code point, a proper prefix first.
 */
module Strings {

  /** `c.lower()` for the ASCII letters; every other character is its own lower case. */
  function LowerChar(c: char): char {
    if 'A' <= c <= 'Z' then (c as int + 32) as char else c
  }

  /** `s.lower()`, character by character. */
  function Lower(s: string): (r: string)
    ensures |r| == |s|
    ensures forall i :: 0 <= i < |s| ==> r[i] == LowerChar(s[i])
  {
    if s == [] then [] else [LowerChar(s[0])] + Lower(s[1..])
  }

  /** `q` occurs in `s` at offset `k`. */
  ghost predicate OccursAt(q: string, s: string, k: int) {
    0 <= k <= |s| - |q| && s[k..k + |q|] == q
  }

  /** `q` occurs in `s` at some offset. */
  ghost predicate Occurs(q: string, s: string) {
    exists k :: OccursAt(q, s, k)
  }

  /** Python's `q in s` on strings: a scan over the possible offsets. */
  function Contains(s: string, q: string): (b: bool)
    ensures b <==> Occurs(q, s)
    decreases |s|
  {
    if |q| > |s| then false
    else if s[..|q|] == q then (assert OccursAt(q, s, 0); true)
    else
      var rest := Contains(s[1..], q);
      assert rest ==> Occurs(q, s) by {
        if rest {
          var k :| OccursAt(q, s[1..], k);
          assert s[k + 1..k + 1 + |q|] == q;
          assert OccursAt(q, s, k + 1);
        }
      }
      assert Occurs(q, s) ==> rest by {
        if Occurs(q, s) {
          var k :| OccursAt(q, s, k);
          assert k != 0;
          assert s[1..][k - 1..k - 1 + |q|] == q;
          assert OccursAt(q, s[1..], k - 1);
        }
      }
      rest
  }

  /** The empty string occurs in every string, so `"" in s` always holds. */
  lemma EmptyContained(s: string)
    ensures Contains(s, "")
  {
    assert OccursAt("", s, 0);
  }

  /** Python's `a < b` on strings. */
  predicate Less(a: string, b: string)
    decreases |a|
  {
    if a == [] then b != []
    else if b == [] then false
    else if a[0] != b[0] then a[0] < b[0]
    else Less(a[1..], b[1..])
  }

  lemma {:induction false} LessIrreflexive(a: string)
    ensures !Less(a, a)
    decreases |a|
  {
    if a != [] { LessIrreflexive(a[1..]); }
  }

  lemma {:induction false} LessTransitive(a: string, b: string, c: string)
    requires Less(a, b) && Less(b, c)
    ensures Less(a, c)
    decreases |a|
  {
    if a != [] && a[0] == b[0] && b[0] == c[0] {
      LessTransitive(a[1..], b[1..], c[1..]);
    }
  }

  /** Any two different strings are ordered one way or the other. */
  lemma {:induction false} LessTotal(a: string, b: string)
    requires a != b
    ensures Less(a, b) || Less(b, a)
    decreases |a|
  {
    if a != [] && b != [] && a[0] == b[0] {
      assert a == [a[0]] + a[1..] && b == [b[0]] + b[1..];
      LessTotal(a[1..], b[1..]);
    }
  }

  lemma LessAsymmetric(a: string, b: string)
    requires Less(a, b)
    ensures !Less(b, a)
  {
    if Less(b, a) {
      LessTransitive(a, b, a);
      LessIrreflexive(a);
    }
  }

  /** Strictly ascending: sorted and free of duplicates. */
  predicate StrictlyAscending(s: seq<string>) {
    forall i, j :: 0 <= i < j < |s| ==> Less(s[i], s[j])
  }

  /** Insertion of `x` into a strictly ascending list, keeping a single copy of it. */
  function Insert(s: seq<string>, x: string): (r: seq<string>)
    requires StrictlyAscending(s)
    ensures StrictlyAscending(r)
    ensures forall y :: y in r <==> y in s || y == x
  {
    if s == [] then [x]
    else if x == s[0] then s
    else if Less(x, s[0]) then
      assert forall j :: 0 < j < |s| ==> Less(x, s[j]) by {
        forall j | 0 < j < |s| ensures Less(x, s[j]) { LessTransitive(x, s[0], s[j]); }
      }
      [x] + s
    else
      LessTotal(x, s[0]);
      var tail := Insert(s[1..], x);
      assert forall y :: y in s[1..] ==> Less(s[0], y);
      [s[0]] + tail
  }

  /** The sorted list of a set of strings, built by insertion. */
  method SortedList(cats: set<string>) returns (r: seq<string>)
    ensures StrictlyAscending(r)
    ensures forall y :: y in r <==> y in cats
  {
    r := [];
    var rest := cats;
    while rest != {}
      invariant StrictlyAscending(r)
      invariant forall y :: y in r || y in rest <==> y in cats
      decreases rest
    {
      var x :| x in rest;
      r := Insert(r, x);
      rest := rest - {x};
    }
  }

  /** A non-empty list holds its first element. */
  lemma HeadIsMember(s: seq<string>)
    ensures s != [] ==> s[0] in s
  {
  }

  /** A strictly ascending list is determined by its elements, so `sorted` has one answer. */
  lemma {:induction false} AscendingUnique(a: seq<string>, b: seq<string>)
    requires StrictlyAscending(a) && StrictlyAscending(b)
    requires forall y :: y in a <==> y in b
    ensures a == b
    decreases |a|
  {
    if a == [] {
      HeadIsMember(b);
    } else {
      assert a[0] in b;
      assert b != [];
      if a[0] != b[0] {
        assert b[0] in a;
        var i :| 0 <= i < |b| && b[i] == a[0];
        var j :| 0 <= j < |a| && a[j] == b[0];
        assert Less(b[0], a[0]);
        assert Less(a[0], b[0]);
        LessAsymmetric(a[0], b[0]);
      }
      LessIrreflexive(a[0]);
      forall y ensures y in a[1..] <==> y in b[1..] {
        if y in a[1..] {
          var i :| 1 <= i < |a| && a[i] == y;
          assert y != a[0] by { assert Less(a[0], a[i]); }
          assert y in b;
          var m :| 0 <= m < |b| && b[m] == y;
          assert m != 0;
          assert b[m] in b[1..];
        }
        if y in b[1..] {
          var i :| 1 <= i < |b| && b[i] == y;
          assert y != b[0] by { assert Less(b[0], b[i]); }
          assert y in a;
          var m :| 0 <= m < |a| && a[m] == y;
          assert m != 0;
          assert a[m] in a[1..];
        }
      }
      AscendingUnique(a[1..], b[1..]);
    }
  }
}
