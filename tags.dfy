/**
 * Python's `sorted(set(tags))` on strings: the distinct tags in increasing
 * code-point (lexicographic) order.
 */
module TagOrder {

  /** Python's `a < b` on strings: lexicographic by code point, a proper prefix first. */
  predicate Below(a: string, b: string)
    decreases |a|
  {
    if |a| == 0 then |b| > 0
    else if |b| == 0 then false
    else if a[0] == b[0] then Below(a[1..], b[1..])
    else a[0] < b[0]
  }

  lemma {:induction false} BelowIrreflexive(a: string)
    ensures !Below(a, a)
    decreases |a|
  {
    if |a| > 0 {
      BelowIrreflexive(a[1..]);
    }
  }

  lemma {:induction false} BelowTransitive(a: string, b: string, c: string)
    requires Below(a, b) && Below(b, c)
    ensures Below(a, c)
    decreases |a|
  {
    if |a| > 0 && a[0] == b[0] && b[0] == c[0] {
      BelowTransitive(a[1..], b[1..], c[1..]);
    }
  }

  lemma {:induction false} BelowTotal(a: string, b: string)
    requires a != b
    ensures Below(a, b) || Below(b, a)
    decreases |a|
  {
    if |a| > 0 && |b| > 0 && a[0] == b[0] {
      assert a == [a[0]] + a[1..] && b == [b[0]] + b[1..];
      BelowTotal(a[1..], b[1..]);
    }
  }

  /** The tags of a list, as a set. */
  function Elements(xs: seq<string>): (s: set<string>)
    ensures forall x :: x in s <==> x in xs
  {
    set x | x in xs
  }

  /** The list is strictly increasing, so it holds no tag twice. */
  predicate Increasing(r: seq<string>) {
    forall i, j :: 0 <= i < j < |r| ==> Below(r[i], r[j])
  }

  /** Insert `x` into an increasing list, unless it is already there. */
  function InsertUnique(x: string, s: seq<string>): (r: seq<string>)
    requires Increasing(s)
    ensures Increasing(r)
    ensures forall y :: y in r <==> y == x || y in s
  {
    if s == [] then [x]
    else if x == s[0] then s
    else if Below(x, s[0]) then
      forall j | 0 < j < |s| ensures Below(x, s[j]) {
        BelowTransitive(x, s[0], s[j]);
      }
      [x] + s
    else
      var rest := InsertUnique(x, s[1..]);
      BelowTotal(x, s[0]);
      forall j | 0 <= j < |rest| ensures Below(s[0], rest[j]) {
        if rest[j] != x {
          assert rest[j] in s[1..];
          var k :| 0 <= k < |s| - 1 && s[1..][k] == rest[j];
          assert s[k + 1] == rest[j];
        }
      }
      [s[0]] + rest
  }

  /** `sorted(set(tags))`. */
  function SortedUnique(tags: seq<string>): (r: seq<string>)
    ensures Increasing(r)
    ensures forall x :: x in r <==> x in tags
  {
    if tags == [] then []
    else
      var n := |tags|;
      assert forall x :: x in tags <==> x in tags[..n - 1] || x == tags[n - 1] by {
        assert tags == tags[..n - 1] + [tags[n - 1]];
      }
      InsertUnique(tags[n - 1], SortedUnique(tags[..n - 1]))
  }

  /**
   * Increasing lists are determined by their elements: sorting the
   * distinct tags has exactly one possible answer.
   */
  lemma {:induction false} AscendingUnique(r: seq<string>, t: seq<string>)
    requires Increasing(r) && Increasing(t)
    requires forall x :: x in r <==> x in t
    ensures r == t
    decreases |r|
  {
    assert r != [] ==> r[0] in t;
    assert t != [] ==> t[0] in r;
    if r != [] {
      if r[0] != t[0] {
        assert t[0] in r && r[0] in t;
        var j :| 0 <= j < |r| && r[j] == t[0];
        var k :| 0 <= k < |t| && t[k] == r[0];
        BelowTransitive(r[0], t[0], r[0]);
        BelowIrreflexive(r[0]);
      }
      forall x ensures x in r[1..] <==> x in t[1..] {
        if x in r[1..] {
          var i :| 1 <= i < |r| && r[i] == x;
          BelowIrreflexive(x);
          assert x in t;
        }
        if x in t[1..] {
          var i :| 1 <= i < |t| && t[i] == x;
          BelowIrreflexive(x);
          assert x in r;
        }
      }
      AscendingUnique(r[1..], t[1..]);
      assert r == [r[0]] + r[1..] && t == [t[0]] + t[1..];
    }
  }

  /** Sorting again changes nothing, and the order of the input tags does not matter. */
  lemma SortedUniqueCanonical(tags: seq<string>, other: seq<string>)
    requires forall x :: x in tags <==> x in other
    ensures SortedUnique(tags) == SortedUnique(other)
    ensures SortedUnique(SortedUnique(tags)) == SortedUnique(tags)
  {
    AscendingUnique(SortedUnique(tags), SortedUnique(other));
    AscendingUnique(SortedUnique(SortedUnique(tags)), SortedUnique(tags));
  }
}
