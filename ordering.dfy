/**
 * Python's `sorted(xs, key=..., reverse=True)`: a stable sort by descending key,
 * written as an insertion sort over items paired with their keys, and the
 * permutation it applies.
 */
module Ordering {

  /** An item together with the key it is sorted by. */
  datatype Keyed<T> = Keyed(item: T, key: real)

  /** Put `x` after every element whose key is not smaller, so equal keys keep their order. */
  function Insert<T>(x: Keyed<T>, s: seq<Keyed<T>>): (r: seq<Keyed<T>>)
    ensures |r| == |s| + 1
    ensures multiset(r) == multiset(s) + multiset{x}
  {
    if s == [] then [x]
    else if s[0].key >= x.key then
      assert s == [s[0]] + s[1..];
      [s[0]] + Insert(x, s[1..])
    else [x] + s
  }

  /** The stable descending sort: each element is inserted behind the ones before it with equal keys. */
  function SortDesc<T>(xs: seq<Keyed<T>>): (r: seq<Keyed<T>>)
    ensures |r| == |xs|
    ensures multiset(r) == multiset(xs)
  {
    if xs == [] then []
    else
      assert xs == xs[..|xs| - 1] + [xs[|xs| - 1]];
      Insert(xs[|xs| - 1], SortDesc(xs[..|xs| - 1]))
  }

  ghost predicate SortedDesc<T>(xs: seq<Keyed<T>>) {
    forall i, j :: 0 <= i < j < |xs| ==> xs[i].key >= xs[j].key
  }

  lemma {:induction false} InsertSorted<T>(x: Keyed<T>, s: seq<Keyed<T>>)
    requires SortedDesc(s)
    ensures SortedDesc(Insert(x, s))
  {
    if s != [] && s[0].key >= x.key {
      InsertSorted(x, s[1..]);
      var r := Insert(x, s[1..]);
      forall j | 0 <= j < |r| ensures s[0].key >= r[j].key {
        assert r[j] in multiset(r);
      }
    }
  }

  /** The result is sorted by non-increasing key. */
  lemma {:induction false} SortDescSorted<T>(xs: seq<Keyed<T>>)
    ensures SortedDesc(SortDesc(xs))
  {
    if xs != [] {
      SortDescSorted(xs[..|xs| - 1]);
      InsertSorted(xs[|xs| - 1], SortDesc(xs[..|xs| - 1]));
    }
  }

  function Items<T>(xs: seq<Keyed<T>>): (r: seq<T>)
    ensures |r| == |xs|
    ensures forall i :: 0 <= i < |xs| ==> r[i] == xs[i].item
  {
    seq(|xs|, i requires 0 <= i < |xs| => xs[i].item)
  }

  /** Pair each item with the key at the same position: `zip`. */
  function Zip<T>(items: seq<T>, keys: seq<real>): (r: seq<Keyed<T>>)
    requires |items| == |keys|
    ensures |r| == |items|
    ensures forall i :: 0 <= i < |r| ==> r[i] == Keyed(items[i], keys[i])
  {
    seq(|items|, i requires 0 <= i < |items| => Keyed(items[i], keys[i]))
  }

  /** Replace every item by its image under `f`, keeping the keys. */
  function MapItems<T, U>(f: T -> U, xs: seq<Keyed<T>>): (r: seq<Keyed<U>>)
    ensures |r| == |xs|
    ensures forall i :: 0 <= i < |xs| ==> r[i] == Keyed(f(xs[i].item), xs[i].key)
  {
    seq(|xs|, i requires 0 <= i < |xs| => Keyed(f(xs[i].item), xs[i].key))
  }

  lemma MapItemsCons<T, U>(f: T -> U, x: Keyed<T>, s: seq<Keyed<T>>)
    ensures MapItems(f, [x] + s) == [Keyed(f(x.item), x.key)] + MapItems(f, s)
  {
  }

  /** Insertion looks only at keys, so it commutes with changing the items. */
  lemma {:induction false} InsertNatural<T, U>(f: T -> U, x: Keyed<T>, s: seq<Keyed<T>>)
    ensures MapItems(f, Insert(x, s)) == Insert(Keyed(f(x.item), x.key), MapItems(f, s))
  {
    var y := Keyed(f(x.item), x.key);
    if s == [] {
      assert MapItems(f, [x]) == [y];
    } else {
      assert s == [s[0]] + s[1..];
      MapItemsCons(f, s[0], s[1..]);
      if s[0].key >= x.key {
        InsertNatural(f, x, s[1..]);
        MapItemsCons(f, s[0], Insert(x, s[1..]));
      } else {
        MapItemsCons(f, x, s);
      }
    }
  }

  /** Sorting looks only at keys, so it commutes with changing the items. */
  lemma {:induction false} SortNatural<T, U>(f: T -> U, xs: seq<Keyed<T>>)
    ensures MapItems(f, SortDesc(xs)) == SortDesc(MapItems(f, xs))
  {
    if xs != [] {
      var n := |xs|;
      SortNatural(f, xs[..n - 1]);
      InsertNatural(f, xs[n - 1], SortDesc(xs[..n - 1]));
      assert MapItems(f, xs)[..n - 1] == MapItems(f, xs[..n - 1]);
    }
  }

  /** `0, 1, ..., n - 1`. */
  function Indices(n: nat): (r: seq<nat>)
    ensures |r| == n
    ensures forall i :: 0 <= i < n ==> r[i] == i
  {
    seq(n, i requires 0 <= i < n => i)
  }

  /** The positions in the order a stable descending sort by `keys` puts them. */
  function Perm(keys: seq<real>): (p: seq<nat>)
    ensures |p| == |keys|
    ensures multiset(p) == multiset(Indices(|keys|))
    ensures forall k :: 0 <= k < |p| ==> p[k] < |keys|
  {
    var sorted := SortDesc(Zip(Indices(|keys|), keys));
    SortItems(Zip(Indices(|keys|), keys));
    assert Items(Zip(Indices(|keys|), keys)) == Indices(|keys|);
    assert forall k :: 0 <= k < |sorted| ==> sorted[k].item in multiset(Indices(|keys|));
    Items(sorted)
  }

  lemma ItemsCons<T>(x: Keyed<T>, s: seq<Keyed<T>>)
    ensures Items([x] + s) == [x.item] + Items(s)
  {
  }

  lemma ItemsSnoc<T>(xs: seq<Keyed<T>>)
    requires xs != []
    ensures Items(xs) == Items(xs[..|xs| - 1]) + [xs[|xs| - 1].item]
  {
  }

  lemma {:induction false} InsertItems<T>(x: Keyed<T>, s: seq<Keyed<T>>)
    ensures multiset(Items(Insert(x, s))) == multiset(Items(s)) + multiset{x.item}
  {
    if s == [] {
      assert Items([x]) == [x.item];
    } else {
      assert s == [s[0]] + s[1..];
      ItemsCons(s[0], s[1..]);
      if s[0].key >= x.key {
        InsertItems(x, s[1..]);
        ItemsCons(s[0], Insert(x, s[1..]));
      } else {
        ItemsCons(x, s);
      }
    }
  }

  /** Sorting keeps the multiset of items. */
  lemma {:induction false} SortItems<T>(xs: seq<Keyed<T>>)
    ensures multiset(Items(SortDesc(xs))) == multiset(Items(xs))
  {
    if xs != [] {
      var n := |xs|;
      SortItems(xs[..n - 1]);
      InsertItems(xs[n - 1], SortDesc(xs[..n - 1]));
      ItemsSnoc(xs);
    }
  }

  /** Elements with equal keys come in increasing item order. */
  ghost predicate TiesAscending(s: seq<Keyed<nat>>) {
    forall i, j :: 0 <= i < j < |s| && s[i].key == s[j].key ==> s[i].item < s[j].item
  }

  lemma TiesCons(y: Keyed<nat>, t: seq<Keyed<nat>>)
    requires TiesAscending(t)
    requires forall j :: 0 <= j < |t| && y.key == t[j].key ==> y.item < t[j].item
    ensures TiesAscending([y] + t)
  {
    var r := [y] + t;
    forall i, j | 0 <= i < j < |r| && r[i].key == r[j].key ensures r[i].item < r[j].item {
      if i == 0 {
        assert r[j] == t[j - 1];
      } else {
        assert r[i] == t[i - 1] && r[j] == t[j - 1];
      }
    }
  }

  /** Inserting an item larger than all others keeps ties ascending: it goes behind its equals. */
  lemma {:induction false} InsertTies(x: Keyed<nat>, s: seq<Keyed<nat>>)
    requires SortedDesc(s) && TiesAscending(s)
    requires forall k :: 0 <= k < |s| ==> s[k].item < x.item
    ensures TiesAscending(Insert(x, s))
  {
    if s != [] {
      if s[0].key >= x.key {
        var t: seq<Keyed<nat>> := Insert(x, s[1..]);
        InsertTies(x, s[1..]);
        forall j | 0 <= j < |t| && s[0].key == t[j].key ensures s[0].item < t[j].item {
          assert t[j] in multiset(s[1..]) + multiset{x};
          if t[j] != x {
            var m :| 0 <= m < |s| - 1 && s[1..][m] == t[j];
            assert s[1 + m] == t[j];
          }
        }
        TiesCons(s[0], t);
      } else {
        assert forall j :: 0 <= j < |s| ==> s[0].key >= s[j].key;
        TiesCons(x, s);
      }
    }
  }

  /** Sorting items given in increasing order keeps equal keys in that order. */
  lemma {:induction false} SortDescTies(xs: seq<Keyed<nat>>)
    requires forall i, j :: 0 <= i < j < |xs| ==> xs[i].item < xs[j].item
    ensures TiesAscending(SortDesc(xs))
  {
    if xs != [] {
      var n := |xs|;
      var init: seq<Keyed<nat>> := xs[..n - 1];
      var s: seq<Keyed<nat>> := SortDesc(init);
      SortDescTies(init);
      SortDescSorted(init);
      forall k | 0 <= k < |s| ensures s[k].item < xs[n - 1].item {
        assert s[k] in multiset(init);
        var m :| 0 <= m < n - 1 && init[m] == s[k];
      }
      InsertTies(xs[n - 1], s);
    }
  }

  /**
   * The sort is stable: positions with equal keys appear in the sorting
   * permutation in their original order.
   */
  lemma PermStable(keys: seq<real>)
    ensures forall i, j :: 0 <= i < j < |keys| && keys[Perm(keys)[i]] == keys[Perm(keys)[j]] ==>
              Perm(keys)[i] < Perm(keys)[j]
  {
    var byIndex: seq<Keyed<nat>> := Zip(Indices(|keys|), keys);
    var sorted: seq<Keyed<nat>> := SortDesc(byIndex);
    SortDescTies(byIndex);
    assert Items(sorted) == Perm(keys);
    forall k | 0 <= k < |sorted| ensures sorted[k].key == keys[sorted[k].item] {
      assert sorted[k] in multiset(byIndex);
      var m :| 0 <= m < |byIndex| && byIndex[m] == sorted[k];
    }
  }

  /** The elements of `xs` at the positions `p`, in that order. */
  function Apply<T>(p: seq<nat>, xs: seq<T>): (r: seq<T>)
    requires forall k :: 0 <= k < |p| ==> p[k] < |xs|
    ensures |r| == |p|
    ensures forall k :: 0 <= k < |p| ==> r[k] == xs[p[k]]
  {
    seq(|p|, k requires 0 <= k < |p| => xs[p[k]])
  }

  /**
   * Sorting items by their keys puts them in the order of the sorting
   * permutation of the keys alone: `sorted(items, key=...)` is `Perm(keys)` applied to `items`.
   */
  lemma SortByKeys<T>(items: seq<T>, keys: seq<real>)
    requires |items| == |keys|
    ensures Items(SortDesc(Zip(items, keys))) == Apply(Perm(keys), items)
  {
    if items != [] {
      var n := |items|;
      var f := (i: nat) => if i < n then items[i] else items[0];
      var byIndex: seq<Keyed<nat>> := Zip(Indices(n), keys);
      assert Zip(items, keys) == MapItems(f, byIndex);
      SortNatural(f, byIndex);
      var sorted: seq<Keyed<nat>> := SortDesc(byIndex);
      assert Items(sorted) == Perm(keys);
      var lhs := Items(MapItems(f, sorted));
      forall k | 0 <= k < n ensures lhs[k] == items[Perm(keys)[k]] {
        assert sorted[k].item == Perm(keys)[k];
      }
    }
  }

  /** The sorted keys themselves are non-increasing. */
  lemma SortedKeys(keys: seq<real>)
    ensures forall i, j :: 0 <= i < j < |keys| ==> Apply(Perm(keys), keys)[i] >= Apply(Perm(keys), keys)[j]
  {
    SortByKeys(keys, keys);
    var sorted := SortDesc(Zip(keys, keys));
    SortDescSorted(Zip(keys, keys));
    forall k | 0 <= k < |sorted| ensures sorted[k].item == sorted[k].key {
      assert sorted[k] in multiset(Zip(keys, keys));
    }
  }

  /** Applying the sorting permutation rearranges a list without adding or losing elements. */
  lemma ApplyPermMultiset<T>(items: seq<T>, keys: seq<real>)
    requires |items| == |keys|
    ensures multiset(Apply(Perm(keys), items)) == multiset(items)
  {
    SortByKeys(items, keys);
    SortItems(Zip(items, keys));
    assert Items(Zip(items, keys)) == items;
  }
}
