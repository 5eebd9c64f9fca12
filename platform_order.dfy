/**
 * `order_platforms` of annotate-games.py: the five per-platform lists of every
 * game are re-ordered by descending hours played.
 *
 * The script sorts each list on its own, looking its elements up in
 * `dict(zip(list, hoursPlayedSingle))`; a value occurring twice in a list takes
 * the hours of its last occurrence, so such a list can come out in another order
 * than `platforms`. `OrderStatsAsWritten` models the script as written;
 * `OrderStats` sorts the slots of all five lists by one permutation, which is
 * what the script evidently intends, and is the version the pipeline model uses.
 */
module PlatformOrder {
  import opened Wrappers
  import opened Dates
  import opened Seqs
  import opened Records
  import opened Stats
  import opened Ordering
  import opened PlatformMerge

  /** The last position of `x` in `xs`. */
  function LastIndex<T(==)>(xs: seq<T>, x: T): (i: nat)
    requires x in xs
    ensures i < |xs| && xs[i] == x
    ensures forall j :: i < j < |xs| ==> xs[j] != x
  {
    if xs[|xs| - 1] == x then |xs| - 1 else LastIndex(xs[..|xs| - 1], x)
  }

  /** `key_dict.get` for every element of `list`, with `key_dict = dict(zip(list, hours))`. */
  function ZipKeys<T(==)>(list: seq<T>, hours: seq<real>): (keys: seq<real>)
    requires |list| == |hours|
    ensures |keys| == |list|
  {
    seq(|list|, i requires 0 <= i < |list| => hours[LastIndex(list, list[i])])
  }

  /** `sort_by_playtime`: `sorted(list, key=key_dict.get, reverse=True)`. */
  function SortByPlaytime<T(==)>(list: seq<T>, hours: seq<real>): seq<T>
    requires |list| == |hours|
  {
    Items(SortDesc(Zip(list, ZipKeys(list, hours))))
  }

  /** One game's lists as `order_platforms` leaves them, each list sorted on its own. */
  function OrderStatsAsWritten(s: PlayStats): PlayStats
    requires Aligned(s)
  {
    var h := s.hoursPlayedSingle;
    s.(platforms := SortByPlaytime(s.platforms, h),
       ids := SortByPlaytime(s.ids, h),
       urls := SortByPlaytime(s.urls, h),
       lastPlayedSingle := SortByPlaytime(s.lastPlayedSingle, h),
       hoursPlayedSingle := SortByPlaytime(h, h))
  }

  /** A list without repeated values is sorted by its own slot's hours. */
  lemma ZipKeysDistinct<T>(list: seq<T>, hours: seq<real>)
    requires |list| == |hours| && Distinct(list)
    ensures ZipKeys(list, hours) == hours
  {
  }

  /** The hours list is sorted by the hours themselves, repeated values or not. */
  lemma ZipKeysSelf(hours: seq<real>)
    ensures ZipKeys(hours, hours) == hours
  {
  }

  /**
   * As written: every list keeps its elements, the hours come out non-increasing,
   * and `platforms` and `hoursPlayedSingle` are re-ordered by the same
   * permutation, so each platform keeps its hours.
   */
  lemma OrderAsWrittenProps(s: PlayStats)
    requires Valid(s)
    ensures var o := OrderStatsAsWritten(s);
            && multiset(o.platforms) == multiset(s.platforms)
            && multiset(o.ids) == multiset(s.ids)
            && multiset(o.urls) == multiset(s.urls)
            && multiset(o.lastPlayedSingle) == multiset(s.lastPlayedSingle)
            && multiset(o.hoursPlayedSingle) == multiset(s.hoursPlayedSingle)
            && (forall i, j :: 0 <= i < j < |o.hoursPlayedSingle| ==> o.hoursPlayedSingle[i] >= o.hoursPlayedSingle[j])
            && o.platforms == Apply(Perm(s.hoursPlayedSingle), s.platforms)
            && o.hoursPlayedSingle == Apply(Perm(s.hoursPlayedSingle), s.hoursPlayedSingle)
  {
    var h := s.hoursPlayedSingle;
    ZipKeysDistinct(s.platforms, h);
    ZipKeysSelf(h);
    SortByKeys(s.platforms, h);
    SortByKeys(h, h);
    SortedKeys(h);
    ListPermutation(s.platforms, h);
    ListPermutation(s.ids, h);
    ListPermutation(s.urls, h);
    ListPermutation(s.lastPlayedSingle, h);
    ListPermutation(h, h);
  }

  lemma ListPermutation<T>(list: seq<T>, hours: seq<real>)
    requires |list| == |hours|
    ensures multiset(SortByPlaytime(list, hours)) == multiset(list)
  {
    var keys := ZipKeys(list, hours);
    SortByKeys(list, keys);
    ApplyPermMultiset(list, keys);
  }

  /**
   * Three platforms where the first and second have no url and the third one
   * has, with the hours of the third between the other two.
   */
  ghost predicate Misaligning(s: PlayStats) {
    && |s.platforms| == 3 && Aligned(s)
    && s.urls[0] == s.urls[1] != s.urls[2]
    && s.hoursPlayedSingle[0] >= s.hoursPlayedSingle[2] > s.hoursPlayedSingle[1]
  }

  lemma SortThreeDistinct<T>(a: T, b: T, c: T, ha: real, hb: real, hc: real)
    requires a != b && a != c && b != c && ha >= hc > hb
    ensures SortByPlaytime([a, b, c], [ha, hb, hc]) == [a, c, b]
  {
    var list, hours := [a, b, c], [ha, hb, hc];
    ZipKeysThree(a, b, c, hours);
    var z := Zip(list, hours);
    assert z == [Keyed(a, ha), Keyed(b, hb), Keyed(c, hc)];
    SortMiddleLast(Keyed(a, ha), Keyed(b, hb), Keyed(c, hc));
    ItemsThree(Keyed(a, ha), Keyed(c, hc), Keyed(b, hb));
  }

  lemma ItemsThree<T>(x: Keyed<T>, y: Keyed<T>, w: Keyed<T>)
    ensures Items([x, y, w]) == [x.item, y.item, w.item]
  {
  }

  lemma ZipKeysThree<T>(a: T, b: T, c: T, hours: seq<real>)
    requires a != b && a != c && b != c && |hours| == 3
    ensures ZipKeys([a, b, c], hours) == hours
  {
    var list := [a, b, c];
    assert list[..2] == [a, b] && list[..2][..1] == [a];
    assert LastIndex(list, a) == 0 && LastIndex(list, b) == 1 && LastIndex(list, c) == 2;
  }

  lemma SortThreeRepeated<T>(x: T, y: T, ha: real, hb: real, hc: real)
    requires x != y && hc > hb
    ensures SortByPlaytime([x, x, y], [ha, hb, hc]) == [y, x, x]
  {
    var u := [x, x, y];
    assert u[..2] == [x, x];
    assert LastIndex(u, x) == 1;
    assert LastIndex(u, y) == 2;
    var keys := ZipKeys(u, [ha, hb, hc]);
    assert keys == [hb, hb, hc];
    var z := Zip(u, keys);
    assert z == [Keyed(x, hb), Keyed(x, hb), Keyed(y, hc)];
    SortFirstLast(Keyed(x, hb), Keyed(x, hb), Keyed(y, hc));
    ItemsThree(Keyed(y, hc), Keyed(x, hb), Keyed(x, hb));
  }

  /**
   * As written, on such a game the url of the third platform ends up in the
   * first slot, which still belongs to the first platform: the repeated url
   * takes the hours of its last occurrence (the second platform's) and sorts
   * behind the third one's.
   */
  lemma AsWrittenMisalignsUrls(s: PlayStats)
    requires Valid(s) && Misaligning(s)
    ensures OrderStatsAsWritten(s).platforms == [s.platforms[0], s.platforms[2], s.platforms[1]]
    ensures OrderStatsAsWritten(s).urls == [s.urls[2], s.urls[0], s.urls[0]]
    ensures SlotOf(s, s.platforms[0]).value.url == s.urls[0]
    ensures SlotOf(OrderStatsAsWritten(s), s.platforms[0]).value.url == s.urls[2] != s.urls[0]
  {
    var h := s.hoursPlayedSingle;
    assert s.platforms == [s.platforms[0], s.platforms[1], s.platforms[2]];
    assert s.urls == [s.urls[0], s.urls[0], s.urls[2]];
    assert h == [h[0], h[1], h[2]];
    SortThreeDistinct(s.platforms[0], s.platforms[1], s.platforms[2], h[0], h[1], h[2]);
    SortThreeRepeated(s.urls[0], s.urls[2], h[0], h[1], h[2]);
  }

  /** Such a game exists: three platforms, two of them without a url. */
  lemma MisaligningExists()
    ensures exists s :: Valid(s) && Misaligning(s)
  {
    var days := [Date("2024-01-01", 1), Date("2024-01-02", 2), Date("2024-01-03", 3)];
    var hours := [5.0, 1.0, 3.0];
    var s := PlayStats(["A", "B", "C"], ["1", "2", "3"], ["", "", "u"], hours, days, 9.0, days[2]);
    SumAppend([], 5.0);
    SumAppend([5.0], 1.0);
    SumAppend([5.0, 1.0], 3.0);
    assert [] + [5.0] == [5.0] && [5.0] + [1.0] == [5.0, 1.0] && [5.0, 1.0] + [3.0] == hours;
    assert Valid(s) && Misaligning(s);
  }

  lemma SortTwo<T>(a: Keyed<T>, b: Keyed<T>)
    requires a.key >= b.key
    ensures SortDesc([a, b]) == [a, b]
  {
    assert [a, b][..1] == [a] && [a][..0] == [];
    assert SortDesc([a]) == [a];
    assert Insert(b, [a]) == [a] + Insert(b, []);
  }

  /** Sorting three items whose last key lies between the first two. */
  lemma SortMiddleLast<T>(a: Keyed<T>, b: Keyed<T>, c: Keyed<T>)
    requires a.key >= c.key > b.key
    ensures SortDesc([a, b, c]) == [a, c, b]
  {
    assert [a, b, c][..2] == [a, b];
    SortTwo(a, b);
    assert [a, b][1..] == [b];
    assert Insert(c, [a, b]) == [a] + Insert(c, [b]);
  }

  /** Sorting three items whose last key is the largest. */
  lemma SortFirstLast<T>(a: Keyed<T>, b: Keyed<T>, c: Keyed<T>)
    requires c.key > a.key >= b.key
    ensures SortDesc([a, b, c]) == [c, a, b]
  {
    assert [a, b, c][..2] == [a, b];
    SortTwo(a, b);
  }

  /** The slots of one game, sorted by descending hours, ties in their original order. */
  function OrderStats(s: PlayStats): (o: PlayStats)
    requires Aligned(s)
    ensures Aligned(o)
  {
    var p := Perm(s.hoursPlayedSingle);
    s.(platforms := Apply(p, s.platforms),
       ids := Apply(p, s.ids),
       urls := Apply(p, s.urls),
       lastPlayedSingle := Apply(p, s.lastPlayedSingle),
       hoursPlayedSingle := Apply(p, s.hoursPlayedSingle))
  }

  /**
   * Ordering keeps a valid game valid, leaves every platform with exactly its
   * own id, url, hours and date, and puts the hours in non-increasing order.
   */
  lemma OrderStatsProps(s: PlayStats)
    requires Valid(s)
    ensures Valid(OrderStats(s))
    ensures forall q :: SlotOf(OrderStats(s), q) == SlotOf(s, q)
    ensures forall i, j :: 0 <= i < j < |s.platforms| ==>
              OrderStats(s).hoursPlayedSingle[i] >= OrderStats(s).hoursPlayedSingle[j]
  {
    var o := OrderStats(s);
    var p := Perm(s.hoursPlayedSingle);
    var n := |s.platforms|;
    SortedKeys(s.hoursPlayedSingle);
    ApplyPermMultiset(s.platforms, s.hoursPlayedSingle);
    ApplyPermMultiset(s.hoursPlayedSingle, s.hoursPlayedSingle);
    ApplyPermMultiset(s.lastPlayedSingle, s.hoursPlayedSingle);
    DistinctPermutation(s.platforms, o.platforms);
    SumPermutation(s.hoursPlayedSingle, o.hoursPlayedSingle);
    assert IsLatest(o.lastPlayedTotal, o.lastPlayedSingle) by {
      assert s.lastPlayedTotal in multiset(o.lastPlayedSingle);
      forall i | 0 <= i < n ensures o.lastPlayedSingle[i].day <= o.lastPlayedTotal.day {
        assert o.lastPlayedSingle[i] in multiset(s.lastPlayedSingle);
      }
    }
    forall q ensures SlotOf(o, q) == SlotOf(s, q) {
      assert q in o.platforms <==> q in s.platforms by {
        assert q in multiset(o.platforms) <==> q in multiset(s.platforms);
      }
      if q in s.platforms {
        var k := IndexOf(o.platforms, q);
        IndexOfDistinct(s.platforms, p[k]);
      }
    }
  }

  /**
   * Platforms with equal hours keep the order they had, as Python's stable
   * `sorted` leaves them.
   */
  lemma OrderStatsStable(s: PlayStats)
    requires Valid(s)
    ensures forall i, j ::
              0 <= i < j < |s.platforms| && OrderStats(s).hoursPlayedSingle[i] == OrderStats(s).hoursPlayedSingle[j] ==>
              IndexOf(s.platforms, OrderStats(s).platforms[i]) < IndexOf(s.platforms, OrderStats(s).platforms[j])
  {
    var o := OrderStats(s);
    var p := Perm(s.hoursPlayedSingle);
    PermStable(s.hoursPlayedSingle);
    forall k | 0 <= k < |s.platforms| ensures IndexOf(s.platforms, o.platforms[k]) == p[k] {
      IndexOfDistinct(s.platforms, p[k]);
    }
  }

  /** One game's record with its statistics re-ordered, every other field as it was. */
  function OrderedEntry(entry: Fields): Fields
    requires HasStats(entry) && Aligned(StatsOf(entry))
  {
    WithStats(entry, OrderStats(StatsOf(entry)))
  }

  /** One iteration of `order_platforms`: a copy of the game with its five lists ordered. */
  method OrderGame(entry: Fields) returns (sortedEntry: Fields)
    requires HasStats(entry) && Aligned(StatsOf(entry))
    ensures sortedEntry == OrderedEntry(entry)
  {
    var ordered := OrderStats(StatsOf(entry));
    sortedEntry := WithStats(entry, ordered);
  }

  /** Every game of `games` with its platforms ordered by play time. */
  function OrderedAll(games: map<string, Fields>): (m: map<string, Fields>)
    requires forall k :: k in games ==> HasStats(games[k]) && Aligned(StatsOf(games[k]))
    ensures m.Keys == games.Keys
    ensures forall k :: k in m ==> m[k] == OrderedEntry(games[k])
  {
    map k | k in games :: OrderedEntry(games[k])
  }

  /** The games of `sorted` are those of `target` outside `todo`, each with its value in `target`. */
  ghost predicate StoredSoFar(target: map<string, Fields>, todo: set<string>, sorted: map<string, Fields>) {
    && todo <= target.Keys
    && sorted.Keys == target.Keys - todo
    && forall k :: k in sorted ==> sorted[k] == target[k]
  }

  /** Storing one more game's target value keeps `StoredSoFar`. */
  lemma StoredStep(target: map<string, Fields>, todo: set<string>, sorted: map<string, Fields>, game: string)
    requires StoredSoFar(target, todo, sorted) && game in todo
    ensures StoredSoFar(target, todo - {game}, sorted[game := target[game]])
  {
  }

  /** With nothing left to do, `sorted` is the target. */
  lemma StoredDone(target: map<string, Fields>, sorted: map<string, Fields>)
    requires StoredSoFar(target, {}, sorted)
    ensures sorted == target
  {
    SameEntries(sorted, target);
  }

  /** `order_platforms` with its loop over the games, each entry a re-ordered copy. */
  method OrderPlatforms(games: map<string, Fields>) returns (sorted: map<string, Fields>)
    requires forall k :: k in games ==> HasStats(games[k]) && Aligned(StatsOf(games[k]))
    ensures sorted == OrderedAll(games)
  {
    ghost var target := OrderedAll(games);
    sorted := map[];
    var todo := games.Keys;
    while todo != {}
      invariant StoredSoFar(target, todo, sorted)
      decreases todo
    {
      var game :| game in todo;
      var sortedEntry := OrderGame(games[game]);
      assert sortedEntry == target[game];
      StoredStep(target, todo, sorted, game);
      sorted := sorted[game := sortedEntry];
      todo := todo - {game};
    }
    StoredDone(target, sorted);
  }
}
