/**
 * The per-game half of `collapse_by_display_name` in annotate-games.py: the
 * statistics of an incoming entry folded into those of the entry already kept
 * under the same display name.
 */
module CollapsePlatforms {
  import opened Wrappers
  import opened Dates
  import opened Seqs
  import opened Stats
  import opened PlatformMerge

  /** Slot `i` of a game's five lists as one record. */
  function RecordAt(s: PlayStats, i: nat): PlatformRecord
    requires Aligned(s) && i < |s.platforms|
  {
    PlatformRecord(s.platforms[i], s.ids[i], s.urls[i], s.hoursPlayedSingle[i], s.lastPlayedSingle[i])
  }

  /**
   * A platform both entries have: the hours add up, the later date is kept,
   * and the id and url are the incoming ones exactly when the incoming date is
   * not earlier (a tie counts as latest).
   */
  function CombineSlot(existing: PlatformRecord, incoming: PlatformRecord): (c: PlatformRecord)
    ensures c.platform == existing.platform
    ensures c.hoursPlayed == existing.hoursPlayed + incoming.hoursPlayed
    ensures c.lastPlayed == MostRecent(incoming.lastPlayed, existing.lastPlayed)
    ensures c.lastPlayed.day >= existing.lastPlayed.day && c.lastPlayed.day >= incoming.lastPlayed.day
    ensures incoming.lastPlayed.day >= existing.lastPlayed.day ==> c.id == incoming.id && c.url == incoming.url
    ensures incoming.lastPlayed.day < existing.lastPlayed.day ==> c.id == existing.id && c.url == existing.url
  {
    var latest := MostRecent(incoming.lastPlayed, existing.lastPlayed);
    var c := existing.(hoursPlayed := existing.hoursPlayed + incoming.hoursPlayed, lastPlayed := latest);
    if latest == incoming.lastPlayed then c.(id := incoming.id, url := incoming.url) else c
  }

  /** One platform of the incoming entry taken into the kept entry's lists; the totals are left alone. */
  function Absorb(s: PlayStats, r: PlatformRecord): (s': PlayStats)
    requires Aligned(s)
    ensures Aligned(s')
  {
    if r.platform !in s.platforms then
      s.(platforms := s.platforms + [r.platform],
         ids := s.ids + [r.id],
         urls := s.urls + [r.url],
         hoursPlayedSingle := s.hoursPlayedSingle + [r.hoursPlayed],
         lastPlayedSingle := s.lastPlayedSingle + [r.lastPlayed])
    else
      var i := IndexOf(s.platforms, r.platform);
      var c := CombineSlot(RecordAt(s, i), r);
      s.(ids := s.ids[i := c.id],
         urls := s.urls[i := c.url],
         hoursPlayedSingle := s.hoursPlayedSingle[i := c.hoursPlayed],
         lastPlayedSingle := s.lastPlayedSingle[i := c.lastPlayed])
  }

  /**
   * Absorbing a record touches only its platform: a new platform gets the
   * record as its slot, a shared one the combination of both slots.
   */
  lemma AbsorbSlots(s: PlayStats, r: PlatformRecord, p: string)
    requires Aligned(s)
    ensures p != r.platform ==> SlotOf(Absorb(s, r), p) == SlotOf(s, p)
    ensures p == r.platform && SlotOf(s, p).None? ==> SlotOf(Absorb(s, r), p) == Some(r)
    ensures p == r.platform && SlotOf(s, p).Some? ==>
              SlotOf(Absorb(s, r), p) == Some(CombineSlot(SlotOf(s, p).value, r))
  {
    var s' := Absorb(s, r);
    if r.platform !in s.platforms && p in s'.platforms {
      IndexOfAppend(s.platforms, r.platform, p);
    }
  }

  /** Absorbing a record appends its platform when the kept entry lacks it and keeps the platforms otherwise. */
  lemma AbsorbPlatforms(s: PlayStats, r: PlatformRecord)
    requires Aligned(s)
    ensures Absorb(s, r).platforms == if r.platform in s.platforms then s.platforms else s.platforms + [r.platform]
  {
  }

  /** Appending a new element keeps a list duplicate-free. */
  lemma DistinctSnoc(xs: seq<string>, x: string)
    requires Distinct(xs) && x !in xs
    ensures Distinct(xs + [x])
  {
    var ys := xs + [x];
    forall i, j | 0 <= i < j < |ys| ensures ys[i] != ys[j] {
      if j == |xs| {
        assert ys[i] == xs[i];
      } else {
        assert ys[i] == xs[i] && ys[j] == xs[j];
      }
    }
  }

  /** The incoming slot the loop reads for its `k`-th platform: the platform's first position. */
  function IncomingAt(incoming: PlayStats, k: nat): PlatformRecord
    requires Aligned(incoming) && k < |incoming.platforms|
  {
    RecordAt(incoming, IndexOf(incoming.platforms, incoming.platforms[k]))
  }

  /** The kept entry after the loop over the first `n` incoming platforms. */
  function AbsorbAll(existing: PlayStats, incoming: PlayStats, n: nat): (s: PlayStats)
    requires Aligned(existing) && Aligned(incoming) && n <= |incoming.platforms|
    ensures Aligned(s)
  {
    if n == 0 then existing
    else Absorb(AbsorbAll(existing, incoming, n - 1), IncomingAt(incoming, n - 1))
  }

  /** The slot a platform ends up with: the kept one, the incoming one, or both combined. */
  function MergeSlots(existing: Option<PlatformRecord>, incoming: Option<PlatformRecord>): Option<PlatformRecord> {
    if existing.None? then incoming
    else if incoming.None? then existing
    else Some(CombineSlot(existing.value, incoming.value))
  }

  /** A platform at position `i` of a duplicate-free list owns slot `i`. */
  lemma SlotAt(s: PlayStats, i: nat)
    requires Aligned(s) && Distinct(s.platforms) && i < |s.platforms|
    ensures SlotOf(s, s.platforms[i]) == Some(RecordAt(s, i))
  {
    IndexOfDistinct(s.platforms, i);
  }

  /** After `n` incoming platforms, those have merged slots and every other platform its kept slot. */
  lemma {:induction false} AbsorbAllSlots(existing: PlayStats, incoming: PlayStats, n: nat, q: string)
    requires Aligned(existing) && Aligned(incoming) && Distinct(incoming.platforms)
    requires n <= |incoming.platforms|
    ensures SlotOf(AbsorbAll(existing, incoming, n), q) ==
              if q in incoming.platforms[..n] then MergeSlots(SlotOf(existing, q), SlotOf(incoming, q))
              else SlotOf(existing, q)
  {
    if n > 0 {
      AbsorbAllSlots(existing, incoming, n - 1, q);
      var p := incoming.platforms[n - 1];
      assert incoming.platforms[..n] == incoming.platforms[..n - 1] + [p];
      assert (q in incoming.platforms[..n]) == (q in incoming.platforms[..n - 1] || q == p);
      if q == p {
        assert forall j :: 0 <= j < n - 1 ==> incoming.platforms[j] != p;
        assert p !in incoming.platforms[..n - 1];
        AbsorbNewSlot(existing, incoming, n);
      } else {
        AbsorbSlots(AbsorbAll(existing, incoming, n - 1), IncomingAt(incoming, n - 1), q);
      }
    }
  }

  /** The `n`-th incoming platform meets its kept slot for the first time. */
  lemma AbsorbNewSlot(existing: PlayStats, incoming: PlayStats, n: nat)
    requires Aligned(existing) && Aligned(incoming) && Distinct(incoming.platforms)
    requires 0 < n <= |incoming.platforms|
    requires SlotOf(AbsorbAll(existing, incoming, n - 1), incoming.platforms[n - 1]) ==
               SlotOf(existing, incoming.platforms[n - 1])
    ensures SlotOf(AbsorbAll(existing, incoming, n), incoming.platforms[n - 1]) ==
              MergeSlots(SlotOf(existing, incoming.platforms[n - 1]), SlotOf(incoming, incoming.platforms[n - 1]))
  {
    var q := incoming.platforms[n - 1];
    IndexOfDistinct(incoming.platforms, n - 1);
    SlotAt(incoming, n - 1);
    AbsorbSlots(AbsorbAll(existing, incoming, n - 1), IncomingAt(incoming, n - 1), q);
  }

  /** The kept platforms stay duplicate-free. */
  lemma {:induction false} AbsorbAllDistinct(existing: PlayStats, incoming: PlayStats, n: nat)
    requires Aligned(existing) && Aligned(incoming) && Distinct(existing.platforms)
    requires n <= |incoming.platforms|
    ensures Distinct(AbsorbAll(existing, incoming, n).platforms)
    ensures |AbsorbAll(existing, incoming, n).platforms| >= |existing.platforms|
  {
    if n > 0 {
      AbsorbAllDistinct(existing, incoming, n - 1);
      var s := AbsorbAll(existing, incoming, n - 1);
      var r := IncomingAt(incoming, n - 1);
      AbsorbPlatforms(s, r);
      var t := Absorb(s, r).platforms;
      if r.platform !in s.platforms {
        DistinctSnoc(s.platforms, r.platform);
        assert Distinct(t);
      } else {
        assert t == s.platforms;
      }
      assert AbsorbAll(existing, incoming, n).platforms == t;
    }
  }

  /** Each incoming platform adds its own hours to the kept per-platform hours. */
  lemma {:induction false} AbsorbAllSum(existing: PlayStats, incoming: PlayStats, n: nat)
    requires Aligned(existing) && Aligned(incoming) && Distinct(incoming.platforms)
    requires n <= |incoming.platforms|
    ensures Sum(AbsorbAll(existing, incoming, n).hoursPlayedSingle) ==
              Sum(existing.hoursPlayedSingle) + Sum(incoming.hoursPlayedSingle[..n])
  {
    if n > 0 {
      AbsorbAllSum(existing, incoming, n - 1);
      var s := AbsorbAll(existing, incoming, n - 1);
      var r := IncomingAt(incoming, n - 1);
      IndexOfDistinct(incoming.platforms, n - 1);
      assert r.hoursPlayed == incoming.hoursPlayedSingle[n - 1];
      AbsorbHours(s, r);
      var h := incoming.hoursPlayedSingle[..n];
      assert h[..n - 1] == incoming.hoursPlayedSingle[..n - 1];
      assert Sum(h) == Sum(h[..n - 1]) + h[n - 1];
    }
  }

  /** Absorbing a record adds its hours to the sum of the per-platform hours. */
  lemma AbsorbHours(s: PlayStats, r: PlatformRecord)
    requires Aligned(s)
    ensures Sum(Absorb(s, r).hoursPlayedSingle) == Sum(s.hoursPlayedSingle) + r.hoursPlayed
  {
    if r.platform in s.platforms {
      var i := IndexOf(s.platforms, r.platform);
      SumAddAt(s.hoursPlayedSingle, i, r.hoursPlayed);
    } else {
      SumAppend(s.hoursPlayedSingle, r.hoursPlayed);
    }
  }

  /** The whole collision: every incoming platform absorbed, the totals combined. */
  function CollapseStats(existing: PlayStats, incoming: PlayStats): (s: PlayStats)
    requires Aligned(existing) && Aligned(incoming)
    ensures Aligned(s)
  {
    AbsorbAll(existing, incoming, |incoming.platforms|).(
      lastPlayedTotal := MostRecent(incoming.lastPlayedTotal, existing.lastPlayedTotal),
      hoursPlayedTotal := existing.hoursPlayedTotal + incoming.hoursPlayedTotal)
  }

  /** The date of a slot of a valid entry is never later than the entry's last-played total. */
  lemma SlotNotLater(s: PlayStats, q: string)
    requires Valid(s) && SlotOf(s, q).Some?
    ensures SlotOf(s, q).value.lastPlayed.day <= s.lastPlayedTotal.day
  {
  }

  /**
   * Collapsing two valid entries gives a valid entry in which every platform
   * of either entry has its kept slot, its incoming slot, or both combined.
   */
  lemma CollapseStatsProps(existing: PlayStats, incoming: PlayStats)
    requires Valid(existing) && Valid(incoming)
    ensures forall q :: SlotOf(CollapseStats(existing, incoming), q) ==
                        MergeSlots(SlotOf(existing, q), SlotOf(incoming, q))
    ensures Valid(CollapseStats(existing, incoming))
  {
    var n := |incoming.platforms|;
    var o := CollapseStats(existing, incoming);
    assert incoming.platforms[..n] == incoming.platforms;
    forall q ensures SlotOf(o, q) == MergeSlots(SlotOf(existing, q), SlotOf(incoming, q)) {
      AbsorbAllSlots(existing, incoming, n, q);
    }
    AbsorbAllDistinct(existing, incoming, n);
    AbsorbAllSum(existing, incoming, n);
    assert incoming.hoursPlayedSingle[..n] == incoming.hoursPlayedSingle;
    LatestOfCollapse(existing, incoming);
  }

  lemma LatestOfCollapse(existing: PlayStats, incoming: PlayStats)
    requires Valid(existing) && Valid(incoming)
    requires forall q :: SlotOf(CollapseStats(existing, incoming), q) ==
                         MergeSlots(SlotOf(existing, q), SlotOf(incoming, q))
    requires Distinct(CollapseStats(existing, incoming).platforms)
    ensures IsLatest(CollapseStats(existing, incoming).lastPlayedTotal, CollapseStats(existing, incoming).lastPlayedSingle)
  {
    var o := CollapseStats(existing, incoming);
    var latest := o.lastPlayedTotal;
    forall i | 0 <= i < |o.lastPlayedSingle| ensures o.lastPlayedSingle[i].day <= latest.day {
      var q := o.platforms[i];
      SlotAt(o, i);
      if SlotOf(existing, q).Some? { SlotNotLater(existing, q); }
      if SlotOf(incoming, q).Some? { SlotNotLater(incoming, q); }
    }
    var winner: PlayStats := if latest == incoming.lastPlayedTotal then incoming else existing;
    var j :| 0 <= j < |winner.lastPlayedSingle| && winner.lastPlayedSingle[j] == latest;
    var q := winner.platforms[j];
    SlotAt(winner, j);
    if SlotOf(existing, q).Some? { SlotNotLater(existing, q); }
    if SlotOf(incoming, q).Some? { SlotNotLater(incoming, q); }
    assert SlotOf(o, q).value.lastPlayed == latest;
    assert o.lastPlayedSingle[IndexOf(o.platforms, q)] == latest;
  }

  /**
   * The loop of `collapse_by_display_name` over the incoming platforms,
   * updating the kept entry's five lists in place, then its totals.
   */
  method AbsorbIncoming(existing: PlayStats, incoming: PlayStats) returns (s: PlayStats)
    requires Aligned(existing) && Aligned(incoming)
    ensures s == CollapseStats(existing, incoming)
  {
    var platforms, ids, urls := existing.platforms, existing.ids, existing.urls;
    var hours, dates := existing.hoursPlayedSingle, existing.lastPlayedSingle;
    for k := 0 to |incoming.platforms|
      invariant PlayStats(platforms, ids, urls, hours, dates, existing.hoursPlayedTotal, existing.lastPlayedTotal)
                == AbsorbAll(existing, incoming, k)
    {
      var p := incoming.platforms[k];
      var i := IndexOf(incoming.platforms, p);
      var h, d := incoming.hoursPlayedSingle[i], incoming.lastPlayedSingle[i];
      var id, url := incoming.ids[i], incoming.urls[i];
      if p !in platforms {
        platforms, ids, urls := platforms + [p], ids + [id], urls + [url];
        hours, dates := hours + [h], dates + [d];
      } else {
        var j := IndexOf(platforms, p);
        var latest := MostRecent(d, dates[j]);
        var overwrite := latest == d;
        hours := hours[j := hours[j] + h];
        dates := dates[j := latest];
        if overwrite {
          ids, urls := ids[j := id], urls[j := url];
        }
      }
    }
    s := PlayStats(platforms, ids, urls, hours, dates,
                   existing.hoursPlayedTotal + incoming.hoursPlayedTotal,
                   MostRecent(incoming.lastPlayedTotal, existing.lastPlayedTotal));
  }
}
