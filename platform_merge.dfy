/**
 * merge-platforms.py: one record per game and platform is folded, platform by
 * platform, into one record per game with parallel per-platform lists.
 */
module PlatformMerge {
  import opened Wrappers
  import opened Dates
  import opened Seqs
  import opened Stats

  /** One game's record in one platform's file, without its `game` field. */
  datatype PlatformRecord = PlatformRecord(
    platform: string,
    id: string,
    url: string,
    hoursPlayed: real,
    lastPlayed: Date)

  /** One object of a platform file: the game's name and its record. */
  datatype PlatformEntry = PlatformEntry(game: string, record: PlatformRecord)

  /** The two `assert`s of the script. */
  datatype MergeError = DuplicateIds | MismatchedIdOrUrl

  function IdsOf(entries: seq<PlatformEntry>): (ids: seq<string>)
    ensures |ids| == |entries|
    ensures forall i :: 0 <= i < |entries| ==> ids[i] == entries[i].record.id
  {
    seq(|entries|, i requires 0 <= i < |entries| => entries[i].record.id)
  }

  /** `{game['game']: game for game in platform_raw}` with the `game` field dropped; a later name wins. */
  function KeyByName(entries: seq<PlatformEntry>): map<string, PlatformRecord> {
    if entries == [] then map[]
    else
      var last := entries[|entries| - 1];
      KeyByName(entries[..|entries| - 1])[last.game := last.record]
  }

  /** `parse_platform_file` after the file has been read. */
  function ParsePlatformEntries(entries: seq<PlatformEntry>): Result<map<string, PlatformRecord>, MergeError> {
    if !Distinct(IdsOf(entries)) then Failure(DuplicateIds) else Success(KeyByName(entries))
  }

  /**
   * A file in which two objects share an `id` is rejected; otherwise the keys
   * are the game names and each holds the record of the last object with that name.
   */
  lemma {:induction false} ParsePlatformEntriesSpec(entries: seq<PlatformEntry>)
    ensures ParsePlatformEntries(entries).Failure? <==>
              exists i, j :: 0 <= i < j < |entries| && entries[i].record.id == entries[j].record.id
    ensures ParsePlatformEntries(entries).Success? ==>
              var m := ParsePlatformEntries(entries).value;
              && m.Keys == (set i | 0 <= i < |entries| :: entries[i].game)
              && forall i :: 0 <= i < |entries| ==>
                   (forall j :: i < j < |entries| ==> entries[j].game != entries[i].game) ==>
                   m[entries[i].game] == entries[i].record
  {
    KeyByNameLast(entries);
    if !Distinct(IdsOf(entries)) {
      var i, j :| 0 <= i < j < |entries| && IdsOf(entries)[i] == IdsOf(entries)[j];
    }
  }

  lemma {:induction false} KeyByNameKeys(entries: seq<PlatformEntry>)
    ensures KeyByName(entries).Keys == set i | 0 <= i < |entries| :: entries[i].game
  {
    if entries != [] {
      var n := |entries|;
      var init := entries[..n - 1];
      KeyByNameKeys(init);
      assert forall i :: 0 <= i < n - 1 ==> init[i] == entries[i];
      assert (set i | 0 <= i < n :: entries[i].game) == (set i | 0 <= i < n - 1 :: init[i].game) + {entries[n - 1].game};
    }
  }

  lemma {:induction false} KeyByNameLast(entries: seq<PlatformEntry>)
    ensures KeyByName(entries).Keys == set i | 0 <= i < |entries| :: entries[i].game
    ensures forall i :: 0 <= i < |entries| ==>
              (forall j :: i < j < |entries| ==> entries[j].game != entries[i].game) ==>
              KeyByName(entries)[entries[i].game] == entries[i].record
  {
    KeyByNameKeys(entries);
    forall i | 0 <= i < |entries| && forall j :: i < j < |entries| ==> entries[j].game != entries[i].game
      ensures KeyByName(entries)[entries[i].game] == entries[i].record
    {
      KeyByNameLastAt(entries, i);
    }
  }

  lemma {:induction false} KeyByNameLastAt(entries: seq<PlatformEntry>, i: nat)
    requires i < |entries|
    requires forall j :: i < j < |entries| ==> entries[j].game != entries[i].game
    ensures entries[i].game in KeyByName(entries)
    ensures KeyByName(entries)[entries[i].game] == entries[i].record
  {
    var n := |entries|;
    if i < n - 1 {
      var init := entries[..n - 1];
      KeyByNameLastAt(init, i);
    }
  }

  /** The entry of a game seen for the first time: one-element lists, totals equal to the record. */
  function FirstStats(r: PlatformRecord): PlayStats {
    PlayStats([r.platform], [r.id], [r.url], [r.hoursPlayed], [r.lastPlayed], r.hoursPlayed, r.lastPlayed)
  }

  /** The record repeats a platform of the entry but with another id or url: the script's `assert` fails. */
  predicate Clashes(s: PlayStats, r: PlatformRecord)
    requires Aligned(s)
  {
    r.platform in s.platforms &&
    var i := IndexOf(s.platforms, r.platform);
    s.ids[i] != r.id || s.urls[i] != r.url
  }

  /** One iteration for a game already in the merged dictionary. */
  function AddRecord(s: PlayStats, r: PlatformRecord): (s': PlayStats)
    requires Aligned(s)
    ensures Aligned(s')
  {
    var lists :=
      if r.platform in s.platforms then
        var i := IndexOf(s.platforms, r.platform);
        s.(hoursPlayedSingle := s.hoursPlayedSingle[i := s.hoursPlayedSingle[i] + r.hoursPlayed],
           lastPlayedSingle := s.lastPlayedSingle[i := MostRecent(s.lastPlayedSingle[i], r.lastPlayed)])
      else
        s.(platforms := s.platforms + [r.platform],
           ids := s.ids + [r.id],
           urls := s.urls + [r.url],
           hoursPlayedSingle := s.hoursPlayedSingle + [r.hoursPlayed],
           lastPlayedSingle := s.lastPlayedSingle + [r.lastPlayed]);
    lists.(lastPlayedTotal := MostRecent(s.lastPlayedTotal, r.lastPlayed),
           hoursPlayedTotal := s.hoursPlayedTotal + r.hoursPlayed)
  }

  predicate AllAligned(merged: map<string, PlayStats>) {
    forall g :: g in merged ==> Aligned(merged[g])
  }

  /** Some game of the platform repeats a platform of its merged entry with another id or url. */
  predicate AnyClash(merged: map<string, PlayStats>, platform: map<string, PlatformRecord>)
    requires AllAligned(merged)
  {
    exists g :: g in platform && g in merged && Clashes(merged[g], platform[g])
  }

  /** What `merge_platform` makes of one game. */
  function MergedEntry(merged: map<string, PlayStats>, platform: map<string, PlatformRecord>, g: string): PlayStats
    requires AllAligned(merged)
    requires g in merged || g in platform
  {
    if g !in platform then merged[g]
    else if g !in merged then FirstStats(platform[g])
    else AddRecord(merged[g], platform[g])
  }

  /** `merge_platform`, with `None` for the first platform read as the empty dictionary. */
  function MergeSpec(merged: map<string, PlayStats>, platform: map<string, PlatformRecord>): Result<map<string, PlayStats>, MergeError>
    requires AllAligned(merged)
  {
    if AnyClash(merged, platform) then Failure(MismatchedIdOrUrl)
    else Success(map g | g in merged.Keys + platform.Keys :: MergedEntry(merged, platform, g))
  }

  /** The dictionary after the games in `done` have been merged and the others not yet. */
  function PartlyMerged(merged: map<string, PlayStats>, platform: map<string, PlatformRecord>, done: set<string>): map<string, PlayStats>
    requires AllAligned(merged)
    requires done <= platform.Keys
  {
    map g | g in merged.Keys + done :: if g in done then MergedEntry(merged, platform, g) else merged[g]
  }

  lemma PartlyMergedStep(merged: map<string, PlayStats>, platform: map<string, PlatformRecord>, done: set<string>, g: string)
    requires AllAligned(merged)
    requires done <= platform.Keys && g in platform
    ensures PartlyMerged(merged, platform, done + {g}) ==
            PartlyMerged(merged, platform, done)[g := MergedEntry(merged, platform, g)]
  {
  }

  /** `merge_platform` with its loop over the platform's games, updating the dictionary in place. */
  method MergePlatform(merged: map<string, PlayStats>, platform: map<string, PlatformRecord>)
    returns (r: Result<map<string, PlayStats>, MergeError>)
    requires AllAligned(merged)
    ensures r == MergeSpec(merged, platform)
  {
    var output := merged;
    var todo := platform.Keys;
    assert output == PartlyMerged(merged, platform, {});
    while todo != {}
      invariant todo <= platform.Keys
      invariant output == PartlyMerged(merged, platform, platform.Keys - todo)
      invariant forall g :: g in platform.Keys - todo && g in merged ==> !Clashes(merged[g], platform[g])
      decreases todo
    {
      var g :| g in todo;
      PartlyMergedStep(merged, platform, platform.Keys - todo, g);
      var game := platform[g];
      if g !in merged {
        output := output[g := PlayStats([game.platform], [game.id], [game.url], [game.hoursPlayed],
                                        [game.lastPlayed], game.hoursPlayed, game.lastPlayed)];
      } else {
        var entry := AddToEntry(merged[g], game);
        if entry.Failure? {
          assert AnyClash(merged, platform) by { assert Clashes(merged[g], platform[g]); }
          return Failure(MismatchedIdOrUrl);
        }
        output := output[g := entry.value];
      }
      assert platform.Keys - (todo - {g}) == (platform.Keys - todo) + {g};
      todo := todo - {g};
    }
    assert !AnyClash(merged, platform);
    assert output == map g | g in merged.Keys + platform.Keys :: MergedEntry(merged, platform, g);
    return Success(output);
  }

  /** The loop body for a game already merged: check the platform's slot or append a new one, then the totals. */
  method AddToEntry(entry: PlayStats, game: PlatformRecord) returns (r: Result<PlayStats, MergeError>)
    requires Aligned(entry)
    ensures r.Failure? <==> Clashes(entry, game)
    ensures r.Success? ==> r.value == AddRecord(entry, game)
  {
    var updated := entry;
    if game.platform in entry.platforms {
      var i := IndexOf(entry.platforms, game.platform);
      if entry.ids[i] != game.id || entry.urls[i] != game.url {
        return Failure(MismatchedIdOrUrl);
      }
      updated := updated.(hoursPlayedSingle := updated.hoursPlayedSingle[i := updated.hoursPlayedSingle[i] + game.hoursPlayed]);
      updated := updated.(lastPlayedSingle := updated.lastPlayedSingle[i := MostRecent(entry.lastPlayedSingle[i], game.lastPlayed)]);
    } else {
      updated := updated.(platforms := updated.platforms + [game.platform]);
      updated := updated.(ids := updated.ids + [game.id]);
      updated := updated.(urls := updated.urls + [game.url]);
      updated := updated.(hoursPlayedSingle := updated.hoursPlayedSingle + [game.hoursPlayed]);
      updated := updated.(lastPlayedSingle := updated.lastPlayedSingle + [game.lastPlayed]);
    }
    updated := updated.(lastPlayedTotal := MostRecent(entry.lastPlayedTotal, game.lastPlayed));
    updated := updated.(hoursPlayedTotal := updated.hoursPlayedTotal + game.hoursPlayed);
    return Success(updated);
  }

  /** The record a merged entry holds for one platform: that platform's slot of the five lists. */
  function SlotOf(s: PlayStats, p: string): (o: Option<PlatformRecord>)
    requires Aligned(s)
    ensures o.Some? <==> p in s.platforms
    ensures o.Some? ==> o.value.platform == p
  {
    if p in s.platforms then
      var i := IndexOf(s.platforms, p);
      Some(PlatformRecord(p, s.ids[i], s.urls[i], s.hoursPlayedSingle[i], s.lastPlayedSingle[i]))
    else None
  }

  /** A first record yields a valid entry whose only slot is that record. */
  lemma FirstStatsSpec(r: PlatformRecord)
    ensures Valid(FirstStats(r))
    ensures forall p :: SlotOf(FirstStats(r), p) == if p == r.platform then Some(r) else None
  {
    var s := FirstStats(r);
    assert Sum(s.hoursPlayedSingle) == Sum([]) + r.hoursPlayed;
    assert s.lastPlayedSingle[0] == r.lastPlayed;
  }

  /**
   * Adding a record that does not clash touches only the record's platform: a
   * new platform gets the record as its slot, a repeated one adds the hours and
   * keeps the later date; the totals grow by the record's hours and its date.
   */
  lemma AddRecordSlots(s: PlayStats, r: PlatformRecord, p: string)
    requires Aligned(s) && !Clashes(s, r)
    ensures p != r.platform ==> SlotOf(AddRecord(s, r), p) == SlotOf(s, p)
    ensures p == r.platform && SlotOf(s, p).None? ==> SlotOf(AddRecord(s, r), p) == Some(r)
    ensures p == r.platform && SlotOf(s, p).Some? ==>
              var old_ := SlotOf(s, p).value;
              SlotOf(AddRecord(s, r), p) ==
                Some(r.(hoursPlayed := old_.hoursPlayed + r.hoursPlayed,
                        lastPlayed := MostRecent(old_.lastPlayed, r.lastPlayed)))
    ensures AddRecord(s, r).hoursPlayedTotal == s.hoursPlayedTotal + r.hoursPlayed
    ensures AddRecord(s, r).lastPlayedTotal == MostRecent(s.lastPlayedTotal, r.lastPlayed)
    ensures r.platform !in s.platforms ==>
              && AddRecord(s, r).platforms == s.platforms + [r.platform]
              && AddRecord(s, r).ids == s.ids + [r.id]
              && AddRecord(s, r).urls == s.urls + [r.url]
              && AddRecord(s, r).hoursPlayedSingle == s.hoursPlayedSingle + [r.hoursPlayed]
              && AddRecord(s, r).lastPlayedSingle == s.lastPlayedSingle + [r.lastPlayed]
    ensures r.platform in s.platforms ==>
              && AddRecord(s, r).platforms == s.platforms
              && AddRecord(s, r).ids == s.ids
              && AddRecord(s, r).urls == s.urls
  {
    var s' := AddRecord(s, r);
    if r.platform !in s.platforms && p in s'.platforms {
      IndexOfAppend(s.platforms, r.platform, p);
    }
  }

  /** Adding a record keeps a merged entry valid: distinct platforms, sums and latest dates. */
  lemma AddRecordValid(s: PlayStats, r: PlatformRecord)
    requires Valid(s)
    ensures Valid(AddRecord(s, r))
  {
    var s' := AddRecord(s, r);
    var d := MostRecent(s.lastPlayedTotal, r.lastPlayed);
    if r.platform in s.platforms {
      var i := IndexOf(s.platforms, r.platform);
      SumAddAt(s.hoursPlayedSingle, i, r.hoursPlayed);
      var j :| 0 <= j < |s.lastPlayedSingle| && s.lastPlayedSingle[j] == s.lastPlayedTotal;
      if d == s.lastPlayedTotal {
        if j == i {
          assert s'.lastPlayedSingle[i] == d;
        } else {
          assert s'.lastPlayedSingle[j] == d;
        }
      } else {
        assert s'.lastPlayedSingle[i] == d;
      }
    } else {
      SumAppend(s.hoursPlayedSingle, r.hoursPlayed);
      if d == s.lastPlayedTotal {
        var j :| 0 <= j < |s.lastPlayedSingle| && s.lastPlayedSingle[j] == s.lastPlayedTotal;
        assert s'.lastPlayedSingle[j] == d;
      } else {
        assert s'.lastPlayedSingle[|s.lastPlayedSingle|] == d;
      }
    }
  }

  ghost predicate AllValid(merged: map<string, PlayStats>) {
    forall g :: g in merged ==> Valid(merged[g])
  }

  /** A game's hours total in a merged dictionary, zero when the game is absent. */
  function TotalIn(merged: map<string, PlayStats>, g: string): real {
    if g in merged then merged[g].hoursPlayedTotal else 0.0
  }

  /** A game's hours in one platform file, zero when the game is absent. */
  function HoursIn(platform: map<string, PlatformRecord>, g: string): real {
    if g in platform then platform[g].hoursPlayed else 0.0
  }

  /**
   * Merging one platform fails exactly when some game repeats a platform with
   * another id or url; otherwise every game of either side is kept, every entry
   * stays valid and each game's total grows by its hours on the new platform.
   */
  lemma MergeSpecProps(merged: map<string, PlayStats>, platform: map<string, PlatformRecord>)
    requires AllValid(merged)
    ensures MergeSpec(merged, platform).Failure? <==>
              exists g :: g in platform && g in merged &&
                SlotOf(merged[g], platform[g].platform).Some? &&
                (SlotOf(merged[g], platform[g].platform).value.id != platform[g].id ||
                 SlotOf(merged[g], platform[g].platform).value.url != platform[g].url)
    ensures MergeSpec(merged, platform).Success? ==>
              var m := MergeSpec(merged, platform).value;
              && m.Keys == merged.Keys + platform.Keys
              && AllValid(m)
              && (forall g :: g in m ==> m[g].hoursPlayedTotal == TotalIn(merged, g) + HoursIn(platform, g))
              && (forall g :: g in merged && g !in platform ==> m[g] == merged[g])
  {
    if MergeSpec(merged, platform).Success? {
      var m := MergeSpec(merged, platform).value;
      forall g | g in m
        ensures Valid(m[g]) && m[g].hoursPlayedTotal == TotalIn(merged, g) + HoursIn(platform, g)
      {
        if g in platform && g in merged {
          AddRecordValid(merged[g], platform[g]);
        } else if g in platform {
          FirstStatsSpec(platform[g]);
        }
      }
    }
  }

  /** The loop of `main`: every parsed platform merged in turn, starting from nothing. */
  function MergeAll(platforms: seq<map<string, PlatformRecord>>): (r: Result<map<string, PlayStats>, MergeError>)
    ensures r.Success? ==> AllValid(r.value)
  {
    if platforms == [] then Success(map[])
    else
      match MergeAll(platforms[..|platforms| - 1])
      case Failure(e) => Failure(e)
      case Success(m) =>
        MergeSpecProps(m, platforms[|platforms| - 1]);
        MergeSpec(m, platforms[|platforms| - 1])
  }

  /** The games of all platform files. */
  ghost function GamesOf(platforms: seq<map<string, PlatformRecord>>): set<string> {
    set i, g | 0 <= i < |platforms| && g in platforms[i] :: g
  }

  /** A game's hours summed over all platform files. */
  function HoursAcross(platforms: seq<map<string, PlatformRecord>>, g: string): real {
    if platforms == [] then 0.0
    else HoursAcross(platforms[..|platforms| - 1], g) + HoursIn(platforms[|platforms| - 1], g)
  }

  /** A successful merge holds every game of every file, with its hours summed across the files. */
  lemma {:induction false} MergeAllProps(platforms: seq<map<string, PlatformRecord>>)
    ensures MergeAll(platforms).Success? ==>
              && MergeAll(platforms).value.Keys == GamesOf(platforms)
              && forall g :: g in MergeAll(platforms).value ==>
                   MergeAll(platforms).value[g].hoursPlayedTotal == HoursAcross(platforms, g)
  {
    if platforms != [] && MergeAll(platforms).Success? {
      var n := |platforms|;
      var init := platforms[..n - 1];
      MergeAllProps(init);
      var m := MergeAll(init).value;
      MergeSpecProps(m, platforms[n - 1]);
      var m' := MergeAll(platforms).value;
      GamesOfSnoc(platforms);
      forall g | g in m'
        ensures m'[g].hoursPlayedTotal == HoursAcross(platforms, g)
      {
        if g !in m {
          HoursAcrossAbsent(init, g);
        }
      }
    }
  }

  lemma GamesOfSnoc(platforms: seq<map<string, PlatformRecord>>)
    requires platforms != []
    ensures GamesOf(platforms) == GamesOf(platforms[..|platforms| - 1]) + platforms[|platforms| - 1].Keys
  {
    var n := |platforms|;
    var init := platforms[..n - 1];
    forall g | g in GamesOf(platforms) ensures g in GamesOf(init) + platforms[n - 1].Keys {
      var i :| 0 <= i < n && g in platforms[i];
      if i < n - 1 { assert init[i] == platforms[i]; }
    }
    forall g | g in GamesOf(init) ensures g in GamesOf(platforms) {
      var i :| 0 <= i < n - 1 && g in init[i];
      assert platforms[i] == init[i];
    }
  }

  lemma {:induction false} HoursAcrossAbsent(platforms: seq<map<string, PlatformRecord>>, g: string)
    requires g !in GamesOf(platforms)
    ensures HoursAcross(platforms, g) == 0.0
  {
    if platforms != [] {
      GamesOfSnoc(platforms);
      HoursAcrossAbsent(platforms[..|platforms| - 1], g);
    }
  }

  /** `main`: parse every platform file first, then merge them in the order given. */
  function MergePlatformFiles(files: seq<seq<PlatformEntry>>): (r: Result<map<string, PlayStats>, MergeError>)
    ensures r.Success? ==> AllValid(r.value)
  {
    if exists i :: 0 <= i < |files| && ParsePlatformEntries(files[i]).Failure? then Failure(DuplicateIds)
    else MergeAll(seq(|files|, i requires 0 <= i < |files| => ParsePlatformEntries(files[i]).value))
  }
}
