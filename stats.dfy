/**
 * The per-game play statistics that merge-platforms.py builds: five parallel
 * per-platform lists and two totals, and their reading from a JSON object.
 */
module Stats {
  import opened Dates
  import opened Seqs
  import opened Records

  /** The seven statistic fields of a merged game, `platforms[i]` owning slot `i` of every list. */
  datatype PlayStats = PlayStats(
    platforms: seq<string>,
    ids: seq<string>,
    urls: seq<string>,
    hoursPlayedSingle: seq<real>,
    lastPlayedSingle: seq<Date>,
    hoursPlayedTotal: real,
    lastPlayedTotal: Date)

  /** The five lists have the same length. */
  predicate Aligned(s: PlayStats) {
    && |s.ids| == |s.platforms|
    && |s.urls| == |s.platforms|
    && |s.hoursPlayedSingle| == |s.platforms|
    && |s.lastPlayedSingle| == |s.platforms|
  }

  /**
   * The invariant of a merged game: at least one platform, equal-length lists,
   * no platform twice, the hours total is the sum of the per-platform hours and
   * the last-played total is the latest per-platform date.
   */
  ghost predicate Valid(s: PlayStats) {
    && |s.platforms| > 0
    && Aligned(s)
    && Distinct(s.platforms)
    && s.hoursPlayedTotal == Sum(s.hoursPlayedSingle)
    && IsLatest(s.lastPlayedTotal, s.lastPlayedSingle)
  }

  predicate IsStatField(f: Field) {
    f.Platforms? || f.Ids? || f.Urls? || f.HoursPlayedSingle? || f.LastPlayedSingle? ||
    f.HoursPlayedTotal? || f.LastPlayedTotal?
  }

  /** The object carries the seven statistic fields with values of the right shape. */
  predicate HasStats(r: Fields) {
    && Platforms in r && r[Platforms].Texts?
    && Ids in r && r[Ids].Texts?
    && Urls in r && r[Urls].Texts?
    && HoursPlayedSingle in r && r[HoursPlayedSingle].Nums?
    && LastPlayedSingle in r && r[LastPlayedSingle].Days?
    && HoursPlayedTotal in r && r[HoursPlayedTotal].Num?
    && LastPlayedTotal in r && r[LastPlayedTotal].Day?
  }

  function StatsOf(r: Fields): PlayStats
    requires HasStats(r)
  {
    PlayStats(r[Platforms].texts, r[Ids].texts, r[Urls].texts, r[HoursPlayedSingle].nums,
              r[LastPlayedSingle].dates, r[HoursPlayedTotal].num, r[LastPlayedTotal].date)
  }

  /** Writes the seven statistic fields into `r`; every other field is left as it was. */
  function WithStats(r: Fields, s: PlayStats): (r': Fields)
    ensures HasStats(r') && StatsOf(r') == s
    ensures forall f :: !IsStatField(f) ==> (f in r' <==> f in r)
    ensures forall f :: !IsStatField(f) && f in r ==> r'[f] == r[f]
  {
    r[Platforms := Texts(s.platforms)][Ids := Texts(s.ids)][Urls := Texts(s.urls)]
     [HoursPlayedSingle := Nums(s.hoursPlayedSingle)][LastPlayedSingle := Days(s.lastPlayedSingle)]
     [HoursPlayedTotal := Num(s.hoursPlayedTotal)][LastPlayedTotal := Day(s.lastPlayedTotal)]
  }

  /** The JSON object merge-platforms.py writes for a game: exactly the seven statistic fields. */
  function EncodeStats(s: PlayStats): (r: Fields)
    ensures HasStats(r) && StatsOf(r) == s
    ensures forall f :: f in r <==> IsStatField(f)
  {
    WithStats(map[], s)
  }
}
