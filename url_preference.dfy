/**
 * `get_display_url` of annotate-games.py: each collapsed game shows the url of
 * its most preferred platform, or its first url when it has none of them.
 */
module UrlPreference {
  import opened Wrappers
  import opened Seqs
  import opened Records
  import opened Stats
  import opened PlatformMerge
  import opened PlatformOrder

  /** `URL_PREFERENCE`: the platforms whose url is shown, best first. */
  const UrlPreferenceOrder: seq<string> := ["Steam", "PS5"]

  /** The first platform of `prefs` that the game has. */
  function FirstPreferred(prefs: seq<string>, platforms: seq<string>): (r: Option<string>)
    ensures r.Some? ==> r.value in prefs && r.value in platforms
    ensures r.None? ==> forall i :: 0 <= i < |prefs| ==> prefs[i] !in platforms
  {
    if prefs == [] then None
    else if prefs[0] in platforms then Some(prefs[0])
    else FirstPreferred(prefs[1..], platforms)
  }

  /** The game has a platform at least one slot long, so `urls[0]` exists. */
  predicate Displayable(s: PlayStats) {
    Aligned(s) && |s.platforms| > 0
  }

  /** The url `get_display_url` picks for one game. */
  function DisplayUrlOf(s: PlayStats): (u: string)
    requires Displayable(s)
    ensures u in s.urls
  {
    match FirstPreferred(UrlPreferenceOrder, s.platforms)
    case Some(p) => s.urls[IndexOf(s.platforms, p)]
    case None => s.urls[0]
  }

  /** The url of the Steam slot when the game has one, else that of the PS5 slot, else the first url. */
  lemma DisplayUrlChoice(s: PlayStats)
    requires Displayable(s)
    ensures "Steam" in s.platforms ==> DisplayUrlOf(s) == SlotOf(s, "Steam").value.url
    ensures "Steam" !in s.platforms && "PS5" in s.platforms ==> DisplayUrlOf(s) == SlotOf(s, "PS5").value.url
    ensures "Steam" !in s.platforms && "PS5" !in s.platforms ==> DisplayUrlOf(s) == s.urls[0]
  {
    var prefs := UrlPreferenceOrder;
    assert prefs[0] == "Steam" && prefs[1..] == ["PS5"] && prefs[1..][1..] == [];
    if "Steam" in s.platforms {
      assert FirstPreferred(prefs, s.platforms) == Some("Steam");
    } else if "PS5" in s.platforms {
      assert FirstPreferred(prefs, s.platforms) == FirstPreferred(["PS5"], s.platforms) == Some("PS5");
    } else {
      assert FirstPreferred(prefs, s.platforms) == FirstPreferred(["PS5"], s.platforms) == None;
    }
  }

  /**
   * Ordering the platforms afterwards does not change which url a game with a
   * preferred platform shows: the slot travels with its platform.
   */
  lemma DisplayUrlOrdered(s: PlayStats)
    requires Valid(s) && ("Steam" in s.platforms || "PS5" in s.platforms)
    ensures Displayable(OrderStats(s))
    ensures DisplayUrlOf(OrderStats(s)) == DisplayUrlOf(s)
  {
    OrderStatsProps(s);
    DisplayUrlChoice(s);
    DisplayUrlChoice(OrderStats(s));
    assert SlotOf(OrderStats(s), "Steam") == SlotOf(s, "Steam");
    assert SlotOf(OrderStats(s), "PS5") == SlotOf(s, "PS5");
  }

  /** Every game record carries statistics with at least one platform. */
  predicate AllDisplayable(games: map<string, Fields>) {
    forall k :: k in games ==> HasStats(games[k]) && Displayable(StatsOf(games[k]))
  }

  /** One game's record with its `displayUrl` written. */
  function WithDisplayUrl(entry: Fields): Fields
    requires HasStats(entry) && Displayable(StatsOf(entry))
  {
    entry[DisplayUrl := Text(DisplayUrlOf(StatsOf(entry)))]
  }

  /** The body of `get_display_url`'s loop for one game: the loop over the preferred platforms, then the fallback. */
  method PickDisplayUrl(entry: Fields) returns (displayUrl: string)
    requires HasStats(entry) && Displayable(StatsOf(entry))
    ensures displayUrl == DisplayUrlOf(StatsOf(entry))
  {
    var platforms, urls := entry[Platforms].texts, entry[Urls].texts;
    assert platforms == StatsOf(entry).platforms && urls == StatsOf(entry).urls;
    ghost var wanted := DisplayUrlOf(StatsOf(entry));
    displayUrl := "";
    var found := false;
    for i := 0 to |UrlPreferenceOrder|
      invariant !found ==> FirstPreferred(UrlPreferenceOrder[i..], platforms) == FirstPreferred(UrlPreferenceOrder, platforms)
      invariant found ==> displayUrl == wanted
    {
      assert UrlPreferenceOrder[i..][1..] == UrlPreferenceOrder[i + 1..];
      var platform := UrlPreferenceOrder[i];
      if platform in platforms {
        var idx := IndexOf(platforms, platform);
        displayUrl := urls[idx];
        found := true;
        break;
      }
    }
    if !found {
      displayUrl := urls[0];
    }
  }

  /** `get_display_url`: every game gets the url of its most preferred platform. */
  method GetDisplayUrl(games: map<string, Fields>) returns (shown: map<string, Fields>)
    requires AllDisplayable(games)
    ensures shown == map k | k in games :: WithDisplayUrl(games[k])
  {
    shown := games;
    var todo := games.Keys;
    while todo != {}
      invariant todo <= games.Keys
      invariant shown.Keys == games.Keys
      invariant forall k :: k in shown ==> shown[k] == if k in todo then games[k] else WithDisplayUrl(games[k])
      decreases todo
    {
      var game :| game in todo;
      var entry := games[game];
      var displayUrl := PickDisplayUrl(entry);
      shown := shown[game := entry[DisplayUrl := Text(displayUrl)]];
      todo := todo - {game};
    }
  }
}
