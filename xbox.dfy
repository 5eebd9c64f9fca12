/**
 * The record shaping of xbox-scraper.py: the title history is filtered down to
 * the games that have been played, then turned into one platform record per
 * `titleId`, repeated titles being combined.
 */
module Xbox {
  import opened Wrappers
  import opened Dates
  import opened Seqs
  import opened PlatformMerge

  /** The `titleHistory` object of a title; `None` stands for a missing or empty `lastTimePlayed`. */
  datatype TitleHistory = TitleHistory(lastTimePlayed: Option<Date>)

  /** One title of the title history; `None` stands for a missing or empty `titleHistory`. */
  datatype XboxGame = XboxGame(titleId: string, name: string, titleHistory: Option<TitleHistory>)

  /** The test of `filter_played_games`. */
  predicate Played(g: XboxGame) {
    g.titleHistory.Some? && g.titleHistory.value.lastTimePlayed.Some?
  }

  /** The played games, in their original order. */
  function PlayedGames(games: seq<XboxGame>): seq<XboxGame> {
    if games == [] then []
    else
      var last := games[|games| - 1];
      PlayedGames(games[..|games| - 1]) + if Played(last) then [last] else []
  }

  /** `filter_played_games`, returning the excluded count it logs as well. */
  method FilterPlayedGames(games: seq<XboxGame>) returns (keep: seq<XboxGame>, nExcluded: nat)
    ensures keep == PlayedGames(games)
    ensures |keep| + nExcluded == |games|
  {
    keep := [];
    nExcluded := 0;
    for i := 0 to |games|
      invariant keep == PlayedGames(games[..i])
      invariant |keep| + nExcluded == i
    {
      assert games[..i + 1][..i] == games[..i];
      if !Played(games[i]) {
        nExcluded := nExcluded + 1;
        continue;
      }
      keep := keep + [games[i]];
    }
    assert games[..|games|] == games;
  }

  /** Exactly the played games are kept. */
  lemma {:induction false} PlayedGamesMembers(games: seq<XboxGame>)
    ensures forall g :: g in PlayedGames(games) <==> g in games && Played(g)
  {
    if games != [] {
      var init := games[..|games| - 1];
      PlayedGamesMembers(init);
      assert games == init + [games[|games| - 1]];
    }
  }

  /** Filtering commutes with concatenation: the kept games stay in their original order. */
  lemma {:induction false} PlayedGamesAppend(a: seq<XboxGame>, b: seq<XboxGame>)
    ensures PlayedGames(a + b) == PlayedGames(a) + PlayedGames(b)
  {
    if b != [] {
      var n := |b|;
      PlayedGamesAppend(a, b[..n - 1]);
      assert (a + b)[..|a + b| - 1] == a + b[..n - 1];
    } else {
      assert a + b == a;
    }
  }

  datatype XboxError = MismatchedDuplicate(titleId: string)

  /** The date of a played title. */
  function LastPlayed(g: XboxGame): Date
    requires Played(g)
  {
    g.titleHistory.value.lastTimePlayed.value
  }

  /** The object built for one played title: platform "Xbox", its titleId as id, an empty url. */
  function EntryOf(g: XboxGame, hours: real): PlatformEntry
    requires Played(g)
  {
    PlatformEntry(g.name, PlatformRecord("Xbox", g.titleId, "", hours, LastPlayed(g)))
  }

  /** `games_map`, and the order in which its keys were first inserted. */
  datatype GamesMap = GamesMap(byId: map<string, PlatformEntry>, order: seq<string>)

  /** One iteration of the loop of `convert_to_project_format`. */
  function ConvertStep(acc: GamesMap, g: XboxGame, playtime: map<string, real>): Result<GamesMap, XboxError>
    requires Played(g)
  {
    if g.titleId !in playtime then Success(acc)
    else
      var data := EntryOf(g, playtime[g.titleId]);
      if g.titleId in acc.byId then
        var existing := acc.byId[g.titleId];
        if existing.game != data.game || existing.record.platform != data.record.platform ||
           existing.record.id != data.record.id || existing.record.url != data.record.url
        then Failure(MismatchedDuplicate(g.titleId))
        else
          var combined := existing.record.(
            lastPlayed := MostRecent(existing.record.lastPlayed, data.record.lastPlayed),
            hoursPlayed := existing.record.hoursPlayed + data.record.hoursPlayed);
          Success(acc.(byId := acc.byId[g.titleId := existing.(record := combined)]))
      else Success(GamesMap(acc.byId[g.titleId := data], acc.order + [g.titleId]))
  }

  /** `games_map` is keyed by titleId and lists every key once, in insertion order. */
  predicate WellKeyed(acc: GamesMap) {
    && Enumerates(acc.order, acc.byId.Keys)
    && forall id :: id in acc.byId ==>
         acc.byId[id].record.id == id && acc.byId[id].record.platform == "Xbox" && acc.byId[id].record.url == ""
  }

  /** The loop of `convert_to_project_format` over the first `|games|` titles. */
  function ConvertAll(games: seq<XboxGame>, playtime: map<string, real>): (r: Result<GamesMap, XboxError>)
    requires forall i :: 0 <= i < |games| ==> Played(games[i])
    ensures r.Success? ==> WellKeyed(r.value)
  {
    if games == [] then Success(GamesMap(map[], []))
    else
      match ConvertAll(games[..|games| - 1], playtime)
      case Failure(e) => Failure(e)
      case Success(acc) => ConvertStep(acc, games[|games| - 1], playtime)
  }

  /** `list(games_map.values())`. */
  function Values(acc: GamesMap): (entries: seq<PlatformEntry>)
    requires WellKeyed(acc)
    ensures |entries| == |acc.order|
  {
    seq(|acc.order|, k requires 0 <= k < |acc.order| => acc.byId[acc.order[k]])
  }

  function ConvertSpec(games: seq<XboxGame>, playtime: map<string, real>): Result<seq<PlatformEntry>, XboxError>
    requires forall i :: 0 <= i < |games| ==> Played(games[i])
  {
    match ConvertAll(games, playtime)
    case Failure(e) => Failure(e)
    case Success(acc) => Success(Values(acc))
  }

  /** `convert_to_project_format`, filling `games_map` and updating repeated titles in place. */
  method ConvertToProjectFormat(filtered: seq<XboxGame>, playtime: map<string, real>)
    returns (r: Result<seq<PlatformEntry>, XboxError>)
    requires forall i :: 0 <= i < |filtered| ==> Played(filtered[i])
    ensures r == ConvertSpec(filtered, playtime)
  {
    var gamesMap: map<string, PlatformEntry> := map[];
    var order: seq<string> := [];
    for i := 0 to |filtered|
      invariant ConvertAll(filtered[..i], playtime) == Success(GamesMap(gamesMap, order))
    {
      assert filtered[..i + 1][..i] == filtered[..i];
      var game := filtered[i];
      if game.titleId !in playtime {
        continue;
      }
      var lastPlayed := game.titleHistory.value.lastTimePlayed.value;
      var hours := playtime[game.titleId];
      var data := PlatformEntry(game.name, PlatformRecord("Xbox", game.titleId, "", hours, lastPlayed));
      if game.titleId in gamesMap {
        var existing := gamesMap[game.titleId];
        if existing.game != data.game || existing.record.platform != data.record.platform ||
           existing.record.id != data.record.id || existing.record.url != data.record.url {
          FailureSticks(filtered, i + 1, playtime);
          return Failure(MismatchedDuplicate(game.titleId));
        }
        existing := existing.(record := existing.record.(lastPlayed := MostRecent(existing.record.lastPlayed, lastPlayed)));
        existing := existing.(record := existing.record.(hoursPlayed := existing.record.hoursPlayed + hours));
        gamesMap := gamesMap[game.titleId := existing];
      } else {
        gamesMap := gamesMap[game.titleId := data];
        order := order + [game.titleId];
      }
    }
    assert filtered[..|filtered|] == filtered;
    var values := ListValues(GamesMap(gamesMap, order));
    return Success(values);
  }

  /** Once the loop has failed, the rest of the titles do not change the outcome. */
  lemma {:induction false} FailureSticks(games: seq<XboxGame>, i: nat, playtime: map<string, real>)
    requires forall j :: 0 <= j < |games| ==> Played(games[j])
    requires i <= |games| && ConvertAll(games[..i], playtime).Failure?
    ensures ConvertAll(games, playtime) == ConvertAll(games[..i], playtime)
  {
    if i < |games| {
      var init := games[..|games| - 1];
      assert init[..i] == games[..i];
      FailureSticks(init, i, playtime);
    } else {
      assert games[..i] == games;
    }
  }

  /** `list(games_map.values())`, walking the keys in insertion order. */
  method ListValues(acc: GamesMap) returns (values: seq<PlatformEntry>)
    requires WellKeyed(acc)
    ensures values == Values(acc)
  {
    values := [];
    for k := 0 to |acc.order|
      invariant values == Values(acc)[..k]
    {
      values := values + [acc.byId[acc.order[k]]];
    }
    assert Values(acc)[..|acc.order|] == Values(acc);
  }

  /** The titleIds of the titles, in order. */
  function Ids(games: seq<XboxGame>): (ids: seq<string>)
    ensures |ids| == |games|
    ensures forall i :: 0 <= i < |games| ==> ids[i] == games[i].titleId
  {
    seq(|games|, i requires 0 <= i < |games| => games[i].titleId)
  }

  /** How many titles carry `id`. */
  function Count(games: seq<XboxGame>, id: string): nat {
    if games == [] then 0
    else Count(games[..|games| - 1], id) + if games[|games| - 1].titleId == id then 1 else 0
  }

  /** The last-played dates of the titles carrying `id`, in order. */
  function DatesOf(games: seq<XboxGame>, id: string): seq<Date>
    requires forall i :: 0 <= i < |games| ==> Played(games[i])
  {
    if games == [] then []
    else DatesOf(games[..|games| - 1], id) + if games[|games| - 1].titleId == id then [LastPlayed(games[|games| - 1])] else []
  }

  /** Titles with the same titleId and a playtime entry all have the same name. */
  ghost predicate NamesAgree(games: seq<XboxGame>, playtime: map<string, real>) {
    forall i, j :: 0 <= i < j < |games| && games[i].titleId == games[j].titleId && games[i].titleId in playtime ==>
      games[i].name == games[j].name
  }

  lemma IdsSnoc(games: seq<XboxGame>)
    requires games != []
    ensures Ids(games) == Ids(games[..|games| - 1]) + [games[|games| - 1].titleId]
  {
  }

  lemma {:induction false} AbsentId(games: seq<XboxGame>, id: string)
    requires forall i :: 0 <= i < |games| ==> Played(games[i])
    requires id !in Ids(games)
    ensures Count(games, id) == 0 && DatesOf(games, id) == []
  {
    if games != [] {
      IdsSnoc(games);
      AbsentId(games[..|games| - 1], id);
    }
  }

  /** The converted titleIds are exactly those with a playtime entry; the others are skipped. */
  lemma {:induction false} ConvertKeys(games: seq<XboxGame>, playtime: map<string, real>)
    requires forall i :: 0 <= i < |games| ==> Played(games[i])
    ensures ConvertAll(games, playtime).Success? ==>
              ConvertAll(games, playtime).value.byId.Keys == set id | id in Ids(games) && id in playtime
  {
    if games != [] && ConvertAll(games, playtime).Success? {
      IdsSnoc(games);
      ConvertKeys(games[..|games| - 1], playtime);
    }
  }

  /** A converted titleId occurs among the titles and has a playtime entry. */
  lemma ConvertedId(games: seq<XboxGame>, playtime: map<string, real>, id: string)
    requires forall i :: 0 <= i < |games| ==> Played(games[i])
    requires ConvertAll(games, playtime).Success? && id in ConvertAll(games, playtime).value.byId
    ensures id in Ids(games) && id in playtime
  {
    ConvertKeys(games, playtime);
  }

  /** The entry of a converted titleId carries the name of its first title. */
  lemma {:induction false} ConvertEntryName(games: seq<XboxGame>, playtime: map<string, real>, id: string)
    requires forall i :: 0 <= i < |games| ==> Played(games[i])
    requires ConvertAll(games, playtime).Success? && id in ConvertAll(games, playtime).value.byId
    ensures id in Ids(games)
    ensures ConvertAll(games, playtime).value.byId[id].game == games[IndexOf(Ids(games), id)].name
  {
    ConvertedId(games, playtime, id);
    var n := |games|;
    var init := games[..n - 1];
    IdsSnoc(games);
    IndexOfAppend(Ids(init), games[n - 1].titleId, id);
    if id in ConvertAll(init, playtime).value.byId {
      ConvertEntryName(init, playtime, id);
      ConvertedId(init, playtime, id);
      assert games[IndexOf(Ids(games), id)] == init[IndexOf(Ids(init), id)];
    } else {
      ConvertKeys(init, playtime);
    }
  }

  /** The hours of a converted titleId are its playtime counted once per title carrying it. */
  lemma {:induction false} ConvertEntryHours(games: seq<XboxGame>, playtime: map<string, real>, id: string)
    requires forall i :: 0 <= i < |games| ==> Played(games[i])
    requires ConvertAll(games, playtime).Success? && id in ConvertAll(games, playtime).value.byId
    ensures id in playtime
    ensures ConvertAll(games, playtime).value.byId[id].record.hoursPlayed == Repeated(playtime[id], Count(games, id))
  {
    ConvertedId(games, playtime, id);
    var n := |games|;
    var init := games[..n - 1];
    var acc := ConvertAll(init, playtime).value;
    assert ConvertAll(games, playtime) == ConvertStep(acc, games[n - 1], playtime);
    if id in acc.byId {
      ConvertEntryHours(init, playtime, id);
      var c := Count(init, id);
      if games[n - 1].titleId == id {
        assert Count(games, id) == c + 1;
        assert Repeated(playtime[id], c + 1) == Repeated(playtime[id], c) + playtime[id];
      } else {
        assert Count(games, id) == c;
      }
    } else {
      ConvertKeys(init, playtime);
      IdsSnoc(games);
      AbsentId(init, id);
    }
  }

  /** `h` added to itself `n` times. */
  function Repeated(h: real, n: nat): (r: real)
    ensures r == (n as real) * h
  {
    if n == 0 then 0.0 else Repeated(h, n - 1) + h
  }

  /** The date of a converted titleId is the latest date of the titles carrying it. */
  lemma {:induction false} ConvertEntryDate(games: seq<XboxGame>, playtime: map<string, real>, id: string)
    requires forall i :: 0 <= i < |games| ==> Played(games[i])
    requires ConvertAll(games, playtime).Success? && id in ConvertAll(games, playtime).value.byId
    ensures IsLatest(ConvertAll(games, playtime).value.byId[id].record.lastPlayed, DatesOf(games, id))
  {
    ConvertedId(games, playtime, id);
    var n := |games|;
    var init := games[..n - 1];
    var ds := DatesOf(init, id);
    var d := ConvertAll(games, playtime).value.byId[id].record.lastPlayed;
    if id in ConvertAll(init, playtime).value.byId {
      ConvertEntryDate(init, playtime, id);
      if games[n - 1].titleId == id && id in playtime {
        var k :| 0 <= k < |ds| && ds[k] == ConvertAll(init, playtime).value.byId[id].record.lastPlayed;
        assert DatesOf(games, id) == ds + [LastPlayed(games[n - 1])];
        assert d in DatesOf(games, id) by {
          if d == LastPlayed(games[n - 1]) {
            assert DatesOf(games, id)[|ds|] == d;
          } else {
            assert DatesOf(games, id)[k] == d;
          }
        }
      }
    } else {
      ConvertKeys(init, playtime);
      IdsSnoc(games);
      AbsentId(init, id);
      assert DatesOf(games, id) == [d];
    }
  }

  /** The entries come out in the order their titleIds are first seen. */
  lemma {:induction false} ConvertOrder(games: seq<XboxGame>, playtime: map<string, real>)
    requires forall i :: 0 <= i < |games| ==> Played(games[i])
    requires ConvertAll(games, playtime).Success?
    ensures var order := ConvertAll(games, playtime).value.order;
            forall k1, k2 :: 0 <= k1 < k2 < |order| ==>
              order[k1] in Ids(games) && order[k2] in Ids(games) &&
              IndexOf(Ids(games), order[k1]) < IndexOf(Ids(games), order[k2])
  {
    if games != [] {
      var n := |games|;
      var init := games[..n - 1];
      var last := games[n - 1];
      IdsSnoc(games);
      ConvertOrder(init, playtime);
      ConvertKeys(init, playtime);
      ConvertKeys(games, playtime);
      var order := ConvertAll(games, playtime).value.order;
      var before := ConvertAll(init, playtime).value.order;
      forall k | 0 <= k < |before|
        ensures before[k] in Ids(init) && IndexOf(Ids(games), before[k]) == IndexOf(Ids(init), before[k])
      {
        assert before[k] in ConvertAll(init, playtime).value.byId;
        IndexOfAppend(Ids(init), last.titleId, before[k]);
      }
      if |order| > |before| {
        IndexOfAppend(Ids(init), last.titleId, last.titleId);
      }
    }
  }

  /** The conversion fails exactly when two titles with one titleId and a playtime entry differ in name. */
  lemma {:induction false} ConvertFailure(games: seq<XboxGame>, playtime: map<string, real>)
    requires forall i :: 0 <= i < |games| ==> Played(games[i])
    ensures ConvertAll(games, playtime).Success? <==> NamesAgree(games, playtime)
  {
    if games != [] {
      var n := |games|;
      var init := games[..n - 1];
      var last := games[n - 1];
      ConvertFailure(init, playtime);
      IdsSnoc(games);
      if ConvertAll(init, playtime).Success? {
        var before := ConvertAll(init, playtime).value;
        ConvertKeys(init, playtime);
        if last.titleId in before.byId {
          ConvertEntryName(init, playtime, last.titleId);
          var k := IndexOf(Ids(init), last.titleId);
          assert games[k] == init[k];
          if init[k].name == last.name {
            NamesAgreeSnoc(games, playtime);
          }
        } else {
          NamesAgreeSnoc(games, playtime);
        }
      } else {
        var i, j :| 0 <= i < j < n - 1 && init[i].titleId == init[j].titleId &&
                    init[i].titleId in playtime && init[i].name != init[j].name;
        assert games[i] == init[i] && games[j] == init[j];
      }
    }
  }

  /** A title whose id first occurs with its own name keeps the names in agreement. */
  lemma NamesAgreeSnoc(games: seq<XboxGame>, playtime: map<string, real>)
    requires games != []
    requires NamesAgree(games[..|games| - 1], playtime)
    requires var init := games[..|games| - 1];
             var last := games[|games| - 1];
             last.titleId in playtime && last.titleId in Ids(init) ==>
               init[IndexOf(Ids(init), last.titleId)].name == last.name
    ensures NamesAgree(games, playtime)
  {
    var n := |games|;
    var init := games[..n - 1];
    forall i, j | 0 <= i < j < n && games[i].titleId == games[j].titleId && games[i].titleId in playtime
      ensures games[i].name == games[j].name
    {
      assert init[i] == games[i];
      if j == n - 1 {
        var k := IndexOf(Ids(init), games[j].titleId);
        assert init[k] == games[k];
        assert k < i || k == i || i < k;
      } else {
        assert init[j] == games[j];
      }
    }
  }

  /** The converted list passes the id-uniqueness check of merge-platforms.py. */
  lemma ConvertedParses(games: seq<XboxGame>, playtime: map<string, real>)
    requires forall i :: 0 <= i < |games| ==> Played(games[i])
    ensures ConvertSpec(games, playtime).Success? ==> ParsePlatformEntries(ConvertSpec(games, playtime).value).Success?
  {
    if ConvertSpec(games, playtime).Success? {
      var acc := ConvertAll(games, playtime).value;
      var entries := Values(acc);
      forall i, j | 0 <= i < j < |entries| ensures IdsOf(entries)[i] != IdsOf(entries)[j] {
        assert entries[i].record.id == acc.order[i];
      }
    }
  }
}
