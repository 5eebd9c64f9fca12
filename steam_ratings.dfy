/**
 * merge-games.py: the Steam games list and the manual ratings list are keyed by
 * name and inner-joined, the ratings' fields winning on a clash.
 */
module SteamRatings {
  import opened Seqs
  import opened Records

  /** Every object of the ratings file has a `rating` field, possibly `null`. */
  predicate AllHaveRating(entries: seq<Fields>) {
    forall i :: 0 <= i < |entries| ==> Rating in entries[i]
  }

  /** The ratings objects whose `rating` is not `null`, in file order. */
  function RatedEntries(entries: seq<Fields>): (rated: seq<Fields>)
    requires AllHaveRating(entries)
    ensures |rated| <= |entries|
    ensures AllNamed(entries) ==> AllNamed(rated)
  {
    if entries == [] then []
    else
      var init := entries[..|entries| - 1];
      var last := entries[|entries| - 1];
      assert forall i :: 0 <= i < |init| ==> init[i] == entries[i];
      RatedEntries(init) + if last[Rating] != Null then [last] else []
  }

  /** Exactly the objects whose `rating` is not `null` are kept. */
  lemma {:induction false} RatedEntriesMembers(entries: seq<Fields>)
    requires AllHaveRating(entries)
    ensures forall e :: e in RatedEntries(entries) <==> e in entries && e[Rating] != Null
  {
    if entries != [] {
      var n := |entries|;
      RatedEntriesMembers(entries[..n - 1]);
      assert entries == entries[..n - 1] + [entries[n - 1]];
    }
  }

  /** Filtering commutes with concatenation: the rated objects stay in file order. */
  lemma {:induction false} RatedEntriesAppend(a: seq<Fields>, b: seq<Fields>)
    requires AllHaveRating(a) && AllHaveRating(b)
    ensures AllHaveRating(a + b)
    ensures RatedEntries(a + b) == RatedEntries(a) + RatedEntries(b)
  {
    if b == [] {
      assert a + b == a;
    } else {
      var n := |b|;
      var last := b[n - 1];
      RatedEntriesAppend(a, b[..n - 1]);
      assert (a + b)[..|a + b| - 1] == a + b[..n - 1];
      assert (a + b)[|a + b| - 1] == last;
      var tail := if last[Rating] != Null then [last] else [];
      assert RatedEntries(b) == RatedEntries(b[..n - 1]) + tail;
      assert RatedEntries(a + b) == RatedEntries(a + b[..n - 1]) + tail;
    }
  }

  /**
   * Of the rated objects sharing a name, the ratings parse keeps the last one
   * in file order.
   */
  lemma {:induction false} RatedLastKept(entries: seq<Fields>, i: nat)
    requires AllNamed(entries) && AllHaveRating(entries)
    requires i < |entries| && entries[i][Rating] != Null
    requires forall j :: i < j < |entries| && entries[j][Rating] != Null ==> NameOf(entries[j]) != NameOf(entries[i])
    ensures NameOf(entries[i]) in KeyByGame(RatedEntries(entries))
    ensures KeyByGame(RatedEntries(entries))[NameOf(entries[i])] == entries[i]
  {
    var n := |entries|;
    var init, last := entries[..n - 1], entries[n - 1];
    var before := RatedEntries(init);
    if last[Rating] != Null {
      assert RatedEntries(entries) == before + [last];
      KeyByGameSnoc(before, last);
    } else {
      assert RatedEntries(entries) == before;
    }
    if i < n - 1 {
      assert init[i] == entries[i];
      RatedLastKept(init, i);
    }
  }

  /** `parse_ratings_file` after the file has been read: drop the unrated, key by name, drop `game`. */
  method ParseRatingsFile(entries: seq<Fields>) returns (ratings: map<string, Fields>)
    requires AllNamed(entries) && AllHaveRating(entries)
    ensures ratings == DropGameField(KeyByGame(RatedEntries(entries)))
  {
    var rated := RatedEntries(entries);
    ratings := DeleteGameFields(KeyByGame(rated));
  }

  /** `parse_steam_file` after the file has been read: key by name, drop `game`. */
  method ParseSteamFile(entries: seq<Fields>) returns (steam: map<string, Fields>)
    requires AllNamed(entries)
    ensures steam == DropGameField(KeyByGame(entries))
  {
    steam := DeleteGameFields(KeyByGame(entries));
  }

  /** `merge_steam_ratings`: parse both lists, then join Steam (left) with the ratings (right). */
  method MergeSteamRatings(steamEntries: seq<Fields>, ratingEntries: seq<Fields>)
    returns (merged: map<string, Fields>)
    requires AllNamed(steamEntries) && AllNamed(ratingEntries) && AllHaveRating(ratingEntries)
    ensures merged == InnerJoin(DropGameField(KeyByGame(steamEntries)),
                                DropGameField(KeyByGame(RatedEntries(ratingEntries))))
  {
    var steam := ParseSteamFile(steamEntries);
    var ratings := ParseRatingsFile(ratingEntries);
    var order;
    merged, order := InnerJoinDicts(steam, ratings);
  }

  /** A name is kept by the ratings parse when some object with that name has a non-null rating. */
  lemma RatedName(entries: seq<Fields>, k: string)
    requires AllNamed(entries) && AllHaveRating(entries)
    ensures k in NameSet(RatedEntries(entries)) <==>
              exists i :: 0 <= i < |entries| && NameOf(entries[i]) == k && entries[i][Rating] != Null
  {
    var rated := RatedEntries(entries);
    RatedEntriesMembers(entries);
    if k in NameSet(rated) {
      var i :| 0 <= i < |rated| && NameOf(rated[i]) == k;
      assert rated[i] in entries;
    }
    if exists i :: 0 <= i < |entries| && NameOf(entries[i]) == k && entries[i][Rating] != Null {
      var i :| 0 <= i < |entries| && NameOf(entries[i]) == k && entries[i][Rating] != Null;
      assert entries[i] in rated;
    }
  }

  /**
   * The merged games are those named in the Steam list and by some rated
   * ratings object; each carries a non-null rating, taken from a rated object
   * with its name, and no `game` field.
   */
  lemma MergeSteamRatingsSpec(steamEntries: seq<Fields>, ratingEntries: seq<Fields>, k: string)
    requires AllNamed(steamEntries) && AllNamed(ratingEntries) && AllHaveRating(ratingEntries)
    ensures var merged := InnerJoin(DropGameField(KeyByGame(steamEntries)),
                                    DropGameField(KeyByGame(RatedEntries(ratingEntries))));
            && (k in merged <==>
                  k in NameSet(steamEntries) &&
                  exists i :: 0 <= i < |ratingEntries| && NameOf(ratingEntries[i]) == k && ratingEntries[i][Rating] != Null)
            && (k in merged ==> Rating in merged[k] && merged[k][Rating] != Null && Game !in merged[k])
  {
    var rated := RatedEntries(ratingEntries);
    var ratings := KeyByGame(rated);
    KeyByGameKeys(steamEntries);
    KeyByGameKeys(rated);
    RatedName(ratingEntries, k);
    if k in ratings {
      KeyByGameFrom(rated, k);
      var i :| 0 <= i < |rated| && NameOf(rated[i]) == k && ratings[k] == rated[i];
      RatedEntriesMembers(ratingEntries);
      assert rated[i] in ratingEntries;
      assert ratings[k][Rating] != Null;
    }
  }
}
