/**
 * `collapse_by_display_name` of annotate-games.py: merged games that share a
 * `displayName` become one entry keyed by that name. The first entry of a group
 * is kept; each later one must agree with it on `rating` and `status`, and its
 * statistics and tags are folded into the kept entry.
 */
module Collapse {
  import opened Wrappers
  import opened Dates
  import opened Seqs
  import opened Records
  import opened Stats
  import opened TagOrder
  import opened PlatformMerge
  import opened CollapsePlatforms

  datatype CollapseError = RatingMismatch(name: string) | StatusMismatch(name: string)

  /** What the collapse reads from an entry: the statistics, `rating`, `status` and the tag list. */
  predicate Collapsible(e: Fields) {
    && HasStats(e) && Aligned(StatsOf(e))
    && Rating in e && Status in e && Tags in e && e[Tags].Texts?
  }

  /** An entry of the joined dictionary: collapsible, with a string `displayName` if it has one. */
  predicate Joined(e: Fields) {
    Collapsible(e) && (DisplayName in e ==> e[DisplayName].Text?)
  }

  /** `order` lists keys of `merged` whose entries can be collapsed. */
  predicate Covers(merged: map<string, Fields>, order: seq<string>) {
    forall i :: 0 <= i < |order| ==> order[i] in merged && Joined(merged[order[i]])
  }

  /** `game_data.get('displayName', original_game_name)`. */
  function DisplayKey(name: string, e: Fields): string
    requires DisplayName in e ==> e[DisplayName].Text?
  {
    if DisplayName in e then e[DisplayName].text else name
  }

  /** The kept entry after a collision: statistics collapsed, tags sorted and de-duplicated. */
  function CollapseEntries(existing: Fields, incoming: Fields): (r: Fields)
    requires Collapsible(existing) && Collapsible(incoming)
  {
    var s := CollapseStats(StatsOf(existing), StatsOf(incoming));
    WithStats(existing, s)[Tags := Texts(SortedUnique(existing[Tags].texts + incoming[Tags].texts))]
  }

  /** After a collision the entry can be collapsed again and holds the collapsed statistics. */
  lemma CollapseEntriesStats(existing: Fields, incoming: Fields)
    requires Collapsible(existing) && Collapsible(incoming)
    ensures Collapsible(CollapseEntries(existing, incoming))
    ensures StatsOf(CollapseEntries(existing, incoming)) == CollapseStats(StatsOf(existing), StatsOf(incoming))
  {
    var w := WithStats(existing, CollapseStats(StatsOf(existing), StatsOf(incoming)));
    assert StatsOf(w[Tags := CollapseEntries(existing, incoming)[Tags]]) == StatsOf(w);
  }

  /** A collision keeps one field of the kept entry that is neither a statistic nor the tags. */
  lemma CollapseEntriesField(existing: Fields, incoming: Fields, f: Field)
    requires Collapsible(existing) && Collapsible(incoming) && f != Tags && !IsStatField(f)
    ensures f in CollapseEntries(existing, incoming) <==> f in existing
    ensures f in existing ==> CollapseEntries(existing, incoming)[f] == existing[f]
  {
  }

  /** A collision keeps every field of the kept entry but the statistics and the tags. */
  lemma CollapseEntriesFields(existing: Fields, incoming: Fields)
    requires Collapsible(existing) && Collapsible(incoming)
    ensures Collapsible(CollapseEntries(existing, incoming))
    ensures StatsOf(CollapseEntries(existing, incoming)) == CollapseStats(StatsOf(existing), StatsOf(incoming))
    ensures forall f :: f != Tags && !IsStatField(f) ==>
              (f in CollapseEntries(existing, incoming) <==> f in existing) &&
              (f in existing ==> CollapseEntries(existing, incoming)[f] == existing[f])
  {
    CollapseEntriesStats(existing, incoming);
    forall f | f != Tags && !IsStatField(f)
      ensures f in CollapseEntries(existing, incoming) <==> f in existing
      ensures f in existing ==> CollapseEntries(existing, incoming)[f] == existing[f]
    {
      CollapseEntriesField(existing, incoming, f);
    }
  }

  /** After a collision the tags are the union of both entries' tags, in increasing order. */
  lemma CollapseEntriesTags(existing: Fields, incoming: Fields)
    requires Collapsible(existing) && Collapsible(incoming)
    ensures Tags in CollapseEntries(existing, incoming)
    ensures var tags := CollapseEntries(existing, incoming)[Tags];
            && tags.Texts?
            && Increasing(tags.texts)
            && Elements(tags.texts) == Elements(existing[Tags].texts) + Elements(incoming[Tags].texts)
  {
    var both := existing[Tags].texts + incoming[Tags].texts;
    assert CollapseEntries(existing, incoming)[Tags] == Texts(SortedUnique(both));
    assert forall t :: t in both <==> t in existing[Tags].texts || t in incoming[Tags].texts;
  }

  /** One iteration of the loop over the joined games. */
  function CollapseStep(acc: map<string, Fields>, name: string, e: Fields): Result<map<string, Fields>, CollapseError>
    requires forall k :: k in acc ==> Collapsible(acc[k])
    requires Joined(e)
  {
    var key := DisplayKey(name, e);
    var data := e - {DisplayName};
    if key !in acc then Success(acc[key := data])
    else
      var kept := acc[key];
      assert Collapsible(kept);
      if data[Rating] != kept[Rating] then Failure(RatingMismatch(key))
      else if data[Status] != kept[Status] then Failure(StatusMismatch(key))
      else Success(acc[key := CollapseEntries(kept, data)])
  }

  /** A step keeps every collapsed entry collapsible and free of `displayName`. */
  lemma CollapseStepKeeps(acc: map<string, Fields>, name: string, e: Fields)
    requires forall k :: k in acc ==> Collapsible(acc[k]) && DisplayName !in acc[k]
    requires Joined(e)
    ensures var r := CollapseStep(acc, name, e);
            r.Success? ==> forall k :: k in r.value ==> Collapsible(r.value[k]) && DisplayName !in r.value[k]
  {
    var key := DisplayKey(name, e);
    var data := e - {DisplayName};
    DropDisplayName(e);
    var r := CollapseStep(acc, name, e);
    if r.Success? {
      var v := if key in acc then CollapseEntries(acc[key], data) else data;
      if key in acc {
        CollapseEntriesStats(acc[key], data);
        CollapseEntriesField(acc[key], data, DisplayName);
      }
      assert r.value == acc[key := v];
      EntriesUpdate(acc, key, v);
    }
  }

  /** Removing `displayName` leaves what the collapse reads untouched. */
  lemma DropDisplayName(e: Fields)
    requires Collapsible(e)
    ensures Collapsible(e - {DisplayName}) && DisplayName !in e - {DisplayName}
    ensures StatsOf(e - {DisplayName}) == StatsOf(e)
    ensures forall f :: f != DisplayName && f in e ==> f in e - {DisplayName} && (e - {DisplayName})[f] == e[f]
  {
  }

  /** The collapse of the games listed in `order`, visited in that order. */
  function CollapseGames(merged: map<string, Fields>, order: seq<string>): (r: Result<map<string, Fields>, CollapseError>)
    requires Covers(merged, order)
    ensures r.Success? ==> forall k :: k in r.value ==> Collapsible(r.value[k]) && DisplayName !in r.value[k]
  {
    if order == [] then Success(map[])
    else
      var n := |order|;
      match CollapseGames(merged, order[..n - 1])
      case Failure(err) => Failure(err)
      case Success(acc) =>
        var e := merged[order[n - 1]];
        CollapseStepKeeps(acc, order[n - 1], e);
        CollapseStep(acc, order[n - 1], e)
  }

  /** Once a prefix fails, the whole collapse fails with the same error. */
  lemma {:induction false} FailureSticks(merged: map<string, Fields>, order: seq<string>, n: nat)
    requires Covers(merged, order) && n <= |order|
    requires CollapseGames(merged, order[..n]).Failure?
    ensures CollapseGames(merged, order) == CollapseGames(merged, order[..n])
    decreases |order| - n
  {
    if n < |order| {
      assert order[..n + 1][..n] == order[..n];
      FailureSticks(merged, order, n + 1);
    } else {
      assert order[..n] == order;
    }
  }

  /** The display key of the `i`-th listed game. */
  function KeyAt(merged: map<string, Fields>, order: seq<string>, i: nat): string
    requires Covers(merged, order) && i < |order|
  {
    DisplayKey(order[i], merged[order[i]])
  }

  /** The display keys of the listed games. */
  ghost function DisplayKeys(merged: map<string, Fields>, order: seq<string>): set<string>
    requires Covers(merged, order)
  {
    set i | 0 <= i < |order| :: KeyAt(merged, order, i)
  }

  /** Two listed games share a display key but not their rating or their status. */
  ghost predicate Conflicting(merged: map<string, Fields>, order: seq<string>)
    requires Covers(merged, order)
  {
    exists i, j :: 0 <= i < j < |order| && KeyAt(merged, order, i) == KeyAt(merged, order, j) &&
      (merged[order[i]][Rating] != merged[order[j]][Rating] || merged[order[i]][Status] != merged[order[j]][Status])
  }

  /** The hours totals of the listed games with display key `key`, summed. */
  function GroupHours(merged: map<string, Fields>, order: seq<string>, key: string): real
    requires Covers(merged, order)
  {
    if order == [] then 0.0
    else
      var n := |order|;
      var e := merged[order[n - 1]];
      GroupHours(merged, order[..n - 1], key) +
        (if DisplayKey(order[n - 1], e) == key then StatsOf(e).hoursPlayedTotal else 0.0)
  }

  /** The tags of the listed games with display key `key`. */
  ghost function GroupTags(merged: map<string, Fields>, order: seq<string>, key: string): set<string>
    requires Covers(merged, order)
  {
    set i, t | 0 <= i < |order| && KeyAt(merged, order, i) == key && t in merged[order[i]][Tags].texts :: t
  }

  /** Every listed entry's statistics are valid. */
  ghost predicate AllValidStats(merged: map<string, Fields>, order: seq<string>)
    requires Covers(merged, order)
  {
    forall i :: 0 <= i < |order| ==> Valid(StatsOf(merged[order[i]]))
  }

  lemma CoversPrefix(merged: map<string, Fields>, order: seq<string>, n: nat)
    requires Covers(merged, order) && n <= |order|
    ensures Covers(merged, order[..n])
    ensures forall i :: 0 <= i < n ==> order[..n][i] == order[i]
  {
  }

  /** Every collapsed entry can be collapsed further and has no `displayName`. */
  predicate Entries(acc: map<string, Fields>) {
    forall k :: k in acc ==> Collapsible(acc[k]) && DisplayName !in acc[k]
  }

  /** Each listed game's group holds that game's rating and status. */
  ghost predicate KeptAgree(merged: map<string, Fields>, order: seq<string>, acc: map<string, Fields>)
    requires Covers(merged, order)
  {
    forall i :: 0 <= i < |order| ==>
      var k := KeyAt(merged, order, i);
      k in acc && Rating in acc[k] && Status in acc[k] &&
      acc[k][Rating] == merged[order[i]][Rating] && acc[k][Status] == merged[order[i]][Status]
  }

  /** Each group's hours total is the sum of its games' totals. */
  ghost predicate HoursKept(merged: map<string, Fields>, order: seq<string>, acc: map<string, Fields>)
    requires Covers(merged, order)
  {
    forall k :: k in acc && HasStats(acc[k]) ==> StatsOf(acc[k]).hoursPlayedTotal == GroupHours(merged, order, k)
  }

  /** Each group's tags are the tags of its games. */
  ghost predicate TagsKept(merged: map<string, Fields>, order: seq<string>, acc: map<string, Fields>)
    requires Covers(merged, order)
  {
    forall k :: k in acc && Tags in acc[k] && acc[k][Tags].Texts? ==>
      Elements(acc[k][Tags].texts) == GroupTags(merged, order, k)
  }

  /** When every listed game's statistics are valid, so are every group's. */
  ghost predicate ValidKept(merged: map<string, Fields>, order: seq<string>, acc: map<string, Fields>)
    requires Covers(merged, order)
  {
    AllValidStats(merged, order) ==> forall k :: k in acc && HasStats(acc[k]) ==> Valid(StatsOf(acc[k]))
  }

  /**
   * The facts the loop keeps about the games collapsed so far: one key per
   * display name, each holding the rating and status of every game of its
   * group, valid statistics whose hours total is the group's, and the group's tags.
   */
  ghost predicate Collapsed(merged: map<string, Fields>, order: seq<string>, acc: map<string, Fields>)
    requires Covers(merged, order)
  {
    && acc.Keys == DisplayKeys(merged, order)
    && Entries(acc)
    && KeptAgree(merged, order, acc)
    && HoursKept(merged, order, acc)
    && TagsKept(merged, order, acc)
    && ValidKept(merged, order, acc)
  }

  /** Listing one more game adds its display key. */
  lemma DisplayKeysSnoc(merged: map<string, Fields>, order: seq<string>)
    requires Covers(merged, order) && order != []
    ensures Covers(merged, order[..|order| - 1])
    ensures DisplayKeys(merged, order) ==
              DisplayKeys(merged, order[..|order| - 1]) + {KeyAt(merged, order, |order| - 1)}
  {
    var n := |order|;
    CoversPrefix(merged, order, n - 1);
    var pre := order[..n - 1];
    forall k | k in DisplayKeys(merged, order)
      ensures k in DisplayKeys(merged, pre) + {KeyAt(merged, order, n - 1)}
    {
      var i :| 0 <= i < n && KeyAt(merged, order, i) == k;
      if i < n - 1 { assert KeyAt(merged, pre, i) == k; }
    }
    forall k | k in DisplayKeys(merged, pre) ensures k in DisplayKeys(merged, order) {
      var i :| 0 <= i < n - 1 && KeyAt(merged, pre, i) == k;
      assert KeyAt(merged, order, i) == k;
    }
  }

  /** A display key no listed game has gathers no hours. */
  lemma {:induction false} GroupHoursAbsent(merged: map<string, Fields>, order: seq<string>, key: string)
    requires Covers(merged, order) && key !in DisplayKeys(merged, order)
    ensures GroupHours(merged, order, key) == 0.0
  {
    if order != [] {
      DisplayKeysSnoc(merged, order);
      GroupHoursAbsent(merged, order[..|order| - 1], key);
    }
  }

  /** Listing one more game adds its tags to its own group and to no other. */
  lemma GroupTagsSnoc(merged: map<string, Fields>, order: seq<string>, key: string)
    requires Covers(merged, order) && order != []
    ensures Covers(merged, order[..|order| - 1])
    ensures GroupTags(merged, order, key) ==
              GroupTags(merged, order[..|order| - 1], key) +
              (if KeyAt(merged, order, |order| - 1) == key
               then Elements(merged[order[|order| - 1]][Tags].texts) else {})
  {
    var n := |order|;
    CoversPrefix(merged, order, n - 1);
    var pre := order[..n - 1];
    forall t | t in GroupTags(merged, order, key)
      ensures t in GroupTags(merged, pre, key) ||
              (KeyAt(merged, order, n - 1) == key && t in merged[order[n - 1]][Tags].texts)
    {
      var i :| 0 <= i < n && KeyAt(merged, order, i) == key && t in merged[order[i]][Tags].texts;
      if i < n - 1 { assert KeyAt(merged, pre, i) == key && t in merged[pre[i]][Tags].texts; }
    }
    forall t | t in GroupTags(merged, pre, key) ensures t in GroupTags(merged, order, key) {
      var i :| 0 <= i < n - 1 && KeyAt(merged, pre, i) == key && t in merged[pre[i]][Tags].texts;
      assert KeyAt(merged, order, i) == key && t in merged[order[i]][Tags].texts;
    }
    if KeyAt(merged, order, n - 1) == key {
      forall t | t in merged[order[n - 1]][Tags].texts ensures t in GroupTags(merged, order, key) {
        assert KeyAt(merged, order, n - 1) == key;
      }
    }
  }

  /** A display key no listed game has gathers no tags. */
  lemma GroupTagsAbsent(merged: map<string, Fields>, order: seq<string>, key: string)
    requires Covers(merged, order) && key !in DisplayKeys(merged, order)
    ensures GroupTags(merged, order, key) == {}
  {
    assert forall i :: 0 <= i < |order| ==> KeyAt(merged, order, i) in DisplayKeys(merged, order);
  }

  /**
   * Listing one more game makes a conflict exactly when there was one already
   * or an earlier game of the new game's group disagrees with it.
   */
  lemma ConflictingSnoc(merged: map<string, Fields>, order: seq<string>)
    requires Covers(merged, order) && order != []
    ensures Covers(merged, order[..|order| - 1])
    ensures Conflicting(merged, order) <==>
              Conflicting(merged, order[..|order| - 1]) ||
              exists i :: 0 <= i < |order| - 1 && KeyAt(merged, order, i) == KeyAt(merged, order, |order| - 1) &&
                (merged[order[i]][Rating] != merged[order[|order| - 1]][Rating] ||
                 merged[order[i]][Status] != merged[order[|order| - 1]][Status])
  {
    var n := |order|;
    CoversPrefix(merged, order, n - 1);
    var pre := order[..n - 1];
    if Conflicting(merged, pre) {
      var i, j :| 0 <= i < j < n - 1 && KeyAt(merged, pre, i) == KeyAt(merged, pre, j) &&
        (merged[pre[i]][Rating] != merged[pre[j]][Rating] || merged[pre[i]][Status] != merged[pre[j]][Status]);
      assert KeyAt(merged, order, i) == KeyAt(merged, order, j);
    }
    if Conflicting(merged, order) {
      var i, j :| 0 <= i < j < n && KeyAt(merged, order, i) == KeyAt(merged, order, j) &&
        (merged[order[i]][Rating] != merged[order[j]][Rating] || merged[order[i]][Status] != merged[order[j]][Status]);
      if j < n - 1 {
        assert KeyAt(merged, pre, i) == KeyAt(merged, pre, j);
      }
    }
  }

  /** The step that takes the game listed last. */
  function Next(merged: map<string, Fields>, order: seq<string>, acc: map<string, Fields>): Result<map<string, Fields>, CollapseError>
    requires Covers(merged, order) && order != [] && Entries(acc)
  {
    CollapseStep(acc, order[|order| - 1], merged[order[|order| - 1]])
  }

  /** A step fails exactly when the last game's group has another rating or status. */
  lemma NextFails(merged: map<string, Fields>, order: seq<string>, acc: map<string, Fields>)
    requires Covers(merged, order) && order != [] && Entries(acc)
    ensures var e := merged[order[|order| - 1]];
            var key := KeyAt(merged, order, |order| - 1);
            Next(merged, order, acc).Failure? <==>
              key in acc && (acc[key][Rating] != e[Rating] || acc[key][Status] != e[Status])
  {
  }

  /** Otherwise it adds the last game to its group. */
  lemma NextValue(merged: map<string, Fields>, order: seq<string>, acc: map<string, Fields>)
    requires Covers(merged, order) && order != [] && Entries(acc)
    requires Next(merged, order, acc).Success?
    ensures var e := merged[order[|order| - 1]];
            var key := KeyAt(merged, order, |order| - 1);
            Next(merged, order, acc).value ==
              acc[key := if key in acc then CollapseEntries(acc[key], e - {DisplayName}) else e - {DisplayName}]
  {
  }

  lemma KeysUpdate(merged: map<string, Fields>, order: seq<string>, acc: map<string, Fields>, v: Fields)
    requires Covers(merged, order) && order != [] && Covers(merged, order[..|order| - 1])
    requires acc.Keys == DisplayKeys(merged, order[..|order| - 1])
    ensures acc[KeyAt(merged, order, |order| - 1) := v].Keys == DisplayKeys(merged, order)
  {
    DisplayKeysSnoc(merged, order);
  }

  lemma AgreeUpdate(merged: map<string, Fields>, order: seq<string>, acc: map<string, Fields>, v: Fields)
    requires Covers(merged, order) && order != [] && Covers(merged, order[..|order| - 1])
    requires KeptAgree(merged, order[..|order| - 1], acc)
    requires var key := KeyAt(merged, order, |order| - 1);
             var e := merged[order[|order| - 1]];
             && Rating in v && Status in v && v[Rating] == e[Rating] && v[Status] == e[Status]
             && (key in acc ==> Rating in acc[key] && Status in acc[key] &&
                                acc[key][Rating] == e[Rating] && acc[key][Status] == e[Status])
    ensures KeptAgree(merged, order, acc[KeyAt(merged, order, |order| - 1) := v])
  {
    var n := |order|;
    var pre := order[..n - 1];
    var acc' := acc[KeyAt(merged, order, n - 1) := v];
    forall i | 0 <= i < n
      ensures var k := KeyAt(merged, order, i);
              k in acc' && Rating in acc'[k] && Status in acc'[k] &&
              acc'[k][Rating] == merged[order[i]][Rating] && acc'[k][Status] == merged[order[i]][Status]
    {
      if i < n - 1 {
        assert KeyAt(merged, pre, i) == KeyAt(merged, order, i) && pre[i] == order[i];
      }
    }
  }

  lemma HoursUpdate(merged: map<string, Fields>, order: seq<string>, acc: map<string, Fields>, v: Fields)
    requires Covers(merged, order) && order != [] && Covers(merged, order[..|order| - 1])
    requires HoursKept(merged, order[..|order| - 1], acc)
    requires var key := KeyAt(merged, order, |order| - 1);
             HasStats(v) && StatsOf(v).hoursPlayedTotal ==
               GroupHours(merged, order[..|order| - 1], key) + StatsOf(merged[order[|order| - 1]]).hoursPlayedTotal
    ensures HoursKept(merged, order, acc[KeyAt(merged, order, |order| - 1) := v])
  {
  }

  lemma TagsUpdate(merged: map<string, Fields>, order: seq<string>, acc: map<string, Fields>, v: Fields)
    requires Covers(merged, order) && order != [] && Covers(merged, order[..|order| - 1])
    requires TagsKept(merged, order[..|order| - 1], acc)
    requires var key := KeyAt(merged, order, |order| - 1);
             Tags in v && v[Tags].Texts? &&
             Elements(v[Tags].texts) ==
               GroupTags(merged, order[..|order| - 1], key) + Elements(merged[order[|order| - 1]][Tags].texts)
    ensures TagsKept(merged, order, acc[KeyAt(merged, order, |order| - 1) := v])
  {
    var acc': map<string, Fields> := acc[KeyAt(merged, order, |order| - 1) := v];
    forall k: string | k in acc' && Tags in acc'[k] && acc'[k][Tags].Texts?
      ensures Elements(acc'[k][Tags].texts) == GroupTags(merged, order, k)
    {
      GroupTagsSnoc(merged, order, k);
    }
  }

  lemma ValidUpdate(merged: map<string, Fields>, order: seq<string>, acc: map<string, Fields>, v: Fields)
    requires Covers(merged, order) && order != [] && Covers(merged, order[..|order| - 1])
    requires ValidKept(merged, order[..|order| - 1], acc)
    requires AllValidStats(merged, order) ==> HasStats(v) && Valid(StatsOf(v))
    ensures ValidKept(merged, order, acc[KeyAt(merged, order, |order| - 1) := v])
  {
    var n := |order|;
    var pre := order[..n - 1];
    if AllValidStats(merged, order) {
      assert AllValidStats(merged, pre) by {
        forall i | 0 <= i < n - 1 ensures Valid(StatsOf(merged[pre[i]])) {
          assert pre[i] == order[i];
        }
      }
    }
  }

  /** A collision keeps the group's rating and status and adds the hours totals. */
  lemma CollideKeeps(kept: Fields, data: Fields, v: Fields)
    requires Collapsible(kept) && Collapsible(data) && v == CollapseEntries(kept, data)
    ensures && Collapsible(v)
            && v[Rating] == kept[Rating] && v[Status] == kept[Status]
            && StatsOf(v).hoursPlayedTotal == StatsOf(kept).hoursPlayedTotal + StatsOf(data).hoursPlayedTotal
  {
    CollapseEntriesStats(kept, data);
    CollapseEntriesField(kept, data, Rating);
    CollapseEntriesField(kept, data, Status);
  }

  /** A collision unites the tags. */
  lemma CollideTags(kept: Fields, data: Fields, v: Fields)
    requires Collapsible(kept) && Collapsible(data) && v == CollapseEntries(kept, data)
    ensures Tags in v && v[Tags].Texts?
    ensures Elements(v[Tags].texts) == Elements(kept[Tags].texts) + Elements(data[Tags].texts)
  {
    CollapseEntriesTags(kept, data);
  }

  /** A collision of valid statistics gives valid statistics. */
  lemma CollideValid(kept: Fields, data: Fields, v: Fields)
    requires Collapsible(kept) && Collapsible(data) && v == CollapseEntries(kept, data)
    requires Valid(StatsOf(kept)) && Valid(StatsOf(data))
    ensures HasStats(v) && Valid(StatsOf(v))
  {
    CollapseEntriesStats(kept, data);
    CollapseStatsProps(StatsOf(kept), StatsOf(data));
  }

  /** What a collision hands to the loop's invariant. */
  lemma CollideFacts(kept: Fields, e: Fields)
    requires Collapsible(kept) && Joined(e)
    ensures var v := CollapseEntries(kept, e - {DisplayName});
            && Collapsible(v)
            && v[Rating] == kept[Rating] && v[Status] == kept[Status]
            && StatsOf(v).hoursPlayedTotal == StatsOf(kept).hoursPlayedTotal + StatsOf(e).hoursPlayedTotal
            && Elements(v[Tags].texts) == Elements(kept[Tags].texts) + Elements(e[Tags].texts)
            && (Valid(StatsOf(kept)) && Valid(StatsOf(e)) ==> Valid(StatsOf(v)))
  {
    var data := e - {DisplayName};
    var v := CollapseEntries(kept, data);
    DropDisplayName(e);
    assert data[Tags] == e[Tags];
    CollideKeeps(kept, data, v);
    CollideTags(kept, data, v);
    if Valid(StatsOf(kept)) && Valid(StatsOf(e)) {
      CollideValid(kept, data, v);
    }
  }

  /** The last game listed, with its own key and valid statistics when all listed games' are. */
  lemma LastGame(merged: map<string, Fields>, order: seq<string>)
    requires Covers(merged, order) && order != []
    ensures Covers(merged, order[..|order| - 1])
    ensures var e := merged[order[|order| - 1]];
            AllValidStats(merged, order) ==> Valid(StatsOf(e))
  {
    CoversPrefix(merged, order, |order| - 1);
  }

  /**
   * The collapse fails exactly when two games of one display name disagree on
   * rating or status; otherwise it holds one entry per display name, with its
   * group's rating and status, the sum of its group's hours, the union of its
   * group's tags, no `displayName` field, and valid statistics when every
   * game's were.
   */
  lemma {:induction false} CollapseProps(merged: map<string, Fields>, order: seq<string>)
    requires Covers(merged, order)
    ensures CollapseGames(merged, order).Failure? <==> Conflicting(merged, order)
    ensures CollapseGames(merged, order).Success? ==> Collapsed(merged, order, CollapseGames(merged, order).value)
  {
    if order != [] {
      var n := |order|;
      var pre := order[..n - 1];
      LastGame(merged, order);
      CollapseProps(merged, pre);
      ConflictingSnoc(merged, order);
      if CollapseGames(merged, pre).Success? {
        var acc := CollapseGames(merged, pre).value;
        NextFacts(merged, order, acc);
      }
    } else {
      assert !Conflicting(merged, order);
    }
  }

  /** The step from the games before the last one to all of them. */
  lemma NextFacts(merged: map<string, Fields>, order: seq<string>, acc: map<string, Fields>)
    requires Covers(merged, order) && order != [] && Covers(merged, order[..|order| - 1])
    requires Collapsed(merged, order[..|order| - 1], acc)
    ensures Next(merged, order, acc).Failure? <==>
              exists i :: 0 <= i < |order| - 1 && KeyAt(merged, order, i) == KeyAt(merged, order, |order| - 1) &&
                (merged[order[i]][Rating] != merged[order[|order| - 1]][Rating] ||
                 merged[order[i]][Status] != merged[order[|order| - 1]][Status])
    ensures Next(merged, order, acc).Success? ==> Collapsed(merged, order, Next(merged, order, acc).value)
  {
    NextFailure(merged, order, acc);
    if Next(merged, order, acc).Success? {
      NextSuccess(merged, order, acc);
    }
  }

  lemma NextSuccess(merged: map<string, Fields>, order: seq<string>, acc: map<string, Fields>)
    requires Covers(merged, order) && order != [] && Covers(merged, order[..|order| - 1])
    requires Collapsed(merged, order[..|order| - 1], acc)
    requires Next(merged, order, acc).Success?
    ensures Collapsed(merged, order, Next(merged, order, acc).value)
  {
    if KeyAt(merged, order, |order| - 1) in acc {
      NextCollide(merged, order, acc);
    } else {
      NextValue(merged, order, acc);
      NextNew(merged, order, acc);
    }
  }

  lemma NextCollide(merged: map<string, Fields>, order: seq<string>, acc: map<string, Fields>)
    requires Covers(merged, order) && order != [] && Covers(merged, order[..|order| - 1])
    requires Collapsed(merged, order[..|order| - 1], acc)
    requires Next(merged, order, acc).Success? && KeyAt(merged, order, |order| - 1) in acc
    ensures Collapsed(merged, order, Next(merged, order, acc).value)
  {
    var e := merged[order[|order| - 1]];
    var key := KeyAt(merged, order, |order| - 1);
    NextValue(merged, order, acc);
    NextFails(merged, order, acc);
    DropDisplayName(e);
    var kept := acc[key];
    var v := CollapseEntries(kept, e - {DisplayName});
    CollideFacts(kept, e);
    StepCollide(merged, order, acc, v);
  }

  lemma NextNew(merged: map<string, Fields>, order: seq<string>, acc: map<string, Fields>)
    requires Covers(merged, order) && order != [] && Covers(merged, order[..|order| - 1])
    requires Collapsed(merged, order[..|order| - 1], acc)
    requires KeyAt(merged, order, |order| - 1) !in acc
    ensures Collapsed(merged, order, acc[KeyAt(merged, order, |order| - 1) := merged[order[|order| - 1]] - {DisplayName}])
  {
    var e := merged[order[|order| - 1]];
    DropDisplayName(e);
    StepNew(merged, order, acc, e - {DisplayName});
  }

  /** A game joining an existing group keeps the invariant when the new entry sums up the group. */
  lemma StepCollide(merged: map<string, Fields>, order: seq<string>, acc: map<string, Fields>, v: Fields)
    requires Covers(merged, order) && order != [] && Covers(merged, order[..|order| - 1])
    requires Collapsed(merged, order[..|order| - 1], acc)
    requires Collapsible(v) && DisplayName !in v
    requires var e := merged[order[|order| - 1]];
             var key := KeyAt(merged, order, |order| - 1);
             && key in acc
             && v[Rating] == e[Rating] && v[Status] == e[Status]
             && acc[key][Rating] == e[Rating] && acc[key][Status] == e[Status]
             && StatsOf(v).hoursPlayedTotal == StatsOf(acc[key]).hoursPlayedTotal + StatsOf(e).hoursPlayedTotal
             && Elements(v[Tags].texts) == Elements(acc[key][Tags].texts) + Elements(e[Tags].texts)
             && (Valid(StatsOf(acc[key])) && Valid(StatsOf(e)) ==> Valid(StatsOf(v)))
    ensures Collapsed(merged, order, acc[KeyAt(merged, order, |order| - 1) := v])
  {
    LastGame(merged, order);
    StepUpdates(merged, order, acc, v);
  }

  /** A game starting a new group keeps the invariant when the new entry is the game's own. */
  lemma StepNew(merged: map<string, Fields>, order: seq<string>, acc: map<string, Fields>, v: Fields)
    requires Covers(merged, order) && order != [] && Covers(merged, order[..|order| - 1])
    requires Collapsed(merged, order[..|order| - 1], acc)
    requires Collapsible(v) && DisplayName !in v
    requires var e := merged[order[|order| - 1]];
             var key := KeyAt(merged, order, |order| - 1);
             && key !in acc
             && v[Rating] == e[Rating] && v[Status] == e[Status]
             && StatsOf(v) == StatsOf(e) && v[Tags] == e[Tags]
    ensures Collapsed(merged, order, acc[KeyAt(merged, order, |order| - 1) := v])
  {
    var pre := order[..|order| - 1];
    var key := KeyAt(merged, order, |order| - 1);
    LastGame(merged, order);
    GroupHoursAbsent(merged, pre, key);
    GroupTagsAbsent(merged, pre, key);
    StepUpdates(merged, order, acc, v);
  }

  /** The five parts of the invariant, each carried over by its own lemma. */
  lemma StepUpdates(merged: map<string, Fields>, order: seq<string>, acc: map<string, Fields>, v: Fields)
    requires Covers(merged, order) && order != [] && Covers(merged, order[..|order| - 1])
    requires Collapsed(merged, order[..|order| - 1], acc)
    requires Collapsible(v) && DisplayName !in v
    requires var e := merged[order[|order| - 1]];
             var key := KeyAt(merged, order, |order| - 1);
             && v[Rating] == e[Rating] && v[Status] == e[Status]
             && (key in acc ==> acc[key][Rating] == e[Rating] && acc[key][Status] == e[Status])
             && StatsOf(v).hoursPlayedTotal ==
                  GroupHours(merged, order[..|order| - 1], key) + StatsOf(e).hoursPlayedTotal
             && Elements(v[Tags].texts) == GroupTags(merged, order[..|order| - 1], key) + Elements(e[Tags].texts)
             && (AllValidStats(merged, order) ==> Valid(StatsOf(v)))
    ensures Collapsed(merged, order, acc[KeyAt(merged, order, |order| - 1) := v])
  {
    var acc' := acc[KeyAt(merged, order, |order| - 1) := v];
    KeysUpdate(merged, order, acc, v);
    EntriesUpdate(acc, KeyAt(merged, order, |order| - 1), v);
    AgreeUpdate(merged, order, acc, v);
    HoursUpdate(merged, order, acc, v);
    TagsUpdate(merged, order, acc, v);
    ValidUpdate(merged, order, acc, v);
    assert acc'.Keys == DisplayKeys(merged, order) && Entries(acc');
    assert KeptAgree(merged, order, acc') && HoursKept(merged, order, acc');
    assert TagsKept(merged, order, acc') && ValidKept(merged, order, acc');
  }

  lemma EntriesUpdate(acc: map<string, Fields>, key: string, v: Fields)
    requires Entries(acc) && Collapsible(v) && DisplayName !in v
    ensures Entries(acc[key := v])
  {
  }

  lemma NextFailure(merged: map<string, Fields>, order: seq<string>, acc: map<string, Fields>)
    requires Covers(merged, order) && order != [] && Covers(merged, order[..|order| - 1])
    requires acc.Keys == DisplayKeys(merged, order[..|order| - 1]) && Entries(acc)
    requires KeptAgree(merged, order[..|order| - 1], acc)
    ensures Next(merged, order, acc).Failure? <==>
              exists i :: 0 <= i < |order| - 1 && KeyAt(merged, order, i) == KeyAt(merged, order, |order| - 1) &&
                (merged[order[i]][Rating] != merged[order[|order| - 1]][Rating] ||
                 merged[order[i]][Status] != merged[order[|order| - 1]][Status])
  {
    var n := |order|;
    var pre := order[..n - 1];
    var key := KeyAt(merged, order, n - 1);
    NextFails(merged, order, acc);
    if key in acc {
      var i :| 0 <= i < n - 1 && KeyAt(merged, pre, i) == key;
      assert pre[i] == order[i];
    } else {
      forall i | 0 <= i < n - 1 ensures KeyAt(merged, order, i) != key {
        assert KeyAt(merged, pre, i) in DisplayKeys(merged, pre);
        assert pre[i] == order[i];
      }
    }
    if key in acc {
      KeptAgreeLast(merged, order, acc, key);
    }
  }

  /** Every earlier game under the last game's key agrees with the kept entry on rating and status. */
  lemma KeptAgreeLast(merged: map<string, Fields>, order: seq<string>, acc: map<string, Fields>, key: string)
    requires Covers(merged, order) && order != [] && Covers(merged, order[..|order| - 1])
    requires KeptAgree(merged, order[..|order| - 1], acc) && key in acc
    ensures forall i :: 0 <= i < |order| - 1 && KeyAt(merged, order, i) == key ==>
              acc[key][Rating] == merged[order[i]][Rating] && acc[key][Status] == merged[order[i]][Status]
  {
    var pre := order[..|order| - 1];
    forall i | 0 <= i < |order| - 1 && KeyAt(merged, order, i) == key
      ensures acc[key][Rating] == merged[order[i]][Rating] && acc[key][Status] == merged[order[i]][Status]
    {
      assert KeyAt(merged, pre, i) == key && pre[i] == order[i];
    }
  }

  /** A field that no listed game has and that the collapse does not write stays absent. */
  lemma {:induction false} CollapseLacks(merged: map<string, Fields>, order: seq<string>, f: Field)
    requires Covers(merged, order) && f != Tags && !IsStatField(f)
    requires forall i :: 0 <= i < |order| ==> f !in merged[order[i]]
    ensures CollapseGames(merged, order).Success? ==>
              forall k :: k in CollapseGames(merged, order).value ==> f !in CollapseGames(merged, order).value[k]
  {
    if order != [] {
      var n := |order|;
      var pre := order[..n - 1];
      CoversPrefix(merged, order, n - 1);
      CollapseLacks(merged, pre, f);
      if CollapseGames(merged, pre).Success? {
        var acc := CollapseGames(merged, pre).value;
        assert CollapseGames(merged, order) == Next(merged, order, acc);
        if Next(merged, order, acc).Success? {
          NextLacks(merged, order, acc, f);
        }
      }
    }
  }

  lemma CollideLacks(kept: Fields, e: Fields, f: Field)
    requires Collapsible(kept) && Joined(e) && f != Tags && !IsStatField(f) && f !in kept
    ensures Collapsible(e - {DisplayName})
    ensures f !in CollapseEntries(kept, e - {DisplayName})
  {
    DropDisplayName(e);
    CollapseEntriesField(kept, e - {DisplayName}, f);
  }

  /** The step keeps a field out of every entry when the new game lacks it. */
  lemma NextLacks(merged: map<string, Fields>, order: seq<string>, acc: map<string, Fields>, f: Field)
    requires Covers(merged, order) && order != [] && Entries(acc) && f != Tags && !IsStatField(f)
    requires f !in merged[order[|order| - 1]]
    requires forall k :: k in acc ==> f !in acc[k]
    requires Next(merged, order, acc).Success?
    ensures forall k :: k in Next(merged, order, acc).value ==> f !in Next(merged, order, acc).value[k]
  {
    var e := merged[order[|order| - 1]];
    var key := KeyAt(merged, order, |order| - 1);
    var data := e - {DisplayName};
    assert f !in data;
    NextValue(merged, order, acc);
    if key in acc {
      CollideLacks(acc[key], e, f);
      assert Next(merged, order, acc).value == acc[key := CollapseEntries(acc[key], data)];
    } else {
      assert Next(merged, order, acc).value == acc[key := data];
    }
  }

  /** `CollapseGames` one game further: the step applied to the collapse so far. */
  lemma CollapseGamesSnoc(merged: map<string, Fields>, order: seq<string>, n: nat, acc: map<string, Fields>)
    requires Covers(merged, order) && n < |order|
    requires CollapseGames(merged, order[..n]) == Success(acc)
    ensures Covers(merged, order[..n + 1])
    ensures forall k :: k in acc ==> Collapsible(acc[k])
    ensures CollapseGames(merged, order[..n + 1]) == CollapseStep(acc, order[n], merged[order[n]])
  {
    CoversPrefix(merged, order, n + 1);
    assert order[..n + 1][..n] == order[..n];
  }

  /** The body of the loop of `collapse_by_display_name` for one joined game. */
  method CollapseGame(collapsed: map<string, Fields>, name: string, e: Fields)
    returns (r: Result<map<string, Fields>, CollapseError>)
    requires forall k :: k in collapsed ==> Collapsible(collapsed[k])
    requires Joined(e)
    ensures r == CollapseStep(collapsed, name, e)
  {
    var key := if DisplayName in e then e[DisplayName].text else name;
    var data := e - {DisplayName};
    if key !in collapsed {
      return Success(collapsed[key := data]);
    }
    var kept := collapsed[key];
    if data[Rating] != kept[Rating] {
      return Failure(RatingMismatch(key));
    }
    if data[Status] != kept[Status] {
      return Failure(StatusMismatch(key));
    }
    DropDisplayName(e);
    var stats := AbsorbIncoming(StatsOf(kept), StatsOf(data));
    var tags := SortedUnique(kept[Tags].texts + data[Tags].texts);
    r := Success(collapsed[key := WithStats(kept, stats)[Tags := Texts(tags)]]);
  }

  /**
   * `collapse_by_display_name`: the loop over the joined games in their
   * dictionary order. The assertions on rating and status become errors.
   */
  method CollapseByDisplayName(merged: map<string, Fields>, order: seq<string>)
    returns (r: Result<map<string, Fields>, CollapseError>)
    requires Covers(merged, order)
    ensures r == CollapseGames(merged, order)
    ensures r.Failure? <==> Conflicting(merged, order)
    ensures r.Success? ==> Collapsed(merged, order, r.value)
  {
    var collapsed: map<string, Fields> := map[];
    for n := 0 to |order|
      invariant CollapseGames(merged, order[..n]) == Success(collapsed)
    {
      CollapseGamesSnoc(merged, order, n, collapsed);
      var step := CollapseGame(collapsed, order[n], merged[order[n]]);
      if step.Failure? {
        r := step;
        FailureSticks(merged, order, n + 1);
        CollapseProps(merged, order);
        return;
      }
      collapsed := step.value;
    }
    assert order[..|order|] == order;
    r := Success(collapsed);
    CollapseProps(merged, order);
  }
}
