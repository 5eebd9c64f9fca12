/**
 * `merge_annotations` of annotate-games.py: the merged platform data joined
 * with the rated annotations and their aliases, collapsed by display name,
 * given a display url, and with each game's platforms ordered by play time.
 */
module Annotate {
  import opened Wrappers
  import opened Seqs
  import opened Records
  import opened Stats
  import opened Ordering
  import opened PlatformOrder
  import opened AliasExpansion
  import opened TagOrder
  import opened Collapse
  import opened UrlPreference
  import opened PlatformMerge

  /** A game of the merged platform data as merge-platforms.py writes it: the seven statistic fields, valid. */
  ghost predicate PlatformShaped(e: Fields) {
    HasStats(e) && Valid(StatsOf(e)) && forall f :: f in e ==> IsStatField(f)
  }

  /**
   * A rated annotation, or the entry made for one of its aliases: a rating
   * that is not `null`, a status, a tag list, a string display name if any,
   * and none of the statistic fields.
   */
  predicate AnnotationPart(a: Fields) {
    && Rating in a && a[Rating] != Null && Status in a && Tags in a && a[Tags].Texts?
    && (DisplayName in a ==> a[DisplayName].Text?)
    && forall f :: f in a ==> !IsStatField(f)
  }

  /** Every entry is an annotation part. */
  predicate AllParts(e: map<string, Fields>) {
    forall k :: k in e ==> AnnotationPart(e[k])
  }

  /** Every game of the platform data is as merge-platforms.py writes it. */
  ghost predicate AllPlatformShaped(p: map<string, Fields>) {
    forall k :: k in p ==> PlatformShaped(p[k])
  }

  /** Every annotation has a rating; a rated one is a well-formed annotation whose aliases can be walked. */
  predicate AnnotationsShaped(annotations: map<string, Fields>) {
    forall k :: k in annotations ==>
      Rating in annotations[k] &&
      (annotations[k][Rating] != Null ==> AnnotationPart(annotations[k]) && AliasShaped(annotations[k]))
  }

  /** The inputs of the merge: platform data, annotations, and the annotation file's order of games. */
  ghost predicate Inputs(platformData: map<string, Fields>, annotations: map<string, Fields>, order: seq<string>) {
    && AllPlatformShaped(platformData)
    && AnnotationsShaped(annotations)
    && Enumerates(order, annotations.Keys)
  }

  lemma OrderListed(annotations: map<string, Fields>, order: seq<string>)
    requires AnnotationsShaped(annotations) && Enumerates(order, annotations.Keys)
    ensures AllHaveRating(annotations)
    ensures forall i :: 0 <= i < |order| ==> order[i] in annotations
    ensures Walkable(Rated(annotations), RatedOrder(annotations, order))
  {
    assert forall i :: 0 <= i < |order| ==> order[i] in (set k | k in order);
  }

  /** The joined games before the collapse: rated annotations and aliases joined to the platform data, markers removed. */
  function JoinedGames(platformData: map<string, Fields>, annotations: map<string, Fields>, order: seq<string>): map<string, Fields>
    requires AnnotationsShaped(annotations) && Enumerates(order, annotations.Keys)
  {
    OrderListed(annotations, order);
    var filtered := Rated(annotations);
    var expandOrder := RatedOrder(annotations, order);
    StripMarkers(InnerJoin(platformData, Expand(filtered, expandOrder)))
  }

  /** The rated annotations are annotation parts. */
  lemma RatedParts(annotations: map<string, Fields>)
    requires AnnotationsShaped(annotations)
    ensures AllHaveRating(annotations)
    ensures AllParts(Rated(annotations))
  {
  }

  /** An alias entry is an annotation part when its owner's annotation is. */
  lemma AliasEntryPart(owner: string, data: Fields)
    requires AnnotationPart(data)
    ensures AnnotationPart(AliasEntry(owner, data))
  {
  }

  /** Expanding aliases keeps every entry an annotation part. */
  lemma ExpandParts(annotations: map<string, Fields>, order: seq<string>)
    requires Walkable(annotations, order) && AllParts(annotations)
    ensures AllParts(Expand(annotations, order))
  {
    var expanded := Expand(annotations, order);
    ExpandProps(annotations, order);
    forall k | k in expanded ensures AnnotationPart(expanded[k]) {
      if k !in annotations {
        var i :| FirstOwner(annotations, order, k, i) &&
                 expanded[k] == AliasEntry(order[i], annotations[order[i]]);
        AliasEntryPart(order[i], annotations[order[i]]);
      }
    }
  }

  /** Every entry of the expansion of rated annotations is a rated annotation or an alias entry of one. */
  lemma ExpandedParts(annotations: map<string, Fields>, order: seq<string>)
    requires AnnotationsShaped(annotations) && Enumerates(order, annotations.Keys)
    ensures Walkable(Rated(annotations), RatedOrder(annotations, order))
    ensures AllParts(Expand(Rated(annotations), RatedOrder(annotations, order)))
  {
    OrderListed(annotations, order);
    RatedParts(annotations);
    ExpandParts(Rated(annotations), RatedOrder(annotations, order));
  }

  /** A platform game joined with an annotation part, markers removed. */
  lemma JoinedEntry(p: Fields, a: Fields)
    requires PlatformShaped(p) && AnnotationPart(a)
    ensures var x := (p + a) - {IsAliasOf, Aliases};
            && Joined(x) && Valid(StatsOf(x)) && StatsOf(x) == StatsOf(p)
            && x[Rating] == a[Rating] && IsAliasOf !in x && Aliases !in x
  {
    var x := (p + a) - {IsAliasOf, Aliases};
    assert forall f :: IsStatField(f) ==> f in x && x[f] == p[f];
  }

  /**
   * The joined games are ready to collapse: each can be collapsed, has valid
   * statistics and a rating that is not `null`, and carries neither alias marker.
   */
  ghost predicate Ready(j: map<string, Fields>) {
    forall k :: k in j ==>
      && Joined(j[k]) && Valid(StatsOf(j[k]))
      && j[k][Rating] != Null && IsAliasOf !in j[k] && Aliases !in j[k]
  }

  /** Joining platform games with annotation parts and removing the markers makes them ready, statistics unchanged. */
  lemma JoinStripReady(p: map<string, Fields>, e: map<string, Fields>, j: map<string, Fields>)
    requires AllPlatformShaped(p) && AllParts(e)
    requires j == StripMarkers(InnerJoin(p, e))
    ensures Ready(j)
    ensures forall k :: k in j ==> k in p && HasStats(j[k]) && StatsOf(j[k]) == StatsOf(p[k])
  {
    forall k | k in j
      ensures && Joined(j[k]) && Valid(StatsOf(j[k])) && k in p && StatsOf(j[k]) == StatsOf(p[k])
              && j[k][Rating] != Null && IsAliasOf !in j[k] && Aliases !in j[k]
    {
      assert k in p && k in e;
      JoinedEntry(p[k], e[k]);
      assert j[k] == (p[k] + e[k]) - {IsAliasOf, Aliases};
    }
  }

  /** Every joined game is ready to collapse and carries the statistics of its platform data. */
  lemma JoinedProps(platformData: map<string, Fields>, annotations: map<string, Fields>, order: seq<string>)
    requires Inputs(platformData, annotations, order)
    ensures Ready(JoinedGames(platformData, annotations, order))
    ensures var j := JoinedGames(platformData, annotations, order);
            forall k :: k in j ==> k in platformData && HasStats(j[k]) && StatsOf(j[k]) == StatsOf(platformData[k])
  {
    ExpandedParts(annotations, order);
    JoinStripReady(platformData, Expand(Rated(annotations), RatedOrder(annotations, order)),
                   JoinedGames(platformData, annotations, order));
  }

  /** The games `joinOrder` lists of a ready dictionary are covered, with valid statistics and neither marker. */
  lemma ReadyCovers(j: map<string, Fields>, joinOrder: seq<string>)
    requires Ready(j) && Enumerates(joinOrder, j.Keys)
    ensures && Covers(j, joinOrder) && AllValidStats(j, joinOrder)
            && (forall i :: 0 <= i < |joinOrder| ==> j[joinOrder[i]][Rating] != Null)
            && (forall i :: 0 <= i < |joinOrder| ==> IsAliasOf !in j[joinOrder[i]] && Aliases !in j[joinOrder[i]])
  {
    assert forall i :: 0 <= i < |joinOrder| ==> joinOrder[i] in (set k | k in joinOrder);
  }

  /** Hours sorted from most to least played. */
  predicate Descending(hours: seq<real>) {
    forall i, j :: 0 <= i < j < |hours| ==> hours[i] >= hours[j]
  }

  /**
   * A game of the result: a rating that is not `null`, a status and a tag
   * list, no alias marker and no
   * `displayName`, a display url that is one of its urls, and valid
   * statistics with the platforms ordered by descending hours.
   */
  ghost predicate Presented(e: Fields) {
    && Rating in e && e[Rating] != Null && Status in e && Tags in e && e[Tags].Texts?
    && IsAliasOf !in e && Aliases !in e && DisplayName !in e
    && HasStats(e) && Valid(StatsOf(e)) && Descending(StatsOf(e).hoursPlayedSingle)
    && DisplayUrl in e && e[DisplayUrl].Text? && e[DisplayUrl].text in StatsOf(e).urls
  }

  /** A collapsed entry is displayable once its statistics are valid. */
  lemma ValidDisplayable(x: Fields)
    requires Collapsible(x) && Valid(StatsOf(x))
    ensures HasStats(WithDisplayUrl(x)) && StatsOf(WithDisplayUrl(x)) == StatsOf(x)
    ensures Aligned(StatsOf(WithDisplayUrl(x)))
  {
  }

  /** The last two stages on one collapsed game. */
  function Present(x: Fields): Fields
    requires Collapsible(x) && Valid(StatsOf(x))
  {
    ValidDisplayable(x);
    OrderedEntry(WithDisplayUrl(x))
  }

  /**
   * The display url and the ordering keep what the collapse established and
   * add what they promise: a url among the game's urls, hours in descending order.
   */
  lemma PresentProps(x: Fields)
    requires Collapsible(x) && Valid(StatsOf(x))
    requires x[Rating] != Null && IsAliasOf !in x && Aliases !in x && DisplayName !in x
    ensures Presented(Present(x))
    ensures Present(x)[Rating] == x[Rating] && Present(x)[Status] == x[Status] && Present(x)[Tags] == x[Tags]
    ensures StatsOf(Present(x)).hoursPlayedTotal == StatsOf(x).hoursPlayedTotal
    ensures forall q :: SlotOf(StatsOf(Present(x)), q) == SlotOf(StatsOf(x), q)
  {
    var s := StatsOf(x);
    var shown := WithDisplayUrl(x);
    ValidDisplayable(x);
    OrderStatsProps(s);
    ApplyPermMultiset(s.urls, s.hoursPlayedSingle);
    var u := DisplayUrlOf(s);
    assert u in multiset(OrderStats(s).urls);
    assert StatsOf(Present(x)) == OrderStats(s);
  }

  /** Collapsed games with valid statistics: what the display url and the ordering need. */
  ghost predicate Presentable(c: map<string, Fields>) {
    forall k :: k in c ==> Collapsible(c[k]) && Valid(StatsOf(c[k]))
  }

  /** The display url and ordering stages on every collapsed game. */
  function PresentAll(c: map<string, Fields>): (m: map<string, Fields>)
    requires Presentable(c)
    ensures m.Keys == c.Keys
  {
    map k | k in c :: Present(c[k])
  }

  /**
   * The second half of `merge_annotations`: collapse the joined games by
   * display name (in the join's order `joinOrder`), then write display urls
   * and order each game's platforms.
   */
  function Finish(j: map<string, Fields>, joinOrder: seq<string>): Result<map<string, Fields>, CollapseError>
    requires Ready(j) && Enumerates(joinOrder, j.Keys)
  {
    ReadyCovers(j, joinOrder);
    CollapseProps(j, joinOrder);
    match CollapseGames(j, joinOrder)
    case Failure(err) => Failure(err)
    case Success(c) =>
      assert Presentable(c);
      Success(PresentAll(c))
  }

  /**
   * `merge_annotations`: drop unrated annotations, expand aliases, join, remove
   * the markers, then collapse and present the joined games.
   */
  function MergeSpec(platformData: map<string, Fields>, annotations: map<string, Fields>, order: seq<string>,
                     joinOrder: seq<string>): Result<map<string, Fields>, CollapseError>
    requires Inputs(platformData, annotations, order)
    requires Enumerates(joinOrder, JoinedGames(platformData, annotations, order).Keys)
  {
    JoinedProps(platformData, annotations, order);
    Finish(JoinedGames(platformData, annotations, order), joinOrder)
  }

  /**
   * One game per display key, each presented, with the summed hours and the
   * union of the tags of its group.
   */
  ghost predicate PresentedGroups(j: map<string, Fields>, joinOrder: seq<string>, m: map<string, Fields>)
    requires Covers(j, joinOrder)
  {
    && m.Keys == DisplayKeys(j, joinOrder)
    && forall k :: k in m ==>
         && Presented(m[k])
         && StatsOf(m[k]).hoursPlayedTotal == GroupHours(j, joinOrder, k)
         && Elements(m[k][Tags].texts) == GroupTags(j, joinOrder, k)
  }

  /** The collapsed group `k` meets every fact the last two stages need. */
  lemma GroupReady(j: map<string, Fields>, joinOrder: seq<string>, c: map<string, Fields>, k: string)
    requires Covers(j, joinOrder) && AllValidStats(j, joinOrder)
    requires forall i :: 0 <= i < |joinOrder| ==> j[joinOrder[i]][Rating] != Null
    requires Collapsed(j, joinOrder, c) && k in c
    requires IsAliasOf !in c[k] && Aliases !in c[k]
    ensures Collapsible(c[k]) && Valid(StatsOf(c[k]))
    ensures c[k][Rating] != Null && IsAliasOf !in c[k] && Aliases !in c[k] && DisplayName !in c[k]
  {
    var i :| 0 <= i < |joinOrder| && KeyAt(j, joinOrder, i) == k;
  }

  /** Presenting the collapsed games of ready joined games gives presented groups. */
  lemma PresentGroups(j: map<string, Fields>, joinOrder: seq<string>, c: map<string, Fields>)
    requires Covers(j, joinOrder) && AllValidStats(j, joinOrder)
    requires forall i :: 0 <= i < |joinOrder| ==> j[joinOrder[i]][Rating] != Null
    requires Collapsed(j, joinOrder, c)
    requires forall k :: k in c ==> IsAliasOf !in c[k] && Aliases !in c[k]
    ensures Presentable(c)
    ensures PresentedGroups(j, joinOrder, PresentAll(c))
  {
    var m := PresentAll(c);
    forall k | k in m
      ensures && Presented(m[k])
              && StatsOf(m[k]).hoursPlayedTotal == GroupHours(j, joinOrder, k)
              && Elements(m[k][Tags].texts) == GroupTags(j, joinOrder, k)
    {
      GroupReady(j, joinOrder, c, k);
      PresentProps(c[k]);
    }
  }

  /** What `Finish` promises about ready games; `MergeProps` states it for the whole merge. */
  lemma FinishProps(j: map<string, Fields>, joinOrder: seq<string>)
    requires Ready(j) && Enumerates(joinOrder, j.Keys)
    ensures Covers(j, joinOrder)
    ensures Finish(j, joinOrder).Failure? <==> Conflicting(j, joinOrder)
    ensures Finish(j, joinOrder).Success? ==> PresentedGroups(j, joinOrder, Finish(j, joinOrder).value)
  {
    ReadyCovers(j, joinOrder);
    CollapseProps(j, joinOrder);
    var r := CollapseGames(j, joinOrder);
    if r.Success? {
      CollapseLacks(j, joinOrder, IsAliasOf);
      CollapseLacks(j, joinOrder, Aliases);
      PresentGroups(j, joinOrder, r.value);
    }
  }

  /**
   * The merge fails exactly when two joined games with one display name
   * disagree on rating or status. Otherwise it holds one game per display
   * name; each has a non-null rating, the summed hours and the union of the
   * tags of its group, no alias marker or `displayName`, a display url among
   * its urls, and valid statistics ordered by descending hours.
   */
  lemma MergeProps(platformData: map<string, Fields>, annotations: map<string, Fields>, order: seq<string>,
                   joinOrder: seq<string>)
    requires Inputs(platformData, annotations, order)
    requires Enumerates(joinOrder, JoinedGames(platformData, annotations, order).Keys)
    ensures var j := JoinedGames(platformData, annotations, order);
            Covers(j, joinOrder) &&
            (MergeSpec(platformData, annotations, order, joinOrder).Failure? <==> Conflicting(j, joinOrder))
    ensures var j := JoinedGames(platformData, annotations, order);
            var r := MergeSpec(platformData, annotations, order, joinOrder);
            Covers(j, joinOrder) && (r.Success? ==> PresentedGroups(j, joinOrder, r.value))
  {
    JoinedProps(platformData, annotations, order);
    FinishProps(JoinedGames(platformData, annotations, order), joinOrder);
  }

  lemma PresentableDisplayable(c: map<string, Fields>)
    requires Presentable(c)
    ensures AllDisplayable(c)
  {
    forall k | k in c ensures HasStats(c[k]) && Displayable(StatsOf(c[k])) {
      ValidDisplayable(c[k]);
    }
  }

  lemma DisplayedAligned(c: map<string, Fields>, display: map<string, Fields>)
    requires Presentable(c) && AllDisplayable(c)
    requires display == map k | k in c :: WithDisplayUrl(c[k])
    ensures forall k :: k in display ==> HasStats(display[k]) && Aligned(StatsOf(display[k]))
  {
    forall k | k in display ensures HasStats(display[k]) && Aligned(StatsOf(display[k])) {
      ValidDisplayable(c[k]);
    }
  }

  /** Writing the display urls and then ordering the platforms presents every game. */
  lemma PresentAllStages(c: map<string, Fields>, display: map<string, Fields>, sorted: map<string, Fields>)
    requires Presentable(c) && AllDisplayable(c)
    requires display == map k | k in c :: WithDisplayUrl(c[k])
    requires forall k :: k in display ==> HasStats(display[k]) && Aligned(StatsOf(display[k]))
    requires sorted == OrderedAll(display)
    ensures sorted == PresentAll(c)
  {
    var m := PresentAll(c);
    forall k | k in sorted ensures sorted[k] == m[k] {
      assert display[k] == WithDisplayUrl(c[k]);
    }
    SameEntries(sorted, m);
  }

  /**
   * The collapse, display url and ordering stages of `merge_annotations` on the
   * joined games, the ordering being `OrderStats`, which keeps the five lists aligned.
   */
  method FinishMerge(j: map<string, Fields>, joinOrder: seq<string>) returns (r: Result<map<string, Fields>, CollapseError>)
    requires Ready(j) && Enumerates(joinOrder, j.Keys)
    ensures r == Finish(j, joinOrder)
  {
    ReadyCovers(j, joinOrder);
    CollapseProps(j, joinOrder);
    var collapsed := CollapseByDisplayName(j, joinOrder);
    if collapsed.Failure? {
      return Failure(collapsed.error);
    }
    var c := collapsed.value;
    assert Presentable(c);
    PresentableDisplayable(c);
    var display := GetDisplayUrl(c);
    DisplayedAligned(c, display);
    var sorted := OrderPlatforms(display);
    PresentAllStages(c, display, sorted);
    r := Success(sorted);
  }

  /**
   * `merge_annotations` with its stages in the script's order, the platform
   * ordering being `OrderStats`; `joinOrder` is the order the join visits the
   * shared games in.
   */
  method MergeAnnotations(platformData: map<string, Fields>, annotations: map<string, Fields>, order: seq<string>)
    returns (r: Result<map<string, Fields>, CollapseError>, joinOrder: seq<string>)
    requires Inputs(platformData, annotations, order)
    ensures Enumerates(joinOrder, JoinedGames(platformData, annotations, order).Keys)
    ensures r == MergeSpec(platformData, annotations, order, joinOrder)
  {
    OrderListed(annotations, order);
    var filtered := DropUnrated(annotations);
    var expandOrder := RatedOrder(annotations, order);
    var expanded := ExpandAliases(filtered, expandOrder);
    var merged, mergedOrder := InnerJoinDicts(platformData, expanded);
    var stripped := RemoveMarkers(merged);
    assert stripped == JoinedGames(platformData, annotations, order);
    JoinedProps(platformData, annotations, order);
    joinOrder := mergedOrder;
    r := FinishMerge(stripped, joinOrder);
  }
}
