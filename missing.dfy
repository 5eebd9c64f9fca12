/**
 * `report_missing_games` and `build_blank_annotations` of annotate-games.py:
 * the games one side has and the other lacks, and the blank annotations
 * written for the games no annotation matches.
 */
module MissingGames {
  import opened Wrappers
  import opened Seqs
  import opened Records
  import opened AliasExpansion

  /** The annotation `build_blank_annotations` writes for a game: unrated, without status, no tags. */
  function BlankAnnotation(): Fields {
    map[Rating := Null, Status := Null, Tags := Texts([])]
  }

  /** `build_blank_annotations` with its loop over the games. */
  method BuildBlankAnnotations(games: set<string>) returns (blank: map<string, Fields>)
    ensures blank.Keys == games
    ensures forall g :: g in blank ==> blank[g] == BlankAnnotation()
  {
    blank := map[];
    var todo := games;
    while todo != {}
      invariant todo <= games
      invariant blank.Keys == games - todo
      invariant forall g :: g in blank ==> blank[g] == BlankAnnotation()
      decreases todo
    {
      var game :| game in todo;
      blank := blank[game := map[Rating := Null, Status := Null, Tags := Texts([])]];
      todo := todo - {game};
    }
  }

  /** A blank annotation is dropped by the merge until someone fills in its rating. */
  lemma BlanksAreUnrated(blank: map<string, Fields>)
    requires forall g :: g in blank ==> blank[g] == BlankAnnotation()
    ensures AllHaveRating(blank)
    ensures Rated(blank) == map[]
  {
    assert forall g :: g in blank ==> blank[g][Rating] == Null;
  }

  /**
   * The report's input: `order` is the annotations' dictionary order, which
   * `expand_aliases` walks in full, and every `aliases` is a list or `null`.
   */
  predicate ReportShaped(annotations: map<string, Fields>, order: seq<string>) {
    Enumerates(order, annotations.Keys) && Walkable(annotations, order) &&
    forall k :: k in annotations ==> AliasShaped(annotations[k])
  }

  /** Why the report stops: iterating an `aliases` that is `null` raises a `TypeError`. */
  datatype ReportError = AliasesNotIterable

  /**
   * The base annotations the report's loop reaches with `aliases: null`:
   * not alias entries and not platform games by their own name.
   */
  function NullAliases(annotations: map<string, Fields>, games: set<string>): set<string> {
    set g | g in annotations && IsAliasOf !in annotations[g] && g !in games &&
            Aliases in annotations[g] && annotations[g][Aliases].Null?
  }

  /** `any(alias in games_platform for alias in aliases)`. */
  function AnyIn(aliases: seq<string>, games: set<string>): (b: bool)
    ensures b <==> exists i :: 0 <= i < |aliases| && aliases[i] in games
  {
    exists a :: a in aliases && a in games
  }

  /**
   * The annotated games, alias entries excepted, that the platform data has
   * neither under their own name nor under any of their aliases.
   */
  function MissingAnnotation(annotations: map<string, Fields>, games: set<string>): (missing: set<string>)
    requires forall k :: k in annotations ==> AliasShaped(annotations[k])
  {
    set g | g in annotations && IsAliasOf !in annotations[g] && g !in games &&
            !AnyIn(AliasesOf(annotations[g]), games)
  }

  /** What the report finds: the two sets it logs and the blank annotations it writes, if any. */
  datatype Report = Report(
    missingAnnotation: set<string>,
    missingPlatform: set<string>,
    written: Option<map<string, Fields>>)

  /** The blank annotations for `games`. */
  function Blanks(games: set<string>): (blank: map<string, Fields>)
    ensures blank.Keys == games
    ensures forall g :: g in blank ==> blank[g] == BlankAnnotation()
  {
    map g | g in games :: BlankAnnotation()
  }

  /** What `report_missing_games` finds and writes, in terms of its declared parameters. */
  function MissingReport(annotations: map<string, Fields>, order: seq<string>, platformData: map<string, Fields>)
    : Result<Report, ReportError>
    requires ReportShaped(annotations, order)
  {
    if NullAliases(annotations, platformData.Keys) != {} then Failure(AliasesNotIterable)
    else
      var missingPlatform := platformData.Keys - Expand(annotations, order).Keys;
      Success(Report(MissingAnnotation(annotations, platformData.Keys), missingPlatform,
                     if missingPlatform == {} then None else Some(Blanks(missingPlatform))))
  }

  /**
   * `report_missing_games`, in terms of its declared parameters: games of the
   * platform data that no annotation or alias matches, annotated games the
   * platform data lacks, and blank annotations for the former when there are any.
   * It stops with a `TypeError` when a base annotation it has to look up by
   * alias has `aliases: null`.
   */
  method ReportMissingGames(annotations: map<string, Fields>, order: seq<string>, platformData: map<string, Fields>)
    returns (report: Result<Report, ReportError>)
    requires ReportShaped(annotations, order)
    ensures report.Failure? <==>
              exists g :: g in annotations && IsAliasOf !in annotations[g] && g !in platformData &&
                Aliases in annotations[g] && annotations[g][Aliases].Null?
    ensures report.Success? ==> report.value.missingPlatform == platformData.Keys - Expand(annotations, order).Keys
    ensures report.Success? ==> report.value.missingAnnotation == MissingAnnotation(annotations, platformData.Keys)
    ensures report.Success? ==> (report.value.written.Some? <==> report.value.missingPlatform != {})
    ensures report.Success? && report.value.written.Some? ==>
              report.value.written.value.Keys == report.value.missingPlatform &&
              forall g :: g in report.value.written.value ==> report.value.written.value[g] == BlankAnnotation()
    ensures report == MissingReport(annotations, order, platformData)
  {
    var annotationsExpanded := ExpandAliases(annotations, order);
    var allAnnotationKeys := annotationsExpanded.Keys;
    var gamesPlatform := platformData.Keys;
    var missingPlatform := gamesPlatform - allAnnotationKeys;
    var missingAnnotation: set<string> := {};
    var todo := annotations.Keys;
    while todo != {}
      invariant todo <= annotations.Keys
      invariant missingAnnotation == MissingAnnotation(annotations, gamesPlatform) - todo
      invariant NullAliases(annotations, gamesPlatform) <= todo
      decreases todo
    {
      var gameName :| gameName in todo;
      var gameData := annotations[gameName];
      todo := todo - {gameName};
      if IsAliasOf in gameData {
        continue;
      }
      if gameName in gamesPlatform {
        continue;
      }
      if Aliases in gameData && gameData[Aliases].Null? {
        assert gameName in NullAliases(annotations, gamesPlatform);
        report := Failure(AliasesNotIterable);
        return;
      }
      var aliases := if Aliases in gameData then gameData[Aliases].texts else [];
      if AnyIn(aliases, gamesPlatform) {
        continue;
      }
      missingAnnotation := missingAnnotation + {gameName};
    }
    var written: Option<map<string, Fields>> := None;
    if missingPlatform != {} {
      var blankDict := BuildBlankAnnotations(missingPlatform);
      assert blankDict == Blanks(missingPlatform);
      written := Some(blankDict);
    }
    report := Success(Report(missingAnnotation, missingPlatform, written));
  }

  /**
   * A platform game is reported missing exactly when it is neither an
   * annotated game nor an alias of one.
   */
  lemma MissingPlatformMeaning(annotations: map<string, Fields>, order: seq<string>, platformData: map<string, Fields>, g: string)
    requires ReportShaped(annotations, order)
    ensures g in platformData.Keys - Expand(annotations, order).Keys <==>
              g in platformData && g !in annotations && !IsAlias(annotations, order, g)
  {
    ExpandProps(annotations, order);
  }

  /**
   * No joined entry comes from an annotated game that is reported missing:
   * its own name is not joined, and no joined alias entry is marked as one of its aliases.
   */
  lemma MissingNotJoined(annotations: map<string, Fields>, order: seq<string>, platformData: map<string, Fields>, g: string)
    requires ReportShaped(annotations, order)
    requires g in MissingAnnotation(annotations, platformData.Keys)
    ensures g !in InnerJoin(platformData, Expand(annotations, order))
    ensures forall k :: k in InnerJoin(platformData, Expand(annotations, order)) && k !in annotations ==>
              IsAliasOf in Expand(annotations, order)[k] && Expand(annotations, order)[k][IsAliasOf] != Text(g)
  {
    var expanded := Expand(annotations, order);
    ExpandProps(annotations, order);
    forall k | k in InnerJoin(platformData, expanded) && k !in annotations
      ensures IsAliasOf in expanded[k] && expanded[k][IsAliasOf] != Text(g)
    {
      var i :| FirstOwner(annotations, order, k, i) && expanded[k] == AliasEntry(order[i], annotations[order[i]]);
      assert AnyIn(AliasesOf(annotations[order[i]]), platformData.Keys);
    }
  }

  /**
   * The call in `main` passes the platform data as `annotations` and the
   * annotations as `platform_data`. `platformOrder` is the platform data's
   * dictionary order, which the alias expansion walks.
   */
  function ReportAsCalled(platformData: map<string, Fields>, platformOrder: seq<string>, annotations: map<string, Fields>)
    : Result<Report, ReportError>
    requires ReportShaped(platformData, platformOrder)
  {
    MissingReport(platformData, platformOrder, annotations)
  }

  /**
   * With one annotated game "A" that the platform data lacks and one platform
   * game "B" without an annotation, the call as written writes a blank
   * annotation for "A", which already has one, and none for "B".
   */
  lemma SwappedCallBlanksAnnotated()
    ensures var annotations := map["A" := map[Rating := Num(4.0), Status := Text("done"), Tags := Texts([])]];
            var platformData := map["B" := map[Platforms := Texts(["Steam"])]];
            && ReportShaped(platformData, ["B"])
            && ReportAsCalled(platformData, ["B"], annotations) ==
               Success(Report({"B"}, {"A"}, Some(map["A" := BlankAnnotation()])))
            && "A" in annotations && "B" !in annotations
  {
    var annotations := map["A" := map[Rating := Num(4.0), Status := Text("done"), Tags := Texts([])]];
    var platformData := map["B" := map[Platforms := Texts(["Steam"])]];
    ExpandProps(platformData, ["B"]);
    assert !IsAlias(platformData, ["B"], "A");
    assert Expand(platformData, ["B"]).Keys == {"B"};
    assert annotations.Keys - {"B"} == {"A"};
    assert NullAliases(platformData, annotations.Keys) == {};
    assert MissingAnnotation(platformData, annotations.Keys) == {"B"};
    assert Blanks({"A"}) == map["A" := BlankAnnotation()];
  }

  /**
   * Called as declared, the blank annotations go to exactly the platform games
   * that are neither annotated nor an alias of an annotated game.
   */
  lemma BlanksForUnannotated(annotations: map<string, Fields>, order: seq<string>, platformData: map<string, Fields>)
    requires ReportShaped(annotations, order)
    ensures var report := MissingReport(annotations, order, platformData);
            report.Success? && report.value.written.Some? ==>
              forall g :: g in report.value.written.value <==>
                g in platformData && g !in annotations && !IsAlias(annotations, order, g)
  {
    ExpandProps(annotations, order);
  }
}
