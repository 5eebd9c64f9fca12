/**
 * merge-gog-annotations.py: GOG library records overlaid with the play time and
 * last-played date of a manual annotation file.
 */
module Gog {
  import opened Records

  /** Every annotated game that GOG knows carries the two fields the overlay copies. */
  predicate OverlayReady(gog: map<string, Fields>, annotations: map<string, Fields>) {
    forall k :: k in annotations && k in gog ==> LastPlayed in annotations[k] && HoursPlayed in annotations[k]
  }

  /**
   * What `merge_gog_annotations` returns: the annotated games that GOG knows,
   * each a copy of its GOG record with `lastPlayed` and `hoursPlayed` taken from
   * the annotation and every other field left as GOG has it. Annotated games
   * unknown to GOG are dropped.
   */
  function Overlay(gog: map<string, Fields>, annotations: map<string, Fields>): (r: map<string, Fields>)
    requires OverlayReady(gog, annotations)
    ensures r.Keys == annotations.Keys * gog.Keys
    ensures forall k :: k in r ==>
              && LastPlayed in r[k] && HoursPlayed in r[k]
              && r[k][LastPlayed] == annotations[k][LastPlayed]
              && r[k][HoursPlayed] == annotations[k][HoursPlayed]
    ensures forall k, f :: k in r && f != LastPlayed && f != HoursPlayed ==>
              (f in r[k] <==> f in gog[k]) && (f in r[k] ==> r[k][f] == gog[k][f])
  {
    map k | k in annotations && k in gog ::
      gog[k][LastPlayed := annotations[k][LastPlayed]][HoursPlayed := annotations[k][HoursPlayed]]
  }

  /** `merge_gog_annotations` with its loop over the annotated names. */
  method MergeGogAnnotations(gog: map<string, Fields>, annotations: map<string, Fields>)
    returns (merged: map<string, Fields>)
    requires OverlayReady(gog, annotations)
    ensures merged == Overlay(gog, annotations)
  {
    merged := map[];
    var todo := annotations.Keys;
    while todo != {}
      invariant todo <= annotations.Keys
      invariant merged.Keys == (annotations.Keys - todo) * gog.Keys
      invariant forall k :: k in merged ==>
                  merged[k] == gog[k][LastPlayed := annotations[k][LastPlayed]][HoursPlayed := annotations[k][HoursPlayed]]
      decreases todo
    {
      var name :| name in todo;
      if name in gog {
        var entry := gog[name];
        var annotation := annotations[name];
        entry := entry[LastPlayed := annotation[LastPlayed]];
        entry := entry[HoursPlayed := annotation[HoursPlayed]];
        merged := merged[name := entry];
      }
      todo := todo - {name};
    }
    assert merged == Overlay(gog, annotations);
  }
}
