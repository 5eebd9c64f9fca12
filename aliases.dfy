/**
 * The annotation side of `merge_annotations` in annotate-games.py: unrated
 * annotations are dropped, every alias of an annotated game becomes a key of
 * its own, and after the join the alias markers are removed again.
 */
module AliasExpansion {
  import opened Seqs
  import opened Records

  /** Every annotation has a `rating`, possibly `null`. */
  predicate AllHaveRating(annotations: map<string, Fields>) {
    forall k :: k in annotations ==> Rating in annotations[k]
  }

  /** The annotations `merge_annotations` keeps: those whose rating is not `null`. */
  function Rated(annotations: map<string, Fields>): (r: map<string, Fields>)
    requires AllHaveRating(annotations)
    ensures forall k :: k in r <==> k in annotations && annotations[k][Rating] != Null
    ensures forall k :: k in r ==> r[k] == annotations[k]
  {
    map k | k in annotations && annotations[k][Rating] != Null :: annotations[k]
  }

  /** The two loops of `merge_annotations` that collect the unrated games and delete them. */
  method DropUnrated(annotations: map<string, Fields>) returns (filtered: map<string, Fields>)
    requires AllHaveRating(annotations)
    ensures filtered == Rated(annotations)
  {
    filtered := annotations;
    var toDelete: seq<string> := [];
    var todo := filtered.Keys;
    while todo != {}
      invariant todo <= annotations.Keys
      invariant forall i :: 0 <= i < |toDelete| ==> toDelete[i] in annotations && annotations[toDelete[i]][Rating] == Null
      invariant forall k :: k in annotations - todo && annotations[k][Rating] == Null ==> k in toDelete
      decreases todo
    {
      var game :| game in todo;
      if filtered[game][Rating] == Null {
        toDelete := toDelete + [game];
      }
      todo := todo - {game};
    }
    for i := 0 to |toDelete|
      invariant filtered.Keys == annotations.Keys - (set j | 0 <= j < i :: toDelete[j])
      invariant forall k :: k in filtered ==> filtered[k] == annotations[k]
    {
      filtered := filtered - {toDelete[i]};
    }
    assert filtered.Keys == Rated(annotations).Keys by {
      forall k | k in annotations && annotations[k][Rating] == Null ensures k !in filtered {
        var j :| 0 <= j < |toDelete| && toDelete[j] == k;
      }
    }
  }

  /** The annotations in file order, the unrated ones left out: the iteration order of the filtered copy. */
  function RatedOrder(annotations: map<string, Fields>, order: seq<string>): (r: seq<string>)
    requires AllHaveRating(annotations)
    requires forall i :: 0 <= i < |order| ==> order[i] in annotations
    ensures forall i :: 0 <= i < |r| ==> r[i] in annotations && annotations[r[i]][Rating] != Null
    ensures |r| <= |order|
  {
    if order == [] then []
    else
      var n := |order|;
      var rest := RatedOrder(annotations, order[..n - 1]);
      if annotations[order[n - 1]][Rating] != Null then rest + [order[n - 1]] else rest
  }

  /** Exactly the rated games of the file order are listed. */
  lemma {:induction false} RatedOrderMembers(annotations: map<string, Fields>, order: seq<string>)
    requires AllHaveRating(annotations)
    requires forall i :: 0 <= i < |order| ==> order[i] in annotations
    ensures forall k :: k in RatedOrder(annotations, order) <==> k in order && annotations[k][Rating] != Null
  {
    if order != [] {
      var n := |order|;
      RatedOrderMembers(annotations, order[..n - 1]);
      assert order == order[..n - 1] + [order[n - 1]];
    }
  }

  /** Filtering commutes with concatenation. */
  lemma {:induction false} RatedOrderAppend(annotations: map<string, Fields>, a: seq<string>, b: seq<string>)
    requires AllHaveRating(annotations)
    requires forall i :: 0 <= i < |a| ==> a[i] in annotations
    requires forall i :: 0 <= i < |b| ==> b[i] in annotations
    ensures forall i :: 0 <= i < |a + b| ==> (a + b)[i] in annotations
    ensures RatedOrder(annotations, a + b) == RatedOrder(annotations, a) + RatedOrder(annotations, b)
  {
    if b == [] {
      assert a + b == a;
    } else {
      var n := |b|;
      RatedOrderAppend(annotations, a, b[..n - 1]);
      assert (a + b)[..|a + b| - 1] == a + b[..n - 1];
    }
  }

  /** Two rated games keep their relative file order in the filtered copy. */
  lemma RatedOrderKeepsOrder(annotations: map<string, Fields>, order: seq<string>, i: nat, j: nat)
    requires AllHaveRating(annotations)
    requires forall k :: 0 <= k < |order| ==> order[k] in annotations
    requires i < j < |order|
    requires annotations[order[i]][Rating] != Null && annotations[order[j]][Rating] != Null
    ensures exists p, q :: 0 <= p < q < |RatedOrder(annotations, order)| &&
              RatedOrder(annotations, order)[p] == order[i] && RatedOrder(annotations, order)[q] == order[j]
  {
    var upto, rest := order[..j], order[j..];
    assert order == upto + rest;
    RatedOrderAppend(annotations, upto, rest);
    assert rest == [order[j]] + rest[1..];
    RatedOrderAppend(annotations, [order[j]], rest[1..]);
    assert RatedOrder(annotations, [order[j]]) == [order[j]] by {
      assert [order[j]][..0] == [];
    }
    var before := RatedOrder(annotations, upto);
    assert order[i] == upto[i];
    RatedOrderMembers(annotations, upto);
    var p :| 0 <= p < |before| && before[p] == order[i];
    var r := RatedOrder(annotations, order);
    assert r == before + ([order[j]] + RatedOrder(annotations, rest[1..]));
    assert r[p] == order[i] && r[|before|] == order[j];
  }

  /** Deleting keys keeps the order of the others: the rated games, each once, in file order. */
  lemma {:induction false} RatedOrderEnumerates(annotations: map<string, Fields>, order: seq<string>)
    requires AllHaveRating(annotations)
    requires Enumerates(order, annotations.Keys)
    ensures Enumerates(RatedOrder(annotations, order), Rated(annotations).Keys)
  {
    RatedOrderMembers(annotations, order);
    RatedOrderDistinct(annotations, order);
  }

  lemma {:induction false} RatedOrderDistinct(annotations: map<string, Fields>, order: seq<string>)
    requires AllHaveRating(annotations)
    requires forall i :: 0 <= i < |order| ==> order[i] in annotations
    requires Distinct(order)
    ensures Distinct(RatedOrder(annotations, order))
  {
    if order != [] {
      var n := |order|;
      assert forall i :: 0 <= i < n - 1 ==> order[..n - 1][i] == order[i];
      RatedOrderDistinct(annotations, order[..n - 1]);
      RatedOrderMembers(annotations, order[..n - 1]);
      assert order[n - 1] !in order[..n - 1];
    }
  }

  /** The `aliases` field is a list of names or `null`, when there is one. */
  predicate AliasShaped(e: Fields) {
    Aliases in e ==> e[Aliases].Texts? || e[Aliases].Null?
  }

  /** The names `expand_aliases` walks for an entry: none when the field is missing, `null` or empty. */
  function AliasesOf(e: Fields): seq<string>
    requires AliasShaped(e)
  {
    if Aliases in e && e[Aliases].Texts? then e[Aliases].texts else []
  }

  /** The entry created for an alias: a copy of its owner's data marked with the owner's name. */
  function AliasEntry(owner: string, data: Fields): Fields {
    data[IsAliasOf := Text(owner)]
  }

  /** The inner loop: each alias not yet a key gets a marked copy of its owner's data. */
  function AddAliases(expanded: map<string, Fields>, owner: string, data: Fields, aliases: seq<string>): map<string, Fields> {
    if aliases == [] then expanded
    else
      var n := |aliases|;
      var m := AddAliases(expanded, owner, data, aliases[..n - 1]);
      if aliases[n - 1] in m then m else m[aliases[n - 1] := AliasEntry(owner, data)]
  }

  /**
   * The inner loop adds exactly the aliases that were not keys yet, each as a
   * marked copy of the owner's data, and changes no key that was there.
   */
  lemma {:induction false} AddAliasesProps(expanded: map<string, Fields>, owner: string, data: Fields, aliases: seq<string>)
    ensures forall k :: k in AddAliases(expanded, owner, data, aliases) <==> k in expanded || k in aliases
    ensures forall k :: k in expanded ==> AddAliases(expanded, owner, data, aliases)[k] == expanded[k]
    ensures forall k :: k in AddAliases(expanded, owner, data, aliases) && k !in expanded ==>
              AddAliases(expanded, owner, data, aliases)[k] == AliasEntry(owner, data)
  {
    if aliases != [] {
      var n := |aliases|;
      AddAliasesProps(expanded, owner, data, aliases[..n - 1]);
      assert aliases == aliases[..n - 1] + [aliases[n - 1]];
    }
  }

  /** Every listed name is an annotated game whose aliases can be walked. */
  predicate Walkable(annotations: map<string, Fields>, order: seq<string>) {
    forall i :: 0 <= i < |order| ==> order[i] in annotations && AliasShaped(annotations[order[i]])
  }

  /** `expand_aliases`, visiting the annotated games in `order`. */
  function Expand(annotations: map<string, Fields>, order: seq<string>): map<string, Fields>
    requires Walkable(annotations, order)
  {
    if order == [] then annotations
    else
      var n := |order|;
      var owner := order[n - 1];
      AddAliases(Expand(annotations, order[..n - 1]), owner, annotations[owner], AliasesOf(annotations[owner]))
  }

  /** Alias `k` belongs to the `i`-th listed game and to none listed before it. */
  ghost predicate FirstOwner(annotations: map<string, Fields>, order: seq<string>, k: string, i: int)
    requires Walkable(annotations, order)
  {
    0 <= i < |order| && k in AliasesOf(annotations[order[i]]) &&
    forall j :: 0 <= j < i ==> k !in AliasesOf(annotations[order[j]])
  }

  /** `k` is an alias of some listed game. */
  ghost predicate IsAlias(annotations: map<string, Fields>, order: seq<string>, k: string)
    requires Walkable(annotations, order)
  {
    exists i :: 0 <= i < |order| && k in AliasesOf(annotations[order[i]])
  }

  /**
   * Expansion keeps every annotated game as it was, adds exactly the aliases,
   * and gives an alias that is not a game's own name the marked data of the
   * first game listing it; later claims to the same name are skipped.
   */
  lemma {:induction false} ExpandProps(annotations: map<string, Fields>, order: seq<string>)
    requires Walkable(annotations, order)
    ensures forall k :: k in Expand(annotations, order) <==> k in annotations || IsAlias(annotations, order, k)
    ensures forall k :: k in annotations ==> Expand(annotations, order)[k] == annotations[k]
    ensures forall k :: k in Expand(annotations, order) && k !in annotations ==>
              exists i :: FirstOwner(annotations, order, k, i) &&
                          Expand(annotations, order)[k] == AliasEntry(order[i], annotations[order[i]])
  {
    if order != [] {
      var n := |order|;
      var pre := order[..n - 1];
      var owner := order[n - 1];
      assert Walkable(annotations, pre);
      ExpandProps(annotations, pre);
      var m := Expand(annotations, pre);
      var r := Expand(annotations, order);
      AddAliasesProps(m, owner, annotations[owner], AliasesOf(annotations[owner]));
      IsAliasSnoc(annotations, order);
      forall k | k in r && k !in annotations
        ensures exists i :: FirstOwner(annotations, order, k, i) && r[k] == AliasEntry(order[i], annotations[order[i]])
      {
        if k in m {
          var i :| FirstOwner(annotations, pre, k, i) && m[k] == AliasEntry(pre[i], annotations[pre[i]]);
          assert pre[i] == order[i] && k in AliasesOf(annotations[order[i]]);
          forall j | 0 <= j < i ensures k !in AliasesOf(annotations[order[j]]) {
            assert pre[j] == order[j];
          }
          assert FirstOwner(annotations, order, k, i);
        } else {
          forall j | 0 <= j < n - 1 ensures k !in AliasesOf(annotations[order[j]]) {
            assert pre[j] == order[j];
          }
          assert FirstOwner(annotations, order, k, n - 1);
        }
      }
    }
  }

  /** Listing one more game adds its aliases. */
  lemma IsAliasSnoc(annotations: map<string, Fields>, order: seq<string>)
    requires Walkable(annotations, order) && order != []
    ensures Walkable(annotations, order[..|order| - 1])
    ensures forall k :: IsAlias(annotations, order, k) <==>
              IsAlias(annotations, order[..|order| - 1], k) || k in AliasesOf(annotations[order[|order| - 1]])
  {
    var n := |order|;
    var pre := order[..n - 1];
    assert Walkable(annotations, pre);
    forall k ensures IsAlias(annotations, order, k) <==> IsAlias(annotations, pre, k) || k in AliasesOf(annotations[order[n - 1]]) {
      if IsAlias(annotations, order, k) {
        var i :| 0 <= i < n && k in AliasesOf(annotations[order[i]]);
        if i < n - 1 { assert pre[i] == order[i]; }
      }
      if IsAlias(annotations, pre, k) {
        var i :| 0 <= i < n - 1 && k in AliasesOf(annotations[pre[i]]);
        assert order[i] == pre[i];
      }
    }
  }

  /** `expand_aliases` with its two loops. */
  method ExpandAliases(annotations: map<string, Fields>, order: seq<string>) returns (expanded: map<string, Fields>)
    requires Walkable(annotations, order)
    ensures expanded == Expand(annotations, order)
  {
    expanded := annotations;
    for i := 0 to |order|
      invariant expanded == Expand(annotations, order[..i])
    {
      assert order[..i + 1][..i] == order[..i];
      var gameName := order[i];
      var gameData := annotations[gameName];
      if Aliases in gameData && gameData[Aliases].Texts? && gameData[Aliases].texts != [] {
        var aliases := gameData[Aliases].texts;
        ghost var before := expanded;
        for j := 0 to |aliases|
          invariant expanded == AddAliases(before, gameName, gameData, aliases[..j])
        {
          assert aliases[..j + 1][..j] == aliases[..j];
          var alias := aliases[j];
          if alias in expanded {
            continue;
          }
          var aliasEntry := gameData[IsAliasOf := Text(gameName)];
          expanded := expanded[alias := aliasEntry];
        }
        assert aliases[..|aliases|] == aliases;
      }
    }
    assert order[..|order|] == order;
  }

  /** What the loop over the joined games leaves: neither `_isAliasOf` nor `aliases`, every other field as it was. */
  function StripMarkers(merged: map<string, Fields>): (r: map<string, Fields>)
    ensures r.Keys == merged.Keys
    ensures forall k :: k in r ==> IsAliasOf !in r[k] && Aliases !in r[k]
    ensures forall k, f :: k in r && f != IsAliasOf && f != Aliases ==>
              (f in r[k] <==> f in merged[k]) && (f in r[k] ==> r[k][f] == merged[k][f])
  {
    map k | k in merged :: merged[k] - {IsAliasOf, Aliases}
  }

  /** The loop deleting the two markers from every joined game. */
  method RemoveMarkers(merged: map<string, Fields>) returns (stripped: map<string, Fields>)
    ensures stripped == StripMarkers(merged)
  {
    stripped := merged;
    var todo := merged.Keys;
    while todo != {}
      invariant todo <= merged.Keys
      invariant stripped.Keys == merged.Keys
      invariant forall k :: k in stripped ==> stripped[k] == if k in todo then merged[k] else merged[k] - {IsAliasOf, Aliases}
      decreases todo
    {
      var k :| k in todo;
      var gameData := stripped[k];
      if IsAliasOf in gameData {
        gameData := gameData - {IsAliasOf};
      }
      if Aliases in gameData {
        gameData := gameData - {Aliases};
      }
      assert gameData == merged[k] - {IsAliasOf, Aliases};
      stripped := stripped[k := gameData];
      todo := todo - {k};
    }
  }
}
