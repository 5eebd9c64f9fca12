/**
 * Game records as the JSON files hold them, and the list <-> dictionary
 * conversions and the inner join shared by the pipeline scripts.
 */
module Records {
  import opened Wrappers
  import opened Dates
  import opened Seqs

  /** The JSON keys the pipeline reads or writes; `Other` is every other key (notes, ...). */
  datatype Field =
    | Game | Platform | Id | Url | LastPlayed | HoursPlayed
    | Platforms | Ids | Urls | HoursPlayedSingle | LastPlayedSingle | HoursPlayedTotal | LastPlayedTotal
    | Rating | Status | Tags | Aliases | DisplayName | IsAliasOf | DisplayUrl
    | Other(name: string)

  /** JSON values: `null`, numbers, strings, date strings, and lists of those. */
  datatype Value =
    | Null
    | Num(num: real)
    | Text(text: string)
    | Day(date: Date)
    | Texts(texts: seq<string>)
    | Nums(nums: seq<real>)
    | Days(dates: seq<Date>)

  /** One JSON object. */
  type Fields = map<Field, Value>

  /** Two dictionaries with the same games and the same object under each game are equal. */
  lemma SameEntries(a: map<string, Fields>, b: map<string, Fields>)
    requires a.Keys == b.Keys && forall k :: k in a ==> a[k] == b[k]
    ensures a == b
  {
  }

  /** A game object of a list file: it names its game in a string `game` field. */
  predicate Named(e: Fields) {
    Game in e && e[Game].Text?
  }

  predicate AllNamed(entries: seq<Fields>) {
    forall i :: 0 <= i < |entries| ==> Named(entries[i])
  }

  function NameOf(e: Fields): string
    requires Named(e)
  {
    e[Game].text
  }

  function Names(entries: seq<Fields>): (names: seq<string>)
    requires AllNamed(entries)
    ensures |names| == |entries|
    ensures forall i :: 0 <= i < |entries| ==> names[i] == NameOf(entries[i])
  {
    seq(|entries|, i requires 0 <= i < |entries| => NameOf(entries[i]))
  }

  /** The set of names in a list of game objects. */
  function NameSet(entries: seq<Fields>): (names: set<string>)
    requires AllNamed(entries)
    ensures forall i :: 0 <= i < |entries| ==> NameOf(entries[i]) in names
    ensures forall n :: n in names ==> exists i :: 0 <= i < |entries| && NameOf(entries[i]) == n
  {
    set i | 0 <= i < |entries| :: NameOf(entries[i])
  }

  lemma NameSetAppend(entries: seq<Fields>, e: Fields)
    requires AllNamed(entries) && Named(e)
    ensures NameSet(entries + [e]) == NameSet(entries) + {NameOf(e)}
  {
    var all := entries + [e];
    assert forall i :: 0 <= i < |entries| ==> all[i] == entries[i];
    forall n | n in NameSet(all) ensures n in NameSet(entries) + {NameOf(e)} {
      var i :| 0 <= i < |all| && NameOf(all[i]) == n;
      if i < |entries| { assert NameOf(entries[i]) == n; }
    }
    forall n | n in NameSet(entries) ensures n in NameSet(all) {
      var i :| 0 <= i < |entries| && NameOf(entries[i]) == n;
      assert NameOf(all[i]) == n;
    }
    assert NameOf(all[|entries|]) == NameOf(e);
  }

  /** The names that occur more than once, as reported by the duplicate-name error. */
  function Duplicates(names: seq<string>): (dups: set<string>)
    ensures forall n :: n in dups <==> exists i, j :: 0 <= i < j < |names| && names[i] == n && names[j] == n
  {
    set i, j | 0 <= i < j < |names| && names[i] == names[j] :: names[i]
  }

  /**
   * The dictionary comprehension `{game['game']: game for game in games}`:
   * a later entry with the same name overwrites an earlier one.
   */
  function KeyByGame(entries: seq<Fields>): map<string, Fields>
    requires AllNamed(entries)
  {
    if entries == [] then map[]
    else
      var last := entries[|entries| - 1];
      KeyByGame(entries[..|entries| - 1])[NameOf(last) := last]
  }

  /** Keying one more object adds or overwrites its name's entry. */
  lemma KeyByGameSnoc(entries: seq<Fields>, e: Fields)
    requires AllNamed(entries) && Named(e)
    ensures AllNamed(entries + [e])
    ensures KeyByGame(entries + [e]) == KeyByGame(entries)[NameOf(e) := e]
  {
    assert (entries + [e])[..|entries|] == entries;
  }

  lemma {:induction false} KeyByGameKeys(entries: seq<Fields>)
    requires AllNamed(entries)
    ensures KeyByGame(entries).Keys == NameSet(entries)
  {
    if entries != [] {
      var n := |entries|;
      KeyByGameKeys(entries[..n - 1]);
      assert entries == entries[..n - 1] + [entries[n - 1]];
      NameSetAppend(entries[..n - 1], entries[n - 1]);
    }
  }

  /** A name whose last occurrence is at `i` holds the entry at `i`. */
  lemma {:induction false} KeyByGameLastAt(entries: seq<Fields>, i: nat)
    requires AllNamed(entries)
    requires i < |entries|
    requires forall j :: i < j < |entries| ==> NameOf(entries[j]) != NameOf(entries[i])
    ensures NameOf(entries[i]) in KeyByGame(entries)
    ensures KeyByGame(entries)[NameOf(entries[i])] == entries[i]
  {
    var n := |entries|;
    if i < n - 1 {
      KeyByGameLastAt(entries[..n - 1], i);
    }
  }

  /** The keys are the names, and each name holds the last entry carrying it. */
  lemma KeyByGameLast(entries: seq<Fields>)
    requires AllNamed(entries)
    ensures KeyByGame(entries).Keys == NameSet(entries)
    ensures forall i :: 0 <= i < |entries| ==>
              (forall j :: i < j < |entries| ==> NameOf(entries[j]) != NameOf(entries[i])) ==>
              KeyByGame(entries)[NameOf(entries[i])] == entries[i]
  {
    KeyByGameKeys(entries);
    forall i | 0 <= i < |entries| && forall j :: i < j < |entries| ==> NameOf(entries[j]) != NameOf(entries[i])
      ensures KeyByGame(entries)[NameOf(entries[i])] == entries[i]
    {
      KeyByGameLastAt(entries, i);
    }
  }

  /** Every value of a keyed dictionary is one of the entries that carries its key. */
  lemma {:induction false} KeyByGameFrom(entries: seq<Fields>, k: string)
    requires AllNamed(entries)
    requires k in KeyByGame(entries)
    ensures exists i :: 0 <= i < |entries| && NameOf(entries[i]) == k && KeyByGame(entries)[k] == entries[i]
  {
    var n := |entries|;
    if NameOf(entries[n - 1]) != k {
      KeyByGameFrom(entries[..n - 1], k);
      var i :| 0 <= i < n - 1 && NameOf(entries[..n - 1][i]) == k && KeyByGame(entries[..n - 1])[k] == entries[..n - 1][i];
      assert entries[..n - 1][i] == entries[i];
    }
  }

  /** The loop `del game_data['game']` over every value of a keyed dictionary. */
  function DropGameField(games: map<string, Fields>): (r: map<string, Fields>)
    ensures r.Keys == games.Keys
    ensures forall k :: k in r ==> Game !in r[k] && (forall f :: f != Game ==> (f in r[k] <==> f in games[k]))
    ensures forall k, f :: k in r && f in r[k] ==> r[k][f] == games[k][f]
  {
    map k | k in games :: games[k] - {Game}
  }

  datatype ParseError = DuplicateGames(names: set<string>)

  /** `parse_game_json` after the file has been read: reject repeated names, then key by name. */
  function ParseGameList(entries: seq<Fields>): Result<map<string, Fields>, ParseError>
    requires AllNamed(entries)
  {
    var names := Names(entries);
    if !Distinct(names) then Failure(DuplicateGames(Duplicates(names)))
    else Success(DropGameField(KeyByGame(entries)))
  }

  /**
   * The parse succeeds exactly when no name repeats; it then keys every entry by
   * its name, without the `game` field, and nothing else is in the result.
   */
  lemma ParseGameListSpec(entries: seq<Fields>)
    requires AllNamed(entries)
    ensures ParseGameList(entries).Failure? <==> !Distinct(Names(entries))
    ensures ParseGameList(entries).Failure? ==>
              ParseGameList(entries).error.names != {} &&
              ParseGameList(entries).error.names <= NameSet(entries)
    ensures ParseGameList(entries).Success? ==>
              var m := ParseGameList(entries).value;
              && m.Keys == NameSet(entries)
              && forall i :: 0 <= i < |entries| ==> m[NameOf(entries[i])] == entries[i] - {Game}
  {
    var names := Names(entries);
    KeyByGameLast(entries);
    if !Distinct(names) {
      var i, j :| 0 <= i < j < |names| && names[i] == names[j];
      assert names[i] in Duplicates(names);
    }
  }

  /** `parse_game_json` with its loop: check the names, key by name, drop the `game` fields. */
  method ParseGameJson(entries: seq<Fields>) returns (r: Result<map<string, Fields>, ParseError>)
    requires AllNamed(entries)
    ensures r == ParseGameList(entries)
  {
    var names := Names(entries);
    if !Distinct(names) {
      return Failure(DuplicateGames(Duplicates(names)));
    }
    var stripped := DeleteGameFields(KeyByGame(entries));
    return Success(stripped);
  }

  /** The loop `del game_data['game']` over the values of a freshly keyed dictionary. */
  method DeleteGameFields(games: map<string, Fields>) returns (stripped: map<string, Fields>)
    ensures stripped == DropGameField(games)
  {
    stripped := map[];
    var todo := games.Keys;
    while todo != {}
      invariant todo <= games.Keys
      invariant stripped.Keys == games.Keys - todo
      invariant forall k :: k in stripped ==> stripped[k] == games[k] - {Game}
      decreases todo
    {
      var k :| k in todo;
      stripped := stripped[k := games[k] - {Game}];
      todo := todo - {k};
    }
    assert stripped == DropGameField(games);
  }

  /** `entries` is what `write_game_json` emits for `games`, in some dictionary order. */
  ghost predicate WrittenAs(games: map<string, Fields>, entries: seq<Fields>) {
    && AllNamed(entries)
    && Distinct(Names(entries))
    && NameSet(entries) == games.Keys
    && forall i :: 0 <= i < |entries| ==> entries[i] == games[NameOf(entries[i])][Game := Text(NameOf(entries[i]))]
  }

  /** `write_game_json` before the file is written: one entry per game, `game` set to its key. */
  method WriteGameJson(games: map<string, Fields>) returns (entries: seq<Fields>)
    ensures AllNamed(entries) && Distinct(Names(entries))
    ensures NameSet(entries) == games.Keys
    ensures forall i :: 0 <= i < |entries| ==>
              entries[i] == games[NameOf(entries[i])][Game := Text(NameOf(entries[i]))]
    ensures WrittenAs(games, entries)
  {
    entries := [];
    var todo := games.Keys;
    while todo != {}
      invariant todo <= games.Keys
      invariant AllNamed(entries) && Distinct(Names(entries))
      invariant NameSet(entries) == games.Keys - todo
      invariant forall i :: 0 <= i < |entries| ==>
                  entries[i] == games[NameOf(entries[i])][Game := Text(NameOf(entries[i]))]
      decreases todo
    {
      var k :| k in todo;
      ghost var before := entries;
      entries := entries + [games[k][Game := Text(k)]];
      assert forall i :: 0 <= i < |before| ==> entries[i] == before[i];
      NameSetAppend(before, games[k][Game := Text(k)]);
      todo := todo - {k};
    }
  }

  /** Reading back what was written gives the dictionary again, when no value has a `game` field. */
  lemma SetThenDrop(x: Fields, name: string)
    requires Game !in x
    ensures x[Game := Text(name)] - {Game} == x
  {
  }

  lemma WriteThenParse(games: map<string, Fields>, entries: seq<Fields>)
    requires WrittenAs(games, entries)
    requires forall k :: k in games ==> Game !in games[k]
    ensures ParseGameList(entries) == Success(games)
  {
    var byName := KeyByGame(entries);
    KeyByGameLast(entries);
    assert byName.Keys == games.Keys;
    var m := DropGameField(byName);
    forall k | k in games ensures m[k] == games[k] {
      var i :| 0 <= i < |entries| && NameOf(entries[i]) == k;
      assert forall j :: i < j < |entries| ==> Names(entries)[j] != Names(entries)[i];
      assert byName[k] == entries[i];
      SetThenDrop(games[k], k);
    }
    assert m == games;
  }

  /**
   * `inner_join_dicts`: the keys present in both dictionaries, each value the
   * union of the two objects' fields, the second object's value on a clash.
   */
  function InnerJoin(d1: map<string, Fields>, d2: map<string, Fields>): (r: map<string, Fields>)
    ensures r.Keys == d1.Keys * d2.Keys
    ensures forall k, f :: k in r ==> (f in r[k] <==> f in d1[k] || f in d2[k])
    ensures forall k, f :: k in r && f in d2[k] ==> r[k][f] == d2[k][f]
    ensures forall k, f :: k in r && f in d1[k] && f !in d2[k] ==> r[k][f] == d1[k][f]
  {
    map k | k in d1 && k in d2 :: d1[k] + d2[k]
  }

  /**
   * `inner_join_dicts` with its loop over the key intersection; `order` is the
   * order in which the loop visits the keys, which is the result's dictionary order.
   */
  method InnerJoinDicts(d1: map<string, Fields>, d2: map<string, Fields>)
    returns (combined: map<string, Fields>, order: seq<string>)
    ensures combined == InnerJoin(d1, d2)
    ensures Enumerates(order, combined.Keys)
  {
    var intersection := d1.Keys * d2.Keys;
    combined, order := map[], [];
    var todo := intersection;
    while todo != {}
      invariant todo <= intersection
      invariant combined.Keys == intersection - todo
      invariant forall k :: k in combined ==> combined[k] == d1[k] + d2[k]
      invariant Enumerates(order, combined.Keys)
      decreases todo
    {
      var k :| k in todo;
      combined := combined[k := d1[k] + d2[k]];
      order := order + [k];
      todo := todo - {k};
    }
  }
}
