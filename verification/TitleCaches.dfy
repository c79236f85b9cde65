/** The list-view columns that show the titles of an entity's alerts, memos or todos, with
    their cache: one query for an entity, or one sorted query split among many. */
module TitleCaches {

  /** A row of the assistants' table; `rank` orders by the sort column of the field, negated
      when the order is descending. */
  datatype Row = Row(entity: int, title: string, rank: int, active: bool)

  // ------------------------------------------------------------ queries

  function Insert(row: Row, rows: seq<Row>): seq<Row> {
    if rows == [] || row.rank <= rows[0].rank then [row] + rows else [rows[0]] + Insert(row, rows[1..])
  }

  /** order_by(): rows of equal rank keep the order of the table. */
  function Sort(rows: seq<Row>): seq<Row> {
    if rows == [] then [] else Insert(rows[0], Sort(rows[1..]))
  }

  /** The active rows of one entity. */
  function Of(rows: seq<Row>, entity: int): seq<Row> {
    if rows == [] then
      []
    else
      var rest := Of(rows[1..], entity);
      if rows[0].entity == entity && rows[0].active then [rows[0]] + rest else rest
  }

  /** The active rows of some entities. */
  function OfAll(rows: seq<Row>, entities: set<int>): seq<Row> {
    if rows == [] then
      []
    else
      var rest := OfAll(rows[1..], entities);
      if rows[0].entity in entities && rows[0].active then [rows[0]] + rest else rest
  }

  function Titles(rows: seq<Row>): (titles: seq<string>)
    ensures |titles| == |rows|
  {
    seq(|rows|, i requires 0 <= i < |rows| => rows[i].title)
  }

  ghost predicate Sorted(rows: seq<Row>) {
    forall i, j :: 0 <= i < j < |rows| ==> rows[i].rank <= rows[j].rank
  }

  lemma {:induction false} InsertAdds(row: Row, rows: seq<Row>)
    ensures multiset(Insert(row, rows)) == multiset(rows) + multiset{row}
  {
    if rows != [] {
      assert rows == [rows[0]] + rows[1..];
      if row.rank > rows[0].rank {
        InsertAdds(row, rows[1..]);
      }
    }
  }

  lemma {:induction false} InsertKeepsSorted(row: Row, rows: seq<Row>)
    requires Sorted(rows)
    ensures Sorted(Insert(row, rows))
    ensures Insert(row, rows)[0] == row || (rows != [] && Insert(row, rows)[0] == rows[0])
  {
    if rows != [] && row.rank > rows[0].rank {
      InsertKeepsSorted(row, rows[1..]);
    }
  }

  lemma {:induction false} SortSorts(rows: seq<Row>)
    ensures Sorted(Sort(rows))
    ensures multiset(Sort(rows)) == multiset(rows)
  {
    if rows != [] {
      SortSorts(rows[1..]);
      InsertKeepsSorted(rows[0], Sort(rows[1..]));
      InsertAdds(rows[0], Sort(rows[1..]));
      assert rows == [rows[0]] + rows[1..];
    }
  }

  /** The active rows of an entity are those of the table, each as often as there. */
  lemma {:induction false} OfCounts(rows: seq<Row>, entity: int, r: Row)
    ensures multiset(Of(rows, entity))[r] == if r.entity == entity && r.active then multiset(rows)[r] else 0
  {
    if rows != [] {
      OfCounts(rows[1..], entity, r);
      assert rows == [rows[0]] + rows[1..];
      var rest := Of(rows[1..], entity);
      assert multiset([rows[0]] + rest) == multiset{rows[0]} + multiset(rest);
    }
  }

  /** The rows of one rank, in the order of the table. */
  function OfRank(rows: seq<Row>, rank: int): seq<Row> {
    if rows == [] then
      []
    else
      var rest := OfRank(rows[1..], rank);
      if rows[0].rank == rank then [rows[0]] + rest else rest
  }

  lemma {:induction false} InsertThenOfRank(row: Row, rows: seq<Row>, rank: int)
    ensures OfRank(Insert(row, rows), rank) == OfRank([row] + rows, rank)
  {
    assert ([row] + rows)[1..] == rows;
    if rows != [] && row.rank > rows[0].rank {
      InsertThenOfRank(row, rows[1..], rank);
      assert ([row] + rows[1..])[1..] == rows[1..];
      assert ([rows[0]] + Insert(row, rows[1..]))[1..] == Insert(row, rows[1..]);
    }
  }

  /** Rows of equal rank stay in the order of the table. */
  lemma {:induction false} SortIsStable(rows: seq<Row>, rank: int)
    ensures OfRank(Sort(rows), rank) == OfRank(rows, rank)
  {
    if rows != [] {
      SortIsStable(rows[1..], rank);
      InsertThenOfRank(rows[0], Sort(rows[1..]), rank);
      assert ([rows[0]] + Sort(rows[1..]))[1..] == Sort(rows[1..]);
    }
  }

  lemma {:induction false} OfIsWithin(rows: seq<Row>, entity: int)
    ensures forall r :: r in Of(rows, entity) ==> r in rows && r.active && r.entity == entity
  {
    if rows != [] {
      OfIsWithin(rows[1..], entity);
    }
  }

  lemma {:induction false} InsertThenOf(row: Row, rows: seq<Row>, entity: int)
    requires Sorted(rows)
    ensures Of(Insert(row, rows), entity)
         == if row.entity == entity && row.active then Insert(row, Of(rows, entity)) else Of(rows, entity)
  {
    if rows == [] || row.rank <= rows[0].rank {
      assert ([row] + rows)[1..] == rows;
      OfIsWithin(rows, entity);
      if Of(rows, entity) != [] {
        assert Of(rows, entity)[0] in rows;
      }
    } else {
      assert ([rows[0]] + Insert(row, rows[1..]))[1..] == Insert(row, rows[1..]);
      InsertThenOf(row, rows[1..], entity);
      assert forall s: seq<Row> :: ([rows[0]] + s)[1..] == s;
    }
  }

  /** Splitting the sorted rows keeps every entity's own order: the rows of an entity come out
      of the sorted table as if they had been sorted alone. */
  lemma {:induction false} SortThenOf(rows: seq<Row>, entity: int)
    ensures Of(Sort(rows), entity) == Sort(Of(rows, entity))
  {
    if rows != [] {
      SortThenOf(rows[1..], entity);
      SortSorts(rows[1..]);
      InsertThenOf(rows[0], Sort(rows[1..]), entity);
      if rows[0].entity == entity && rows[0].active {
        assert Of(rows, entity)[1..] == Of(rows[1..], entity);
      }
    }
  }

  lemma {:induction false} OfAllThenOf(rows: seq<Row>, entities: set<int>, entity: int)
    requires entity in entities
    ensures Of(OfAll(rows, entities), entity) == Of(rows, entity)
  {
    if rows != [] {
      OfAllThenOf(rows[1..], entities, entity);
      if rows[0].entity in entities && rows[0].active {
        assert ([rows[0]] + OfAll(rows[1..], entities))[1..] == OfAll(rows[1..], entities);
      }
    }
  }

  lemma {:induction false} OfAllIsWithin(rows: seq<Row>, entities: set<int>)
    ensures forall r :: r in OfAll(rows, entities) ==> r.active && r.entity in entities
  {
    if rows != [] {
      OfAllIsWithin(rows[1..], entities);
    }
  }

  lemma {:induction false} OfNothing(rows: seq<Row>, entity: int)
    requires forall i :: 0 <= i < |rows| ==> rows[i].entity != entity
    ensures Of(rows, entity) == []
  {
    if rows != [] {
      OfNothing(rows[1..], entity);
    }
  }

  lemma {:induction false} OfAppend(rows: seq<Row>, row: Row, entity: int)
    ensures Of(rows + [row], entity) == Of(rows, entity) + if row.entity == entity && row.active then [row] else []
  {
    if rows == [] {
      assert rows + [row] == [row] && [row][1..] == [];
    } else {
      assert (rows + [row])[1..] == rows[1..] + [row];
      OfAppend(rows[1..], row, entity);
    }
  }

  // ------------------------------------------------------------ the field and its cache

  const FORBIDDEN: string := "Forbidden app"

  /** What the field shows for an entity, without any cache. */
  function OwnTitles(rows: seq<Row>, allowed: bool, entity: int): seq<string> {
    if allowed then Titles(Sort(Of(rows, entity))) else [FORBIDDEN]
  }

  /** `found` is what an ordered query for the entity gives: its active rows, each as often as
      they stand in the table, by rank. */
  ghost predicate IsQuery(rows: seq<Row>, entity: int, found: seq<Row>) {
    && (forall i, j :: 0 <= i < j < |found| ==> found[i].rank <= found[j].rank)
    && (forall r: Row :: multiset(found)[r] == if r.entity == entity && r.active then multiset(rows)[r] else 0)
  }

  ghost predicate AreTitles(found: seq<Row>, titles: seq<string>) {
    |titles| == |found| && forall i :: 0 <= i < |found| ==> titles[i] == found[i].title
  }

  /** A user without access to the app is told so, whatever the rows; any other one is shown
      the titles of the ordered query. */
  lemma ShownTitles(rows: seq<Row>, allowed: bool, entity: int)
    ensures !allowed ==> OwnTitles(rows, allowed, entity) == ["Forbidden app"]
    ensures allowed ==>
              exists found :: IsQuery(rows, entity, found) && AreTitles(found, OwnTitles(rows, allowed, entity))
  {
    var found := Sort(Of(rows, entity));
    SortSorts(Of(rows, entity));
    forall r: Row
      ensures multiset(found)[r] == if r.entity == entity && r.active then multiset(rows)[r] else 0
    {
      OfCounts(rows, entity, r);
    }
    assert IsQuery(rows, entity, found);
    assert AreTitles(found, Titles(found));
  }

  /** The sorted rows of several entities, split, give each its own titles. */
  lemma SplitGivesOwnTitles(rows: seq<Row>, entities: set<int>, entity: int)
    requires entity in entities
    ensures Titles(Of(Sort(OfAll(rows, entities)), entity)) == OwnTitles(rows, true, entity)
  {
    SortThenOf(OfAll(rows, entities), entity);
    OfAllThenOf(rows, entities, entity);
  }

  lemma TitlesAppend(rows: seq<Row>, row: Row)
    ensures Titles(rows + [row]) == Titles(rows) + [row.title]
    ensures rows + [] == rows
  {
  }

  /** Appending the title of each row to the list of its entity, which starts empty. */
  function AddTitles(cache: map<int, seq<string>>, found: seq<Row>): map<int, seq<string>> {
    if found == [] then
      cache
    else
      var before, row := AddTitles(cache, found[..|found| - 1]), found[|found| - 1];
      before[row.entity := (if row.entity in before then before[row.entity] else []) + [row.title]]
  }

  lemma {:induction false} AddTitlesSplits(cache: map<int, seq<string>>, found: seq<Row>, e: int)
    requires forall i :: 0 <= i < |found| ==> found[i].active
    ensures var after := AddTitles(cache, found);
            && (e in after <==> e in cache || Of(found, e) != [])
            && (e in after ==> after[e] == (if e in cache then cache[e] else []) + Titles(Of(found, e)))
  {
    if found != [] {
      var n := |found| - 1;
      AddTitlesSplits(cache, found[..n], e);
      assert found == found[..n] + [found[n]];
      OfAppend(found[..n], found[n], e);
      TitlesAppend(Of(found[..n], e), found[n]);
    }
  }

  /** A populated cache: entities cached before keep their lists, the others that have rows
      get their own titles. */
  lemma PopulatedCache(cache: map<int, seq<string>>, rows: seq<Row>, missing: set<int>, e: int)
    requires forall m :: m in missing ==> m !in cache
    ensures var after := AddTitles(cache, Sort(OfAll(rows, missing)));
            && (e in after <==> e in cache || (e in missing && Of(rows, e) != []))
            && (e in after ==> after[e] == if e in cache then cache[e] else OwnTitles(rows, true, e))
  {
    var found := Sort(OfAll(rows, missing));
    SortSorts(OfAll(rows, missing));
    OfAllIsWithin(rows, missing);
    forall i | 0 <= i < |found|
      ensures found[i].active && found[i].entity in missing
    {
      assert found[i] in multiset(OfAll(rows, missing));
    }
    AddTitlesSplits(cache, found, e);
    if e in missing {
      SplitGivesOwnTitles(rows, missing, e);
      SortSorts(Of(rows, e));
      assert |Sort(Of(rows, e))| == |multiset(Of(rows, e))|;
    } else {
      OfNothing(found, e);
    }
  }

  /** A field used for one user, on fixed data. */
  class TitlesField {
    const rows: seq<Row>
    const allowed: bool
    var cache: map<int, seq<string>>

    constructor (rows: seq<Row>, allowed: bool)
      ensures this.rows == rows && this.allowed == allowed && Valid()
    {
      this.rows, this.allowed, this.cache := rows, allowed, map[];
    }

    /** Whatever is cached is what the query gives. */
    ghost predicate Valid()
      reads this
    {
      forall e :: e in cache ==> cache[e] == OwnTitles(rows, allowed, e)
    }

    /** __call__() */
    method Call(entity: int) returns (titles: seq<string>)
      requires Valid()
      modifies this`cache
      ensures Valid()
      ensures titles == OwnTitles(rows, allowed, entity)
      ensures !allowed ==> titles == ["Forbidden app"]
      ensures allowed ==> exists found :: IsQuery(rows, entity, found) && AreTitles(found, titles)
      ensures cache == old(cache)[entity := titles]
    {
      ShownTitles(rows, allowed, entity);
      if entity in cache {
        titles := cache[entity];
        assert cache == cache[entity := titles];
      } else {
        titles := if allowed then Titles(Sort(Of(rows, entity))) else [FORBIDDEN];
        cache := cache[entity := titles];
      }
    }

    /** populate_entities(): entities may come twice and may be cached already. */
    method PopulateEntities(entities: seq<int>)
      requires Valid()
      modifies this`cache
      ensures Valid()
      ensures forall e :: e in old(cache) ==> e in cache && cache[e] == old(cache)[e]
      ensures forall e :: e in cache <==> e in old(cache) || (allowed && e in entities && Of(rows, e) != [])
    {
      if allowed {
        var missing := set e | e in entities && e !in cache;
        var found := Sort(OfAll(rows, missing));
        for n := 0 to |found|
          invariant cache == AddTitles(old(cache), found[..n])
        {
          var row := found[n];
          assert found[..n + 1][..n] == found[..n];
          cache := cache[row.entity := (if row.entity in cache then cache[row.entity] else []) + [row.title]];
        }
        assert found[..|found|] == found;
        forall e
          ensures e in cache <==> e in old(cache) || (e in missing && Of(rows, e) != [])
          ensures e in cache ==> cache[e] == if e in old(cache) then old(cache)[e] else OwnTitles(rows, true, e)
        {
          PopulatedCache(old(cache), rows, missing, e);
        }
      }
    }
  }
}
