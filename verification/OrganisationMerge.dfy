/** Merging two organisations: which of their number generator items are kept. */
module OrganisationMerge {

  /** A row of the table of generator items; an organisation has one per type at most. */
  datatype Item = Item(id: int, organisation: int, numberedType: int)

  ghost predicate Valid(table: seq<Item>) {
    forall i, j :: 0 <= i < j < |table| ==>
      && table[i].id != table[j].id
      && (table[i].organisation != table[j].organisation || table[i].numberedType != table[j].numberedType)
  }

  predicate IsFor(item: Item, organisation: int, t: int) {
    item.organisation == organisation && item.numberedType == t
  }

  ghost predicate Has(table: seq<Item>, organisation: int, t: int) {
    exists item :: item in table && IsFor(item, organisation, t)
  }

  /** The items of the two organisations for one type, in the order of the table. */
  function Group(table: seq<Item>, kept: int, other: int, t: int): seq<Item> {
    if table == [] then
      []
    else
      var before, item := Group(table[..|table| - 1], kept, other, t), table[|table| - 1];
      if item.numberedType == t && item.organisation in {kept, other} then before + [item] else before
  }

  lemma {:induction false} GroupHolds(table: seq<Item>, kept: int, other: int, t: int)
    ensures forall item :: item in Group(table, kept, other, t)
                     <==> item in table && item.numberedType == t && item.organisation in {kept, other}
  {
    if table != [] {
      GroupHolds(table[..|table| - 1], kept, other, t);
      assert table == table[..|table| - 1] + [table[|table| - 1]];
    }
  }

  lemma HasOneMore(table: seq<Item>, organisation: int, t: int)
    requires Valid(table) && table != []
    ensures var n := |table| - 1;
            && Valid(table[..n])
            && (Has(table, organisation, t) <==> Has(table[..n], organisation, t) || IsFor(table[n], organisation, t))
            && (IsFor(table[n], organisation, t) ==> !Has(table[..n], organisation, t))
  {
    var n := |table| - 1;
    assert table == table[..n] + [table[n]];
  }

  /** A type has two items exactly when both organisations have one. */
  lemma {:induction false} GroupSize(table: seq<Item>, kept: int, other: int, t: int)
    requires Valid(table) && kept != other
    ensures |Group(table, kept, other, t)|
         == (if Has(table, kept, t) then 1 else 0) + (if Has(table, other, t) then 1 else 0)
  {
    if table != [] {
      GroupSize(table[..|table| - 1], kept, other, t);
      HasOneMore(table, kept, t);
      HasOneMore(table, other, t);
    }
  }

  /** The rows whose ids are not listed. */
  function Without(table: seq<Item>, ids: set<int>): seq<Item> {
    if table == [] then
      []
    else
      var before, item := Without(table[..|table| - 1], ids), table[|table| - 1];
      if item.id in ids then before else before + [item]
  }

  lemma {:induction false} WithoutHolds(table: seq<Item>, ids: set<int>)
    requires Valid(table)
    ensures forall item :: item in Without(table, ids) <==> item in table && item.id !in ids
    ensures Valid(Without(table, ids))
  {
    if table != [] {
      var n := |table| - 1;
      WithoutHolds(table[..n], ids);
      assert table == table[..n] + [table[n]];
      assert forall i :: 0 <= i < |Without(table[..n], ids)| ==> Without(table[..n], ids)[i] in table[..n];
    }
  }

  /** The items that make way: those of the other organisation for a type both have. */
  ghost predicate MakesWay(table: seq<Item>, kept: int, other: int, item: Item) {
    item in table && item.organisation == other && Has(table, kept, item.numberedType)
  }

  /** The first loop groups the items by type; `types` lists the keys as they came. */
  method GroupItems(table: seq<Item>, kept: int, other: int) returns (genItems: map<int, seq<Item>>, types: seq<int>)
    ensures forall t :: t in types <==> t in genItems
    ensures forall t :: t in genItems ==> genItems[t] == Group(table, kept, other, t)
    ensures forall t :: t !in genItems ==> Group(table, kept, other, t) == []
  {
    genItems, types := map[], [];
    for n := 0 to |table|
      invariant forall t :: t in types <==> t in genItems
      invariant forall t :: t in genItems ==> genItems[t] == Group(table[..n], kept, other, t)
      invariant forall t :: t !in genItems ==> Group(table[..n], kept, other, t) == []
    {
      var item := table[n];
      assert table[..n + 1][..n] == table[..n];
      if item.organisation in {kept, other} {
        var t := item.numberedType;
        if t in genItems {
          genItems := genItems[t := genItems[t] + [item]];
        } else {
          genItems, types := genItems[t := [item]], types + [t];
        }
      }
    }
    assert table[..|table|] == table;
  }

  /** The second loop: of two items for a type, that of the other organisation. */
  method IdsToDelete(ghost table: seq<Item>, ghost kept: int, other: int, genItems: map<int, seq<Item>>,
      types: seq<int>)
    returns (ids: set<int>)
    requires Valid(table) && kept != other
    requires forall t :: t in types <==> t in genItems
    requires forall t :: t in genItems ==> genItems[t] == Group(table, kept, other, t)
    requires forall t :: t !in genItems ==> Group(table, kept, other, t) == []
    ensures forall id :: id in ids <==> exists item: Item :: item.id == id && MakesWay(table, kept, other, item)
  {
    forall t | t !in types
      ensures !Has(table, other, t)
    {
      GroupHolds(table, kept, other, t);
    }
    ids := {};
    for n := 0 to |types|
      invariant forall id :: id in ids <==>
                  exists item: Item ::
                    item.id == id && item.numberedType in types[..n] && MakesWay(table, kept, other, item)
    {
      var t := types[n];
      assert t in types && forall u :: u in types[..n + 1] <==> u in types[..n] || u == t;
      var ctItems := genItems[t];
      GroupHolds(table, kept, other, t);
      GroupSize(table, kept, other, t);
      if |ctItems| == 2 {
        ids := ids + set item | item in ctItems && item.organisation == other :: item.id;
      }
    }
    assert types[..|types|] == types;
  }

  /** handle_merge_organisations() */
  method HandleMergeOrganisations(table: seq<Item>, kept: int, other: int) returns (after: seq<Item>)
    requires Valid(table) && kept != other
    ensures Valid(after)
    ensures forall item :: item in after <==> item in table && !MakesWay(table, kept, other, item)
  {
    var genItems, types := GroupItems(table, kept, other);
    var idsToDelete := IdsToDelete(table, kept, other, genItems, types);
    after := Without(table, idsToDelete);
    WithoutHolds(table, idsToDelete);
  }

  /** What the merge does next: the remaining items of the other organisation change hands. */
  function Reassigned(table: seq<Item>, kept: int, other: int): (r: seq<Item>)
    ensures |r| == |table|
  {
    seq(|table|, i requires 0 <= i < |table| =>
      if table[i].organisation == other then table[i].(organisation := kept) else table[i])
  }

  /** After the merge the table is valid again; the kept organisation has an item for every
      type that either had one for, its own when it had one; and nobody else's changed. */
  lemma MergeKeepsOneEach(table: seq<Item>, kept: int, other: int, after: seq<Item>)
    requires Valid(table) && kept != other && Valid(after)
    requires forall item :: item in after <==> item in table && !MakesWay(table, kept, other, item)
    ensures var merged := Reassigned(after, kept, other);
            && Valid(merged)
            && (forall t :: Has(merged, kept, t) <==> Has(table, kept, t) || Has(table, other, t))
            && (forall item :: item in table && item.organisation == kept ==> item in merged)
            && (forall t :: !Has(merged, other, t))
            && (forall item: Item :: item.organisation != kept && item.organisation != other ==>
                (item in merged <==> item in table))
  {
    var merged := Reassigned(after, kept, other);
    ReassignedIsValid(table, kept, other, after);
    assert forall i :: 0 <= i < |after| ==> after[i] in after;
    forall item | item in after && item.organisation != other
      ensures item in merged
    {
      var i :| 0 <= i < |after| && after[i] == item;
      assert merged[i] == item;
    }
    forall t
      ensures Has(merged, kept, t) <==> Has(table, kept, t) || Has(table, other, t)
    {
      KeptHas(table, kept, other, after, t);
    }
  }

  lemma ReassignedIsValid(table: seq<Item>, kept: int, other: int, after: seq<Item>)
    requires Valid(table) && kept != other && Valid(after)
    requires forall item :: item in after <==> item in table && !MakesWay(table, kept, other, item)
    ensures Valid(Reassigned(after, kept, other))
  {
    assert forall i :: 0 <= i < |after| ==> after[i] in after;
    forall i, j | && 0 <= i < |after| && 0 <= j < |after|
                  && after[i].organisation == kept && after[j].organisation == other
      ensures after[i].numberedType != after[j].numberedType
    {
      assert after[i] in table && !MakesWay(table, kept, other, after[j]);
    }
  }

  lemma KeptHas(table: seq<Item>, kept: int, other: int, after: seq<Item>, t: int)
    requires kept != other
    requires forall item :: item in after <==> item in table && !MakesWay(table, kept, other, item)
    ensures Has(Reassigned(after, kept, other), kept, t) <==> Has(table, kept, t) || Has(table, other, t)
  {
    var merged := Reassigned(after, kept, other);
    if Has(table, kept, t) {
      var item :| item in table && IsFor(item, kept, t);
      var i :| 0 <= i < |after| && after[i] == item;
      assert merged[i] == item && merged[i] in merged;
    } else if Has(table, other, t) {
      var item :| item in table && IsFor(item, other, t);
      assert item in after;
      var i :| 0 <= i < |after| && after[i] == item;
      assert merged[i] == item.(organisation := kept) && IsFor(merged[i], kept, t) && merged[i] in merged;
    }
    if Has(merged, kept, t) {
      var item :| item in merged && IsFor(item, kept, t);
      var i :| 0 <= i < |merged| && merged[i] == item;
      assert after[i] in after && after[i] in table;
      assert IsFor(after[i], kept, t) || IsFor(after[i], other, t);
    }
  }
}
