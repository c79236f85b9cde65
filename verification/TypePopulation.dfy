/** Creating the activity types and sub-types in the database, on a first run or again. */
module TypePopulation {

  type Uuid = nat

  datatype SubTypeDef = SubTypeDef(uuid: Uuid, name: string, isCustom: bool)

  datatype TypeDef = TypeDef(uuid: Uuid, name: string, isCustom: bool, subTypes: seq<SubTypeDef>)

  datatype TypeRow = TypeRow(name: string, isCustom: bool)

  datatype SubTypeRow = SubTypeRow(parent: Uuid, name: string, isCustom: bool)

  datatype Db = Db(types: map<Uuid, TypeRow>, subTypes: map<Uuid, SubTypeRow>) {
    function AddType(t: TypeDef): Db {
      this.(types := types[t.uuid := TypeRow(t.name, t.isCustom)])
    }

    function AddSubType(parent: Uuid, s: SubTypeDef): Db {
      this.(subTypes := subTypes[s.uuid := SubTypeRow(parent, s.name, s.isCustom)])
    }
  }

  // ------------------------------------------------------------ specification

  /** The first `n` sub-types of `t`, all of them or only the missing mandatory ones. */
  function WithSubTypes(db: Db, t: TypeDef, n: nat, all: bool): Db
    requires n <= |t.subTypes|
  {
    if n == 0 then
      db
    else
      var before, s := WithSubTypes(db, t, n - 1, all), t.subTypes[n - 1];
      if all || (!s.isCustom && s.uuid !in before.subTypes) then before.AddSubType(t.uuid, s) else before
  }

  function WithType(db: Db, t: TypeDef): Db {
    if t.uuid in db.types then
      WithSubTypes(db, t, |t.subTypes|, false)
    else
      WithSubTypes(db.AddType(t), t, |t.subTypes|, true)
  }

  /** The first `n` definitions, either the custom ones or the others. */
  function WithTypes(db: Db, defs: seq<TypeDef>, n: nat, custom: bool): Db
    requires n <= |defs|
  {
    if n == 0 then
      db
    else
      var before := WithTypes(db, defs, n - 1, custom);
      if defs[n - 1].isCustom == custom then WithType(before, defs[n - 1]) else before
  }

  function Populated(db: Db, defs: seq<TypeDef>, alreadyPopulated: bool): Db {
    var mandatory := WithTypes(db, defs, |defs|, false);
    if alreadyPopulated then mandatory else WithTypes(mandatory, defs, |defs|, true)
  }

  // ------------------------------------------------------------ the two loops

  /** The tables; saving an instance that is in them already would be an integrity error. */
  class Database {
    var types: map<Uuid, TypeRow>
    var subTypes: map<Uuid, SubTypeRow>

    ghost function Now(): Db
      reads this
    {
      Db(types, subTypes)
    }

    method SaveType(t: TypeDef)
      requires t.uuid !in types
      modifies this
      ensures Now() == old(Now()).AddType(t)
    {
      types := types[t.uuid := TypeRow(t.name, t.isCustom)];
    }

    method SaveSubType(parent: Uuid, s: SubTypeDef)
      requires parent in types && s.uuid !in subTypes
      modifies this
      ensures Now() == old(Now()).AddSubType(parent, s)
    {
      subTypes := subTypes[s.uuid := SubTypeRow(parent, s.name, s.isCustom)];
    }

    method SaveAllSubTypes(t: TypeDef)
      requires t.uuid in types && Distinct(t) && forall s :: s in t.subTypes ==> s.uuid !in subTypes
      modifies this
      ensures Now() == WithSubTypes(old(Now()), t, |t.subTypes|, true)
    {
      for n := 0 to |t.subTypes|
        invariant Now() == WithSubTypes(old(Now()), t, n, true)
        invariant types == old(types)
        invariant forall i :: n <= i < |t.subTypes| ==> t.subTypes[i].uuid !in subTypes
      {
        SaveSubType(t.uuid, t.subTypes[n]);
      }
    }

    /** _populate_activity_types_and_sub_types(): never saves a row that exists already. */
    method PopulateActivityTypes(defs: seq<TypeDef>, alreadyPopulated: bool)
      requires Ready(Now(), defs, alreadyPopulated)
      modifies this
      ensures Now() == Populated(old(Now()), defs, alreadyPopulated)
    {
      for n := 0 to |defs|
        invariant Now() == WithTypes(old(Now()), defs, n, false)
      {
        var t := defs[n];
        if t.isCustom {
          continue;
        }
        RoomForType(old(Now()), defs, n, false);
        if t.uuid !in types {
          SaveType(t);
          SaveAllSubTypes(t);
        } else {
          ghost var before := Now();
          for i := 0 to |t.subTypes|
            invariant Now() == WithSubTypes(before, t, i, false)
            invariant types == before.types
          {
            if !t.subTypes[i].isCustom && t.subTypes[i].uuid !in subTypes {
              SaveSubType(t.uuid, t.subTypes[i]);
            }
          }
        }
      }
      if !alreadyPopulated {
        ghost var mandatory := Now();
        ReadyForCustom(old(Now()), defs);
        for n := 0 to |defs|
          invariant Now() == WithTypes(mandatory, defs, n, true)
        {
          if defs[n].isCustom {
            RoomForType(mandatory, defs, n, true);
            SaveType(defs[n]);
            SaveAllSubTypes(defs[n]);
          }
        }
      }
    }
  }

  // ------------------------------------------------------------ consistent databases

  ghost predicate Distinct(t: TypeDef) {
    forall i, j :: 0 <= i < j < |t.subTypes| ==> t.subTypes[i].uuid != t.subTypes[j].uuid
  }

  /** No UUID is used twice in the definitions. */
  ghost predicate DistinctDefs(defs: seq<TypeDef>) {
    && (forall i, j :: 0 <= i < j < |defs| ==> defs[i].uuid != defs[j].uuid)
    && (forall i :: 0 <= i < |defs| ==> Distinct(defs[i]))
    && (forall i, j, a, b :: 0 <= i < j < |defs| && a in defs[i].subTypes && b in defs[j].subTypes ==> a.uuid != b.uuid)
  }

  /** A type and what is defined under it are not in the database. */
  ghost predicate Absent(db: Db, t: TypeDef) {
    t.uuid !in db.types && forall s :: s in t.subTypes ==> s.uuid !in db.subTypes
  }

  /** The sub-types of a missing type are missing too, and before the first population so are
      the custom types. */
  ghost predicate Ready(db: Db, defs: seq<TypeDef>, alreadyPopulated: bool) {
    && DistinctDefs(defs)
    && forall i :: 0 <= i < |defs| ==>
         (defs[i].uuid !in db.types || (defs[i].isCustom && !alreadyPopulated) ==> Absent(db, defs[i]))
  }

  /** Every row of `db` is in `db'`, unchanged. */
  ghost predicate Extends(db: Db, db': Db) {
    && (forall u :: u in db.types ==> u in db'.types && db'.types[u] == db.types[u])
    && (forall u :: u in db.subTypes ==> u in db'.subTypes && db'.subTypes[u] == db.subTypes[u])
  }

  // ------------------------------------------------------------ what a run adds

  /** Whether a run saves the sub-type `s` of `t`. */
  ghost predicate Wanted(db: Db, t: TypeDef, s: SubTypeDef) {
    s in t.subTypes && (t.uuid !in db.types || (!s.isCustom && s.uuid !in db.subTypes))
  }

  ghost predicate HasRow(db: Db, t: TypeDef, s: SubTypeDef) {
    s.uuid in db.subTypes && db.subTypes[s.uuid] == SubTypeRow(t.uuid, s.name, s.isCustom)
  }

  ghost predicate HasTypeRow(db: Db, t: TypeDef) {
    t.uuid in db.types && db.types[t.uuid] == TypeRow(t.name, t.isCustom)
  }

  /** What `t` brings to `db` has its own rows in `db'`, the sub-types under the type. */
  ghost predicate RowsOf(db: Db, t: TypeDef, db': Db) {
    && (t.uuid !in db.types ==> HasTypeRow(db', t))
    && (forall s :: Wanted(db, t, s) ==> HasRow(db', t, s))
  }

  /** The exact rows after one definition: those before, the type, and the wanted sub-types. */
  ghost predicate AddsJust(db: Db, t: TypeDef, db': Db) {
    && Extends(db, db')
    && db'.types.Keys == db.types.Keys + {t.uuid}
    && (forall u :: u in db'.subTypes <==> u in db.subTypes || exists s :: Wanted(db, t, s) && s.uuid == u)
    && RowsOf(db, t, db')
  }

  lemma {:induction false} WithSubTypesAdds(db: Db, t: TypeDef, n: nat, all: bool)
    requires Distinct(t) && n <= |t.subTypes|
    requires all ==> forall s :: s in t.subTypes ==> s.uuid !in db.subTypes
    ensures var after := WithSubTypes(db, t, n, all);
            && after.types == db.types
            && (forall u :: u in db.subTypes ==> u in after.subTypes && after.subTypes[u] == db.subTypes[u])
            && (forall u :: u in after.subTypes && u !in db.subTypes ==>
                  exists i :: 0 <= i < n && t.subTypes[i].uuid == u && (all || !t.subTypes[i].isCustom))
            && (forall i :: 0 <= i < n && (all || (!t.subTypes[i].isCustom && t.subTypes[i].uuid !in db.subTypes)) ==>
                  HasRow(after, t, t.subTypes[i]))
  {
    if n > 0 {
      WithSubTypesAdds(db, t, n - 1, all);
      assert t.subTypes[n - 1] in t.subTypes;
    }
  }

  lemma WithTypeAdds(db: Db, t: TypeDef)
    requires Distinct(t)
    requires t.uuid !in db.types ==> Absent(db, t)
    ensures AddsJust(db, t, WithType(db, t))
  {
    var after := WithType(db, t);
    if t.uuid in db.types {
      WithSubTypesAdds(db, t, |t.subTypes|, false);
    } else {
      WithSubTypesAdds(db.AddType(t), t, |t.subTypes|, true);
    }
    forall u | u in after.subTypes && u !in db.subTypes
      ensures exists s :: Wanted(db, t, s) && s.uuid == u
    {
      var i :| 0 <= i < |t.subTypes| && t.subTypes[i].uuid == u && (t.uuid !in db.types || !t.subTypes[i].isCustom);
      assert Wanted(db, t, t.subTypes[i]);
    }
  }

  /** The definitions of one kind are fit for a run. */
  ghost predicate ReadyFor(db: Db, defs: seq<TypeDef>, custom: bool) {
    && DistinctDefs(defs)
    && forall i :: 0 <= i < |defs| && defs[i].isCustom == custom && defs[i].uuid !in db.types ==> Absent(db, defs[i])
  }

  /** The first `n` definitions of one kind bring the type, or the sub-type, with UUID `u`. */
  ghost predicate BringsType(defs: seq<TypeDef>, n: nat, custom: bool, u: Uuid) {
    exists i :: 0 <= i < n <= |defs| && defs[i].isCustom == custom && defs[i].uuid == u
  }

  ghost predicate BringsSubType(db: Db, defs: seq<TypeDef>, n: nat, custom: bool, u: Uuid) {
    exists i, s :: 0 <= i < n <= |defs| && defs[i].isCustom == custom && Wanted(db, defs[i], s) && s.uuid == u
  }

  /** The keys after the first `n` definitions of one kind. */
  ghost predicate PhaseKeys(db: Db, defs: seq<TypeDef>, n: nat, custom: bool, after: Db) {
    && (forall u :: u in after.types <==> u in db.types || BringsType(defs, n, custom, u))
    && (forall u :: u in after.subTypes <==> u in db.subTypes || BringsSubType(db, defs, n, custom, u))
  }

  /** The new rows after the first `n` definitions of one kind. */
  ghost predicate PhaseRows(db: Db, defs: seq<TypeDef>, n: nat, custom: bool, after: Db) {
    forall i :: 0 <= i < n <= |defs| && defs[i].isCustom == custom ==> RowsOf(db, defs[i], after)
  }

  /** The exact rows after the first `n` definitions of one kind: those before, unchanged, and
      the new ones with their contents. */
  ghost predicate PhaseAdds(db: Db, defs: seq<TypeDef>, n: nat, custom: bool, after: Db) {
    Extends(db, after) && PhaseKeys(db, defs, n, custom, after) && PhaseRows(db, defs, n, custom, after)
  }

  /** What definition `k` wants is not changed by the definitions before it. */
  lemma WantedKept(db: Db, defs: seq<TypeDef>, n: nat, custom: bool, before: Db, k: nat)
    requires DistinctDefs(defs) && n <= k < |defs|
    requires PhaseKeys(db, defs, n, custom, before)
    ensures defs[k].uuid in before.types <==> defs[k].uuid in db.types
    ensures forall s :: s in defs[k].subTypes ==> (s.uuid in before.subTypes <==> s.uuid in db.subTypes)
    ensures forall s :: Wanted(before, defs[k], s) <==> Wanted(db, defs[k], s)
  {
  }

  lemma BringsTypeOneMore(defs: seq<TypeDef>, n: nat, custom: bool, u: Uuid)
    requires 0 < n <= |defs|
    ensures BringsType(defs, n, custom, u)
       <==> BringsType(defs, n - 1, custom, u) || (defs[n - 1].isCustom == custom && defs[n - 1].uuid == u)
  {
  }

  lemma BringsSubTypeOneMore(db: Db, defs: seq<TypeDef>, n: nat, custom: bool, u: Uuid)
    requires 0 < n <= |defs|
    ensures BringsSubType(db, defs, n, custom, u)
       <==> BringsSubType(db, defs, n - 1, custom, u)
            || (defs[n - 1].isCustom == custom && exists s :: Wanted(db, defs[n - 1], s) && s.uuid == u)
  {
  }

  /** What definition number `n - 1` does. */
  ghost predicate Continues(defs: seq<TypeDef>, n: nat, custom: bool, before: Db, after: Db)
    requires 0 < n <= |defs|
  {
    if defs[n - 1].isCustom == custom then AddsJust(before, defs[n - 1], after) else after == before
  }

  lemma KeysStep(db: Db, defs: seq<TypeDef>, n: nat, custom: bool, before: Db, after: Db)
    requires DistinctDefs(defs) && 0 < n <= |defs|
    requires PhaseKeys(db, defs, n - 1, custom, before) && Continues(defs, n, custom, before, after)
    ensures PhaseKeys(db, defs, n, custom, after)
  {
    WantedKept(db, defs, n - 1, custom, before, n - 1);
    forall u
      ensures u in after.types <==> u in db.types || BringsType(defs, n, custom, u)
    {
      BringsTypeOneMore(defs, n, custom, u);
    }
    forall u
      ensures u in after.subTypes <==> u in db.subTypes || BringsSubType(db, defs, n, custom, u)
    {
      BringsSubTypeOneMore(db, defs, n, custom, u);
    }
  }

  lemma RowsKept(db: Db, t: TypeDef, before: Db, after: Db)
    requires RowsOf(db, t, before) && Extends(before, after)
    ensures RowsOf(db, t, after)
  {
  }

  lemma RowsStep(db: Db, defs: seq<TypeDef>, n: nat, custom: bool, before: Db, after: Db)
    requires DistinctDefs(defs) && 0 < n <= |defs|
    requires PhaseAdds(db, defs, n - 1, custom, before) && Continues(defs, n, custom, before, after)
    ensures PhaseRows(db, defs, n, custom, after)
  {
    WantedKept(db, defs, n - 1, custom, before, n - 1);
    forall i | 0 <= i < n - 1 && defs[i].isCustom == custom
      ensures RowsOf(db, defs[i], after)
    {
      RowsKept(db, defs[i], before, after);
    }
  }

  lemma PhaseStep(db: Db, defs: seq<TypeDef>, n: nat, custom: bool, before: Db, after: Db)
    requires DistinctDefs(defs) && 0 < n <= |defs|
    requires PhaseAdds(db, defs, n - 1, custom, before) && Continues(defs, n, custom, before, after)
    ensures PhaseAdds(db, defs, n, custom, after)
  {
    KeysStep(db, defs, n, custom, before, after);
    RowsStep(db, defs, n, custom, before, after);
  }

  lemma NextDefinition(db: Db, defs: seq<TypeDef>, k: nat, custom: bool, before: Db)
    requires ReadyFor(db, defs, custom) && k < |defs| && defs[k].isCustom == custom
    requires PhaseAdds(db, defs, k, custom, before)
    ensures defs[k].uuid !in before.types ==> Absent(before, defs[k])
    ensures AddsJust(before, defs[k], WithType(before, defs[k]))
  {
    WantedKept(db, defs, k, custom, before, k);
    WithTypeAdds(before, defs[k]);
  }

  lemma {:induction false} PhaseIsExact(db: Db, defs: seq<TypeDef>, n: nat, custom: bool)
    requires ReadyFor(db, defs, custom) && n <= |defs|
    ensures PhaseAdds(db, defs, n, custom, WithTypes(db, defs, n, custom))
  {
    if n > 0 {
      var before := WithTypes(db, defs, n - 1, custom);
      PhaseIsExact(db, defs, n - 1, custom);
      if defs[n - 1].isCustom == custom {
        NextDefinition(db, defs, n - 1, custom, before);
      }
      PhaseStep(db, defs, n, custom, before, WithTypes(db, defs, n, custom));
    } else {
      assert WithTypes(db, defs, n, custom) == db;
    }
  }

  /** The definitions of the other kind stay absent. */
  lemma OtherKindKept(db: Db, defs: seq<TypeDef>, custom: bool, k: nat)
    requires ReadyFor(db, defs, custom) && k < |defs| && defs[k].isCustom != custom
    ensures Absent(db, defs[k]) ==> Absent(WithTypes(db, defs, |defs|, custom), defs[k])
  {
    PhaseIsExact(db, defs, |defs|, custom);
    forall s | s in defs[k].subTypes
      ensures !BringsSubType(db, defs, |defs|, custom, s.uuid)
    {
    }
  }

  /** A type that is about to be saved is absent, with all its sub-types. */
  lemma RoomForType(db: Db, defs: seq<TypeDef>, n: nat, custom: bool)
    requires ReadyFor(db, defs, custom) && n < |defs| && defs[n].isCustom == custom
    ensures defs[n].uuid !in db.types ==> Absent(WithTypes(db, defs, n, custom), defs[n])
    ensures defs[n].uuid in db.types <==> defs[n].uuid in WithTypes(db, defs, n, custom).types
  {
    PhaseIsExact(db, defs, n, custom);
    WantedKept(db, defs, n, custom, WithTypes(db, defs, n, custom), n);
  }

  lemma ReadyForCustom(db: Db, defs: seq<TypeDef>)
    requires Ready(db, defs, false)
    ensures var mandatory := WithTypes(db, defs, |defs|, false);
            && ReadyFor(mandatory, defs, true)
            && forall i :: 0 <= i < |defs| && defs[i].isCustom ==> defs[i].uuid !in mandatory.types
  {
    forall i | 0 <= i < |defs| && defs[i].isCustom
      ensures Absent(WithTypes(db, defs, |defs|, false), defs[i])
    {
      OtherKindKept(db, defs, false, i);
    }
  }

  // ------------------------------------------------------------ what the population promises

  /** The two phases together. */
  lemma PopulatedPhases(db: Db, defs: seq<TypeDef>, alreadyPopulated: bool)
    requires Ready(db, defs, alreadyPopulated)
    ensures var mandatory := WithTypes(db, defs, |defs|, false);
            && PhaseAdds(db, defs, |defs|, false, mandatory)
            && (if alreadyPopulated then Populated(db, defs, true) == mandatory
                else PhaseAdds(mandatory, defs, |defs|, true, Populated(db, defs, false)))
  {
    PhaseIsExact(db, defs, |defs|, false);
    if !alreadyPopulated {
      ReadyForCustom(db, defs);
      PhaseIsExact(WithTypes(db, defs, |defs|, false), defs, |defs|, true);
    }
  }

  /** Every defined sub-type that is in the database stands under its type. */
  ghost predicate OwnParents(db: Db, defs: seq<TypeDef>) {
    forall t, s :: t in defs && s in t.subTypes && s.uuid in db.subTypes ==> db.subTypes[s.uuid].parent == t.uuid
  }

  /** The mandatory type `t`, and `s` when it is a mandatory sub-type of it, are in the database;
      the rows that are new are those of the definitions. */
  ghost predicate Installed(db: Db, t: TypeDef, after: Db) {
    && t.uuid in after.types
    && (t.uuid !in db.types ==> HasTypeRow(after, t))
    && forall s :: s in t.subTypes && !s.isCustom ==>
         s.uuid in after.subTypes && (s.uuid !in db.subTypes ==> HasRow(after, t, s))
  }

  lemma MandatoryIsInstalled(db: Db, defs: seq<TypeDef>, mandatory: Db, after: Db, t: TypeDef)
    requires PhaseAdds(db, defs, |defs|, false, mandatory) && Extends(mandatory, after)
    requires t in defs && !t.isCustom
    ensures Installed(db, t, after)
  {
    var i :| 0 <= i < |defs| && defs[i] == t;
    assert BringsType(defs, |defs|, false, t.uuid) && RowsOf(db, defs[i], mandatory);
    RowsKept(db, t, mandatory, after);
    forall s | s in t.subTypes && !s.isCustom
      ensures s.uuid in after.subTypes && (s.uuid !in db.subTypes ==> HasRow(after, t, s))
    {
      assert s.uuid !in db.subTypes ==> Wanted(db, t, s);
    }
  }

  lemma UuidBelongsToOne(defs: seq<TypeDef>, i: nat, t: TypeDef, a: SubTypeDef, b: SubTypeDef)
    requires DistinctDefs(defs) && i < |defs| && t in defs
    requires a in defs[i].subTypes && b in t.subTypes && a.uuid == b.uuid
    ensures defs[i] == t && a == b
  {
    var j :| 0 <= j < |defs| && defs[j] == t;
    assert i == j;
  }

  lemma NewSubTypeHasItsParent(db: Db, defs: seq<TypeDef>, custom: bool, after: Db, t: TypeDef, s: SubTypeDef)
    requires DistinctDefs(defs) && PhaseAdds(db, defs, |defs|, custom, after)
    requires t in defs && s in t.subTypes && s.uuid in after.subTypes && s.uuid !in db.subTypes
    ensures after.subTypes[s.uuid].parent == t.uuid
  {
    assert BringsSubType(db, defs, |defs|, custom, s.uuid);
    var i, s' :| 0 <= i < |defs| && defs[i].isCustom == custom && Wanted(db, defs[i], s') && s'.uuid == s.uuid;
    UuidBelongsToOne(defs, i, t, s', s);
    assert RowsOf(db, defs[i], after);
  }

  lemma PhaseKeepsParents(db: Db, defs: seq<TypeDef>, custom: bool, after: Db)
    requires DistinctDefs(defs) && PhaseAdds(db, defs, |defs|, custom, after) && OwnParents(db, defs)
    ensures OwnParents(after, defs)
  {
    forall t, s | t in defs && s in t.subTypes && s.uuid in after.subTypes
      ensures after.subTypes[s.uuid].parent == t.uuid
    {
      if s.uuid !in db.subTypes {
        NewSubTypeHasItsParent(db, defs, custom, after, t, s);
      }
    }
  }

  /** From any database fit for it: no row is changed or lost, every mandatory type and each of
      its mandatory sub-types is there afterwards, new ones with the rows of their definitions,
      and sub-types keep standing under their own types. */
  lemma PopulationIsSafe(db: Db, defs: seq<TypeDef>, alreadyPopulated: bool)
    requires Ready(db, defs, alreadyPopulated)
    ensures var after := Populated(db, defs, alreadyPopulated);
            && Extends(db, after)
            && (forall t :: t in defs && !t.isCustom ==> Installed(db, t, after))
            && (OwnParents(db, defs) ==> OwnParents(after, defs))
  {
    var mandatory, after := WithTypes(db, defs, |defs|, false), Populated(db, defs, alreadyPopulated);
    PopulatedPhases(db, defs, alreadyPopulated);
    forall t | t in defs && !t.isCustom
      ensures Installed(db, t, after)
    {
      MandatoryIsInstalled(db, defs, mandatory, after, t);
    }
    if OwnParents(db, defs) {
      PhaseKeepsParents(db, defs, false, mandatory);
      if !alreadyPopulated {
        PhaseKeepsParents(mandatory, defs, true, after);
      }
    }
  }

  /** The first population of an empty database creates every type and every sub-type, custom
      ones as well, with the rows of their definitions. */
  lemma FirstRunCreatesAll(defs: seq<TypeDef>, t: TypeDef, s: SubTypeDef)
    requires DistinctDefs(defs)
    requires t in defs && s in t.subTypes
    ensures var after := Populated(Db(map[], map[]), defs, false);
            && t.uuid in after.types && after.types[t.uuid] == TypeRow(t.name, t.isCustom)
            && s.uuid in after.subTypes && after.subTypes[s.uuid] == SubTypeRow(t.uuid, s.name, s.isCustom)
  {
    var db := Db(map[], map[]);
    var mandatory, after := WithTypes(db, defs, |defs|, false), Populated(db, defs, false);
    var i :| 0 <= i < |defs| && defs[i] == t;
    PopulatedPhases(db, defs, false);
    if t.isCustom {
      ReadyForCustom(db, defs);
      assert t.uuid !in mandatory.types;
      assert RowsOf(mandatory, defs[i], after) && Wanted(mandatory, t, s);
    } else {
      assert RowsOf(db, defs[i], mandatory) && Wanted(db, t, s);
      RowsKept(db, t, mandatory, after);
    }
  }

  /** Later populations create no custom type. */
  lemma NoCustomTypeLater(db: Db, defs: seq<TypeDef>, t: TypeDef)
    requires Ready(db, defs, true)
    requires t in defs && t.isCustom && t.uuid !in db.types
    ensures t.uuid !in Populated(db, defs, true).types
  {
    PopulatedPhases(db, defs, true);
    var i :| 0 <= i < |defs| && defs[i] == t;
    assert !BringsType(defs, |defs|, false, t.uuid);
  }

  /** The definition that a new sub-type comes from. */
  lemma NewSubTypeWasWanted(db: Db, defs: seq<TypeDef>, alreadyPopulated: bool, u: Uuid) returns (i: nat, s: SubTypeDef)
    requires Ready(db, defs, alreadyPopulated)
    requires u in Populated(db, defs, alreadyPopulated).subTypes && u !in db.subTypes
    ensures i < |defs| && s in defs[i].subTypes && s.uuid == u
    ensures if defs[i].isCustom then !alreadyPopulated else Wanted(db, defs[i], s)
  {
    var mandatory := WithTypes(db, defs, |defs|, false);
    PopulatedPhases(db, defs, alreadyPopulated);
    if u in mandatory.subTypes {
      i, s :| i < |defs| && !defs[i].isCustom && Wanted(db, defs[i], s) && s.uuid == u;
    } else {
      i, s :| i < |defs| && defs[i].isCustom && Wanted(mandatory, defs[i], s) && s.uuid == u;
    }
  }

  /** A custom sub-type deleted from a mandatory type that is still there stays deleted. */
  lemma DeletedStaysDeleted(db: Db, defs: seq<TypeDef>, alreadyPopulated: bool, i: nat, s: SubTypeDef)
    requires Ready(db, defs, alreadyPopulated)
    requires i < |defs| && !defs[i].isCustom && defs[i].uuid in db.types
    requires s in defs[i].subTypes && s.isCustom && s.uuid !in db.subTypes
    ensures s.uuid !in Populated(db, defs, alreadyPopulated).subTypes
  {
    if s.uuid in Populated(db, defs, alreadyPopulated).subTypes {
      var j, s' := NewSubTypeWasWanted(db, defs, alreadyPopulated, s.uuid);
      assert i == j;
      SameUuidSameDef(defs[i], s, s');
    }
  }

  lemma SameUuidSameDef(t: TypeDef, a: SubTypeDef, b: SubTypeDef)
    requires Distinct(t) && a in t.subTypes && b in t.subTypes && a.uuid == b.uuid
    ensures a == b
  {
  }

  lemma {:induction false} NothingToAdd(db: Db, defs: seq<TypeDef>, n: nat)
    requires n <= |defs|
    requires forall t :: t in defs && !t.isCustom ==> t.uuid in db.types
    requires forall t, s :: t in defs && s in t.subTypes && !t.isCustom && !s.isCustom ==> s.uuid in db.subTypes
    ensures WithTypes(db, defs, n, false) == db
  {
    if n > 0 {
      NothingToAdd(db, defs, n - 1);
      if !defs[n - 1].isCustom {
        assert defs[n - 1] in defs;
        NoSubTypeToAdd(db, defs[n - 1], |defs[n - 1].subTypes|);
      }
    }
  }

  lemma {:induction false} NoSubTypeToAdd(db: Db, t: TypeDef, n: nat)
    requires n <= |t.subTypes|
    requires forall s :: s in t.subTypes && !s.isCustom ==> s.uuid in db.subTypes
    ensures WithSubTypes(db, t, n, false) == db
  {
    if n > 0 {
      NoSubTypeToAdd(db, t, n - 1);
      assert t.subTypes[n - 1] in t.subTypes;
    }
  }

  /** Running it again changes nothing. */
  lemma SecondRunChangesNothing(db: Db, defs: seq<TypeDef>, alreadyPopulated: bool)
    requires Ready(db, defs, alreadyPopulated)
    ensures var after := Populated(db, defs, alreadyPopulated); Populated(after, defs, true) == after
  {
    PopulationIsSafe(db, defs, alreadyPopulated);
    NothingToAdd(Populated(db, defs, alreadyPopulated), defs, |defs|);
  }
}
