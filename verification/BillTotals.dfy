/** Totals of the bills an entity has received: the query for one entity, the batched query
    for many, and the cache of the list-view columns in front of both. */
module BillTotals {
  import opened Options

  /** `passes` tells whether the bill meets the extra filters of the query. */
  datatype Bill = Bill(total: Option<int>, isDeleted: bool, passes: bool)

  /** The rows of the relations "bill received" and "bill issued"; a relation exists once. */
  datatype Received = Received(bill: int, entity: int)

  datatype Issued = Issued(organisation: int, bill: int)

  datatype Db = Db(
    bills: map<int, Bill>,
    received: seq<Received>,
    issued: seq<Issued>,
    managed: set<int>,
    visible: set<(int, int)>)  // (user, bill)
  {
    ghost predicate Valid() {
      && (forall i, j :: 0 <= i < j < |received| ==> received[i] != received[j])
      && (forall i, j :: 0 <= i < j < |issued| ==> issued[i] != issued[j])
    }

    predicate Counts(user: int, bill: int) {
      && bill in bills
      && !bills[bill].isDeleted
      && bills[bill].total.Some?
      && bills[bill].passes
      && (user, bill) in visible
    }

    function Total(bill: int): int {
      if bill in bills && bills[bill].total.Some? then bills[bill].total.value else 0
    }
  }

  // ------------------------------------------------------------ one entity

  /** dict(...values_list('id', 'total_no_vat')) */
  function AllTotals(db: Db, rows: seq<Received>, entity: int, user: int): map<int, int> {
    if rows == [] then
      map[]
    else
      var before, row := AllTotals(db, rows[..|rows| - 1], entity, user), rows[|rows| - 1];
      if row.entity == entity && db.Counts(user, row.bill) then before[row.bill := db.Total(row.bill)] else before
  }

  /** The bills of the rows that a managed organisation has issued, once for each such row. */
  function ManagedIds(db: Db, rows: seq<Issued>, ids: set<int>): seq<int> {
    if rows == [] then
      []
    else
      var before, row := ManagedIds(db, rows[..|rows| - 1], ids), rows[|rows| - 1];
      if row.organisation in db.managed && row.bill in ids then before + [row.bill] else before
  }

  function SumOf(totals: map<int, int>, ids: seq<int>): int
    requires forall i :: 0 <= i < |ids| ==> ids[i] in totals
  {
    if ids == [] then
      0
    else
      SumOf(totals, ids[..|ids| - 1]) + totals[ids[|ids| - 1]]
  }

  lemma {:induction false} ManagedIdsAreAmong(db: Db, rows: seq<Issued>, ids: set<int>)
    ensures forall i :: 0 <= i < |ManagedIds(db, rows, ids)| ==> ManagedIds(db, rows, ids)[i] in ids
  {
    if rows != [] {
      ManagedIdsAreAmong(db, rows[..|rows| - 1], ids);
    }
  }

  /** sum_totals_no_vat() */
  function SumTotalsNoVat(db: Db, entity: int, user: int): int {
    var totals := AllTotals(db, db.received, entity, user);
    ManagedIdsAreAmong(db, db.issued, totals.Keys);
    SumOf(totals, ManagedIds(db, db.issued, totals.Keys))
  }

  // ------------------------------------------------------------ what both forms mean

  /** How many managed organisations have issued a bill. */
  function Issuers(db: Db, rows: seq<Issued>, bill: int): nat {
    if rows == [] then
      0
    else
      var row := rows[|rows| - 1];
      Issuers(db, rows[..|rows| - 1], bill) + if row.organisation in db.managed && row.bill == bill then 1 else 0
  }

  /** The sum over the bills an entity has received, each weighted by its number of issuers,
      or by one at most. */
  function Weighted(db: Db, rows: seq<Received>, entity: int, user: int, once: bool): int {
    if rows == [] then
      0
    else
      var before, row := Weighted(db, rows[..|rows| - 1], entity, user, once), rows[|rows| - 1];
      if row.entity == entity && db.Counts(user, row.bill) then
        before + db.Total(row.bill) * Weight(Issuers(db, db.issued, row.bill), once)
      else
        before
  }

  function Weight(issuers: nat, once: bool): nat {
    if once && issuers > 1 then 1 else issuers
  }

  ghost predicate NoRepeat(rows: seq<Received>) {
    forall i, j :: 0 <= i < j < |rows| ==> rows[i] != rows[j]
  }

  lemma {:induction false} AllTotalsKeys(db: Db, rows: seq<Received>, entity: int, user: int)
    ensures forall b :: b in AllTotals(db, rows, entity, user) <==> Received(b, entity) in rows && db.Counts(user, b)
    ensures forall b :: b in AllTotals(db, rows, entity, user) ==> AllTotals(db, rows, entity, user)[b] == db.Total(b)
  {
    if rows != [] {
      var n := |rows| - 1;
      AllTotalsKeys(db, rows[..n], entity, user);
      assert rows == rows[..n] + [rows[n]];
    }
  }

  /** The sum over the issued rows of the bills that are in `ids`. */
  function SumIssued(db: Db, rows: seq<Issued>, ids: set<int>): int {
    if rows == [] then
      0
    else
      var row := rows[|rows| - 1];
      var before := SumIssued(db, rows[..|rows| - 1], ids);
      if row.organisation in db.managed && row.bill in ids then before + db.Total(row.bill) else before
  }

  lemma {:induction false} SumOfManagedIds(db: Db, totals: map<int, int>, rows: seq<Issued>)
    requires forall b :: b in totals ==> totals[b] == db.Total(b)
    requires forall i :: 0 <= i < |ManagedIds(db, rows, totals.Keys)| ==> ManagedIds(db, rows, totals.Keys)[i] in totals
    ensures SumOf(totals, ManagedIds(db, rows, totals.Keys)) == SumIssued(db, rows, totals.Keys)
  {
    if rows != [] {
      var n := |rows| - 1;
      ManagedIdsAreAmong(db, rows[..n], totals.Keys);
      SumOfManagedIds(db, totals, rows[..n]);
      var before := ManagedIds(db, rows[..n], totals.Keys);
      assert (before + [rows[n].bill])[..|before|] == before;
    }
  }

  /** One more bill brings its total once for each of its issuers. */
  lemma {:induction false} SumIssuedOneMore(db: Db, rows: seq<Issued>, ids: set<int>, bill: int)
    requires bill !in ids
    ensures SumIssued(db, rows, ids + {bill}) == SumIssued(db, rows, ids) + db.Total(bill) * Issuers(db, rows, bill)
  {
    if rows != [] {
      SumIssuedOneMore(db, rows[..|rows| - 1], ids, bill);
    }
  }

  lemma {:induction false} SumIssuedNone(db: Db, rows: seq<Issued>)
    ensures SumIssued(db, rows, {}) == 0
  {
    if rows != [] {
      SumIssuedNone(db, rows[..|rows| - 1]);
    }
  }

  /** Summing by issued rows or by received rows is the same. */
  lemma {:induction false} SumExchanged(db: Db, rows: seq<Received>, entity: int, user: int)
    requires NoRepeat(rows)
    ensures SumIssued(db, db.issued, AllTotals(db, rows, entity, user).Keys) == Weighted(db, rows, entity, user, false)
  {
    if rows == [] {
      SumIssuedNone(db, db.issued);
      assert AllTotals(db, rows, entity, user).Keys == {};
    } else {
      var n := |rows| - 1;
      var row, ids := rows[n], AllTotals(db, rows[..n], entity, user).Keys;
      SumExchanged(db, rows[..n], entity, user);
      AllTotalsKeys(db, rows[..n], entity, user);
      if row.entity == entity && db.Counts(user, row.bill) {
        assert row !in rows[..n];
        SumIssuedOneMore(db, db.issued, ids, row.bill);
        assert AllTotals(db, rows, entity, user).Keys == ids + {row.bill};
      }
    }
  }

  /** The form for one entity counts a bill once for each managed organisation that issued it. */
  lemma SingleCountsIssuers(db: Db, entity: int, user: int)
    requires db.Valid()
    ensures SumTotalsNoVat(db, entity, user) == Weighted(db, db.received, entity, user, false)
  {
    var totals := AllTotals(db, db.received, entity, user);
    AllTotalsKeys(db, db.received, entity, user);
    ManagedIdsAreAmong(db, db.issued, totals.Keys);
    SumOfManagedIds(db, totals, db.issued);
    SumExchanged(db, db.received, entity, user);
  }

  // ------------------------------------------------------------ many entities

  /** The rows (bill, total) that the batched query finds for one entity. */
  function InfoOf(db: Db, rows: seq<Received>, entity: int, user: int): seq<(int, int)> {
    if rows == [] then
      []
    else
      var before, row := InfoOf(db, rows[..|rows| - 1], entity, user), rows[|rows| - 1];
      if row.entity == entity && db.Counts(user, row.bill) then before + [(row.bill, db.Total(row.bill))] else before
  }

  function SumInfo(info: seq<(int, int)>, managedBills: set<int>): int {
    if info == [] then
      0
    else
      var (bill, total) := info[|info| - 1];
      SumInfo(info[..|info| - 1], managedBills) + if bill in managedBills then total else 0
  }

  function ManagedBills(db: Db, bills: set<int>): set<int> {
    set r | r in db.issued && r.organisation in db.managed && r.bill in bills :: r.bill
  }

  lemma {:induction false} IssuersOfManaged(db: Db, rows: seq<Issued>, bill: int)
    ensures Issuers(db, rows, bill) > 0 <==> exists r :: r in rows && r.organisation in db.managed && r.bill == bill
  {
    if rows != [] {
      var n := |rows| - 1;
      IssuersOfManaged(db, rows[..n], bill);
      assert rows == rows[..n] + [rows[n]];
    }
  }

  lemma {:induction false} SumInfoIsWeighted(db: Db, rows: seq<Received>, entity: int, user: int, bills: set<int>)
    requires forall r :: r in rows && r.entity == entity && db.Counts(user, r.bill) ==> r.bill in bills
    ensures SumInfo(InfoOf(db, rows, entity, user), ManagedBills(db, bills)) == Weighted(db, rows, entity, user, true)
  {
    if rows != [] {
      var n := |rows| - 1;
      var before, row := InfoOf(db, rows[..n], entity, user), rows[n];
      SumInfoIsWeighted(db, rows[..n], entity, user, bills);
      if row.entity == entity && db.Counts(user, row.bill) {
        assert (before + [(row.bill, db.Total(row.bill))])[..|before|] == before;
        IssuersOfManaged(db, db.issued, row.bill);
      }
    }
  }

  /** The batched query: the rows found for each entity, and all the bills found. */
  method CollectInfo(db: Db, entities: seq<int>, user: int)
    returns (billInfoMap: map<int, seq<(int, int)>>, billIds: set<int>)
    ensures forall e :: e in entities ==> e in billInfoMap && billInfoMap[e] == InfoOf(db, db.received, e, user)
    ensures forall r :: r in db.received && r.entity in entities && db.Counts(user, r.bill) ==> r.bill in billIds
  {
    billInfoMap, billIds := map e | e in entities :: [], {};
    for n := 0 to |db.received|
      invariant forall e :: e in entities ==>
          e in billInfoMap && billInfoMap[e] == InfoOf(db, db.received[..n], e, user)
      invariant forall r :: r in db.received[..n] && r.entity in entities && db.Counts(user, r.bill) ==>
          r.bill in billIds
    {
      var row := db.received[n];
      assert db.received[..n + 1][..n] == db.received[..n];
      if row.entity in entities && db.Counts(user, row.bill) {
        billInfoMap := billInfoMap[row.entity := billInfoMap[row.entity] + [(row.bill, db.Total(row.bill))]];
        billIds := billIds + {row.bill};
      }
    }
    assert db.received[..|db.received|] == db.received;
  }

  /** sum_totals_no_vat_multi(): counts every bill once at most. */
  method SumTotalsNoVatMulti(db: Db, entities: seq<int>, user: int) returns (totals: seq<(int, int)>)
    ensures |totals| == |entities|
    ensures forall i :: 0 <= i < |totals| ==>
        totals[i] == (entities[i], Weighted(db, db.received, entities[i], user, true))
  {
    var billInfoMap, billIds := CollectInfo(db, entities, user);
    var managedBillIds := ManagedBills(db, billIds);
    totals := [];
    for n := 0 to |entities|
      invariant |totals| == n
      invariant forall i :: 0 <= i < n ==>
          totals[i] == (entities[i], Weighted(db, db.received, entities[i], user, true))
    {
      var entity := entities[n];
      SumInfoIsWeighted(db, db.received, entity, user, billIds);
      totals := totals + [(entity, SumInfo(billInfoMap[entity], managedBillIds))];
    }
  }

  // ------------------------------------------------------------ what a received bill adds

  /** The totals look at the tables of bills and issuers, and at the rows they are given. */
  ghost predicate SameBills(db: Db, db': Db) {
    db' == db.(received := db'.received)
  }

  lemma {:induction false} SameIssuers(db: Db, db': Db, rows: seq<Issued>, bill: int)
    requires SameBills(db, db')
    ensures Issuers(db', rows, bill) == Issuers(db, rows, bill)
  {
    if rows != [] {
      SameIssuers(db, db', rows[..|rows| - 1], bill);
    }
  }

  lemma {:induction false} SameWeighted(db: Db, db': Db, rows: seq<Received>, entity: int, user: int, once: bool)
    requires SameBills(db, db')
    ensures Weighted(db', rows, entity, user, once) == Weighted(db, rows, entity, user, once)
  {
    if rows != [] {
      SameWeighted(db, db', rows[..|rows| - 1], entity, user, once);
      SameIssuers(db, db', db.issued, rows[|rows| - 1].bill);
    }
  }

  /** The rows by which managed organisations have issued a bill. */
  function IssuerRows(db: Db, rows: seq<Issued>, bill: int): set<Issued> {
    set r | r in rows && r.organisation in db.managed && r.bill == bill
  }

  lemma {:induction false} IssuersCount(db: Db, rows: seq<Issued>, bill: int)
    requires forall i, j :: 0 <= i < j < |rows| ==> rows[i] != rows[j]
    ensures Issuers(db, rows, bill) == |IssuerRows(db, rows, bill)|
  {
    if rows != [] {
      var n := |rows| - 1;
      IssuersCount(db, rows[..n], bill);
      assert rows == rows[..n] + [rows[n]];
      assert rows[n] !in rows[..n];
      var before := IssuerRows(db, rows[..n], bill);
      if rows[n].organisation in db.managed && rows[n].bill == bill {
        assert IssuerRows(db, rows, bill) == before + {rows[n]};
      } else {
        assert IssuerRows(db, rows, bill) == before;
      }
    } else {
      assert IssuerRows(db, rows, bill) == {};
    }
  }

  /** The totals of `entity` for `user`, single and batched. */
  function Totals(db: Db, entity: int, user: int): (int, int) {
    (SumTotalsNoVat(db, entity, user), Weighted(db, db.received, entity, user, true))
  }

  function Receive(db: Db, bill: int, entity: int): Db {
    db.(received := db.received + [Received(bill, entity)])
  }

  /** Without received bills there is nothing to sum. */
  lemma NothingReceived(db: Db, entity: int, user: int)
    requires db.Valid() && db.received == []
    ensures Totals(db, entity, user) == (0, 0)
  {
    SingleCountsIssuers(db, entity, user);
  }

  /** What one more received bill adds to the totals of an entity. Only a bill that exists, is
      not deleted, has a total, passes the filters and may be seen by the user adds anything:
      its total for every managed issuer to the single form, and once to the batched form when
      there is one. Other entities' totals stay. */
  lemma ReceivedBillAdds(db: Db, bill: int, to: int, entity: int, user: int)
    requires db.Valid() && Receive(db, bill, to).Valid()
    ensures var before, after := Totals(db, entity, user), Totals(Receive(db, bill, to), entity, user);
            if && to == entity && bill in db.bills
               && !db.bills[bill].isDeleted && db.bills[bill].total.Some? && db.bills[bill].passes
               && (user, bill) in db.visible
            then
              var total := db.bills[bill].total.value;
              var issuers := |set r | r in db.issued && r.organisation in db.managed && r.bill == bill|;
              && after.0 == before.0 + total * issuers
              && after.1 == before.1 + if issuers > 0 then total else 0
            else after == before
  {
    var db', row := Receive(db, bill, to), Received(bill, to);
    assert db'.received[..|db.received|] == db.received;
    SingleCountsIssuers(db, entity, user);
    SingleCountsIssuers(db', entity, user);
    SameWeighted(db, db', db.received, entity, user, false);
    SameWeighted(db, db', db.received, entity, user, true);
    SameIssuers(db, db', db.issued, bill);
    IssuersCount(db, db.issued, bill);
    assert IssuerRows(db, db.issued, bill) == set r | r in db.issued && r.organisation in db.managed && r.bill == bill;
  }

  function WithoutBill(rows: seq<Received>, bill: int): seq<Received> {
    if rows == [] then
      []
    else
      var before, row := WithoutBill(rows[..|rows| - 1], bill), rows[|rows| - 1];
      if row.bill == bill then before else before + [row]
  }

  lemma {:induction false} WithoutBillKeeps(rows: seq<Received>, bill: int)
    requires NoRepeat(rows)
    ensures NoRepeat(WithoutBill(rows, bill))
    ensures forall r :: r in WithoutBill(rows, bill) <==> r in rows && r.bill != bill
  {
    if rows != [] {
      var n := |rows| - 1;
      WithoutBillKeeps(rows[..n], bill);
      assert rows == rows[..n] + [rows[n]];
      var before := WithoutBill(rows[..n], bill);
      assert forall i :: 0 <= i < |before| ==> before[i] in before;
    }
  }

  lemma {:induction false} WithoutBillWeighted(db: Db, rows: seq<Received>, bill: int, entity: int, user: int,
      once: bool)
    requires !db.Counts(user, bill)
    ensures Weighted(db, WithoutBill(rows, bill), entity, user, once) == Weighted(db, rows, entity, user, once)
  {
    if rows != [] {
      var n := |rows| - 1;
      var before := WithoutBill(rows[..n], bill);
      WithoutBillWeighted(db, rows[..n], bill, entity, user, once);
      if rows[n].bill != bill {
        assert (before + [rows[n]])[..|before|] == before;
      }
    }
  }

  /** A bill that is deleted, has no total, fails the filters or may not be seen by the user
      makes no difference: the totals are the same when its received rows are taken out. */
  lemma ExcludedBillAddsNothing(db: Db, bill: int, entity: int, user: int)
    requires db.Valid()
    requires || bill !in db.bills
             || db.bills[bill].isDeleted || db.bills[bill].total.None? || !db.bills[bill].passes
             || (user, bill) !in db.visible
    ensures Totals(db.(received := WithoutBill(db.received, bill)), entity, user) == Totals(db, entity, user)
  {
    var db' := db.(received := WithoutBill(db.received, bill));
    WithoutBillKeeps(db.received, bill);
    SingleCountsIssuers(db, entity, user);
    SingleCountsIssuers(db', entity, user);
    SameWeighted(db, db', db'.received, entity, user, false);
    SameWeighted(db, db', db'.received, entity, user, true);
    WithoutBillWeighted(db, db.received, bill, entity, user, false);
    WithoutBillWeighted(db, db.received, bill, entity, user, true);
  }

  // ------------------------------------------------------------ when the two forms agree

  /** What the form for one entity counts too much. */
  function Excess(db: Db, rows: seq<Received>, entity: int, user: int): int {
    if rows == [] then
      0
    else
      var before, row := Excess(db, rows[..|rows| - 1], entity, user), rows[|rows| - 1];
      var issuers := Issuers(db, db.issued, row.bill);
      if row.entity == entity && db.Counts(user, row.bill) && issuers > 1 then
        before + db.Total(row.bill) * (issuers - 1)
      else
        before
  }

  /** The two forms differ by every bill's total times its managed issuers beyond the first. */
  lemma {:induction false} FormsDifferByExcess(db: Db, rows: seq<Received>, entity: int, user: int)
    ensures Weighted(db, rows, entity, user, false)
         == Weighted(db, rows, entity, user, true) + Excess(db, rows, entity, user)
  {
    if rows != [] {
      var row := rows[|rows| - 1];
      var issuers := Issuers(db, db.issued, row.bill);
      FormsDifferByExcess(db, rows[..|rows| - 1], entity, user);
      if issuers > 1 {
        assert db.Total(row.bill) * issuers == db.Total(row.bill) * (issuers - 1) + db.Total(row.bill);
      }
    }
  }

  ghost predicate OneIssuerEach(db: Db, rows: seq<Received>, entity: int, user: int) {
    forall r :: r in rows && r.entity == entity && db.Counts(user, r.bill) ==> Issuers(db, db.issued, r.bill) <= 1
  }

  lemma {:induction false} NoExcess(db: Db, rows: seq<Received>, entity: int, user: int)
    ensures OneIssuerEach(db, rows, entity, user) ==> Excess(db, rows, entity, user) == 0
    ensures (forall r :: r in rows && db.Counts(user, r.bill) ==> db.Total(r.bill) > 0) ==>
              && Excess(db, rows, entity, user) >= 0
              && (Excess(db, rows, entity, user) == 0 ==> OneIssuerEach(db, rows, entity, user))
  {
    if rows != [] {
      var n := |rows| - 1;
      var row := rows[n];
      var issuers := Issuers(db, db.issued, row.bill);
      NoExcess(db, rows[..n], entity, user);
      assert forall r :: r in rows <==> r in rows[..n] || r == row;
      if issuers > 1 && db.Total(row.bill) > 0 {
        assert db.Total(row.bill) * (issuers - 1) > 0;
      }
    }
  }

  /** The batched form gives the amount of the single form exactly when nothing is counted too
      much; so it is when no bill of the entity has two managed issuers and, among bills of
      positive totals, only then. */
  lemma BatchedRefinesSingle(db: Db, entity: int, user: int)
    requires db.Valid()
    ensures Weighted(db, db.received, entity, user, true) == SumTotalsNoVat(db, entity, user)
       <==> Excess(db, db.received, entity, user) == 0
    ensures OneIssuerEach(db, db.received, entity, user) ==>
              Weighted(db, db.received, entity, user, true) == SumTotalsNoVat(db, entity, user)
    ensures (forall r :: r in db.received && db.Counts(user, r.bill) ==> db.Total(r.bill) > 0) ==>
              (OneIssuerEach(db, db.received, entity, user) <==>
               Weighted(db, db.received, entity, user, true) == SumTotalsNoVat(db, entity, user))
  {
    SingleCountsIssuers(db, entity, user);
    FormsDifferByExcess(db, db.received, entity, user);
    NoExcess(db, db.received, entity, user);
  }

  /** One bill, received by entity 5 and issued by two managed organisations. */
  function OneBill(total: int): Db {
    Db(map[1 := Bill(Some(total), false, true)], [Received(1, 5)], [Issued(10, 1), Issued(11, 1)], {10, 11}, {(0, 1)})
  }

  /** The single form counts its total twice, the batched form once; a bill of nothing makes no
      difference. */
  lemma TwoIssuersCountTwice(total: int)
    ensures OneBill(total).Valid()
    ensures SumTotalsNoVat(OneBill(total), 5, 0) == 2 * total
    ensures Weighted(OneBill(total), OneBill(total).received, 5, 0, true) == total
  {
    var db := OneBill(total);
    var one := [Issued(10, 1)];
    assert db.issued[..1] == one && one[..0] == [];
    assert Issuers(db, one, 1) == 1 + Issuers(db, [], 1);
    assert Issuers(db, db.issued, 1) == 2;
    assert db.received[..0] == [] && db.Counts(0, 1);
    assert Weighted(db, db.received, 5, 0, false) == Weighted(db, [], 5, 0, false) + total * 2;
    SingleCountsIssuers(db, 5, 0);
  }

  // ------------------------------------------------------------ the cache of the columns

  type Cache = map<int, map<int, int>>

  function Lookup(cache: Cache, entity: int, user: int): Option<int> {
    if entity in cache && user in cache[entity] then Some(cache[entity][user]) else None
  }

  function With(cache: Cache, entity: int, user: int, total: int): (cache': Cache)
    ensures forall e, u ::
        Lookup(cache', e, u) == (if e == entity && u == user then Some(total) else Lookup(cache, e, u))
  {
    cache[entity := (if entity in cache then cache[entity] else map[])[user := total]]
  }

  /** `cache` is `before` with the batched totals of some entities. */
  ghost predicate HasBatched(db: Db, before: Cache, cache: Cache, entities: seq<int>, user: int) {
    forall e, u ::
      Lookup(cache, e, u) == (if e in entities && u == user then Some(Weighted(db, db.received, e, user, true))
                              else Lookup(before, e, u))
  }

  lemma OneMoreBatched(db: Db, before: Cache, cache: Cache, entities: seq<int>, user: int, entity: int)
    requires HasBatched(db, before, cache, entities, user)
    ensures HasBatched(db, before, With(cache, entity, user, Weighted(db, db.received, entity, user, true)),
                       entities + [entity], user)
  {
  }

  /** A column on fixed data. */
  class TotalField {
    const db: Db
    var cache: Cache

    constructor (db: Db)
      ensures this.db == db && Valid()
    {
      this.db, this.cache := db, map[];
    }

    function Cached(entity: int, user: int): Option<int>
      reads this
    {
      Lookup(cache, entity, user)
    }

    /** Whatever is cached is the uncached total. */
    ghost predicate Valid()
      reads this
    {
      forall e, u :: Cached(e, u).Some? ==> Cached(e, u).value == SumTotalsNoVat(db, e, u)
    }

    /** __call__() */
    method Call(entity: int, user: int) returns (total: int)
      modifies this`cache
      ensures total == if old(Cached(entity, user)).Some? then old(Cached(entity, user)).value
                       else SumTotalsNoVat(db, entity, user)
      ensures forall e, u :: Cached(e, u) == (if e == entity && u == user then Some(total) else old(Cached(e, u)))
      ensures old(Valid()) ==> Valid() && total == SumTotalsNoVat(db, entity, user)
    {
      var eCache := if entity in cache then cache[entity] else map[];
      if user in eCache {
        total := eCache[user];
      } else {
        total := SumTotalsNoVat(db, entity, user);
      }
      cache := With(cache, entity, user, total);
    }

    /** populate_entities(): the cache stays right exactly when the two forms agree on every
        entity of the list. */
    method PopulateEntities(entities: seq<int>, user: int)
      requires db.Valid()
      modifies this`cache
      ensures HasBatched(db, old(cache), cache, entities, user)
      ensures old(Valid()) ==>
          (Valid() <==> forall e :: e in entities ==> Excess(db, db.received, e, user) == 0)
    {
      var totals := SumTotalsNoVatMulti(db, entities, user);
      for n := 0 to |totals|
        invariant HasBatched(db, old(cache), cache, entities[..n], user)
      {
        var (entity, total) := totals[n];
        OneMoreBatched(db, old(cache), cache, entities[..n], user, entity);
        assert entities[..n + 1] == entities[..n] + [entity];
        cache := With(cache, entity, user, total);
      }
      assert entities[..|totals|] == entities;
      forall e | e in entities
        ensures Cached(e, user) == Some(SumTotalsNoVat(db, e, user)) <==> Excess(db, db.received, e, user) == 0
      {
        BatchedRefinesSingle(db, e, user);
      }
    }
  }
}
