/** The table-group service: forms a group from stored tables picked by id,
    and ungroups a group by applying the ungrouping step to each of its
    orders. The stores are a map from table id to table and the list of
    orders. */
module TableGroupServices {
  import opened Common
  import opened OrderTables
  import opened TableGroups
  import opened Orders

  /** The ids of a `findAllByIdIn` lookup: each requested id the store knows,
      once, in the order of the request. */
  function FoundIds(known: set<TableId>, ids: seq<TableId>): (r: seq<TableId>)
    ensures forall x :: x in r <==> x in ids && x in known
    ensures Distinct(r)
    ensures |r| <= |ids|
    decreases |ids|
  {
    if ids == [] then []
    else
      var rest := FoundIds(known, ids[..|ids| - 1]);
      var x := ids[|ids| - 1];
      assert ids == ids[..|ids| - 1] + [x];
      if x in known && x !in rest then rest + [x] else rest
  }

  /** Appending an element keeps a sequence repetition-free exactly when the
      element is new. */
  lemma DistinctSnoc<T>(p: seq<T>, x: T)
    ensures Distinct(p + [x]) <==> Distinct(p) && x !in p
  {
    var s := p + [x];
    if x in p {
      var k :| 0 <= k < |p| && p[k] == x;
      assert s[k] == s[|p|];
    }
    if Distinct(s) {
      forall i, j | 0 <= i < |p| && 0 <= j < |p| && i != j
        ensures p[i] != p[j]
      {
        assert s[i] == p[i] && s[j] == p[j];
      }
    }
  }

  /** The lookup finds as many tables as ids were requested exactly when no
      id is repeated and every id is known to the store. */
  lemma {:induction false} AllFoundIff(known: set<TableId>, ids: seq<TableId>)
    ensures |FoundIds(known, ids)| == |ids| <==> Distinct(ids) && forall x :: x in ids ==> x in known
    decreases |ids|
  {
    if ids != [] {
      var p, x := ids[..|ids| - 1], ids[|ids| - 1];
      assert ids == p + [x];
      AllFoundIff(known, p);
      DistinctSnoc(p, x);
      var rest := FoundIds(known, p);
      if !(x in known && x !in rest) {
        assert |FoundIds(known, ids)| == |rest| <= |p| < |ids|;
        if x in rest {
          assert x in p;
        }
      }
    }
  }

  /** The order stands at a table of group `g`. */
  predicate AtGroupTable(o: Order, tables: map<TableId, OrderTable>, g: GroupId)
    reads o, tables.Values
  {
    o.orderTableId in tables && tables[o.orderTableId].tableGroupId == Some(g)
  }

  /** `findOrdersByTableGroupId`: the orders standing at a table of group `g`,
      in store order. */
  function OrdersOfGroup(os: seq<Order>, tables: map<TableId, OrderTable>, g: GroupId): (r: seq<Order>)
    reads os, tables.Values
    ensures forall i :: 0 <= i < |r| ==> r[i] in os && AtGroupTable(r[i], tables, g)
    ensures forall i :: 0 <= i < |os| && AtGroupTable(os[i], tables, g) ==> os[i] in r
    ensures Distinct(os) ==> Distinct(r)
    decreases |os|
  {
    if os == [] then []
    else
      var rest := OrdersOfGroup(os[1..], tables, g);
      assert forall i :: 1 <= i < |os| ==> os[i] == os[1..][i - 1];
      if AtGroupTable(os[0], tables, g) then
        assert Distinct(os) ==> os[0] !in os[1..];
        [os[0]] + rest
      else rest
  }

  class TableGroupService {
    var orderTables: map<TableId, OrderTable>
    var orders: seq<Order>

    /** Each stored table carries the id it is stored under, and no order is
        stored twice. */
    ghost predicate Valid()
      reads this, orderTables.Values
    {
      && (forall id :: id in orderTables ==> orderTables[id].id == Some(id))
      && Distinct(orders)
    }

    constructor (orderTables: map<TableId, OrderTable>, orders: seq<Order>)
      requires forall id :: id in orderTables ==> orderTables[id].id == Some(id)
      requires Distinct(orders)
      ensures Valid()
      ensures this.orderTables == orderTables && this.orders == orders
    {
      this.orderTables := orderTables;
      this.orders := orders;
    }

    /** `findAllByIdIn`: the stored tables with the requested ids. */
    function FindAllByIdIn(ids: seq<TableId>): (r: seq<OrderTable>)
      reads this
      ensures |r| == |FoundIds(orderTables.Keys, ids)|
      ensures forall i :: 0 <= i < |r| ==> r[i] == orderTables[FoundIds(orderTables.Keys, ids)[i]]
    {
      var found, tables := FoundIds(orderTables.Keys, ids), orderTables;
      seq(|found|, i requires 0 <= i < |found| => tables[found[i]])
    }

    /** In a consistent store the lookup never returns the same table twice:
        each table found is stored under a different id, and carries it. */
    lemma FoundTablesDistinct(ids: seq<TableId>)
      requires Valid()
      ensures Distinct(FindAllByIdIn(ids))
    {
      var found, keys := FindAllByIdIn(ids), FoundIds(orderTables.Keys, ids);
      assert forall id :: id in orderTables ==> orderTables[id].id == Some(id);
      forall i, j | 0 <= i < |found| && 0 <= j < |found| && i != j
        ensures found[i] != found[j]
      {
        assert keys[i] in keys && keys[j] in keys;
        assert found[i] == orderTables[keys[i]] && found[j] == orderTables[keys[j]];
        assert found[i].id == Some(keys[i]) && found[j].id == Some(keys[j]);
      }
    }

    /** Groups the tables with the requested ids under `newGroupId` (the id
        the group store assigns). The request is refused when some id is
        unknown or repeated, so that the lookup finds fewer tables than were
        asked for; otherwise the tables found go to group formation. */
    method Create(requestIds: seq<TableId>, newGroupId: GroupId) returns (r: Result<TableGroup>)
      requires Valid()
      modifies orderTables.Values
      ensures Valid()
      ensures (r == Failure(TableIdsMismatch))
              <==> !(Distinct(requestIds) && forall x :: x in requestIds ==> x in orderTables)
      ensures r != Failure(TableIdsMismatch) ==> r.ToOutcome() == GroupingCheck(old(States(FindAllByIdIn(requestIds))))
      ensures r.Success? ==> fresh(r.value) && r.value.id == newGroupId && r.value.orderTables == FindAllByIdIn(requestIds)
      ensures forall i :: 0 <= i < |FindAllByIdIn(requestIds)| ==>
                FindAllByIdIn(requestIds)[i].State()
                == if r.Success? then JoinGroup(old(FindAllByIdIn(requestIds)[i].State()), newGroupId)
                   else old(FindAllByIdIn(requestIds)[i].State())
      ensures forall id :: id in orderTables && id !in requestIds ==> orderTables[id].State() == old(orderTables[id].State())
    {
      var found := FindAllByIdIn(requestIds);
      AllFoundIff(orderTables.Keys, requestIds);
      if |requestIds| != |found| {
        return Failure(TableIdsMismatch);
      }
      FoundTablesDistinct(requestIds);
      assert forall id :: id in orderTables ==> orderTables[id].id == Some(id);
      assert forall id :: id in orderTables && id !in requestIds ==> orderTables[id] !in found;
      r := TableGroup.WithOrderTables(newGroupId, found);
      assert r != Failure(TableIdsMismatch);
    }

    /** Applies the ungrouping step once to every stored order standing at a
        table of group `g`, and to no other order. */
    method Ungroup(g: GroupId)
      requires Valid()
      modifies orders
      ensures Valid()
      ensures forall o :: o in orders ==>
                o.ungroupSteps == old(o.ungroupSteps) + (if old(AtGroupTable(o, orderTables, g)) then 1 else 0)
      ensures forall o :: o in orders ==>
                o.id == old(o.id) && o.orderTableId == old(o.orderTableId) && o.orderStatus == old(o.orderStatus)
    {
      var found := OrdersOfGroup(orders, orderTables, g);
      var i := 0;
      while i < |found|
        invariant 0 <= i <= |found|
        invariant forall o :: o in orders ==> o.ungroupSteps == old(o.ungroupSteps) + (if o in found[..i] then 1 else 0)
        invariant forall o :: o in orders ==>
                    o.id == old(o.id) && o.orderTableId == old(o.orderTableId) && o.orderStatus == old(o.orderStatus)
      {
        assert found[i] !in found[..i];
        found[i].UngroupOrderTable();
        assert found[..i + 1] == found[..i] + [found[i]];
        i := i + 1;
      }
      assert found[..i] == found;
    }
  }
}
