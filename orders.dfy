/** What the table rules need to know about orders: their status, the table
    they were placed at, and the per-order ungrouping step. */
module Orders {
  import opened Common

  /** COOKING and MEAL are in progress; COMPLETION is terminal. */
  datatype OrderStatus = Cooking | Meal | Completion

  predicate InProgress(status: OrderStatus) {
    status == Cooking || status == Meal
  }

  /** One order as the order store reports it to the table validator. */
  datatype OrderRow = OrderRow(orderTableId: TableId, orderStatus: OrderStatus)

  /** The store query behind the table validator: does any order placed at
      `tableId` still cook or eat? A table with no id (`null`) has no orders. */
  function ExistsInProgress(rows: seq<OrderRow>, tableId: Option<TableId>): (r: bool)
    ensures r <==> exists i :: 0 <= i < |rows| && Some(rows[i].orderTableId) == tableId && InProgress(rows[i].orderStatus)
  {
    if rows == [] then false
    else if Some(rows[0].orderTableId) == tableId && InProgress(rows[0].orderStatus) then true
    else
      var rest := ExistsInProgress(rows[1..], tableId);
      assert forall i :: 1 <= i < |rows| ==> rows[i] == rows[1..][i - 1];
      rest
  }

  /** The validator `validateChangeEmpty(id)`: refuses while an order placed at
      the table is in progress. */
  function ValidateChangeEmpty(rows: seq<OrderRow>, tableId: Option<TableId>): (r: Outcome)
    ensures r.Fail? ==> r.reason == OrderInProgress
    ensures r.Pass? <==> forall i :: 0 <= i < |rows| && Some(rows[i].orderTableId) == tableId ==> rows[i].orderStatus == Completion
  {
    if ExistsInProgress(rows, tableId) then Fail(OrderInProgress) else Pass
  }

  /** The rows the order store reports for a list of stored orders. */
  function Snapshot(os: seq<Order>): (r: seq<OrderRow>)
    reads os
    ensures |r| == |os|
  {
    seq(|os|, i reads os requires 0 <= i < |os| => OrderRow(os[i].orderTableId, os[i].orderStatus))
  }

  /** Asking the validator about a snapshot is asking about the stored
      orders themselves: some order at the table is COOKING or MEAL. */
  lemma SnapshotInProgress(os: seq<Order>, tableId: Option<TableId>)
    ensures ExistsInProgress(Snapshot(os), tableId)
            <==> exists i :: 0 <= i < |os| && Some(os[i].orderTableId) == tableId && InProgress(os[i].orderStatus)
  {
    var rows := Snapshot(os);
    if ExistsInProgress(rows, tableId) {
      var i :| 0 <= i < |rows| && Some(rows[i].orderTableId) == tableId && InProgress(rows[i].orderStatus);
      assert rows[i] == OrderRow(os[i].orderTableId, os[i].orderStatus);
    }
    if exists i :: 0 <= i < |os| && Some(os[i].orderTableId) == tableId && InProgress(os[i].orderStatus) {
      var i :| 0 <= i < |os| && Some(os[i].orderTableId) == tableId && InProgress(os[i].orderStatus);
      assert rows[i] == OrderRow(os[i].orderTableId, os[i].orderStatus);
    }
  }

  /** An order entity. `ungroupSteps` records how often the ungrouping step
      `ungroupOrderTable` has been applied to it; what that step does inside
      the order aggregate is not part of this model. */
  class Order {
    var id: Option<OrderId>
    var orderTableId: TableId
    var orderStatus: OrderStatus
    ghost var ungroupSteps: nat

    constructor (id: Option<OrderId>, orderTableId: TableId, orderStatus: OrderStatus)
      ensures this.id == id && this.orderTableId == orderTableId && this.orderStatus == orderStatus
      ensures ungroupSteps == 0
    {
      this.id := id;
      this.orderTableId := orderTableId;
      this.orderStatus := orderStatus;
      ungroupSteps := 0;
    }

    /** The abstract per-order ungrouping step. */
    method UngroupOrderTable()
      modifies this
      ensures ungroupSteps == old(ungroupSteps) + 1
      ensures id == old(id) && orderTableId == old(orderTableId) && orderStatus == old(orderStatus)
    {
      ungroupSteps := ungroupSteps + 1;
    }
  }
}
