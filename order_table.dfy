/** An order table: a physical table that is occupied or empty, seats some
    guests and may belong to a table group. Each change is a guard checked
    before a single field write. */
module OrderTables {
  import opened Common
  import Orders

  /** The fields of an order table. */
  datatype TableState = TableState(id: Option<TableId>, tableGroupId: Option<GroupId>, numberOfGuests: int32, empty: bool)

  /** The operations that change an order table. */
  datatype Op =
    | ChangeEmpty(isEmpty: bool)                                          // checks the group itself
    | ChangeEmptyValidated(orders: seq<Orders.OrderRow>, isEmpty: bool)   // asks the order validator
    | AssignGroup(groupId: Option<GroupId>)
    | ChangeGuests(numberOfGuests: int32)

  /** A table is grouped when it records a group id (`tableGroupId != null`). */
  predicate Grouped(s: TableState) {
    s.tableGroupId.Some?
  }

  /** A new, unstored table outside any group. */
  function Ungrouped(numberOfGuests: int32, empty: bool): (r: TableState)
    ensures r.id == None && !Grouped(r)
    ensures r.numberOfGuests == numberOfGuests && r.empty == empty
  {
    TableState(None, None, numberOfGuests, empty)
  }

  /** One operation: its guard, then its write. A failure carries the reason
      of the first guard that refused. */
  function Apply(s: TableState, op: Op): (r: Result<TableState>)
    // no operation touches the id
    ensures r.Success? ==> r.value.id == s.id
    // each operation writes its own field and no other
    ensures r.Success? && !op.AssignGroup? ==> r.value.tableGroupId == s.tableGroupId
    ensures r.Success? && !op.ChangeGuests? ==> r.value.numberOfGuests == s.numberOfGuests
    ensures r.Success? && (op.AssignGroup? || op.ChangeGuests?) ==> r.value.empty == s.empty
    // the guards
    ensures op.ChangeEmpty? ==> (r.Failure? <==> op.isEmpty && Grouped(s))
    ensures op.ChangeEmptyValidated? ==> (r.Failure? <==> Orders.ExistsInProgress(op.orders, s.id))
    ensures op.AssignGroup? ==> (r.Failure? <==> Grouped(s))
    ensures op.ChangeGuests? ==> (r.Failure? <==> s.empty || op.numberOfGuests < 0)
    // the writes
    ensures r.Success? && (op.ChangeEmpty? || op.ChangeEmptyValidated?) ==> r.value.empty == op.isEmpty
    ensures r.Success? && op.AssignGroup? ==> r.value.tableGroupId == op.groupId
    ensures r.Success? && op.ChangeGuests? ==> r.value.numberOfGuests == op.numberOfGuests >= 0
  {
    match op
    case ChangeEmptyValidated(orders, isEmpty) =>
      if Orders.ValidateChangeEmpty(orders, s.id).Fail? then Failure(OrderInProgress)
      else Success(s.(empty := isEmpty))
    case ChangeEmpty(isEmpty) =>
      if isEmpty && s.tableGroupId.Some? then Failure(GroupedTableCannotBeEmptied)
      else Success(s.(empty := isEmpty))
    case AssignGroup(groupId) =>
      if s.tableGroupId.Some? then Failure(TableAlreadyGrouped)
      else Success(s.(tableGroupId := groupId))
    case ChangeGuests(n) =>
      if s.empty then Failure(EmptyTableGuests)
      else if n < 0 then Failure(NegativeGuests)
      else Success(s.(numberOfGuests := n))
  }

  /** The state after an operation: a refused operation changes nothing. */
  function Next(s: TableState, op: Op): TableState {
    match Apply(s, op)
    case Success(s') => s'
    case Failure(_) => s
  }

  /** The state after a sequence of operations, each refused one skipped. */
  function Run(s: TableState, ops: seq<Op>): TableState
    decreases |ops|
  {
    if ops == [] then s else Run(Next(s, ops[0]), ops[1..])
  }

  /** An empty table refuses a guest change before it looks at the count. */
  lemma EmptyTableCheckedFirst(s: TableState, n: int32)
    requires s.empty
    ensures Apply(s, ChangeGuests(n)) == Failure(EmptyTableGuests)
  {
  }

  /** Assigning a group is refused exactly when the table is already grouped. */
  lemma AssignRefusedIffGrouped(s: TableState, g: Option<GroupId>)
    ensures Apply(s, AssignGroup(g)).Failure? <==> Grouped(s)
    ensures Apply(s, AssignGroup(g)).Failure? ==> Apply(s, AssignGroup(g)).reason == TableAlreadyGrouped
  {
  }

  /** The validator overload never looks at the group: a grouped, occupied
      table with no order in progress is emptied by it, while the checked
      overload refuses the same request. */
  lemma ValidatedOverloadIgnoresGroup(s: TableState, orders: seq<Orders.OrderRow>)
    requires Grouped(s) && !Orders.ExistsInProgress(orders, s.id)
    ensures Next(s, ChangeEmptyValidated(orders, true)).empty
    ensures Next(s, ChangeEmpty(true)) == s
  {
  }

  /** Emptying through the validator fails while an order at the table is
      COOKING or MEAL, and succeeds, leaving the table empty, when every order
      there is COMPLETION or there is none. */
  lemma ValidatedEmptyingFollowsOrders(s: TableState, orders: seq<Orders.OrderRow>)
    ensures Apply(s, ChangeEmptyValidated(orders, true)).Failure?
            <==> exists i :: 0 <= i < |orders| && Some(orders[i].orderTableId) == s.id && Orders.InProgress(orders[i].orderStatus)
    ensures (forall i :: 0 <= i < |orders| && Some(orders[i].orderTableId) == s.id ==> orders[i].orderStatus == Orders.Completion)
            ==> Next(s, ChangeEmptyValidated(orders, true)).empty
  {
  }

  /** No sequence of operations changes the id. */
  lemma {:induction false} RunKeepsId(s: TableState, ops: seq<Op>)
    ensures Run(s, ops).id == s.id
    decreases |ops|
  {
    if ops != [] {
      RunKeepsId(Next(s, ops[0]), ops[1..]);
    }
  }

  /** A group, once assigned, stays: no sequence of operations clears or
      replaces it. */
  lemma {:induction false} RunKeepsGroup(s: TableState, ops: seq<Op>)
    requires Grouped(s)
    ensures Run(s, ops).tableGroupId == s.tableGroupId
    decreases |ops|
  {
    if ops != [] {
      RunKeepsGroup(Next(s, ops[0]), ops[1..]);
    }
  }

  /** The operations never make the guest count negative. */
  lemma {:induction false} RunKeepsGuestsNonNegative(s: TableState, ops: seq<Op>)
    requires s.numberOfGuests >= 0
    ensures Run(s, ops).numberOfGuests >= 0
    decreases |ops|
  {
    if ops != [] {
      RunKeepsGuestsNonNegative(Next(s, ops[0]), ops[1..]);
    }
  }

  /** Only the validator overload can free a grouped table: through all other
      operations a grouped, occupied table stays grouped and occupied. */
  lemma {:induction false} GroupedTableStaysOccupied(s: TableState, ops: seq<Op>)
    requires Grouped(s) && !s.empty
    requires forall i :: 0 <= i < |ops| ==> !ops[i].ChangeEmptyValidated?
    ensures Grouped(Run(s, ops)) && !Run(s, ops).empty
    decreases |ops|
  {
    if ops != [] {
      GroupedTableStaysOccupied(Next(s, ops[0]), ops[1..]);
    }
  }

  /** The order table entity, updated in place. */
  class OrderTable {
    var id: Option<TableId>
    var tableGroupId: Option<GroupId>
    var numberOfGuests: int32
    var empty: bool

    /** The table's fields as a value. */
    function State(): TableState
      reads this
    {
      TableState(id, tableGroupId, numberOfGuests, empty)
    }

    /** Stores its arguments as given, with no validation. */
    constructor (id: Option<TableId>, tableGroupId: Option<GroupId>, numberOfGuests: int32, empty: bool)
      ensures State() == TableState(id, tableGroupId, numberOfGuests, empty)
    {
      this.id := id;
      this.tableGroupId := tableGroupId;
      this.numberOfGuests := numberOfGuests;
      this.empty := empty;
    }

    /** A new, unstored table outside any group. */
    static method WithoutTableGroup(numberOfGuests: int32, empty: bool) returns (t: OrderTable)
      ensures fresh(t) && t.State() == Ungrouped(numberOfGuests, empty)
    {
      t := new OrderTable(None, None, numberOfGuests, empty);
    }

    predicate IsGrouped()
      reads this
      ensures IsGrouped() <==> Grouped(State())
    {
      tableGroupId != None
    }

    /** Asks the validator about this table's id, then writes `empty`. */
    method ChangeOrderTableEmptyValidated(orders: seq<Orders.OrderRow>, isEmpty: bool) returns (r: Outcome)
      modifies this
      ensures r == Apply(old(State()), ChangeEmptyValidated(orders, isEmpty)).ToOutcome()
      ensures State() == Next(old(State()), ChangeEmptyValidated(orders, isEmpty))
    {
      var v := Orders.ValidateChangeEmpty(orders, id);
      if v.Fail? {
        return v;
      }
      empty := isEmpty;
      r := Pass;
    }

    /** Writes `empty`, refusing to empty a grouped table. */
    method ChangeOrderTableEmpty(isEmpty: bool) returns (r: Outcome)
      modifies this
      ensures r == Apply(old(State()), ChangeEmpty(isEmpty)).ToOutcome()
      ensures State() == Next(old(State()), ChangeEmpty(isEmpty))
    {
      if isEmpty && tableGroupId != None {
        return Fail(GroupedTableCannotBeEmptied);
      }
      empty := isEmpty;
      r := Pass;
    }

    /** Records the group, refusing a table that already has one. */
    method AssignTableGroup(requestTableGroupId: Option<GroupId>) returns (r: Outcome)
      modifies this
      ensures r == Apply(old(State()), AssignGroup(requestTableGroupId)).ToOutcome()
      ensures State() == Next(old(State()), AssignGroup(requestTableGroupId))
    {
      if tableGroupId != None {
        return Fail(TableAlreadyGrouped);
      }
      tableGroupId := requestTableGroupId;
      r := Pass;
    }

    /** Writes the guest count, refusing an empty table or a negative count. */
    method ChangeNumberOfGuests(n: int32) returns (r: Outcome)
      modifies this
      ensures r == Apply(old(State()), ChangeGuests(n)).ToOutcome()
      ensures State() == Next(old(State()), ChangeGuests(n))
    {
      if empty {
        return Fail(EmptyTableGuests);
      }
      if n < 0 {
        return Fail(NegativeGuests);
      }
      numberOfGuests := n;
      r := Pass;
    }
  }
}
