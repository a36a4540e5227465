/** A table group: order tables combined for one party. Forming a group
    needs at least two tables, every one of them empty and in no group; each
    member then records the group and becomes occupied. */
module TableGroups {
  import opened Common
  import opened OrderTables

  /** A table outside any group joins group `g`: the group is assigned, then
      the table is marked occupied, through the table's own operations. */
  function JoinGroup(s: TableState, g: GroupId): (r: TableState)
    requires !Grouped(s)
    ensures r.id == s.id && r.numberOfGuests == s.numberOfGuests && !r.empty
    ensures r.tableGroupId == Some(g)
  {
    Next(Next(s, AssignGroup(Some(g))), ChangeEmpty(false))
  }

  /** Every table of the sequence joins group `g`. */
  function JoinAll(states: seq<TableState>, g: GroupId): (r: seq<TableState>)
    requires forall i :: 0 <= i < |states| ==> !Grouped(states[i])
    ensures |r| == |states|
    ensures forall i :: 0 <= i < |states| ==> r[i] == JoinGroup(states[i], g)
  {
    seq(|states|, i requires 0 <= i < |states| => JoinGroup(states[i], g))
  }

  /** Walks the candidate tables in order and reports the first one that is
      grouped or occupied. */
  function CheckTables(states: seq<TableState>): (r: Outcome)
    ensures r.Pass? <==> forall i :: 0 <= i < |states| ==> !Grouped(states[i]) && states[i].empty
    ensures r.Fail? ==> r.reason == TableAlreadyGrouped || r.reason == TableNotEmpty
  {
    if states == [] then Pass
    else if Grouped(states[0]) then Fail(TableAlreadyGrouped)
    else if !states[0].empty then Fail(TableNotEmpty)
    else
      var rest := CheckTables(states[1..]);
      assert forall i :: 1 <= i < |states| ==> states[i] == states[1..][i - 1];
      rest
  }

  /** The formation rules: fewer than two tables, a grouped table or an
      occupied table refuse the group. */
  function GroupingCheck(states: seq<TableState>): (r: Outcome)
    ensures r.Pass? <==> |states| >= 2 && forall i :: 0 <= i < |states| ==> !Grouped(states[i]) && states[i].empty
    ensures |states| < 2 ==> r == Fail(TooFewTables)
  {
    if |states| < 2 then Fail(TooFewTables) else CheckTables(states)
  }

  /** Two empty tables outside any group can always be grouped. */
  lemma TwoFreeTablesGroup(a: TableState, b: TableState)
    requires !Grouped(a) && a.empty && !Grouped(b) && b.empty
    ensures GroupingCheck([a, b]).Pass?
  {
  }

  /** After forming a group, every member is grouped under the new id and
      occupied, and none of them can be emptied directly. */
  lemma JoinedTablesAreHeld(states: seq<TableState>, g: GroupId)
    requires GroupingCheck(states).Pass?
    ensures forall i :: 0 <= i < |states| ==> JoinAll(states, g)[i] == states[i].(tableGroupId := Some(g), empty := false)
    ensures forall i :: 0 <= i < |states| ==> Apply(JoinAll(states, g)[i], ChangeEmpty(true)) == Failure(GroupedTableCannotBeEmptied)
  {
  }

  /** The members of a group can never form another group. */
  lemma RegroupingFails(states: seq<TableState>, g: GroupId)
    requires GroupingCheck(states).Pass?
    ensures GroupingCheck(JoinAll(states, g)) == Fail(TableAlreadyGrouped)
  {
  }

  /** The table states of a sequence of table objects. */
  function States(tables: seq<OrderTable>): (r: seq<TableState>)
    reads tables
    ensures |r| == |tables|
    ensures forall i :: 0 <= i < |tables| ==> r[i] == tables[i].State()
  {
    seq(|tables|, i reads tables requires 0 <= i < |tables| => tables[i].State())
  }

  class TableGroup {
    var id: GroupId
    var orderTables: seq<OrderTable>

    /** An empty group; its id is the one the store assigns on saving. */
    constructor (id: GroupId)
      ensures this.id == id && orderTables == []
    {
      this.id := id;
      orderTables := [];
    }

    /** Adds tables to the group, all or nothing: the formation rules are
        checked on every table before any table is changed; then each table
        joins the group and is appended, in the given order. */
    method AddOrderTables(tables: seq<OrderTable>) returns (r: Outcome)
      requires Distinct(tables)
      modifies this, tables
      ensures r == GroupingCheck(old(States(tables)))
      ensures id == old(id)
      ensures orderTables == if r.Pass? then old(orderTables) + tables else old(orderTables)
      ensures forall i :: 0 <= i < |tables| ==>
                tables[i].State() == if r.Pass? then JoinGroup(old(tables[i].State()), id) else old(tables[i].State())
    {
      r := GroupingCheck(States(tables));
      if r.Fail? {
        return;
      }
      var i := 0;
      while i < |tables|
        invariant 0 <= i <= |tables|
        invariant id == old(id) && orderTables == old(orderTables)
        invariant forall k :: 0 <= k < i ==> tables[k].State() == JoinGroup(old(tables[k].State()), id)
        invariant forall k :: i <= k < |tables| ==> tables[k].State() == old(tables[k].State())
      {
        var t := tables[i];
        var grouped := t.AssignTableGroup(Some(id));
        var occupied := t.ChangeOrderTableEmpty(false);
        i := i + 1;
      }
      orderTables := orderTables + tables;
    }

    /** Forms a new group with id `id` from `tables`. */
    static method WithOrderTables(id: GroupId, tables: seq<OrderTable>) returns (r: Result<TableGroup>)
      requires Distinct(tables)
      modifies tables
      ensures r.ToOutcome() == GroupingCheck(old(States(tables)))
      ensures r.Success? ==> fresh(r.value) && r.value.id == id && r.value.orderTables == tables
      ensures forall i :: 0 <= i < |tables| ==>
                tables[i].State() == if r.Success? then JoinGroup(old(tables[i].State()), id) else old(tables[i].State())
    {
      var group := new TableGroup(id);
      var added := group.AddOrderTables(tables);
      if added.Fail? {
        return Failure(added.reason);
      }
      r := Success(group);
    }
  }
}
