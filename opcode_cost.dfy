/** `OpcodeCosts`: a table from opcode to cost in which the first cost
    stored for an opcode is kept for good. */
module OpcodeCost {
  import opened Wrappers
  import opened Vm

  /** The table after storing `cost` for `op`: unchanged when `op` already has
      a cost, otherwise extended by exactly that entry. */
  function Added(costs: map<OpCode, int>, op: OpCode, cost: int): (r: map<OpCode, int>)
    ensures op in costs ==> r == costs
    ensures op !in costs ==> r.Keys == costs.Keys + {op} && r[op] == cost
    ensures forall o :: o in costs ==> o in r && r[o] == costs[o]
  {
    if op in costs then costs else costs[op := cost]
  }

  /** The table after storing each (opcode, cost) pair in turn. */
  function AddAll(costs: map<OpCode, int>, pairs: seq<(OpCode, int)>): map<OpCode, int> {
    if pairs == [] then costs
    else
      var last := pairs[|pairs| - 1];
      Added(AddAll(costs, pairs[..|pairs| - 1]), last.0, last.1)
  }

  /** The cost of the first pair for `op`, if any: the reference definition
      of "first write wins". */
  function FirstCost(pairs: seq<(OpCode, int)>, op: OpCode): Option<int> {
    if pairs == [] then None
    else if pairs[0].0 == op then Some(pairs[0].1)
    else FirstCost(pairs[1..], op)
  }

  /** Storing a cost for an opcode a second time changes nothing, whatever that cost is. */
  lemma AddedTwice(costs: map<OpCode, int>, op: OpCode, cost: int, later: int)
    ensures Added(Added(costs, op, cost), op, later) == Added(costs, op, cost)
  {
  }

  lemma {:induction false} FirstCostSnoc(pairs: seq<(OpCode, int)>, p: (OpCode, int), op: OpCode)
    ensures FirstCost(pairs + [p], op) ==
      if FirstCost(pairs, op).Some? then FirstCost(pairs, op)
      else if p.0 == op then Some(p.1) else None
    decreases |pairs|
  {
    if pairs == [] {
      assert [] + [p] == [p];
      assert [p][1..] == [];
    } else {
      assert (pairs + [p])[1..] == pairs[1..] + [p];
      FirstCostSnoc(pairs[1..], p, op);
    }
  }

  /** Filling a table pair by pair keeps each opcode's first cost: an opcode
      has an entry iff it had one before or some pair names it, and the entry
      is the earlier one, else the cost of the first pair naming it. */
  lemma {:induction false} AddAllFirstWins(costs: map<OpCode, int>, pairs: seq<(OpCode, int)>, op: OpCode)
    ensures op in AddAll(costs, pairs) <==> op in costs || FirstCost(pairs, op).Some?
    ensures op in AddAll(costs, pairs) ==>
      AddAll(costs, pairs)[op] == if op in costs then costs[op] else FirstCost(pairs, op).value
    decreases |pairs|
  {
    if pairs != [] {
      var init, last := pairs[..|pairs| - 1], pairs[|pairs| - 1];
      AddAllFirstWins(costs, init, op);
      assert pairs == init + [last];
      FirstCostSnoc(init, last, op);
    }
  }

  /** One more pair on a table filled from empty: the table is extended by
      `Added`, and the first cost for that opcode is the one the table
      already held, else the new one. */
  lemma AddAllSnoc(pairs: seq<(OpCode, int)>, op: OpCode, cost: int)
    ensures AddAll(map[], pairs + [(op, cost)]) == Added(AddAll(map[], pairs), op, cost)
    ensures FirstCost(pairs + [(op, cost)], op)
         == Some(if op in AddAll(map[], pairs) then AddAll(map[], pairs)[op] else cost)
  {
    assert (pairs + [(op, cost)])[..|pairs|] == pairs;
    AddAllFirstWins(map[], pairs, op);
    FirstCostSnoc(pairs, (op, cost), op);
  }

  class OpcodeCosts {
    var costs: map<OpCode, int>

    /** `NewOpcodeCosts`: an empty table. */
    constructor ()
      ensures costs == map[]
    {
      costs := map[];
    }

    /** `AddOpcode`: stores `cost` for `op` unless `op` already has a cost. */
    method AddOpcode(op: OpCode, cost: int)
      modifies this
      ensures costs == Added(old(costs), op, cost)
    {
      if op in costs {
        return;
      }
      costs := costs[op := cost];
    }

    /** `GetCost`: the stored cost and true, or 0 and false when `op` has none. */
    method GetCost(op: OpCode) returns (cost: int, found: bool)
      ensures found <==> op in costs
      ensures cost == if op in costs then costs[op] else 0
    {
      if op in costs {
        cost, found := costs[op], true;
      } else {
        cost, found := 0, false;
      }
    }

    /** `AddAndGetCost`: `AddOpcode` then `GetCost`.  The lookup always
        succeeds and yields the first cost ever stored for `op`. */
    method AddAndGetCost(op: OpCode, cost: int) returns (stored: int, found: bool)
      modifies this
      ensures costs == Added(old(costs), op, cost)
      ensures found
      ensures stored == if op in old(costs) then old(costs)[op] else cost
    {
      AddOpcode(op, cost);
      stored, found := GetCost(op);
    }
  }
}
