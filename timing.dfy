/** `timingTracer`: for every executed instruction it records the opcode and
    the nanoseconds elapsed since the previous instruction boundary; after
    the first boundary it also records a cost, which is the first cost the
    opcode table ever saw for the opcode (the gas-delta line of the source is
    commented out), and `CaptureTxEnd` records the final gas drop. */
module Timing {
  import opened Wrappers
  import opened Vm
  import opened Json
  import Decimal
  import Csv
  import opened CostWindow
  import opened OpcodeCost

  const Header: seq<string> := ["opcodes", "time", "cost"]

  function Row(name: OpCode -> string, op: OpCode, time: int, cost: int): seq<string> {
    [name(op), Decimal.Itoa(time), Decimal.Itoa(cost)]
  }

  function Rows(name: OpCode -> string, opcodes: seq<OpCode>, timings: seq<int>, cost: seq<int>): seq<seq<string>>
    requires |opcodes| <= |timings| && |opcodes| <= |cost|
  {
    seq(|opcodes|, i requires 0 <= i < |opcodes| => Row(name, opcodes[i], timings[i], cost[i]))
  }

  predicate Aligned(opcodes: seq<OpCode>, timings: seq<int>, cost: seq<int>) {
    |opcodes| == |timings| == |cost|
  }

  /** `TimingDataToCSV`: an error and "" when the lists differ in length,
      otherwise the header followed by one record per index, in order. */
  method TimingDataToCsv(name: OpCode -> string, opcodes: seq<OpCode>, timings: seq<int>, cost: seq<int>)
    returns (csv: string, err: Option<Csv.CsvError>)
    ensures err.Some? <==> !Aligned(opcodes, timings, cost)
    ensures err.Some? ==> csv == ""
    ensures err.None? ==> csv == Csv.Table(Header, Rows(name, opcodes, timings, cost))
  {
    if |opcodes| != |timings| || |timings| != |cost| {
      return "", Some(Csv.LengthsDiffer);
    }
    var buf := Csv.Record(Header);
    ghost var rows := Rows(name, opcodes, timings, cost);
    var i := 0;
    while i < |opcodes|
      invariant 0 <= i <= |opcodes|
      invariant buf == Csv.Table(Header, rows[..i])
    {
      buf := buf + Csv.Record(Row(name, opcodes[i], timings[i], cost[i]));
      Csv.RecordsPrefix(rows, i);
      i := i + 1;
    }
    assert rows[..i] == rows;
    return buf, None;
  }

  /** Opcodes paired with the costs offered with them, call by call. */
  function Pairs(ops: seq<OpCode>, costs: seq<int>): (r: seq<(OpCode, int)>)
    requires |ops| == |costs|
    ensures |r| == |ops|
  {
    if ops == [] then [] else Pairs(ops[..|ops| - 1], costs[..|costs| - 1]) + [(ops[|ops| - 1], costs[|costs| - 1])]
  }

  /** The position of the first occurrence of `op`. */
  function FirstIndex(ops: seq<OpCode>, op: OpCode): (r: Option<nat>)
    ensures r.Some? ==> r.value < |ops| && ops[r.value] == op && forall j :: 0 <= j < r.value ==> ops[j] != op
    ensures r.None? ==> op !in ops
  {
    if ops == [] then None
    else if ops[0] == op then Some(0)
    else match FirstIndex(ops[1..], op)
      case None => None
      case Some(i) => Some(i + 1)
  }

  lemma {:induction false} PairsAt(ops: seq<OpCode>, costs: seq<int>, i: nat)
    requires |ops| == |costs| && i < |ops|
    ensures Pairs(ops, costs)[i] == (ops[i], costs[i])
    decreases |ops|
  {
    if i < |ops| - 1 {
      PairsAt(ops[..|ops| - 1], costs[..|costs| - 1], i);
    }
  }

  /** On paired lists, the first cost stored for `op` is the cost offered at
      the first position where `op` occurs. */
  lemma {:induction false} FirstCostPairs(ops: seq<OpCode>, costs: seq<int>, op: OpCode)
    requires |ops| == |costs|
    ensures FirstCost(Pairs(ops, costs), op) ==
      match FirstIndex(ops, op) case None => None case Some(i) => Some(costs[i])
    decreases |ops|
  {
    if ops != [] {
      var p := Pairs(ops, costs);
      PairsAt(ops, costs, 0);
      if ops[0] != op {
        assert p[1..] == Pairs(ops[1..], costs[1..]) by {
          forall k | 0 <= k < |ops| - 1 ensures p[1..][k] == Pairs(ops[1..], costs[1..])[k] {
            PairsAt(ops, costs, k + 1);
            PairsAt(ops[1..], costs[1..], k);
          }
        }
        FirstCostPairs(ops[1..], costs[1..], op);
      }
    }
  }

  /** The reference cost of the k-th boundary (k >= 1): the cost offered at the
      first boundary among 1..k that executed the same opcode as boundary k. */
  function FirstSeenCost(ops: seq<OpCode>, costs: seq<int>, k: nat): int
    requires |ops| == |costs| && 1 <= k < |ops|
  {
    var window := ops[1..k + 1];
    assert window[k - 1] == ops[k];
    costs[1 + FirstIndex(window, ops[k]).value]
  }

  /** The costs recorded at boundaries 1..m. */
  function SeenCosts(ops: seq<OpCode>, costs: seq<int>, m: nat): (r: seq<int>)
    requires |ops| == |costs| && m < |ops|
    ensures |r| == m
  {
    if m == 0 then [] else SeenCosts(ops, costs, m - 1) + [FirstSeenCost(ops, costs, m)]
  }

  /** The first boundary never charges the table: with opcodes ADD, MUL, ADD
      (0x01, 0x02, 0x01) and cost arguments 3, 5, 8, the recorded costs are
      5 and 8, not 5 and 3. */
  lemma FirstBoundaryNotCharged()
    ensures SeenCosts([0x01, 0x02, 0x01], [3, 5, 8], 2) == [5, 8]
  {
    var ops: seq<OpCode> := [0x01, 0x02, 0x01];
    assert ops[1..2] == [0x02];
    assert ops[1..3] == [0x02, 0x01];
  }

  /** The cost list of a transaction with n > 0 boundaries, none reading 0 gas:
      record j (j < n - 1) gets the first-seen cost of the opcode of boundary
      j + 1, the last record the gas drop from the last reading to `restGas`. */
  function TransactionCosts(ops: seq<OpCode>, costs: seq<int>, gases: seq<int>, restGas: int): seq<int>
    requires |ops| == |costs| == |gases| > 0
  {
    SeenCosts(ops, costs, |ops| - 1) + [gases[|gases| - 1] - restGas]
  }

  /** Charging boundary i extends the pairs by its own, and the cost the
      table then returns for its opcode is the first-seen cost. */
  lemma ChargeStep(ops: seq<OpCode>, costs: seq<int>, i: nat, c: int)
    requires |ops| == |costs| && 1 <= i < |ops|
    requires FirstCost(Pairs(ops[1..i], costs[1..i]) + [(ops[i], costs[i])], ops[i]) == Some(c)
    ensures Pairs(ops[1..i + 1], costs[1..i + 1]) == Pairs(ops[1..i], costs[1..i]) + [(ops[i], costs[i])]
    ensures c == FirstSeenCost(ops, costs, i)
  {
    assert ops[1..i + 1][..i - 1] == ops[1..i];
    assert costs[1..i + 1][..i - 1] == costs[1..i];
    FirstCostPairs(ops[1..i + 1], costs[1..i + 1], ops[i]);
  }

  class TimingTracer {
    var opcodes: seq<OpCode>
    var timings: seq<int>
    var cost: seq<int>
    var remainingGas: int
    const opcodeCosts: OpcodeCosts
    /** The `CaptureState` and `CaptureTxEnd` calls so far, for the gas window. */
    ghost var events: seq<Event>
    /** The (opcode, cost) pairs handed to `AddAndGetCost` so far. */
    ghost var charged: seq<(OpCode, int)>

    /** The opcode and timing lists grow together; the cost list is exactly
        as long as the gas window's, whose stored gas is `remainingGas`; the
        table holds the first cost of every opcode charged so far. */
    ghost predicate Valid()
      reads this, opcodeCosts
    {
      |opcodes| == |timings| && |cost| == |Run(events).costs| && remainingGas == Run(events).remaining
      && opcodeCosts.costs == AddAll(map[], charged)
    }

    /** `newTimingTracer`. */
    constructor ()
      ensures Valid() && fresh(opcodeCosts) && events == [] && charged == []
      ensures opcodes == [] && timings == [] && cost == [] && remainingGas == 0
    {
      opcodes, timings, cost, remainingGas := [], [], [], 0;
      opcodeCosts := new OpcodeCosts();
      events, charged := [], [];
    }

    /** `CaptureState`: `elapsed` is the nanoseconds since the previous
        boundary, `costArg` the cost the interpreter reports for `op`. */
    method CaptureState(op: OpCode, gas: int, costArg: int, elapsed: int)
      requires Valid()
      modifies this, opcodeCosts
      ensures Valid() && events == old(events) + [Observe(gas)]
      ensures opcodes == old(opcodes) + [op] && timings == old(timings) + [elapsed] && remainingGas == gas
      ensures old(remainingGas) == 0 ==>
        cost == old(cost) && charged == old(charged) && opcodeCosts.costs == old(opcodeCosts.costs)
      ensures old(remainingGas) != 0 ==>
        && charged == old(charged) + [(op, costArg)]
        && opcodeCosts.costs == Added(old(opcodeCosts.costs), op, costArg)
        && cost == old(cost) + [if op in old(opcodeCosts.costs) then old(opcodeCosts.costs)[op] else costArg]
        && FirstCost(charged, op) == Some(cost[|cost| - 1])
    {
      if remainingGas == 0 {
        remainingGas := gas;
      } else {
        AddAllSnoc(charged, op, costArg);
        var adaptedCost, found := opcodeCosts.AddAndGetCost(op, costArg);
        if !found {
          adaptedCost := 1;
        }
        cost := cost + [adaptedCost];
        remainingGas := gas;
        charged := charged + [(op, costArg)];
      }
      timings := timings + [elapsed];
      opcodes := opcodes + [op];
      RunSnoc(events, Observe(gas));
      events := events + [Observe(gas)];
    }

    /** `CaptureTxEnd`: records the gas used since the last boundary. */
    method CaptureTxEnd(restGas: int)
      requires Valid()
      modifies this
      ensures Valid() && events == old(events) + [Flush(restGas)]
      ensures cost == old(cost) + [old(remainingGas) - restGas]
      ensures opcodes == old(opcodes) && timings == old(timings) && remainingGas == old(remainingGas)
      ensures charged == old(charged)
    {
      cost := cost + [remainingGas - restGas];
      RunSnoc(events, Flush(restGas));
      events := events + [Flush(restGas)];
    }

    /** `GetResult`: the table in a JSON string when the lists are aligned,
        the JSON empty string otherwise; the error is always nil. */
    method GetResult(name: OpCode -> string) returns (result: Json, err: Option<string>)
      ensures err == None
      ensures Aligned(opcodes, timings, cost) ==> result == JsonString(Csv.Table(Header, Rows(name, opcodes, timings, cost)))
      ensures !Aligned(opcodes, timings, cost) ==> result == JsonString("")
    {
      var csvData, csvErr := TimingDataToCsv(name, opcodes, timings, cost);
      result, err := JsonString(csvData), None;
    }
  }

  /** Feeds boundary i (i >= 1) to a tracer that has seen boundaries 0..i-1. */
  method CaptureNext(t: TimingTracer, ops: seq<OpCode>, gases: seq<int>, costArgs: seq<int>, times: seq<int>, i: nat)
    requires |ops| == |gases| == |costArgs| == |times| && 1 <= i < |ops| && gases[i - 1] != 0
    requires t.Valid() && t.opcodes == ops[..i] && t.timings == times[..i] && t.remainingGas == gases[i - 1]
    requires t.charged == Pairs(ops[1..i], costArgs[1..i])
    requires t.cost == SeenCosts(ops, costArgs, i - 1)
    modifies t, t.opcodeCosts
    ensures t.Valid()
    ensures t.opcodes == ops[..i + 1] && t.timings == times[..i + 1] && t.remainingGas == gases[i]
    ensures t.charged == Pairs(ops[1..i + 1], costArgs[1..i + 1])
    ensures t.cost == SeenCosts(ops, costArgs, i)
  {
    assert ops[..i + 1] == ops[..i] + [ops[i]];
    assert times[..i + 1] == times[..i] + [times[i]];
    t.CaptureState(ops[i], gases[i], costArgs[i], times[i]);
    ghost var c := t.cost[i - 1];
    ChargeStep(ops, costArgs, i, c);
  }

  /** Feeds boundaries 1..n-1 to a tracer that has seen boundary 0 only. */
  method CaptureRest(t: TimingTracer, ops: seq<OpCode>, gases: seq<int>, costArgs: seq<int>, times: seq<int>)
    requires |ops| == |gases| == |costArgs| == |times| > 0 && NonZero(gases)
    requires t.Valid() && t.opcodes == [ops[0]] && t.timings == [times[0]] && t.remainingGas == gases[0]
    requires t.charged == [] && t.cost == []
    modifies t, t.opcodeCosts
    ensures t.Valid()
    ensures t.opcodes == ops && t.timings == times && t.remainingGas == gases[|gases| - 1]
    ensures t.cost == SeenCosts(ops, costArgs, |ops| - 1)
  {
    var i := 1;
    assert ops[..1] == [ops[0]] && times[..1] == [times[0]];
    while i < |ops|
      invariant 1 <= i <= |ops|
      invariant t.Valid()
      invariant t.opcodes == ops[..i] && t.timings == times[..i] && t.remainingGas == gases[i - 1]
      invariant t.charged == Pairs(ops[1..i], costArgs[1..i])
      invariant t.cost == SeenCosts(ops, costArgs, i - 1)
    {
      CaptureNext(t, ops, gases, costArgs, times, i);
      i := i + 1;
    }
    assert ops[..i] == ops && times[..i] == times;
  }

  /** A transaction traced by a new tracer: n > 0 instructions whose gas
      readings are never 0, then the end of the transaction.  The cost column
      holds the first-seen costs of the opcodes of boundaries 1..n-1, each in
      the record of the boundary before, and then the final gas drop. */
  method TraceTransaction(name: OpCode -> string, ops: seq<OpCode>, gases: seq<int>, costArgs: seq<int>,
                          times: seq<int>, restGas: int)
    returns (result: Json)
    requires |ops| == |gases| == |costArgs| == |times| > 0 && NonZero(gases)
    ensures result == JsonString(Csv.Table(Header, Rows(name, ops, times, TransactionCosts(ops, costArgs, gases, restGas))))
  {
    var t := new TimingTracer();
    t.CaptureState(ops[0], gases[0], costArgs[0], times[0]);
    CaptureRest(t, ops, gases, costArgs, times);
    t.CaptureTxEnd(restGas);
    var err;
    result, err := t.GetResult(name);
  }
}
