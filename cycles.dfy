/** `cycleTracer`: for every executed instruction it records the opcode,
    the CPU cycles counted since the previous instruction boundary, and the
    gas cost taken from the gas window; `GetResult` returns the three lists
    as a CSV table inside a JSON string. */
module Cycles {
  import opened Wrappers
  import opened Vm
  import opened Json
  import Decimal
  import Csv
  import opened CostWindow

  const Header: seq<string> := ["opcodes", "cycles", "cost"]

  /** The record for one instruction. */
  function Row(name: OpCode -> string, op: OpCode, cycles: int, cost: int): seq<string> {
    [name(op), Decimal.Itoa(cycles), Decimal.Itoa(cost)]
  }

  /** Record i of the table, for every index of `opcodes`. */
  function Rows(name: OpCode -> string, opcodes: seq<OpCode>, cycles: seq<int>, cost: seq<int>): seq<seq<string>>
    requires |opcodes| <= |cycles| && |opcodes| <= |cost|
  {
    seq(|opcodes|, i requires 0 <= i < |opcodes| => Row(name, opcodes[i], cycles[i], cost[i]))
  }

  predicate Aligned(opcodes: seq<OpCode>, cycles: seq<int>, cost: seq<int>) {
    |opcodes| == |cycles| == |cost|
  }

  /** `CyclesToCSV`: an error and "" when the three lists differ in length,
      otherwise the header followed by one record per index, in order. */
  method CyclesToCsv(name: OpCode -> string, opcodes: seq<OpCode>, cycles: seq<int>, cost: seq<int>)
    returns (csv: string, err: Option<Csv.CsvError>)
    ensures err.Some? <==> !Aligned(opcodes, cycles, cost)
    ensures err.Some? ==> csv == ""
    ensures err.None? ==> csv == Csv.Table(Header, Rows(name, opcodes, cycles, cost))
  {
    if |opcodes| != |cycles| || |cycles| != |cost| {
      return "", Some(Csv.LengthsDiffer);
    }
    var buf := Csv.Record(Header);
    ghost var rows := Rows(name, opcodes, cycles, cost);
    var i := 0;
    while i < |opcodes|
      invariant 0 <= i <= |opcodes|
      invariant buf == Csv.Table(Header, rows[..i])
    {
      buf := buf + Csv.Record(Row(name, opcodes[i], cycles[i], cost[i]));
      Csv.RecordsPrefix(rows, i);
      i := i + 1;
    }
    assert rows[..i] == rows;
    return buf, None;
  }

  /** A table the serialiser produced reads back as its header and one
      record per instruction, provided the mnemonics need no quoting, and
      the cycle and cost fields parse back to the recorded numbers. */
  lemma TableReadsBack(name: OpCode -> string, opcodes: seq<OpCode>, cycles: seq<int>, cost: seq<int>)
    requires Aligned(opcodes, cycles, cost)
    requires forall op: OpCode :: Csv.Plain(name(op))
    ensures Csv.ParseRecords(Csv.Table(Header, Rows(name, opcodes, cycles, cost))) == [Header] + Rows(name, opcodes, cycles, cost)
    ensures forall i :: 0 <= i < |opcodes| && Decimal.MinInt64 <= cycles[i] <= Decimal.MaxInt64 ==>
      Decimal.ParseInt(Rows(name, opcodes, cycles, cost)[i][1]) == Some(cycles[i])
    ensures forall i :: 0 <= i < |opcodes| && Decimal.MinInt64 <= cost[i] <= Decimal.MaxInt64 ==>
      Decimal.ParseInt(Rows(name, opcodes, cycles, cost)[i][2]) == Some(cost[i])
  {
    var rows := Rows(name, opcodes, cycles, cost);
    var all := [Header] + rows;
    forall r | 0 <= r < |all| ensures |all[r]| > 0 && forall k :: 0 <= k < |all[r]| ==> Csv.Plain(all[r][k]) {
      if r > 0 {
        assert all[r] == rows[r - 1];
        Csv.ItoaPlain(cycles[r - 1]);
        Csv.ItoaPlain(cost[r - 1]);
      }
    }
    Csv.TableRoundTrip(Header, rows);
    forall i | 0 <= i < |opcodes| && Decimal.MinInt64 <= cycles[i] <= Decimal.MaxInt64 {
      Decimal.ParseIntItoa(cycles[i]);
    }
    forall i | 0 <= i < |opcodes| && Decimal.MinInt64 <= cost[i] <= Decimal.MaxInt64 {
      Decimal.ParseIntItoa(cost[i]);
    }
  }

  class CycleTracer {
    var opcodes: seq<OpCode>
    var cycles: seq<int>
    var cost: seq<int>
    var remainingGas: int
    /** The `CaptureState` and `CaptureTxEnd` calls so far. */
    ghost var events: seq<Event>

    /** The cost list and the stored gas are those of the gas window over
        the calls so far, and the opcode and cycle lists grow together. */
    ghost predicate Valid()
      reads this
    {
      cost == Run(events).costs && remainingGas == Run(events).remaining
      && |opcodes| == |cycles|
    }

    /** `newCycleTracer`: empty lists and the "unset" gas 0. */
    constructor ()
      ensures Valid() && events == []
      ensures opcodes == [] && cycles == [] && cost == [] && remainingGas == 0
    {
      opcodes, cycles, cost, remainingGas := [], [], [], 0;
      events := [];
    }

    /** `CaptureState`: `cycleCount` is the value of the cycle counter
        stopped at this boundary. */
    method CaptureState(op: OpCode, gas: int, cycleCount: int)
      requires Valid()
      modifies this
      ensures Valid() && events == old(events) + [Observe(gas)]
      ensures opcodes == old(opcodes) + [op] && cycles == old(cycles) + [cycleCount]
      ensures cost == if old(remainingGas) == 0 then old(cost) else old(cost) + [old(remainingGas) - gas]
      ensures remainingGas == gas
    {
      if remainingGas == 0 {
        remainingGas := gas;
      } else {
        var gasCost := remainingGas - gas;
        cost := cost + [gasCost];
        remainingGas := gas;
      }
      cycles := cycles + [cycleCount];
      opcodes := opcodes + [op];
      RunSnoc(events, Observe(gas));
      events := events + [Observe(gas)];
    }

    /** `CaptureTxEnd`: records the gas used since the last boundary. */
    method CaptureTxEnd(restGas: int)
      requires Valid()
      modifies this
      ensures Valid() && events == old(events) + [Flush(restGas)]
      ensures cost == old(cost) + [old(remainingGas) - restGas]
      ensures opcodes == old(opcodes) && cycles == old(cycles) && remainingGas == old(remainingGas)
    {
      cost := cost + [remainingGas - restGas];
      RunSnoc(events, Flush(restGas));
      events := events + [Flush(restGas)];
    }

    /** `GetResult`: the error of `CyclesToCSV` is overwritten by that of
        `json.Marshal`, which never fails on a string, so the result is the
        table in a JSON string when the lists are aligned and the JSON empty
        string otherwise, and the error is always nil. */
    method GetResult(name: OpCode -> string) returns (result: Json, err: Option<string>)
      ensures err == None
      ensures Aligned(opcodes, cycles, cost) ==> result == JsonString(Csv.Table(Header, Rows(name, opcodes, cycles, cost)))
      ensures !Aligned(opcodes, cycles, cost) ==> result == JsonString("")
    {
      var csvData, csvErr := CyclesToCsv(name, opcodes, cycles, cost);
      result, err := JsonString(csvData), None;
    }
  }

  /** Feeds every boundary, in order, to a new tracer. */
  method CaptureAll(t: CycleTracer, ops: seq<OpCode>, gases: seq<int>, cycleCounts: seq<int>)
    requires |ops| == |gases| == |cycleCounts|
    requires t.Valid() && t.events == [] && t.opcodes == [] && t.cycles == []
    modifies t
    ensures t.Valid() && t.events == Observes(gases)
    ensures t.opcodes == ops && t.cycles == cycleCounts
  {
    var i := 0;
    while i < |ops|
      invariant 0 <= i <= |ops|
      invariant t.Valid()
      invariant t.events == Observes(gases[..i])
      invariant t.opcodes == ops[..i] && t.cycles == cycleCounts[..i]
    {
      assert gases[..i + 1] == gases[..i] + [gases[i]];
      t.CaptureState(ops[i], gases[i], cycleCounts[i]);
      i := i + 1;
    }
    assert gases[..i] == gases && ops[..i] == ops && cycleCounts[..i] == cycleCounts;
  }

  /** A transaction traced by a new tracer: n > 0 instructions whose gas
      readings are never 0, then the end of the transaction.  The table holds
      one record per instruction; record i names instruction i, its cycle
      reading, and the gas instruction i consumed (the last one the gas down
      to `restGas`). */
  method TraceTransaction(name: OpCode -> string, ops: seq<OpCode>, gases: seq<int>, cycleCounts: seq<int>, restGas: int)
    returns (result: Json)
    requires |ops| == |gases| == |cycleCounts| > 0 && NonZero(gases)
    ensures result == JsonString(Csv.Table(Header, Rows(name, ops, cycleCounts, Deltas(gases) + [gases[|gases| - 1] - restGas])))
  {
    var t := new CycleTracer();
    CaptureAll(t, ops, gases, cycleCounts);
    t.CaptureTxEnd(restGas);
    Transaction(gases, restGas);
    var err;
    result, err := t.GetResult(name);
  }

  /** A transaction traced by a new tracer with any gas readings.  The result
      is the table exactly when the transaction is unbroken (at least one
      boundary, no reading but the last 0); otherwise the cost list is
      misaligned and the result is the JSON empty string. */
  method TraceAnyTransaction(name: OpCode -> string, ops: seq<OpCode>, gases: seq<int>, cycleCounts: seq<int>, restGas: int)
    returns (result: Json)
    requires |ops| == |gases| == |cycleCounts|
    ensures Unbroken(gases) ==> result == JsonString(Csv.Table(Header, Rows(name, ops, cycleCounts, TxCosts(gases, restGas))))
    ensures !Unbroken(gases) ==> result == JsonString("")
  {
    var t := new CycleTracer();
    CaptureAll(t, ops, gases, cycleCounts);
    t.CaptureTxEnd(restGas);
    assert t.cost == TxCosts(gases, restGas);
    var err;
    result, err := t.GetResult(name);
  }

  /** A transaction with no instruction boundary: `CaptureTxEnd` still records
      one cost, so the lists are misaligned and the result is the JSON empty string. */
  method TraceEmptyTransaction(name: OpCode -> string, restGas: int) returns (result: Json)
    ensures result == JsonString("")
  {
    var t := new CycleTracer();
    t.CaptureTxEnd(restGas);
    var err;
    result, err := t.GetResult(name);
  }
}
