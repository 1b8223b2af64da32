/** The gas window of the cycle and timing tracers.  `remainingGas` starts
    at 0, which doubles as "no gas seen yet": a `CaptureState` that finds it
    0 only stores the current gas, any later one records the drop from the
    stored gas to the current one, and `CaptureTxEnd` records the drop from
    the stored gas to the gas left at the end of the transaction. */
module CostWindow {

  /** The calls that move the window: `CaptureState(gas)` and `CaptureTxEnd(restGas)`. */
  datatype Event = Observe(gas: int) | Flush(restGas: int)

  /** The recorded costs and the stored gas. */
  datatype Window = Window(costs: seq<int>, remaining: int)

  const Initial: Window := Window([], 0)

  function Step(w: Window, e: Event): Window {
    match e
    case Observe(gas) =>
      if w.remaining == 0 then Window(w.costs, gas)
      else Window(w.costs + [w.remaining - gas], gas)
    case Flush(restGas) =>
      Window(w.costs + [w.remaining - restGas], w.remaining)
  }

  /** The window after the given calls, starting from a new tracer. */
  function Run(events: seq<Event>): Window {
    if events == [] then Initial else Step(Run(events[..|events| - 1]), events[|events| - 1])
  }

  lemma RunSnoc(events: seq<Event>, e: Event)
    ensures Run(events + [e]) == Step(Run(events), e)
  {
    assert (events + [e])[..|events|] == events;
  }

  /** One `CaptureState` call per gas value, in order. */
  function Observes(gases: seq<int>): (r: seq<Event>)
    ensures |r| == |gases|
  {
    if gases == [] then [] else Observes(gases[..|gases| - 1]) + [Observe(gases[|gases| - 1])]
  }

  /** The gas each instruction consumed: the drop from one reading to the next. */
  function Deltas(gases: seq<int>): (r: seq<int>)
    ensures |r| == if gases == [] then 0 else |gases| - 1
  {
    if |gases| <= 1 then []
    else Deltas(gases[..|gases| - 1]) + [gases[|gases| - 2] - gases[|gases| - 1]]
  }

  /** Delta i is the drop from reading i to reading i + 1. */
  lemma {:induction false} DeltasAt(gases: seq<int>, i: nat)
    requires i + 1 < |gases|
    ensures Deltas(gases)[i] == gases[i] - gases[i + 1]
    decreases |gases|
  {
    var n := |gases|;
    if i + 2 < n {
      DeltasAt(gases[..n - 1], i);
    }
  }

  function Sum(xs: seq<int>): int {
    if xs == [] then 0 else Sum(xs[..|xs| - 1]) + xs[|xs| - 1]
  }

  predicate NonZero(gases: seq<int>) {
    forall i :: 0 <= i < |gases| ==> gases[i] != 0
  }

  /** While no reading is 0, the first call stores the gas and records nothing,
      and each later call records the drop from the previous reading. */
  lemma {:induction false} RunObserves(gases: seq<int>)
    requires |gases| > 0 && NonZero(gases)
    ensures Run(Observes(gases)) == Window(Deltas(gases), gases[|gases| - 1])
    decreases |gases|
  {
    var n := |gases|;
    var init := gases[..n - 1];
    RunSnoc(Observes(init), Observe(gases[n - 1]));
    if n == 1 {
      assert Observes(init) == [];
    } else {
      assert NonZero(init) by {
        forall i | 0 <= i < |init| ensures init[i] != 0 { assert init[i] == gases[i]; }
      }
      RunObserves(init);
      assert init[|init| - 1] == gases[n - 2];
    }
  }

  /** The recorded costs over a run, and their sum (the costs telescope). */
  lemma {:induction false} SumDeltas(gases: seq<int>)
    requires |gases| > 0
    ensures Sum(Deltas(gases)) == gases[0] - gases[|gases| - 1]
    decreases |gases|
  {
    var n := |gases|;
    if n > 1 {
      var init := gases[..n - 1];
      SumDeltas(init);
      assert Deltas(gases)[..n - 2] == Deltas(init);
    }
  }

  /** A transaction of n > 0 `CaptureState` calls, none of them reading 0 gas,
      closed by `CaptureTxEnd(restGas)`: exactly n costs, cost i is the gas
      instruction i consumed, the last is the drop to `restGas`, and the costs
      add up to the first reading minus `restGas`. */
  lemma Transaction(gases: seq<int>, restGas: int)
    requires |gases| > 0 && NonZero(gases)
    ensures Run(Observes(gases) + [Flush(restGas)]).costs == Deltas(gases) + [gases[|gases| - 1] - restGas]
    ensures |Run(Observes(gases) + [Flush(restGas)]).costs| == |gases|
    ensures Sum(Run(Observes(gases) + [Flush(restGas)]).costs) == gases[0] - restGas
  {
    var events := Observes(gases);
    var last := gases[|gases| - 1];
    var deltas := Deltas(gases);
    RunObserves(gases);
    assert Run(events) == Window(deltas, last);
    RunSnoc(events, Flush(restGas));
    var costs := deltas + [last - restGas];
    assert Run(events + [Flush(restGas)]).costs == costs;
    assert costs[..|costs| - 1] == deltas;
    SumDeltas(gases);
    assert Sum(costs) == Sum(deltas) + (last - restGas);
  }

  /** A reading of 0 gas looks like the initial "unset" value.  The boundary
      that reads it records the whole stored gas (when there is one), and the
      next boundary records nothing and only stores its own gas. */
  lemma ZeroReadingDropsCost(events: seq<Event>, gas: int)
    ensures Run(events + [Observe(0), Observe(gas)]).costs
      == Run(events).costs + (if Run(events).remaining == 0 then [] else [Run(events).remaining])
    ensures Run(events + [Observe(0), Observe(gas)]).remaining == gas
  {
    RunSnoc(events, Observe(0));
    RunSnoc(events + [Observe(0)], Observe(gas));
    assert events + [Observe(0)] + [Observe(gas)] == events + [Observe(0), Observe(gas)];
  }

  /** The number of non-zero entries. */
  function NonZeroCount(xs: seq<int>): (c: nat)
    ensures c <= |xs|
    ensures c == |xs| <==> forall i :: 0 <= i < |xs| ==> xs[i] != 0
  {
    if xs == [] then 0 else NonZeroCount(xs[..|xs| - 1]) + (if xs[|xs| - 1] != 0 then 1 else 0)
  }

  /** Over any readings, a boundary records a cost exactly when the reading
      before it is not 0, and the stored gas is the last reading. */
  lemma {:induction false} ObservesCount(gases: seq<int>)
    ensures |Run(Observes(gases)).costs| == if gases == [] then 0 else NonZeroCount(gases[..|gases| - 1])
    ensures Run(Observes(gases)).remaining == if gases == [] then 0 else gases[|gases| - 1]
    decreases |gases|
  {
    if gases != [] {
      var n := |gases|;
      var init := gases[..n - 1];
      assert Observes(gases) == Observes(init) + [Observe(gases[n - 1])];
      RunSnoc(Observes(init), Observe(gases[n - 1]));
      var before := Run(Observes(init));
      var after := Run(Observes(gases));
      assert after == Step(before, Observe(gases[n - 1]));
      assert after.remaining == gases[n - 1];
      ObservesCount(init);
      if n == 1 {
        assert before == Initial;
      } else {
        assert before.remaining == gases[n - 2];
        assert |before.costs| == NonZeroCount(init[..n - 2]);
        assert |after.costs| == |before.costs| + (if gases[n - 2] != 0 then 1 else 0);
        assert NonZeroCount(init) == NonZeroCount(init[..n - 2]) + (if init[n - 2] != 0 then 1 else 0);
      }
    }
  }

  /** `CaptureTxEnd` adds one cost to those of the boundaries. */
  lemma TxCount(gases: seq<int>, restGas: int)
    ensures |Run(Observes(gases) + [Flush(restGas)]).costs| == if gases == [] then 1 else NonZeroCount(gases[..|gases| - 1]) + 1
  {
    RunSnoc(Observes(gases), Flush(restGas));
    ObservesCount(gases);
  }

  /** A transaction with at least one boundary in which no reading but the
      last is 0: the only ones whose cost list lines up with the boundaries. */
  predicate Unbroken(gases: seq<int>) {
    |gases| > 0 && forall i :: 0 <= i < |gases| - 1 ==> gases[i] != 0
  }

  /** The costs of a transaction traced by a new window: one per boundary
      exactly when the transaction is unbroken.  Otherwise a 0 reading has
      swallowed a cost, or there was no boundary and `CaptureTxEnd` records
      one cost anyway. */
  function TxCosts(gases: seq<int>, restGas: int): (costs: seq<int>)
    ensures |costs| == |gases| <==> Unbroken(gases)
    ensures !Unbroken(gases) ==> |costs| < |gases| || gases == []
  {
    TxCount(gases, restGas);
    Run(Observes(gases) + [Flush(restGas)]).costs
  }

  /** `CaptureTxEnd` without any `CaptureState` still records one cost, 0 - restGas. */
  lemma FlushWithoutObserve(restGas: int)
    ensures Run([Flush(restGas)]).costs == [-restGas]
  {
    assert [Flush(restGas)][..0] == [];
  }
}
