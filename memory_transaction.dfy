/** `memoryTransactionTracer`: keeps one list per heap or stack figure, in
    megabytes, adds one reading at the start and one at the end of the
    call, and returns the lists as a CSV table in a JSON string. */
module MemoryTransaction {
  import opened Wrappers
  import opened Json
  import Decimal
  import Csv
  import Text
  import Memory

  const Header: seq<string> := ["heapAllocList", "heapSysList", "heapIdleList",
                                "heapInuseList", "stackInUseList", "stackSysList"]

  /** The six lists have one length. */
  predicate SameLengths(ha: seq<int>, hs: seq<int>, hi: seq<int>, hu: seq<int>, si: seq<int>, ss: seq<int>) {
    |ha| == |si| && |ha| == |hs| && |ha| == |hi| && |ha| == |hu| && |ha| == |ss|
  }

  /** Every list has an entry at each index of the first. */
  predicate LongEnough(ha: seq<int>, hs: seq<int>, hi: seq<int>, hu: seq<int>, si: seq<int>, ss: seq<int>) {
    |hs| >= |ha| && |hi| >= |ha| && |hu| >= |ha| && |si| >= |ha| && |ss| >= |ha|
  }

  /** The record of index `k`: the six entries in decimal. */
  function ListRow(ha: seq<int>, hs: seq<int>, hi: seq<int>, hu: seq<int>, si: seq<int>, ss: seq<int>, k: nat): seq<string>
    requires k < |ha| && LongEnough(ha, hs, hi, hu, si, ss)
  {
    [Decimal.Itoa(ha[k]), Decimal.Itoa(hs[k]), Decimal.Itoa(hi[k]),
     Decimal.Itoa(hu[k]), Decimal.Itoa(si[k]), Decimal.Itoa(ss[k])]
  }

  function ListRows(ha: seq<int>, hs: seq<int>, hi: seq<int>, hu: seq<int>, si: seq<int>, ss: seq<int>): (rows: seq<seq<string>>)
    requires LongEnough(ha, hs, hi, hu, si, ss)
    ensures |rows| == |ha|
  {
    seq(|ha|, k requires 0 <= k < |ha| => ListRow(ha, hs, hi, hu, si, ss, k))
  }

  /** The rows of the first `i + 1` entries extend those of the first `i`. */
  lemma ListRowsStep(ha: seq<int>, hs: seq<int>, hi: seq<int>, hu: seq<int>, si: seq<int>, ss: seq<int>, i: nat)
    requires i < |ha| && i < |hs| && i < |hi| && i < |hu| && i < |si| && i < |ss|
    ensures ListRows(ha[..i + 1], hs[..i + 1], hi[..i + 1], hu[..i + 1], si[..i + 1], ss[..i + 1])
         == ListRows(ha[..i], hs[..i], hi[..i], hu[..i], si[..i], ss[..i]) + [ListRow(ha[..i + 1], hs[..i + 1], hi[..i + 1], hu[..i + 1], si[..i + 1], ss[..i + 1], i)]
  {
  }

  /** Entries beyond the first list's length are never written. */
  lemma ListRowsOfPrefixes(ha: seq<int>, hs: seq<int>, hi: seq<int>, hu: seq<int>, si: seq<int>, ss: seq<int>)
    requires LongEnough(ha, hs, hi, hu, si, ss)
    ensures ListRows(ha, hs[..|ha|], hi[..|ha|], hu[..|ha|], si[..|ha|], ss[..|ha|]) == ListRows(ha, hs, hi, hu, si, ss)
  {
  }

  /** The outcome of `ListsToCSV`: the text, or the panic of an index out of range. */
  datatype Outcome<T> = Returned(value: T) | IndexOutOfRangePanic

  /** `ListsToCSV`: the header and one record per entry of the first list;
      it indexes every other list at each of those positions, so a shorter
      list makes it panic. */
  method ListsToCsv(ha: seq<int>, hs: seq<int>, hi: seq<int>, hu: seq<int>, si: seq<int>, ss: seq<int>)
    returns (r: Outcome<string>)
    ensures LongEnough(ha, hs, hi, hu, si, ss) ==> r == Returned(Csv.Table(Header, ListRows(ha, hs, hi, hu, si, ss)))
    ensures !LongEnough(ha, hs, hi, hu, si, ss) ==> r == IndexOutOfRangePanic
  {
    var buf := Csv.Record(Header);
    ghost var head := buf;
    var i := 0;
    assert Csv.Records(ListRows(ha[..0], hs[..0], hi[..0], hu[..0], si[..0], ss[..0])) == "";
    while i < |ha|
      invariant 0 <= i <= |ha|
      invariant i <= |hs| && i <= |hi| && i <= |hu| && i <= |si| && i <= |ss|
      invariant buf == head + Csv.Records(ListRows(ha[..i], hs[..i], hi[..i], hu[..i], si[..i], ss[..i]))
    {
      if i >= |hs| || i >= |hi| || i >= |hu| || i >= |si| || i >= |ss| {
        return IndexOutOfRangePanic;
      }
      var row := [Decimal.Itoa(ha[i]), Decimal.Itoa(hs[i]), Decimal.Itoa(hi[i]),
                  Decimal.Itoa(hu[i]), Decimal.Itoa(si[i]), Decimal.Itoa(ss[i])];
      ghost var before := Csv.Records(ListRows(ha[..i], hs[..i], hi[..i], hu[..i], si[..i], ss[..i]));
      ListRowsStep(ha, hs, hi, hu, si, ss, i);
      Csv.RecordsSnoc(ListRows(ha[..i], hs[..i], hi[..i], hu[..i], si[..i], ss[..i]), row);
      Text.AppendAssoc(head, before, Csv.Record(row));
      buf := buf + Csv.Record(row);
      i := i + 1;
    }
    assert ha[..i] == ha;
    ListRowsOfPrefixes(ha, hs, hi, hu, si, ss);
    return Returned(buf);
  }

  /** The lists built from a series of readings give the records the file
      tracer writes for the same readings. */
  lemma {:induction false} RowsOfReadings(ha: seq<int>, hs: seq<int>, hi: seq<int>, hu: seq<int>, si: seq<int>, ss: seq<int>,
                                          readings: seq<Memory.MemStats>)
    requires |ha| == |readings| && SameLengths(ha, hs, hi, hu, si, ss)
    requires forall k :: 0 <= k < |readings| ==> [ha[k], hs[k], hi[k], hu[k], si[k], ss[k]] == Memory.Megabytes(readings[k])
    ensures LongEnough(ha, hs, hi, hu, si, ss)
    ensures ListRows(ha, hs, hi, hu, si, ss) == Memory.StatsRows(readings)
  {
    var rows := ListRows(ha, hs, hi, hu, si, ss);
    forall k | 0 <= k < |readings| ensures rows[k] == Memory.StatsRows(readings)[k] {
      Memory.StatsRowsAt(readings, k);
      var mb := Memory.Megabytes(readings[k]);
      assert [ha[k], hs[k], hi[k], hu[k], si[k], ss[k]][0] == ha[k];
      assert ha[k] == mb[0] && hs[k] == mb[1] && hi[k] == mb[2];
      assert hu[k] == mb[3] && si[k] == mb[4] && ss[k] == mb[5];
    }
  }

  class MemoryTransactionTracer {
    var heapAllocList: seq<int>
    var heapSysList: seq<int>
    var heapIdleList: seq<int>
    var heapInuseList: seq<int>
    var stackInUseList: seq<int>
    var stackSysList: seq<int>
    /** The last reading, kept in the tracer as the runtime fills it in. */
    var memStats: Memory.MemStats
    /** The readings taken so far. */
    ghost var readings: seq<Memory.MemStats>

    /** The lists hold, index by index, the megabyte figures of the readings. */
    ghost predicate Valid()
      reads this
    {
      |heapAllocList| == |readings| &&
      SameLengths(heapAllocList, heapSysList, heapIdleList, heapInuseList, stackInUseList, stackSysList) &&
      forall k :: 0 <= k < |readings| ==>
        [heapAllocList[k], heapSysList[k], heapIdleList[k], heapInuseList[k], stackInUseList[k], stackSysList[k]]
        == Memory.Megabytes(readings[k])
    }

    /** `newMemoryTransactionTracer`: six empty lists and a zero reading. */
    constructor ()
      ensures Valid() && readings == []
      ensures heapAllocList == [] && heapSysList == [] && heapIdleList == []
      ensures heapInuseList == [] && stackInUseList == [] && stackSysList == []
    {
      heapAllocList, heapSysList, heapIdleList := [], [], [];
      heapInuseList, stackInUseList, stackSysList := [], [], [];
      memStats := Memory.MemStats(0, 0, 0, 0, 0, 0);
      readings := [];
    }

    /** `addHeapProfile` with `getHeapAndStackMetrics`: the reading `m` is
        stored and each list gets its figure in megabytes. */
    method AddHeapProfile(m: Memory.MemStats)
      requires Valid()
      modifies this
      ensures Valid() && readings == old(readings) + [m] && memStats == m
      ensures heapAllocList == old(heapAllocList) + [Memory.Megabytes(m)[0]]
      ensures heapSysList == old(heapSysList) + [Memory.Megabytes(m)[1]]
      ensures heapIdleList == old(heapIdleList) + [Memory.Megabytes(m)[2]]
      ensures heapInuseList == old(heapInuseList) + [Memory.Megabytes(m)[3]]
      ensures stackInUseList == old(stackInUseList) + [Memory.Megabytes(m)[4]]
      ensures stackSysList == old(stackSysList) + [Memory.Megabytes(m)[5]]
    {
      memStats := m;
      var heapAlloc, heapSys, heapIdle := Memory.FigureToMb(m.heapAlloc),
        Memory.FigureToMb(m.heapSys), Memory.FigureToMb(m.heapIdle);
      var heapInuse, stackInUse, stackSys := Memory.FigureToMb(m.heapInuse),
        Memory.FigureToMb(m.stackInuse), Memory.FigureToMb(m.stackSys);
      Memory.MegabytesInOrder(m);
      heapAllocList := heapAllocList + [heapAlloc];
      heapSysList := heapSysList + [heapSys];
      heapIdleList := heapIdleList + [heapIdle];
      heapInuseList := heapInuseList + [heapInuse];
      stackInUseList := stackInUseList + [stackInUse];
      stackSysList := stackSysList + [stackSys];
      readings := readings + [m];
    }

    /** `CaptureStart`: one reading. */
    method CaptureStart(m: Memory.MemStats)
      requires Valid()
      modifies this
      ensures Valid() && readings == old(readings) + [m] && memStats == m
    {
      AddHeapProfile(m);
    }

    /** `CaptureEnd`: one reading. */
    method CaptureEnd(m: Memory.MemStats)
      requires Valid()
      modifies this
      ensures Valid() && readings == old(readings) + [m] && memStats == m
    {
      AddHeapProfile(m);
    }

    /** `GetResult`: an error, and no result, when the lists differ in
        length; otherwise the table in a JSON string -- for a tracer that
        kept its invariant, the records of its readings. */
    method GetResult() returns (result: Option<Json>, err: Option<string>)
      ensures err.Some? <==> !SameLengths(heapAllocList, heapSysList, heapIdleList, heapInuseList, stackInUseList, stackSysList)
      ensures err.Some? ==> result == None && err == Some("all lists must have the same length")
      ensures err.None? ==>
        (LongEnough(heapAllocList, heapSysList, heapIdleList, heapInuseList, stackInUseList, stackSysList)
         && result == Some(JsonString(Csv.Table(Header, ListRows(heapAllocList, heapSysList, heapIdleList,
                                                                  heapInuseList, stackInUseList, stackSysList)))))
      ensures Valid() ==> err == None && result == Some(JsonString(Csv.Table(Header, Memory.StatsRows(readings))))
    {
      if |heapAllocList| != |stackInUseList| || |heapAllocList| != |heapSysList|
         || |heapAllocList| != |heapIdleList| || |heapAllocList| != |heapInuseList|
         || |heapAllocList| != |stackSysList| {
        return None, Some("all lists must have the same length");
      }
      var csv := ListsToCsv(heapAllocList, heapSysList, heapIdleList, heapInuseList, stackInUseList, stackSysList);
      if csv.IndexOutOfRangePanic? {
        assert false;
      }
      if Valid() {
        RowsOfReadings(heapAllocList, heapSysList, heapIdleList, heapInuseList, stackInUseList, stackSysList, readings);
      }
      return Some(JsonString(csv.value)), None;
    }
  }

  /** A call traced by a new tracer: a table of two records, the start
      reading's and the end reading's. */
  method TraceCall(atStart: Memory.MemStats, atEnd: Memory.MemStats) returns (result: Option<Json>, err: Option<string>)
    ensures err == None
    ensures result == Some(JsonString(Csv.Table(Header, [Memory.StatsRow(atStart), Memory.StatsRow(atEnd)])))
  {
    var t := new MemoryTransactionTracer();
    t.CaptureStart(atStart);
    t.CaptureEnd(atEnd);
    assert t.readings == [atStart, atEnd];
    assert Memory.StatsRows([atStart, atEnd]) == [Memory.StatsRow(atStart), Memory.StatsRow(atEnd)] by {
      assert [atStart, atEnd][..1] == [atStart];
      assert [atStart][..0] == [];
    }
    result, err := t.GetResult();
  }

  /** The table reads back as the header and the records. */
  lemma TableReadsBack(readings: seq<Memory.MemStats>)
    ensures Csv.ParseRecords(Csv.Table(Header, Memory.StatsRows(readings))) == [Header] + Memory.StatsRows(readings)
  {
    Memory.StatsTablePlain(Header, readings);
    Csv.TableRoundTrip(Header, Memory.StatsRows(readings));
  }
}
