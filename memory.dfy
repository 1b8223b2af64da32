/** `memoryTracer`: writes the Go runtime's heap and stack figures, in
    megabytes, to a CSV file at the start and the end of the call and at
    every `resolution`-th instruction boundary, and returns the file's text
    as a JSON string, deleting the file. */
module Memory {
  import opened Wrappers
  import opened Json
  import Decimal
  import Csv
  import Text
  import Gate

  const TwoTo63: int := 0x8000_0000_0000_0000
  const TwoTo64: int := 0x1_0000_0000_0000_0000

  newtype U64 = x: int | 0 <= x < 0x1_0000_0000_0000_0000

  /** Go's `int(x)` for a `uint64` on a 64-bit platform: the same bits read
      as a signed number. */
  function ToInt(u: U64): (r: int)
    ensures -TwoTo63 <= r < TwoTo63
    ensures r == u as int || r == u as int - TwoTo64
  {
    if (u as int) < TwoTo63 then u as int else u as int - TwoTo64
  }

  /** Go's `/` on `int`: the quotient truncated toward zero. */
  function GoDiv(a: int, d: int): int
    requires d > 0
  {
    if a >= 0 then a / d else -((-a) / d)
  }

  /** The truncated quotient leaves a remainder smaller than the divisor
      with the sign of the dividend. */
  lemma GoDivRemainder(a: int, d: int)
    requires d > 0
    ensures a >= 0 ==> 0 <= a - GoDiv(a, d) * d < d
    ensures a < 0 ==> -d < a - GoDiv(a, d) * d <= 0
  {
  }

  /** Truncating twice by 1024 is truncating once by 1024 * 1024. */
  lemma NestedDiv(b: int)
    ensures GoDiv(GoDiv(b, 1024), 1024) == GoDiv(b, 1048576)
  {
    var a := if b >= 0 then b else -b;
    var q, r := a / 1024, a % 1024;
    var q2, r2 := q / 1024, q % 1024;
    assert a == q2 * 1048576 + (r2 * 1024 + r);
    Gate.DivUnique(a, 1048576, q2, r2 * 1024 + r);
  }

  /** `bToMb`: whole megabytes, truncated toward zero; the remainder is
      less than a megabyte and has the sign of the input. */
  function BToMb(b: int): (r: int)
    ensures r == GoDiv(b, 1048576)
  {
    NestedDiv(b);
    GoDiv(GoDiv(b, 1024), 1024)
  }

  /** More bytes never give fewer megabytes. */
  lemma BToMbMonotone(a: int, b: int)
    requires a <= b
    ensures BToMb(a) <= BToMb(b)
  {
    if 0 <= a || b < 0 {
      var qa, qb := BToMb(a), BToMb(b);
      if qa > qb {
        Gate.MulAtLeast(qa - qb, 1048576);
      }
    }
  }

  /** The fields of `runtime.MemStats` the tracers read (unsigned 64-bit). */
  datatype MemStats = MemStats(heapAlloc: U64, heapSys: U64, heapIdle: U64,
                               heapInuse: U64, stackInuse: U64, stackSys: U64)

  /** The six fields in the order both tracers use. */
  function Fields(m: MemStats): seq<U64> {
    [m.heapAlloc, m.heapSys, m.heapIdle, m.heapInuse, m.stackInuse, m.stackSys]
  }

  const TwoTo43: int := 0x800_0000_0000

  /** `bToMb(int(x))` for one figure.  The result always fits in 44 signed
      bits.  A figure below 2^63, as every real heap figure is, converts to
      its floor in megabytes, which is never negative; a larger one is read
      as a negative number and never gives a positive result. */
  function FigureToMb(u: U64): (r: int)
    ensures -TwoTo43 <= r < TwoTo43
    ensures (u as int) < TwoTo63 ==> r == (u as int) / 1048576 && r >= 0
    ensures (u as int) >= TwoTo63 ==> r <= 0
  {
    BToMbMonotone(ToInt(u), TwoTo63 - 1);
    BToMbMonotone(-TwoTo63, ToInt(u));
    BToMbMonotone(if (u as int) < TwoTo63 then 0 else ToInt(u), 0);
    BToMb(ToInt(u))
  }

  /** The six figures in megabytes, each within 44 signed bits, and each the floor of its
      field in megabytes when the field is below 2^63. */
  function Megabytes(m: MemStats): (mb: seq<int>)
    ensures |mb| == 6
    ensures forall k :: 0 <= k < 6 ==> -TwoTo43 <= mb[k] < TwoTo43
    ensures forall k :: 0 <= k < 6 && (Fields(m)[k] as int) < TwoTo63 ==> mb[k] == (Fields(m)[k] as int) / 1048576 >= 0
  {
    seq(6, k requires 0 <= k < 6 => FigureToMb(Fields(m)[k]))
  }

  /** The six figures, field by field. */
  lemma MegabytesInOrder(m: MemStats)
    ensures Megabytes(m) == [FigureToMb(m.heapAlloc), FigureToMb(m.heapSys), FigureToMb(m.heapIdle),
                             FigureToMb(m.heapInuse), FigureToMb(m.stackInuse), FigureToMb(m.stackSys)]
  {
  }

  const Header: seq<string> := ["heapAlloc", "heapSys", "heapIdle", "heapInuse", "stackInUse", "stackSys"]

  /** The record `addMemStatsToCSV` writes for one reading: the decimal text
      of each figure in megabytes. */
  function StatsRow(m: MemStats): (row: seq<string>)
    ensures |row| == 6
  {
    var mb := Megabytes(m);
    [Decimal.Itoa(mb[0]), Decimal.Itoa(mb[1]), Decimal.Itoa(mb[2]),
     Decimal.Itoa(mb[3]), Decimal.Itoa(mb[4]), Decimal.Itoa(mb[5])]
  }

  function StatsRows(ms: seq<MemStats>): (rows: seq<seq<string>>)
    ensures |rows| == |ms|
  {
    if ms == [] then [] else StatsRows(ms[..|ms| - 1]) + [StatsRow(ms[|ms| - 1])]
  }

  lemma StatsRowsSnoc(ms: seq<MemStats>, m: MemStats)
    ensures StatsRows(ms + [m]) == StatsRows(ms) + [StatsRow(m)]
  {
    assert (ms + [m])[..|ms|] == ms;
  }

  lemma {:induction false} StatsRowsAt(ms: seq<MemStats>, k: nat)
    requires k < |ms|
    ensures StatsRows(ms)[k] == StatsRow(ms[k])
    decreases |ms|
  {
    if k < |ms| - 1 {
      StatsRowsAt(ms[..|ms| - 1], k);
    }
  }

  /** No field of a record needs quoting. */
  lemma StatsRowPlain(m: MemStats)
    ensures forall k :: 0 <= k < |StatsRow(m)| ==> Csv.Plain(StatsRow(m)[k])
  {
    var mb := Megabytes(m);
    Csv.ItoaPlain(mb[0]); Csv.ItoaPlain(mb[1]); Csv.ItoaPlain(mb[2]);
    Csv.ItoaPlain(mb[3]); Csv.ItoaPlain(mb[4]); Csv.ItoaPlain(mb[5]);
  }

  /** Every header or record field the tracer writes needs no quoting. */
  lemma StatsTablePlain(header: seq<string>, ms: seq<MemStats>)
    requires |header| > 0 && forall k :: 0 <= k < |header| ==> Csv.Plain(header[k])
    ensures Csv.PlainRows([header] + StatsRows(ms))
  {
    var all := [header] + StatsRows(ms);
    forall r | 0 <= r < |all| ensures |all[r]| > 0 && forall k :: 0 <= k < |all[r]| ==> Csv.Plain(all[r][k]) {
      if r > 0 {
        StatsRowsAt(ms, r - 1);
        assert all[r] == StatsRow(ms[r - 1]);
        StatsRowPlain(ms[r - 1]);
      }
    }
  }

  /** The table `GetResult` returns reads back as the header and one record
      per reading. */
  lemma FileReadsBack(ms: seq<MemStats>)
    ensures Csv.ParseRecords(Csv.Table(Header, StatsRows(ms))) == [Header] + StatsRows(ms)
  {
    StatsTablePlain(Header, ms);
    Csv.TableRoundTrip(Header, StatsRows(ms));
  }

  /** A record's figures read back as the megabyte values written. */
  lemma StatsRowReadsBack(m: MemStats, k: nat)
    requires k < 6
    ensures Decimal.ParseInt(StatsRow(m)[k]) == Some(Megabytes(m)[k])
  {
    var mb := Megabytes(m);
    assert Decimal.MinInt64 <= mb[k] <= Decimal.MaxInt64;
    Decimal.ParseIntItoa(mb[k]);
  }

  class MemoryTracer {
    var opCounter: nat
    const resolution: nat := 100
    /** The text of the file `memoryStats.csv`, None while it does not exist. */
    var file: Option<string>

    /** `newMemoryTracer`; `existing` is the file as the tracer finds it. */
    constructor (existing: Option<string>)
      ensures opCounter == 0 && file == existing
    {
      opCounter, file := 0, existing;
    }

    /** `addMemStatsToCSV`: appends a record to the file; opening fails,
        and nothing is written, when the file does not exist. */
    method AddMemStatsToCsv(m: MemStats) returns (ok: bool)
      modifies this
      ensures ok <==> old(file).Some?
      ensures ok ==> file == Some(old(file).value + Csv.Record(StatsRow(m)))
      ensures !ok ==> file == old(file)
      ensures opCounter == old(opCounter)
    {
      if file.None? {
        return false;
      }
      file := Some(file.value + Csv.Record(StatsRow(m)));
      return true;
    }

    /** `CaptureStart`: creates (or truncates) the file to the header. */
    method CaptureStart()
      modifies this
      ensures file == Some(Csv.Record(Header))
      ensures opCounter == old(opCounter)
    {
      file := Some(Csv.Record(Header));
    }

    /** `CaptureEnd`: one record; `fatal` when it cannot be written, where
        the process exits. */
    method CaptureEnd(m: MemStats) returns (fatal: bool)
      modifies this
      ensures fatal <==> old(file).None?
      ensures !fatal ==> file == Some(old(file).value + Csv.Record(StatsRow(m)))
      ensures fatal ==> file == old(file)
      ensures opCounter == old(opCounter)
    {
      var ok := AddMemStatsToCsv(m);
      fatal := !ok;
    }

    /** `CaptureState`: a record when the counter, before it is incremented,
        is a multiple of the resolution, fatal when that record cannot be
        written; `m` is what the runtime would report now. */
    method CaptureState(m: MemStats) returns (fatal: bool)
      modifies this
      ensures fatal <==> Gate.ShouldSample(old(opCounter), resolution) && old(file).None?
      ensures Gate.ShouldSample(old(opCounter), resolution) && !fatal ==>
        file == Some(old(file).value + Csv.Record(StatsRow(m)))
      ensures !Gate.ShouldSample(old(opCounter), resolution) || fatal ==> file == old(file)
      ensures fatal ==> opCounter == old(opCounter)
      ensures !fatal ==> opCounter == old(opCounter) + 1
    {
      fatal := false;
      if opCounter % resolution == 0 {
        var ok := AddMemStatsToCsv(m);
        if !ok {
          return true;
        }
      }
      opCounter := opCounter + 1;
    }

    /** `GetResult`: the file's text as a JSON string, and the file is
        deleted; a missing file gives the empty string, because the read
        error is overwritten before it is checked. The error result is
        always nil. */
    method GetResult() returns (result: Json, err: Option<string>)
      modifies this
      ensures err == None
      ensures result == JsonString(old(file).GetOr(""))
      ensures file == None
      ensures opCounter == old(opCounter)
    {
      var text := "";
      if file.Some? {
        text := file.value;
        file := None;
      }
      return JsonString(text), None;
    }
  }

  /** The records after boundary `i` extend those before it by that
      boundary's record exactly when the boundary is sampled. */
  lemma SampledRecordsStep(states: seq<MemStats>, i: nat)
    requires i < |states|
    ensures Csv.Records(StatsRows(Gate.Sampled(states[..i + 1], 0, 100)))
         == Csv.Records(StatsRows(Gate.Sampled(states[..i], 0, 100)))
            + (if Gate.ShouldSample(i, 100) then Csv.Record(StatsRow(states[i])) else "")
  {
    var before := Gate.Sampled(states[..i], 0, 100);
    assert states[..i + 1][..i] == states[..i];
    if Gate.ShouldSample(i, 100) {
      assert Gate.Sampled(states[..i + 1], 0, 100) == before + [states[i]];
      StatsRowsSnoc(before, states[i]);
      Csv.RecordsSnoc(StatsRows(before), StatsRow(states[i]));
    } else {
      assert Gate.Sampled(states[..i + 1], 0, 100) == before;
    }
  }

  /** The file after the boundaries `states`, when it held `head` before them. */
  ghost function FileAfter(head: string, states: seq<MemStats>): string {
    head + Csv.Records(StatsRows(Gate.Sampled(states, 0, 100)))
  }

  lemma FileAfterNothing(head: string)
    ensures FileAfter(head, []) == head
  {
    assert Csv.Records(StatsRows([])) == "";
  }

  lemma FileAfterStep(head: string, states: seq<MemStats>, i: nat)
    requires i < |states|
    ensures FileAfter(head, states[..i + 1])
         == FileAfter(head, states[..i]) + (if Gate.ShouldSample(i, 100) then Csv.Record(StatsRow(states[i])) else "")
  {
    var r0 := Csv.Records(StatsRows(Gate.Sampled(states[..i], 0, 100)));
    var r1 := Csv.Records(StatsRows(Gate.Sampled(states[..i + 1], 0, 100)));
    var record := Csv.Record(StatsRow(states[i]));
    SampledRecordsStep(states, i);
    if Gate.ShouldSample(i, 100) {
      assert r1 == r0 + record;
      Text.AppendAssoc(head, r0, record);
    } else {
      assert r1 == r0;
    }
  }

  /** The header, the sampled boundaries, and the end record make the table. */
  lemma FileAfterEnd(states: seq<MemStats>, atEnd: MemStats)
    ensures FileAfter(Csv.Record(Header), states) + Csv.Record(StatsRow(atEnd))
         == Csv.Table(Header, StatsRows(Gate.Sampled(states, 0, 100)) + [StatsRow(atEnd)])
  {
    var rows := StatsRows(Gate.Sampled(states, 0, 100));
    Csv.RecordsSnoc(rows, StatsRow(atEnd));
    Text.AppendAssoc(Csv.Record(Header), Csv.Records(rows), Csv.Record(StatsRow(atEnd)));
  }

  /** Feeds boundary i to a tracer whose file exists. */
  method CaptureNext(t: MemoryTracer, states: seq<MemStats>, i: nat, ghost head: string)
    requires i < |states| && t.opCounter == i && t.file == Some(FileAfter(head, states[..i]))
    modifies t
    ensures t.opCounter == i + 1 && t.file == Some(FileAfter(head, states[..i + 1]))
  {
    ghost var before := FileAfter(head, states[..i]);
    ghost var record := Csv.Record(StatsRow(states[i]));
    FileAfterStep(head, states, i);
    var fatal := t.CaptureState(states[i]);
    assert !fatal;
    if Gate.ShouldSample(i, 100) {
      assert t.file == Some(before + record);
    } else {
      assert t.file == Some(before);
      assert before + "" == before;
    }
  }

  /** A call traced by a new tracer, whatever file it finds: the header, then
      the records of the boundaries numbered 0, 100, 200, ..., then the
      end record; a second `GetResult` finds the file gone. */
  method TraceCall(existing: Option<string>, states: seq<MemStats>, atEnd: MemStats)
    returns (result: Json, again: Json)
    ensures result == JsonString(Csv.Table(Header, StatsRows(Gate.Sampled(states, 0, 100)) + [StatsRow(atEnd)]))
    ensures again == JsonString("")
  {
    var t := new MemoryTracer(existing);
    t.CaptureStart();
    ghost var head := Csv.Record(Header);
    var i := 0;
    assert states[..0] == [];
    FileAfterNothing(head);
    while i < |states|
      invariant 0 <= i <= |states|
      invariant t.opCounter == i
      invariant t.file == Some(FileAfter(head, states[..i]))
    {
      CaptureNext(t, states, i, head);
      i := i + 1;
    }
    assert states[..i] == states;
    FileAfterEnd(states, atEnd);
    var fatal := t.CaptureEnd(atEnd);
    assert t.file == Some(FileAfter(head, states) + Csv.Record(StatsRow(atEnd)));
    var err;
    result, err := t.GetResult();
    again, err := t.GetResult();
  }

  /** Without `CaptureStart` there is no file, so the first sampled boundary is fatal. */
  method StateWithoutStart(m: MemStats) returns (fatal: bool)
    ensures fatal
  {
    var t := new MemoryTracer(None);
    fatal := t.CaptureState(m);
  }
}
