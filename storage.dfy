/** `storageTracer`: samples the process's I/O counters from `/proc/<pid>/io`
    at the start and the end of the call and at every `resolution`-th
    instruction boundary, and returns them as a CSV table in a JSON string. */
module Storage {
  import opened Wrappers
  import opened Json
  import Decimal
  import Text
  import Csv
  import Gate

  /** The counters of `/proc/<pid>/io`. */
  datatype ProcIO = ProcIO(rchar: int, wchar: int, syscr: int, syscw: int,
                           readBytes: int, writeBytes: int, cancelledWriteBytes: int)

  const Zero: ProcIO := ProcIO(0, 0, 0, 0, 0, 0, 0)

  /** The keys the parser recognises, one per counter. */
  datatype Key = Rchar | Wchar | Syscr | Syscw | ReadBytes | WriteBytes | CancelledWriteBytes

  /** The name the kernel gives each counter. */
  function KeyName(k: Key): string {
    match k
    case Rchar => "rchar"
    case Wchar => "wchar"
    case Syscr => "syscr"
    case Syscw => "syscw"
    case ReadBytes => "read_bytes"
    case WriteBytes => "write_bytes"
    case CancelledWriteBytes => "cancelled_write_bytes"
  }

  /** The key a line names: the cases of the parser's switch.  A name is
      recognised exactly when it is the kernel's name of a counter, and then
      as that counter; every other name is ignored. */
  function KeyOf(name: string): (r: Option<Key>)
    ensures forall k :: r == Some(k) <==> name == KeyName(k)
  {
    if name == "rchar" then Some(Rchar)
    else if name == "wchar" then Some(Wchar)
    else if name == "syscr" then Some(Syscr)
    else if name == "syscw" then Some(Syscw)
    else if name == "read_bytes" then Some(ReadBytes)
    else if name == "write_bytes" then Some(WriteBytes)
    else if name == "cancelled_write_bytes" then Some(CancelledWriteBytes)
    else None
  }

  function Get(p: ProcIO, k: Key): int {
    match k
    case Rchar => p.rchar
    case Wchar => p.wchar
    case Syscr => p.syscr
    case Syscw => p.syscw
    case ReadBytes => p.readBytes
    case WriteBytes => p.writeBytes
    case CancelledWriteBytes => p.cancelledWriteBytes
  }

  /** Assigning one field: that counter takes the value, the others keep theirs. */
  function Set(p: ProcIO, k: Key, v: int): (r: ProcIO)
    ensures Get(r, k) == v
    ensures forall k' :: k' != k ==> Get(r, k') == Get(p, k')
  {
    match k
    case Rchar => p.(rchar := v)
    case Wchar => p.(wchar := v)
    case Syscr => p.(syscr := v)
    case Syscw => p.(syscw := v)
    case ReadBytes => p.(readBytes := v)
    case WriteBytes => p.(writeBytes := v)
    case CancelledWriteBytes => p.(cancelledWriteBytes := v)
  }

  /** A line that splits at ": " into exactly two parts whose second is a
      base-10 64-bit integer gives its name and value; any other line gives
      None.  A parsed line is the name, ": ", and a text that parses to the
      value, and the name holds no ": ". */
  function ParseLine(line: string): (r: Option<(string, int)>)
    ensures r.Some? ==> !Text.Contains(r.value.0, ": ")
    ensures r.Some? ==> exists t :: line == r.value.0 + ": " + t && Decimal.ParseInt(t) == Some(r.value.1)
  {
    var parts := Text.Split(line, ": ");
    Text.SplitPartsExcludeSep(line, ": ");
    Text.JoinSplit(line, ": ");
    assert |parts| == 2 ==> parts[0] in parts && Text.Join(parts, ": ") == parts[0] + ": " + parts[1];
    if |parts| != 2 then None
    else match Decimal.ParseInt(parts[1])
      case None => None
      case Some(v) => Some((parts[0], v))
  }

  /** The value a line assigns to counter `k`, if it assigns one. */
  function Assigns(line: string, k: Key): Option<int> {
    match ParseLine(line)
    case None => None
    case Some(kv) => if KeyOf(kv.0) == Some(k) then Some(kv.1) else None
  }

  /** The effect of one line: a malformed line or an unknown key changes
      nothing, a recognised key overwrites its counter. */
  function ApplyLine(p: ProcIO, line: string): (r: ProcIO)
    ensures forall k :: Get(r, k) == Assigns(line, k).GetOr(Get(p, k))
  {
    match ParseLine(line)
    case None => p
    case Some(kv) =>
      match KeyOf(kv.0)
      case None => p
      case Some(k) => Set(p, k, kv.1)
  }

  /** The counters after reading the lines in order, from all zeros. */
  function ParseLines(lines: seq<string>): ProcIO {
    if lines == [] then Zero else ApplyLine(ParseLines(lines[..|lines| - 1]), lines[|lines| - 1])
  }

  /** The value the last line assigning counter `k` gives it, if any line does. */
  function LastAssigned(lines: seq<string>, k: Key): Option<int> {
    if lines == [] then None
    else match Assigns(lines[|lines| - 1], k)
      case Some(v) => Some(v)
      case None => LastAssigned(lines[..|lines| - 1], k)
  }

  /** Each counter holds the value of the last line naming it, or 0 when no line does. */
  lemma {:induction false} ParseLinesLastWins(lines: seq<string>, k: Key)
    ensures Get(ParseLines(lines), k) == LastAssigned(lines, k).GetOr(0)
    decreases |lines|
  {
    if lines != [] {
      ParseLinesLastWins(lines[..|lines| - 1], k);
    }
  }

  /** The text of one line as the kernel writes it: name, ": ", value. */
  function FormatLine(name: string, v: int): string {
    name + ": " + Decimal.Itoa(v)
  }

  /** A line in the kernel's format reads back as its name and value, for
      every name that holds no ": " and every 64-bit value. */
  lemma ParseFormattedLine(name: string, v: int)
    requires !Text.Contains(name, ": ")
    requires Decimal.MinInt64 <= v <= Decimal.MaxInt64
    ensures ParseLine(FormatLine(name, v)) == Some((name, v))
  {
    var digits := Decimal.Itoa(v);
    var line := name + ": " + digits;
    forall j | 0 <= j < |name| ensures !Text.OccursAt(line, ": ", j) {
      if j + 2 <= |name| {
        assert line[j..j + 2] == name[j..j + 2];
        assert !Text.OccursAt(name, ": ", j);
      } else {
        assert line[j + 1] == ':';
        assert line[j..j + 2][1] == line[j + 1];
      }
    }
    Text.SplitAfter(name, ": ", digits);
    Decimal.ItoaShape(v);
    assert ':' !in digits by {
      forall i | 0 <= i < |digits| ensures digits[i] != ':' {
        if i > 0 { assert Decimal.IsDigit(digits[i]); }
      }
    }
    Text.NoSplitWithout(digits, ": ");
    Decimal.ParseIntItoa(v);
  }

  /** `ReadProcIO` over the lines of the file, as the scanner yields them;
      `source` is None when the file cannot be opened or the scanner fails,
      and then the result is nil (None). */
  method ReadProcIO(source: Option<seq<string>>) returns (r: Option<ProcIO>)
    ensures source.None? ==> r == None
    ensures source.Some? ==> r == Some(ParseLines(source.value))
  {
    if source.None? {
      return None;
    }
    var lines := source.value;
    var result := Zero;
    var i := 0;
    while i < |lines|
      invariant 0 <= i <= |lines|
      invariant result == ParseLines(lines[..i])
    {
      var line := lines[i];
      assert lines[..i + 1][..i] == lines[..i];
      var parts := Text.Split(line, ": ");
      if |parts| == 2 {
        var value := Decimal.ParseInt(parts[1]);
        if value.Some? {
          var v := value.value;
          var name := parts[0];
          if name == "rchar" {
            result := result.(rchar := v);
          } else if name == "wchar" {
            result := result.(wchar := v);
          } else if name == "syscr" {
            result := result.(syscr := v);
          } else if name == "syscw" {
            result := result.(syscw := v);
          } else if name == "read_bytes" {
            result := result.(readBytes := v);
          } else if name == "write_bytes" {
            result := result.(writeBytes := v);
          } else if name == "cancelled_write_bytes" {
            result := result.(cancelledWriteBytes := v);
          }
        }
      }
      i := i + 1;
    }
    assert lines[..i] == lines;
    return Some(result);
  }

  /** What one `readProcessStats` appends: the counters, or nil when the read failed. */
  function Sample(source: Option<seq<string>>): Option<ProcIO> {
    match source
    case None => None
    case Some(lines) => Some(ParseLines(lines))
  }

  function Samples(sources: seq<Option<seq<string>>>): (r: seq<Option<ProcIO>>)
    ensures |r| == |sources|
  {
    if sources == [] then [] else Samples(sources[..|sources| - 1]) + [Sample(sources[|sources| - 1])]
  }

  const Header: seq<string> := ["Rchar", "Wchar", "Syscr", "Syscw", "ReadBytes", "WriteBytes"]

  /** The record of one sample; the cancelled-write counter is not written. */
  function Row(p: ProcIO): seq<string> {
    [Decimal.Itoa(p.rchar), Decimal.Itoa(p.wchar), Decimal.Itoa(p.syscr),
     Decimal.Itoa(p.syscw), Decimal.Itoa(p.readBytes), Decimal.Itoa(p.writeBytes)]
  }

  /** The cancelled-write counter never reaches the output. */
  lemma RowIgnoresCancelledWrites(p: ProcIO, v: int)
    ensures Row(p.(cancelledWriteBytes := v)) == Row(p)
  {
  }

  predicate AllRead(samples: seq<Option<ProcIO>>) {
    forall i :: 0 <= i < |samples| ==> samples[i].Some?
  }

  function Rows(samples: seq<Option<ProcIO>>): seq<seq<string>>
    requires AllRead(samples)
  {
    seq(|samples|, i requires 0 <= i < |samples| => Row(samples[i].value))
  }

  /** Appending the record of sample `i` to the table of the samples before it. */
  lemma TableStep(samples: seq<Option<ProcIO>>, i: nat)
    requires i < |samples| && AllRead(samples[..i]) && samples[i].Some?
    ensures AllRead(samples[..i + 1])
    ensures Csv.Table(Header, Rows(samples[..i + 1]))
         == Csv.Table(Header, Rows(samples[..i])) + Csv.Record(Row(samples[i].value))
  {
    RowsSnoc(samples, i);
    var rows, row := Rows(samples[..i]), Row(samples[i].value);
    Csv.RecordsSnoc(rows, row);
    assert Csv.Records(Rows(samples[..i + 1])) == Csv.Records(rows) + Csv.Record(row);
  }

  lemma RowsSnoc(samples: seq<Option<ProcIO>>, i: nat)
    requires i < |samples| && AllRead(samples[..i]) && samples[i].Some?
    ensures AllRead(samples[..i + 1])
    ensures Rows(samples[..i + 1]) == Rows(samples[..i]) + [Row(samples[i].value)]
  {
    assert forall j :: 0 <= j < i ==> samples[..i + 1][j] == samples[..i][j];
  }

  /** The outcome of a call that dereferences the samples: a value, or the
      panic a nil sample causes. */
  datatype Outcome<T> = Returned(value: T) | NilDereferencePanic

  /** `procIOToCSV`: the header and one record per sample, in order; a nil
      sample is dereferenced and panics. */
  method ProcIOToCsv(samples: seq<Option<ProcIO>>) returns (r: Outcome<string>)
    ensures AllRead(samples) ==> r == Returned(Csv.Table(Header, Rows(samples)))
    ensures !AllRead(samples) ==> r == NilDereferencePanic
  {
    var buf := Csv.Record(Header);
    var i := 0;
    while i < |samples|
      invariant 0 <= i <= |samples|
      invariant AllRead(samples[..i])
      invariant buf == Csv.Table(Header, Rows(samples[..i]))
    {
      var sample := samples[i];
      if sample.None? {
        return NilDereferencePanic;
      }
      TableStep(samples, i);
      buf := buf + Csv.Record(Row(sample.value));
      Csv.RecordsSnoc(Rows(samples[..i]), Row(sample.value));
      i := i + 1;
    }
    assert samples[..i] == samples;
    return Returned(buf);
  }

  class StorageTracer {
    var pioMetrics: seq<Option<ProcIO>>
    const resolution: nat := 100
    var opCounter: nat

    /** `newStorageTracer`. */
    constructor ()
      ensures pioMetrics == [] && opCounter == 0
    {
      pioMetrics, opCounter := [], 0;
    }

    /** `readProcessStats`: appends one sample per call, nil when the read
        failed, because the error is discarded. */
    method ReadProcessStats(source: Option<seq<string>>)
      modifies this
      ensures pioMetrics == old(pioMetrics) + [Sample(source)]
      ensures opCounter == old(opCounter)
    {
      var metrics := ReadProcIO(source);
      pioMetrics := pioMetrics + [metrics];
    }

    /** `CaptureStart`: one sample, always. */
    method CaptureStart(source: Option<seq<string>>)
      modifies this
      ensures pioMetrics == old(pioMetrics) + [Sample(source)]
      ensures opCounter == old(opCounter)
    {
      ReadProcessStats(source);
    }

    /** `CaptureEnd`: one sample, always. */
    method CaptureEnd(source: Option<seq<string>>)
      modifies this
      ensures pioMetrics == old(pioMetrics) + [Sample(source)]
      ensures opCounter == old(opCounter)
    {
      ReadProcessStats(source);
    }

    /** `CaptureState`: a sample when the counter, before it is incremented,
        is a multiple of the resolution; the counter always grows by one.
        `source` is what the file would yield if it were read now. */
    method CaptureState(source: Option<seq<string>>)
      modifies this
      ensures pioMetrics == old(pioMetrics) + (if Gate.ShouldSample(old(opCounter), resolution) then [Sample(source)] else [])
      ensures opCounter == old(opCounter) + 1
    {
      if opCounter % resolution == 0 {
        ReadProcessStats(source);
      }
      opCounter := opCounter + 1;
    }

    /** `GetResult`: the table in a JSON string; a nil sample makes it panic. */
    method GetResult() returns (r: Outcome<Json>)
      ensures AllRead(pioMetrics) ==> r == Returned(JsonString(Csv.Table(Header, Rows(pioMetrics))))
      ensures !AllRead(pioMetrics) ==> r == NilDereferencePanic
    {
      var csv := ProcIOToCsv(pioMetrics);
      match csv
      case NilDereferencePanic => r := NilDereferencePanic;
      case Returned(text) => r := Returned(JsonString(text));
    }
  }

  /** A call traced by a new tracer: the start sample, the samples of the
      boundaries numbered 0, 100, 200, ..., and the end sample -- so
      2 + ceil(n / 100) samples for n boundaries. */
  method TraceCall(startSource: Option<seq<string>>, stateSources: seq<Option<seq<string>>>,
                   endSource: Option<seq<string>>)
    returns (samples: seq<Option<ProcIO>>)
    ensures samples == [Sample(startSource)] + Samples(Gate.Sampled(stateSources, 0, 100)) + [Sample(endSource)]
    ensures |samples| == 2 + (|stateSources| + 99) / 100
  {
    var t := new StorageTracer();
    t.CaptureStart(startSource);
    var i := 0;
    while i < |stateSources|
      invariant 0 <= i <= |stateSources|
      invariant t.opCounter == i
      invariant t.pioMetrics == [Sample(startSource)] + Samples(Gate.Sampled(stateSources[..i], 0, 100))
    {
      t.CaptureState(stateSources[i]);
      assert stateSources[..i + 1][..i] == stateSources[..i];
      ghost var before := Gate.Sampled(stateSources[..i], 0, 100);
      if Gate.ShouldSample(i, 100) {
        assert Samples(before + [stateSources[i]]) == Samples(before) + [Sample(stateSources[i])] by {
          assert (before + [stateSources[i]])[..|before|] == before;
        }
      } else {
        assert Gate.Sampled(stateSources[..i + 1], 0, 100) == before;
      }
      i := i + 1;
    }
    assert stateSources[..i] == stateSources;
    t.CaptureEnd(endSource);
    samples := t.pioMetrics;
    Gate.SampledCount(stateSources, 100);
  }
}
