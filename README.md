# Native EVM performance tracers, modelled in Dafny

This project models six Go files from `eth/tracers/native` of a
go-ethereum fork. Together they implement experimental tracers that
measure how an EVM transaction uses the host machine. Each tracer is a
Go object with callbacks (`CaptureStart`, `CaptureState` at every
instruction boundary, `CaptureEnd`, `CaptureTxEnd`). These callbacks append
to lists or files. `GetResult` then turns what was collected into a CSV
table and returns it as a JSON string.

- `cycleTracer` records the opcode, a CPU-cycle count and a gas cost for
  each instruction (`Cycles`).
- `timingTracer` does the same with elapsed nanoseconds instead of cycles.
  Its costs come from the first-write-wins opcode table `OpcodeCosts`
  (`Timing`, `OpcodeCost`).
- The gas window is shared by those two tracers. `remainingGas == 0` means
  "no reading yet" (`CostWindow`).
- `storageTracer` samples the counters of `/proc/<pid>/io`. It samples once
  at the start, once at the end, and at every 100th boundary (`Storage`,
  with the sampling gate in `Gate`).
- `memoryTracer` appends Go runtime heap and stack figures in megabytes to
  the file `memoryStats.csv`, with the same sampling. It returns the
  file's text and deletes the file (`Memory`).
- `memoryTransactionTracer` keeps six lists of the same figures, filled at
  the start and at the end only (`MemoryTransaction`).

Supporting modules model the library behaviour the tracers depend on:

- `Text`: `strings.Split`
- `Decimal`: `strconv.Itoa` and `strconv.ParseInt(s, 10, 64)`
- `Csv`: the `encoding/csv` writer, including its quoting rule, plus a
  reader for unquoted tables as its inverse
- `Json`: a string marshalled by `encoding/json`, kept opaque

The tracers with state are Dafny classes. Their fields are the Go fields,
and their methods carry `modifies` clauses and postconditions that fix the
new state. In `MemoryTransaction` the six lists are fixed by the invariant
`Valid` and the ghost list of readings, so its callbacks state those two and
the stored reading.
Each loop in the source is a loop with invariants. Each loop is proved
against a specification function, and the properties are lemmas about
those functions.

Some of the code's behaviour is easy to miss:

- `GetResult` of the memory tracer is one-shot. It deletes the file, so a
  second call returns the JSON empty string.
- A failed read of `/proc/<pid>/io` does not skip a sample. It appends a
  nil entry, and the CSV serialiser then dereferences that entry and panics.
- The cycle and timing tracers ignore `CaptureStart`'s gas. The first
  boundary only stores its gas; the first cost is recorded at the second.
- For the cycle tracer, the costs of a transaction whose gas readings are
  never 0 add up to the first boundary's gas minus `restGas`.
- A gas reading of 0 looks like the "unset" value. The boundary after it
  records no cost, so the cost list comes out one short. A transaction with
  no boundary still gets one cost from `CaptureTxEnd`. In both cases the
  lists are misaligned, and the result is the JSON empty string with a nil
  error.
- The cycle or time reading stored at boundary i is taken when the counter
  is stopped there. The counter was restarted at boundary i - 1, or at
  `CaptureStart` for i = 0, so the reading covers the instruction before
  boundary i. The gas cost in record i is the gas instruction i consumed.
- The timing tracer's cost is not a gas delta: that line is commented out.
  Only boundaries that find a stored gas (not the first boundary, and not
  one right after a 0 reading) pass their `cost` argument to the opcode
  table. Each such boundary records the cost the table holds for its
  opcode, which is the argument from the first charging boundary with that
  opcode. For example, opcodes [ADD, MUL, ADD] with arguments [3, 5, 8]
  give record 0 the cost 5 and record 1 the cost 8. The `!exists` fallback
  to cost 1 can never run, because `AddAndGetCost` always finds the opcode
  it has just added.

## Model

| member | source | states |
|---|---|---|
| Text.IndexOf | eth/tracers/native/storage.go:86 | the first position where the separator occurs; None exactly when it occurs nowhere |
| Text.Split | eth/tracers/native/storage.go:86 | `strings.Split` always returns at least one part |
| Text.JoinSplit | eth/tracers/native/storage.go:86 | joining the parts with the separator gives back the original line |
| Text.SplitPartsExcludeSep | eth/tracers/native/storage.go:86 | no part contains the separator |
| Text.SplitJoin | eth/tracers/native/cycles.go:161-166 | splitting a comma-joined record whose fields hold no comma gives back the fields |
| Text.SplitAfter | eth/tracers/native/storage.go:86 | a line cuts at the first occurrence of the separator |
| Decimal.Itoa | eth/tracers/native/cycles.go:163 | (definition) `strconv.Itoa`, also `strconv.FormatInt(x, 10)`: a '-' for negatives, then the digits; `ParseIntItoa` states its inverse |
| Decimal.NatToDecimal | eth/tracers/native/cycles.go:163 | the decimal digits of a natural number are non-empty digits, with more than one digit exactly from 10 up |
| Decimal.ParseInt | eth/tracers/native/storage.go:91 | `ParseInt(s, 10, 64)` succeeds only with a value in the signed 64-bit range |
| Decimal.ParseIntItoa | eth/tracers/native/storage.go:91 | every 64-bit integer that `Itoa` prints parses back to itself |
| Decimal.ItoaShape | eth/tracers/native/cycles.go:163 | `Itoa` prints a sign or digit and then only digits |
| Csv.NeedsQuotes | eth/tracers/native/cycles.go:166 | (definition) the writer's quoting test: a comma, quote, CR or LF, the field `\.`, or a leading space character |
| Csv.Record | eth/tracers/native/cycles.go:166 | (definition) one `Writer.Write`: the encoded fields joined by commas, then "\n"; `ParseRecord` states its inverse |
| Csv.EncodeFields | eth/tracers/native/cycles.go:166 | each field is encoded by the writer's quoting rule, in order |
| Csv.ItoaPlain | eth/tracers/native/cycles.go:163-164 | a printed integer is never quoted by the CSV writer |
| Csv.PlainFieldsEncodeToThemselves | eth/tracers/native/cycles.go:166 | fields that need no quoting are written verbatim |
| Csv.ParseRecord | eth/tracers/native/cycles.go:166 | one written record of plain fields reads back as those fields |
| Csv.ParseRecordsRoundTrip | eth/tracers/native/cycles.go:160-170 | reading back the written records gives the rows that were written |
| Csv.TableRoundTrip | eth/tracers/native/cycles.go:143-182 | a header plus records reads back as the header followed by the rows |
| Gate.SampledCount | eth/tracers/native/storage.go:132-138 | gating n boundaries on `opCounter % resolution == 0` keeps ceil(n / resolution) of them |
| Gate.SampledAt | eth/tracers/native/storage.go:132-138 | the j-th kept boundary is boundary j * resolution |
| CostWindow.DeltasAt | eth/tracers/native/cycles.go:85-86 | the i-th delta is reading i minus reading i + 1 |
| CostWindow.RunObserves | eth/tracers/native/cycles.go:82-88 | after boundaries with non-zero gas, the costs are the successive gas drops and the stored gas is the last reading |
| CostWindow.SumDeltas | eth/tracers/native/cycles.go:85-86 | the gas drops telescope to first reading minus last reading |
| CostWindow.Transaction | eth/tracers/native/cycles.go:120-121 | a transaction of n boundaries records n costs summing to first reading minus restGas |
| CostWindow.Step | eth/tracers/native/cycles.go:82-88 | (definition) a boundary stores its gas, recording the drop from the stored gas when that is not 0; `CaptureTxEnd` records the drop to restGas (cycles.go:121, timing.go:106) |
| CostWindow.ZeroReadingDropsCost | eth/tracers/native/cycles.go:82-88 | after any calls, a boundary reading 0 records the whole stored gas (if any), and the next boundary records nothing and stores its own gas |
| CostWindow.ObservesCount | eth/tracers/native/cycles.go:82-88 | over any readings, there is one cost per reading other than the last that is not 0, and the stored gas is the last reading |
| CostWindow.TxCount | eth/tracers/native/cycles.go:120-121 | `CaptureTxEnd` adds exactly one cost to those of the boundaries |
| CostWindow.TxCosts | eth/tracers/native/cycles.go:82-121 | there is one cost per boundary iff there is a boundary and no reading but the last is 0; otherwise there are fewer costs than boundaries, or no boundary |
| CostWindow.FlushWithoutObserve | eth/tracers/native/cycles.go:120-121 | `CaptureTxEnd` with no boundary records the single cost -restGas |
| OpcodeCost.Added | eth/tracers/native/opcodeCost.go:16-24 | a present opcode keeps its cost, a new one gets the given cost, and no other entry changes |
| OpcodeCost.AddedTwice | eth/tracers/native/opcodeCost.go:16-24 | adding the same opcode again is idempotent |
| OpcodeCost.AddAllFirstWins | eth/tracers/native/opcodeCost.go:16-24 | after a series of adds an opcode is present iff some add named it, and its cost is that of the first such add |
| OpcodeCost.OpcodeCosts.constructor | eth/tracers/native/opcodeCost.go:11-13 | a new table is empty |
| OpcodeCost.OpcodeCosts.AddOpcode | eth/tracers/native/opcodeCost.go:16-24 | the table becomes `Added(old table, op, cost)` |
| OpcodeCost.OpcodeCosts.GetCost | eth/tracers/native/opcodeCost.go:27-30 | it finds a cost iff the opcode is present; otherwise it returns 0 |
| OpcodeCost.OpcodeCosts.AddAndGetCost | eth/tracers/native/opcodeCost.go:32-35 | it always reports found, and returns the old cost of a present opcode or else the new one |
| Cycles.CyclesToCsv | eth/tracers/native/cycles.go:143-182 | an error and "" iff the three lists differ in length; otherwise the header and one record per instruction, in order |
| Cycles.TableReadsBack | eth/tracers/native/cycles.go:154-169 | with unquoted mnemonics the table reads back as its rows, and the cycle and cost fields parse back to the numbers |
| Cycles.CycleTracer.constructor | eth/tracers/native/cycles.go:51-61 | empty lists and the unset gas 0 |
| Cycles.CycleTracer.CaptureState | eth/tracers/native/cycles.go:74-93 | appends the opcode and cycle count; stores the gas, or records the gas drop when a previous reading exists |
| Cycles.CycleTracer.CaptureTxEnd | eth/tracers/native/cycles.go:120-123 | records the drop from the stored gas to restGas and changes nothing else |
| Cycles.CycleTracer.GetResult | eth/tracers/native/cycles.go:126-137 | the table as a JSON string when the lists are aligned, otherwise the JSON empty string; the error is always nil |
| Cycles.Row | eth/tracers/native/cycles.go:161-165 | (definition) the mnemonic, then the cycle reading and the cost in decimal |
| Cycles.TraceTransaction | eth/tracers/native/cycles.go:74-137 | with n > 0 boundaries reading non-zero gas, record i holds the opcode of boundary i, the cycle reading taken at boundary i (covering the instruction before it), and the gas instruction i consumed, the last one down to restGas |
| Cycles.TraceAnyTransaction | eth/tracers/native/cycles.go:74-137 | with any readings, the result is the table over `TxCosts` when the transaction is unbroken, and the JSON empty string otherwise |
| Cycles.TraceEmptyTransaction | eth/tracers/native/cycles.go:120-137 | with no boundary, the result is the JSON empty string |
| Timing.TimingDataToCsv | eth/tracers/native/timing.go:125-164 | an error and "" iff the lists differ in length; otherwise the header and one record per instruction |
| Timing.FirstCostPairs | eth/tracers/native/timing.go:75 | the table's cost for an opcode is the cost passed at that opcode's first occurrence |
| Timing.ChargeStep | eth/tracers/native/timing.go:75-80 | charging a boundary returns the first-seen cost of its opcode |
| Timing.FirstBoundaryNotCharged | eth/tracers/native/timing.go:71-80 | opcodes ADD, MUL, ADD with cost arguments 3, 5, 8 record the costs 5 and 8: the first boundary's argument is never stored |
| Timing.TimingTracer.constructor | eth/tracers/native/timing.go:47-56 | empty lists, gas 0 and a fresh empty opcode table |
| Timing.TimingTracer.CaptureState | eth/tracers/native/timing.go:69-87 | appends the opcode and elapsed time; after the first boundary it records the opcode's first-seen cost |
| Timing.TimingTracer.CaptureTxEnd | eth/tracers/native/timing.go:105-107 | records the drop from the stored gas to restGas |
| Timing.TimingTracer.GetResult | eth/tracers/native/timing.go:109-119 | the table as a JSON string when aligned, else the JSON empty string; the error is always nil |
| Timing.CaptureRest | eth/tracers/native/timing.go:69-87 | after boundaries 1..n-1 the cost list is the first-seen costs of those boundaries |
| Timing.Row | eth/tracers/native/timing.go:143-147 | (definition) the mnemonic, then the elapsed time and the cost in decimal |
| Timing.TraceTransaction | eth/tracers/native/timing.go:69-119 | with n > 0 boundaries reading non-zero gas, record i holds the opcode of boundary i and the time taken at boundary i (covering the instruction before it); record i < n - 1 holds the first-seen cost of boundary i + 1's opcode over boundaries 1..i + 1, and the last record the final gas drop |
| Storage.ParseLine | eth/tracers/native/storage.go:86-94 | a parsed line is its name, ": ", and a text that parses to its value, and the name holds no ": " |
| Storage.KeyOf | eth/tracers/native/storage.go:96-111 | a name is recognised iff it is the kernel's name of a counter, and then as that counter |
| Storage.Set | eth/tracers/native/storage.go:96-111 | assigning one counter leaves the other six unchanged |
| Storage.ApplyLine | eth/tracers/native/storage.go:85-111 | a malformed line or an unknown key changes nothing; a recognised key overwrites its counter |
| Storage.ParseLinesLastWins | eth/tracers/native/storage.go:84-112 | each counter holds the value of the last line naming it, or 0 when no line does |
| Storage.ParseFormattedLine | eth/tracers/native/storage.go:86-94 | a line `name: value` in the kernel's format reads back as its name and its 64-bit value |
| Storage.ReadProcIO | eth/tracers/native/storage.go:75-120 | nil when the file cannot be opened or scanned; otherwise the counters folded over its lines |
| Storage.Row | eth/tracers/native/storage.go:188-195 | (definition) the six written counters in decimal, in the header's order |
| Storage.RowIgnoresCancelledWrites | eth/tracers/native/storage.go:188-195 | the cancelled-write counter never reaches the CSV |
| Storage.ProcIOToCsv | eth/tracers/native/storage.go:174-211 | the header and one record per sample, or a panic when any sample is nil |
| Storage.StorageTracer.constructor | eth/tracers/native/storage.go:47-53 | no samples and counter 0, with resolution 100 |
| Storage.StorageTracer.ReadProcessStats | eth/tracers/native/storage.go:65-73 | exactly one sample is appended, nil on failure |
| Storage.StorageTracer.CaptureStart | eth/tracers/native/storage.go:122-125 | one sample, always |
| Storage.StorageTracer.CaptureEnd | eth/tracers/native/storage.go:127-130 | one sample, always |
| Storage.StorageTracer.CaptureState | eth/tracers/native/storage.go:132-138 | a sample iff the counter before the increment is a multiple of 100; the counter grows by one |
| Storage.StorageTracer.GetResult | eth/tracers/native/storage.go:157-168 | the table as a JSON string, or a panic when a sample is nil |
| Storage.TraceCall | eth/tracers/native/storage.go:122-138 | a call with n boundaries yields the start sample, the samples of boundaries 0, 100, ..., and the end sample: 2 + ceil(n/100) samples |
| Memory.GoDiv | eth/tracers/native/memory.go:126 | (definition) Go's `/` on `int`, truncating toward zero |
| Memory.ToInt | eth/tracers/native/memory.go:96 | `int(uint64)` is the signed value congruent modulo 2^64 within the int64 range |
| Memory.GoDivRemainder | eth/tracers/native/memory.go:126 | Go's `/` leaves a remainder smaller than the divisor, with the sign of the dividend |
| Memory.NestedDiv | eth/tracers/native/memory.go:125-127 | dividing by 1024 twice truncates like dividing once by 1048576 |
| Memory.BToMb | eth/tracers/native/memory.go:125-127 | `bToMb` is the truncating quotient by 1048576 |
| Memory.BToMbMonotone | eth/tracers/native/memory.go:126 | more bytes never give fewer megabytes |
| Memory.FigureToMb | eth/tracers/native/memory.go:96 | `bToMb(int(x))` always fits in 44 signed bits; a figure below 2^63 gives its non-negative floor in megabytes, and a larger one (read as negative) never gives a positive result |
| Memory.Megabytes | eth/tracers/native/memory.go:95-102 | six figures, each in range, and each the floor in megabytes of its field when that is below 2^63 |
| Memory.StatsTablePlain | eth/tracers/native/memory.go:95-103 | no header or record field the tracer writes needs quoting |
| Memory.StatsRowReadsBack | eth/tracers/native/memory.go:95-102 | each written field parses back to its megabyte figure |
| Memory.FileReadsBack | eth/tracers/native/memory.go:63-109 | the file's text reads back as the header and one record per reading |
| Memory.MemoryTracer.constructor | eth/tracers/native/memory.go:47-53 | counter 0, resolution 100, and the file as it exists beforehand |
| Memory.MemoryTracer.AddMemStatsToCsv | eth/tracers/native/memory.go:82-109 | one record is appended when the file exists; otherwise it fails and nothing changes |
| Memory.MemoryTracer.CaptureStart | eth/tracers/native/memory.go:56-80 | the file is created or truncated to the header record |
| Memory.MemoryTracer.CaptureEnd | eth/tracers/native/memory.go:150-155 | one record is appended, or fatal when there is no file |
| Memory.MemoryTracer.CaptureState | eth/tracers/native/memory.go:158-166 | a record on every 100th boundary, fatal when that record cannot be written; otherwise the counter grows by one |
| Memory.MemoryTracer.GetResult | eth/tracers/native/memory.go:189-199 | the file's text (or "" when there is none) as a JSON string, the file deleted, and the error nil |
| Memory.TraceCall | eth/tracers/native/memory.go:56-199 | a call yields the header, the records of boundaries 0, 100, ..., and the end record; a second GetResult yields "" |
| Memory.StateWithoutStart | eth/tracers/native/memory.go:86-89 | a sampled boundary before any `CaptureStart` finds no file and is fatal |
| MemoryTransaction.ListRow | eth/tracers/native/memoryTransaction.go:156-163 | (definition) the six list entries at one index, in decimal |
| MemoryTransaction.ListsToCsv | eth/tracers/native/memoryTransaction.go:142-181 | the header and one record per entry of the first list, or a panic when another list is shorter |
| MemoryTransaction.RowsOfReadings | eth/tracers/native/memoryTransaction.go:76-85 | lists built from readings give the same records as the file tracer writes for those readings |
| MemoryTransaction.MemoryTransactionTracer.constructor | eth/tracers/native/memoryTransaction.go:49-58 | six empty lists |
| MemoryTransaction.MemoryTransactionTracer.AddHeapProfile | eth/tracers/native/memoryTransaction.go:65-85 | each list gets its figure in megabytes, and the lists stay equally long |
| MemoryTransaction.MemoryTransactionTracer.CaptureStart | eth/tracers/native/memoryTransaction.go:61-63 | one reading is added and stored; the lists keep matching the readings |
| MemoryTransaction.MemoryTransactionTracer.CaptureEnd | eth/tracers/native/memoryTransaction.go:90-92 | one reading is added and stored; the lists keep matching the readings |
| MemoryTransaction.MemoryTransactionTracer.GetResult | eth/tracers/native/memoryTransaction.go:117-136 | an error iff the lengths differ; otherwise the table, which for a tracer that kept its invariant holds the records of its readings |
| MemoryTransaction.TraceCall | eth/tracers/native/memoryTransaction.go:61-92 | a call yields a table of exactly two records, start and end |
| MemoryTransaction.TableReadsBack | eth/tracers/native/memoryTransaction.go:148-169 | the table reads back as the header and the records |

## Left out

- Hardware and OS readings become method parameters: `perf.StartCPUCycles`/`StopCPUCycles`, `time.Now`/`time.Since`, `runtime.ReadMemStats`, `os.Getpid`, and the lines `/proc/<pid>/io` yields (None for an open or scan failure). The values they yield are not modelled.
- Cycles.CycleTracer.CaptureState: `startMeasuring`, the perf file descriptor and callback, and the printed `StopCPUCycles` error are not modelled, because they only affect the measured value, which is a parameter.
- The `cycleTracer.opcodeCosts` field is never used by the cycle tracer and is not modelled.
- `CaptureStart` of the cycle and timing tracers only restarts the measurement, so it has no state in the model.
- The empty callbacks (`CaptureFault`, `CaptureEnter`, `CaptureExit`, `CaptureTxStart`, `Stop`, and the empty `CaptureEnd`/`CaptureState`/`CaptureTxEnd` variants) change nothing and are not modelled.
- Tracer registration (`init`, `tracers.DefaultDirectory.Register`) and the `tracers.Context` argument are not modelled.
- `WriteToFile` in memory.go is never called by the tracers and is not modelled.
- The `json.RawMessage("{}")` branches of every `GetResult` are not modelled: `json.Marshal` of a Go string never fails. A JSON string is kept as its unescaped text.
- CSV writer I/O errors are not modelled, because writes go to an in-memory buffer or to a file that was just opened successfully. Memory.MemoryTracer.CaptureStart assumes `os.Create` succeeds.
- `log.Fatalf` ends the process. The memory tracer's methods return `fatal` instead. `Memory.TraceCall` never reaches that case, and `Memory.StateWithoutStart` shows a call that does.
- Memory.MemoryTracer.GetResult: the file is a single text value. Concurrent access and other writers are not modelled.
- Memory.MemoryTracer.GetResult: it assumes `os.Remove` succeeds once the file was read. When the removal fails, the source returns "" and keeps the file, and that path is not modelled.
- Cycles.CycleTracer.CaptureState: the `int(gas)` and `int(pv.Value)` conversions of `uint64` values are modelled as unbounded integers, because EVM gas fits easily in 63 bits. This also holds for the timing tracer and for `int(cost)`.
- The opcode mnemonic (`vm.OpCode.String`) is a function parameter. The round-trip lemmas require mnemonics that need no CSV quoting.
- Csv.ParseRecords reads back unquoted tables only, which is all the tracers ever write.
