# reduce_sequences — a Dafny model of the job pipeline and FASTA writers

`reduceFasta` applies a reduction function to every sequence of a FASTA
file. It runs the reductions on a worker pool and writes the reduced
sequences back as FASTA. It can also keep, per sequence, a marshalled bit
vector that maps original positions to reduced ones. This project models
three pure pieces of that tool and proves their properties:

- **FASTA writers** (module `Fasta`). `WriteWrapped` writes `>name`, then the
  sequence cut into lines of at most `width` characters, each line ending in
  a newline. `WriteSeq` writes the sequence on one line. Both return the text
  they would write. Go strings are byte strings; each `char` here stands for
  one byte.
- **Job execution** (module `Reduce`). A job is `NoOffset(rec, reducer)` or
  `WithOffset(rec, reducerWithOffsets, marshal)`. The reduction functions and
  the bit-vector marshaller come from libraries outside the model, so they are
  function parameters, and the bit-vector type is the type parameter `BV`.
  Executing a job builds a new record. The offset variant returns the
  marshaller's error when marshalling fails.
- **Run driver** (module `Pipeline`). This is the required-argument check,
  then one job per input record, with the variant chosen once per run. Then
  comes the collector. Without `--preserve` it writes each result as it
  arrives. With `--preserve` it stores results in a name-keyed map and writes
  them in input order. With `--offsets` it keeps every result for the offset
  file. The worker pool is not modelled. With at least one thread, every job
  yields exactly one outcome on the result channel, so arrival order is an
  arbitrary permutation `order` of the job indices, passed as a parameter.

A worker discards the execution error and forwards a nil record. The
collector then reads that record's name, which is a nil dereference in Go.
`Run` models this as the outcome `Failure(NilResult)`. The text the run
writes to the output file is `Render` of the emitted entries: one wrapped
entry per write, in the collector's order.

## Model

| member | source | states |
|---|---|---|
| Fasta.WriteWrapped | fasta.go:76-89 | The loop (step `width`, end clamped to the length, one newline per slice) writes exactly the header followed by the sequence's chunks, each chunk followed by a newline; needs a positive width |
| Fasta.BodyFromIsJoinedChunks | fasta.go:80-87 | What the loop writes from any start index on is the rest of the sequence cut into width-sized lines |
| Fasta.ChunksFlatten | fasta.go:80-87 | Concatenating the body lines without their newlines gives back the input sequence |
| Fasta.ChunksLengths | fasta.go:80-85 | Every body line except the last has exactly `width` characters; the last has between 1 and `width` |
| Fasta.ChunksCover | fasta.go:80-85 | There are no lines exactly when the sequence is empty, and the lines cover the sequence with less than one full line to spare |
| Fasta.ChunksCount | fasta.go:80 | The number of body lines is ceil(len/width), so an empty sequence gives no body line |
| Fasta.WrappedShape | fasta.go:79-87 | The text starts with `>`, the name and a newline; it ends with a newline; its length is header + sequence + one newline per line; it is the header alone exactly when the sequence is empty |
| Fasta.WrappedLines | fasta.go:85-86 | For a sequence without newlines, cutting the body at its newlines gives exactly the chunks, so each line is followed by exactly one newline |
| Fasta.WrappedRoundTrip | fasta.go:76-89 | Reading the wrapped text back gives the name and the sequence, when neither contains a newline |
| Fasta.WriteSeq | fasta.go:65-74 | The single-line text is the header, then exactly the sequence, then one newline: three bytes longer than name plus sequence |
| Fasta.WriteSeqRoundTrip | fasta.go:65-74 | Reading the single-line text back gives the name and the sequence, when neither contains a newline |
| Fasta.WriteSeqAgreesWithWrapped | fasta.go:65-89 | A non-empty sequence no longer than `width` is written identically by both writers |
| Fasta.WriteSeqEmptyBody | fasta.go:65-89 | For an empty sequence the single-line writer emits one extra empty line that the wrapping writer does not |
| Reduce.Execute | reduce.go:24-46 | The result keeps the input's name. The no-offset variant never fails, leaves `offsets` absent and carries the reducer applied to the sequence. The offset variant fails exactly when marshalling fails, returning that error. On success it carries the first reducer component as sequence and the marshalled second component as `offsets` |
| Reduce.Worker | workerPool.go:12-15 | A worker forwards the executed record, or nil exactly when execution failed |
| Reduce.ExecuteBuildsNewRecord | reduce.go:25-45 | The result does not depend on any offsets the input record carries: both variants build a new record from the name and the sequence only |
| Reduce.VariantsAgree | reduce.go:24-46 | When the offset reducer's sequence is the plain reducer's and marshalling succeeds, the two variants give the same record apart from `offsets` |
| Pipeline.CheckArgs | main.go:34-60 | The arguments are accepted exactly when the reduction, sequences and output paths are all non-empty, and are then passed on unchanged |
| Pipeline.Dispatch | main.go:80-101 | One job per record, job i wraps record i, names[i] is record i's name; every job uses the offset variant exactly when offsets are requested, with that run's reducer and marshaller |
| Pipeline.PermuteMultiset | main.go:123 | Receiving the outcomes in any arrival order loses and duplicates nothing |
| Pipeline.Latest | main.go:128 | The map filled as results arrive holds exactly the names of the arrived results |
| Pipeline.LatestIsLastArrival | main.go:128 | The name-keyed map holds exactly the arrived names, each with the sequence of the last arriving result of that name |
| Pipeline.Collect | main.go:116-142 | Streaming mode emits the arrivals in arrival order. Preserve mode emits one entry per input name, in input order, with the last-arriving sequence for that name, and needs every name to have arrived. The offset list is every arrival in arrival order when offsets are requested, and empty otherwise |
| Pipeline.CollectResults | main.go:116-142 | The collector loop (one pass over arrivals, then a pass over the names in preserve mode) produces exactly what `Collect` describes |
| Pipeline.EmitInOrder | main.go:138-141 | The second pass writes one entry per input name, in input order, each with the sequence the map holds for that name |
| Pipeline.RenderAppend | main.go:125-126 | Writing the entries one at a time as they arrive gives the same file text as writing them all together |
| Pipeline.WriteEntries | main.go:123-141 | Writing the entries one wrapped entry per call, with `WriteWrapped` at width 80, leaves the file holding exactly `Render` of the whole list |
| Pipeline.Outcomes | workerPool.go:12-15 | The outcome a worker forwards for job i is nil exactly when job i is of the offset variant and its execution failed; a non-nil outcome carries job i's record name |
| Pipeline.ArrivalsCoverNames | main.go:138-141 | When every outcome arrived and none is nil, every input name is among the arrivals, so the preserve-mode map lookup never misses |
| Pipeline.Run | main.go:80-142 | A whole run: jobs built from the records, one worker outcome per job arriving in the order `order`, then the collector. It fails with `NilResult` only when offsets are requested, because only the offset variant can fail. On success it writes one entry per input record, and in preserve mode entry i carries input i's name. It keeps one offset record per input when offsets are requested, and none otherwise |
| Pipeline.RunFailsIffMarshalFails | reduce.go:34-39 | A run hits a nil result exactly when offsets are requested and some record's bit vector fails to marshal; a run without offsets never does |
| Pipeline.RunArrivals | main.go:116-133 | In a run without failures every bit vector was marshalled, the k-th arrival is the result for record `order[k]` (its name and reduced sequence; with offsets, exactly that record's marshalled result), every input name arrived, and the run's value is the collector applied to those arrivals |
| Pipeline.PreserveRestoresOrder | main.go:128-141 | When the k-th arrival is the result for input `order[k]` and input names are distinct, the preserving collector writes exactly the inputs' names with their reduced sequences, in input order |
| Pipeline.RunPreservesInputOrder | main.go:138-141 | With `--preserve` and distinct input names, the emitted entries are the input records' names with their reduced sequences, in input order, whatever the arrival order |
| Pipeline.PreservedOutputIgnoresArrivalOrder | main.go:138-141 | With `--preserve` and distinct names, two arrival orders give the same success and the same output |
| Pipeline.RunStreamsInArrivalOrder | main.go:123-126 | Without `--preserve`, the output is the reduced records in arrival order, so it holds every record exactly once |
| Pipeline.RunKeepsEveryOffsetRecord | main.go:131-133 | With offsets requested, the offset list holds every result exactly once in arrival order, in either mode, each with its marshalled bytes; without, it is empty |
| Pipeline.DuplicateNamesTakeLastArrival | main.go:128-141 | In a successful preserve-mode run, with or without repeated names, input i is written under its name with the reduced sequence of the record at the last position k of `order` whose record carries that name |
| Pipeline.PreserveTakesLastArrival | main.go:128-140 | For arrivals that match `order`, the preserving collector writes input i with the reduced sequence of the record at the last position of `order` carrying input i's name, even when names repeat |

## Left out

- The worker pool (workerPool.go): goroutines, bounded channels, the wait group and the close after join. Only its observable effect is kept. Every job's outcome arrives exactly once, in an order given as the parameter `order`.
- Reading the input: `getReader` and `parseFasta`, which open the file, detect the compression and parse FASTA through libraries outside this model. Input records are a parameter.
- `WriteFastaSeq`: a thin wrapper over a library FASTA writer.
- The reduction functions and the rank/select bit vector with its `MarshalBinary`. They come from libraries outside this model, so they are the uninterpreted parameters `reducer`, `reducerWithOffsets`, `marshal` and the type `BV`.
- The JSON encoding of the offset file, the progress bar, flag parsing (defaults and help text) and process exit. These are I/O. `Collect` returns the list of records handed to the JSON encoder.
- Pipeline.Run: when a nil result arrives, Go panics. Output already written in streaming mode stays in the file. The model returns `Failure(NilResult)` and does not keep that partial output.
- Pipeline.CheckArgs: the thread count is passed on unchecked, as the Go code does. The model covers a count of at least one thread. With a negative count, `New` panics when it makes a channel of negative size (workerPool.go:28), before the output file is created, in either mode. With 0 threads the pool starts no worker and closes the result channel at once (workerPool.go:36-42). No outcome arrives, so a streaming run writes an empty file and ends normally. A preserve run with at least one input record panics on the first map lookup (main.go:140); with no records it also ends normally. Neither case is modelled.
- Fasta.WriteWrapped: the width is a natural number with a positive-width precondition. The Go `int` can be zero or negative. For an empty sequence the loop at fasta.go:80 never runs, so any width writes the header alone. For a non-empty sequence, width 0 makes the loop run forever. A negative width makes `end` smaller than `i`, and the slice at fasta.go:85 panics. The tool only passes 80.
- `ParseEntry`, `SplitLines` and `IndexOf` read the written text back. They are not part of the tool; they are here as the inverse that the round-trip lemmas use.
