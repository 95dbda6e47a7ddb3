# smykostopka batch layer, modelled in Dafny

smykostopka stamps a footer caption onto every image in a directory. It writes each
annotated copy beside its original under the name `ze-stopka-__<original name>`. This
project models the program's decision layer in `src/main.rs` and proves properties of it.
The decision layer covers four things:

- **Naming.** The marker prefix, and the derivation of the output name from the source
  name. This is module `Naming`, in `naming.dfy`.
- **Filtering.** The chain of filters that turns the `read_dir` listing into the list of
  files to process. This is module `Filtering`, in `filtering.dfy`.
- **Per-file pipeline.** `add_footer_to_file` derives the output name and returns at once
  if that output already exists. Otherwise it reads the source, composes the footer and
  writes the result. This is module `Pipeline`, in `pipeline.dfy`. The file system is a
  class `FileSystem`: its field `dir` maps base file names to nodes, and each node says
  whether it is a regular file and holds its bytes. A ghost `log` records every read and
  every attempted write.
- **Batch driver.** `main` lists the directory once, filters the listing, runs the
  pipeline for every scheduled entry and reports each result. The run fails only when
  listing failed. This is module `Batch`, in `batch.dfy`.

`wrappers.dfy` holds the `Option` and `Result` datatypes.

The image transformation `add_footer` is a parameter of type `Compositor`, an
uninterpreted total function from bytes to `Result<Bytes, CodecError>`. The operating
system's answers are inputs:
- the listing `read_dir` returns, with its per-item failures and type probes;
- the set of names whose read fails;
- the set of names whose write fails.

Rayon's parallel `for_each` is modelled as a loop over the schedule, in schedule order.
`Batch.ResultsIndependentOfOrder` justifies this: when the scheduled names are distinct and
unmarked, each entry's result equals what it would get if it ran alone on the initial
directory, so no task observes another task's write. `Batch.FinalDirectoryIsUnionOfSoloRuns`
adds that the final directory is the initial one plus exactly the outputs the solo runs
create. Neither result mentions the order, so running the tasks in any order gives the same
reports and the same final directory.

## Model

| member | source | states |
|---|---|---|
| Naming.OutputName | src/main.rs:89 | the output name starts with the marker `ze-stopka-`, is longer than the source name by the marker and `__`, and ends with the source name |
| Naming.SourceName | src/main.rs:89 | inverse of the name derivation: a name that decodes starts with the marker and is longer than what it decodes to |
| Naming.SourceOfOutput | src/main.rs:89 | decoding the output name of `n` gives back exactly `n` |
| Naming.OutputOfSource | src/main.rs:89 | every name that decodes is the output name of what it decodes to |
| Naming.OutputNameInjective | src/main.rs:89 | distinct source names never share an output name |
| Naming.OutputIsNeverUnmarked | src/main.rs:133-139 | an output name differs from every name that lacks the marker, so it is never a schedulable source |
| Filtering.Schedule | src/main.rs:125-140 | an entry is scheduled iff its listing item is readable, its type probe succeeded and said regular file, and it has a name that does not start with the marker; the schedule is no longer than the listing |
| Filtering.ScheduleAppend | src/main.rs:125-140 | filtering is item by item: the schedule of a concatenated listing is the concatenation of the schedules, and a single item contributes its entry exactly when it is eligible, so the schedule keeps listing order and adds no repeats |
| Filtering.ScheduleDistinct | src/main.rs:125-140 | filtering a listing without repeated names yields a schedule without repeated names |
| Filtering.OutputsNeverScheduled | src/main.rs:133-139 | every scheduled entry is a named regular file, and no output name is ever scheduled, not even one written during the same run |
| Pipeline.ReadOutcome | src/main.rs:94 | a read succeeds exactly when a regular file is stored under the name and the system does not refuse it; success returns the stored bytes, failure is a `ReadError` for that name |
| Pipeline.WriteOutcome | src/main.rs:96 | a write fails exactly when the system refuses that name, with a `WriteError` for it |
| Pipeline.Process | src/main.rs:81-98 | a nameless entry is `MissingFileName` with no access. An existing output is returned with no read and no write. Otherwise the source is read first. A failed read is a `ReadError` for the source; a failed composition is a `ComposeError` for the source carrying the codec's error; after both succeed the output is always written, and the result is a `WriteError` for the output if the write is refused and the output name otherwise. A write is attempted only after a successful read and composition. A failure leaves the directory unchanged. Success returns the derived output name, and holds exactly when that name is present afterwards. The only change ever made adds the output, holding the composed source bytes. No existing name changes |
| Pipeline.ProcessOnLargerDirectory | src/main.rs:81-98 | running an entry on a directory that only adds names other than its source and output changes the same things: what it creates on the smaller directory it also creates on the larger, and the larger run adds nothing else |
| Pipeline.ProcessIsLocal | src/main.rs:81-98 | an entry's result and accesses depend only on its own source node, its output name's presence, and the faults and composition for those two names |
| Pipeline.FileSystem.Exists | src/main.rs:90 | reports whether anything is present under the name |
| Pipeline.FileSystem.Read | src/main.rs:94 | returns the read outcome and logs one read; the directory is unchanged |
| Pipeline.FileSystem.Write | src/main.rs:96 | on success stores a regular file with the given bytes under the name, on failure changes nothing; logs one write attempt |
| Pipeline.AddFooterToFile | src/main.rs:81-98 | the imperative pipeline returns the result of `Process`, and leaves exactly its directory and accesses |
| Batch.RunAll | src/main.rs:141-147 | a pass yields one report per scheduled entry, in schedule order, each naming its entry |
| Batch.RunKeepsExisting | src/main.rs:94-96 | nothing that existed before a run is changed or removed, so sources are never written |
| Batch.RunAddsOnlyOutputs | src/main.rs:89-96 | every name a run adds is the output name of a scheduled entry |
| Batch.RunSuccessesPresent | src/main.rs:90-97 | every reported success carries its entry's output name, which is present when the run ends |
| Batch.ProcessEach | src/main.rs:141-147 | the loop over the schedule leaves the reports, directory and accesses of `RunAll` |
| Batch.Run | src/main.rs:123-149 | the run succeeds iff listing succeeded. A failed listing is `DirectoryUnreadable` with nothing touched. Otherwise the schedule is fixed from the listing before any write, and every scheduled entry is processed and reported |
| Batch.WriteTargetsDisjoint | src/main.rs:141 | two distinct scheduled entries never share a write target, and no write target is a scheduled source |
| Batch.ResultsIndependentOfOrder | src/main.rs:141-147 | with distinct unmarked names, each entry's result equals its result when run alone on the initial directory |
| Batch.SoloRunsContained | src/main.rs:141-147 | with distinct unmarked names, the final directory of a run extends the directory each scheduled entry would leave running alone on the initial directory |
| Batch.OutputsAsInSoloRuns | src/main.rs:141-147 | with distinct unmarked names, a scheduled entry's output is present after the run exactly when it is present after that entry's solo run |
| Batch.FinalDirectoryIsUnionOfSoloRuns | src/main.rs:141-147 | with distinct unmarked names, the final directory keeps the initial one, contains every solo run's result, adds only outputs of scheduled entries, and has an entry's output exactly when its solo run does, so it does not depend on the order of the tasks |
| Batch.Isolation | src/main.rs:141-147 | an entry's reported result is unchanged by anything about other files: their bytes, presence or failures |
| Batch.OutputsHoldComposedSources | src/main.rs:94-96 | every file a run adds is a regular file holding the composition of its own source's bytes from before the run |
| Batch.NothingLeftToDo | src/main.rs:90-92 | a schedule whose outputs all exist performs no access, changes nothing, and reports each entry with its existing output name |
| Batch.CompletedSourceHasOutput | src/main.rs:90-92 | after an all-successful run over a complete listing, every unmarked regular file has its output present |
| Batch.SecondRunIsNoOp | src/main.rs:125-147 | after a run over a complete listing in which every file succeeded, a second run over the result from any faithful listing, under any faults, reads nothing, writes nothing, changes nothing and reports every file as already present |

## Left out

- Image format detection, decoding and re-encoding (`image::guess_format`, `image::load`, `write_to`) are not modelled: they are library calls. `add_footer` is the uninterpreted `Compositor` parameter, and its three failure stages are the `CodecError` cases.
- Footer geometry is not modelled. It is `f32` arithmetic with truncating `as i32` casts; the margin is truncated toward zero, not rounded.
- Glyph rasterization and the embedded, lazily loaded font are not modelled: they are foreign rendering calls.
- The footer text and its wall-clock date are not modelled. `add_footer` reads the clock itself, so the date is hidden inside the `Compositor` parameter.
- Batch.OutputsHoldComposedSources: one `Compositor` serves a whole run, so the model fixes one footer date per run. The source reads the clock once per file (src/main.rs:59), so a run that crosses midnight may stamp different dates on different files; the property holds only for runs under a single date.
- Command-line parsing, the fallback to the executable's directory, and logger setup are not modelled. `Run` receives the result of `read_dir` as its `listing` parameter.
- The text of log lines and of error contexts is not modelled; each report carries the entry and a structured result.
- Non-UTF-8 names and `to_string_lossy` are not modelled: names are plain strings, and the model's names are the decoded ones.
- Naming.OutputNameInjective, Batch.WriteTargetsDisjoint, Batch.ResultsIndependentOfOrder and Batch.FinalDirectoryIsUnionOfSoloRuns carry over to the program only for names that are valid UTF-8. `to_string_lossy` (src/main.rs:86) replaces invalid bytes with U+FFFD, so two distinct names such as `a\xFF` and `a\xFE` give the same output path; both tasks then write it, one copy is lost, and both may report success.
- Parallelism is a sequential loop. `Batch.ResultsIndependentOfOrder` and `Batch.FinalDirectoryIsUnionOfSoloRuns` show that the order cannot change any result or the final directory when the decoded names are distinct. The model does not capture what real concurrent writes would do when two decoded names coincide.
- Pipeline.FileSystem.Write: a failed write creates nothing. A real `fs::write` that fails part-way can leave a truncated output file, which a later run would then treat as already present.
- Pipeline.FileSystem.Exists: `Path::exists` answers false when the check itself fails, for example on a permission error, or for a dangling link. The model answers from the directory map only.
- Reads succeed only on regular files; reads through links are not modelled.
