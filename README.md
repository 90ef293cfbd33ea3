# file-combiner: collision-free flattening of a directory tree

The program moves every file found under a source tree into one flat
destination directory. When a name is already taken there, the file is
renamed `"{stem} ({i}){suffix}"` for the least counter `i >= 1` that is
free, with `stem` and `suffix` split the way Python's `pathlib` splits
them. The moves are submitted to a thread pool in batches. A dry run
still creates the destination directory (main.py:52 runs before the
dry-run branch at main.py:61); apart from that it only reports what it
would move. So even a dry run changes the file system: `Run` ends with
the destination present.

This project models that core in three modules:

- `Names` (names.dfy): a gathered file, the `pathlib` stem/suffix split,
  the decimal rendering of the counter and the candidate name built from
  these parts.
- `Resolver` (resolver.dfy): the resolver's specification `Resolved`
  and the destination directory as a class. `Destination.Resolve` is the
  probe loop of `move_file`, and `Destination.MoveFile` is the whole
  operation.
- `Batch` (batch.dfy): `Moves` specifies a run of moves done one at a
  time. The class `BatchRun` is the body of `main`: early exit, creating
  the destination, the dry-run report loop, batched submission with
  draining, and the final drain. `BatchRun.Run` ends in exactly the state
  `Moves` describes.

The destination directory is modelled as the finite set of entry names it
holds, together with a flag saying whether it exists; a directory that
does not exist holds no names. The file list produced by the tree walk is a parameter of `Run`.

## Model

| member | source | states |
|---|---|---|
| Names.Suffix | main.py:16 | the suffix is a tail of the name that starts with its last dot; it is empty exactly when the name ends in a dot or has no dot after its first character |
| Names.Stem | main.py:15 | stem followed by suffix gives back the whole name |
| Names.SplitExamples | main.py:15-16 | `.bashrc`, `notes.` and `README` have no suffix; `archive.tar.gz` splits into `archive.tar` and `.gz` |
| Names.Decimal | main.py:19 | the counter is written as a non-empty string of decimal digits with no leading zero |
| Names.DecimalRoundTrip | main.py:19 | reading the decimal string back gives the counter |
| Names.DecimalInjective | main.py:19 | two counters have the same decimal string exactly when they are equal |
| Names.CandidateInjective | main.py:19 | two candidates for one stem and suffix are equal exactly when their counters are equal |
| Names.CandidateIsNotName | main.py:19 | a candidate never equals the name it was built from, and is at least four characters longer |
| Resolver.ProbeExample | main.py:19 | `a.txt` with counter 1 gives `a (1).txt` |
| Resolver.ProbeImageSize | main.py:17-23 | the first k candidates are k different names |
| Resolver.FreeProbeExists | main.py:18-23 | one of the first \|existing\|+1 candidates is free, so the probe loop ends |
| Resolver.FirstFreeBelow | main.py:18-23 | below any free counter there is a least free counter |
| Resolver.FreeIndex | main.py:17-23 | the counter the loop stops at is the least free one, and at most \|existing\|+1 |
| Resolver.Resolved | main.py:11-23 | the chosen name is never already present |
| Resolver.ResolvedIsProbe | main.py:14-23 | a taken name resolves to the candidate at its least free counter |
| Resolver.ResolveExample | main.py:11-23 | with `a.txt` and `b.txt` present, `a.txt` resolves to `a (1).txt` |
| Resolver.ResolutionUnique | main.py:11-23 | exactly one name keeps a free base name or is the candidate at the least free counter, and it is `Resolved`; the choice depends only on the names present and the base name |
| Resolver.Destination.Resolve | main.py:11-23 | the probe loop returns `Resolved` of the current names: the base name when free, otherwise the candidate at the least free counter, which is at most \|names\|+1; the directory is not changed |
| Resolver.Destination.MoveFile | main.py:7-26 | given an existing destination directory, the directory gains exactly the resolved name, which was not present before, and nothing else changes |
| Batch.MovesSnoc | main.py:61-64 | one more file adds one move, resolved against every name present after the earlier moves |
| Batch.MovesShape | main.py:61-64 | every file is moved exactly once, in list order |
| Batch.MovesDistinct | main.py:11-25 | no two moves of a run land on the same name, and none lands on a name present before the run |
| Batch.NamesAfterSize | main.py:25 | the directory grows by exactly one name per file |
| Batch.MovesKeepFreeNames | main.py:11-14 | files whose names are all different and all free keep their own names |
| Batch.SameNameSeries | main.py:11-23 | N files with the same base name moved into an empty directory land as base, `stem (1)suffix`, ..., `stem (N-1)suffix` |
| Batch.SeriesStep | main.py:11-23 | one more file of that name continues the series |
| Batch.SeriesIsFirstFree | main.py:14-23 | after base and counters 1 to n-1 have landed, the base is taken and n is the least free counter |
| Batch.FirstTwo | main.py:11-14 | two differently named files moved into an empty directory keep their names |
| Batch.ClashAfterTwo | main.py:11-23 | a third file named like the first gets the name resolved against the first two |
| Batch.ExampleRun | main.py:11-23 | `a.txt`, `b.txt` and `sub/a.txt` become `a.txt`, `b.txt` and `a (1).txt` |
| Batch.BatchRun.Capacity | main.py:67 | the bound on pending jobs is max(batch size, 1): the batch size when it is at least 1, and 1 otherwise |
| Batch.BatchRun.RunJob | main.py:64 | running a job moves its file and records it as done; the directory again holds what `Moves` prescribes for the finished jobs |
| Batch.BatchRun.RunAll | main.py:68-69 | waiting for a list of jobs runs them all, in order |
| Batch.BatchRun.Drain | main.py:67-70 | after draining, every pending job has run in submission order and the batch is empty; submissions, reports and the peak are unchanged |
| Batch.BatchRun.Submit | main.py:64-70 | the file is submitted exactly once. If the batch then holds fewer than batch-size jobs, it just gains the file and nothing runs; otherwise every pending job and the new one run in order and the batch is empty. The recorded peak covers the new batch length, and the batch stays below capacity |
| Batch.BatchRun.Visit | main.py:60-70 | a dry run adds one report and changes nothing else; otherwise the file is submitted, and the batch grows by it or is drained exactly as in `Submit` |
| Batch.BatchRun.Process | main.py:58-74 | a dry run reports every file in order and moves nothing; otherwise every file is submitted and run once, in order, nothing is left pending, and the directory holds what `Moves` prescribes |
| Batch.BatchRun.Run | main.py:48-76 | a missing source changes nothing; otherwise the destination exists afterwards. A pool size below 1 raises right after the destination is created, with nothing reported or moved. A dry run leaves the names as they were and reports each file, in order. A real run moves every file once, in order, adds exactly \|files\| names, and all landed names are distinct and were free before; a destination that did not exist ends up holding exactly the moved files' names |

## Left out

- Concurrency: the thread pool, `as_completed` ordering and the race between checking a name and moving onto it are not modelled. Jobs run one at a time in submission order, when their batch is drained.
- Batch.BatchRun.Run: a pool size of 1 or more has no further effect, because workers are sequential in the model. A pool size below 1 makes `ThreadPoolExecutor` (main.py:58) raise `ValueError`; the model stops right after creating the destination and reports this as `raised`, without modelling the exception itself.
- Batch.BatchRun.Drain: an exception raised by a job (from `fut.result()`) is not modelled. Every move succeeds.
- Resolver.Destination.MoveFile: `shutil.move` is modelled only as adding the chosen name to the destination. Its copy-and-delete fallback across devices and the removal of the source are not modelled.
- Batch.BatchRun.Run: the model assumes the destination lies outside the source tree. When it lies inside and already holds files, the tree walk after `mkdir` (main.py:52, 55) gathers those files too and renames them in place, so the directory loses names; then `NamesAfterSize` and `Run`'s size clause do not describe the source.
- Resolver.Destination.MoveFile: `Path.exists()` is modelled as membership in the set of entry names. Symbolic links and case-insensitive file systems are not modelled.
- `gather_files` (main.py:28-33) is not modelled. The file list is a parameter, because `os.walk` order depends on the file system.
- `parse_args` and the `__main__` entry point are not modelled. They are argument parsing.
- Output: the "Source path does not exist", "Found N files" and "Done moving files." lines are not modelled. The dry-run lines are modelled as `Report` values.
- Batch.BatchRun.Run: `dest.mkdir(parents=True, exist_ok=True)` is modelled as the `present` flag of the destination. Parent directories are not modelled.
- Batch.BatchRun.Process: the pending list is also emptied after the final drain. The source leaves `futures` as it is, but nothing reads it afterwards.
- Names.Suffix: follows `pathlib` up to Python 3.13, where a trailing dot gives no suffix. Python 3.14 treats `"notes."` as having suffix `"."`.
