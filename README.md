# listen — a polling directory listener, modelled in Dafny

`listen` is a small Rust library (one file, `src/lib.rs`) that watches one
directory. It counts the entries of the directory that are not
directories, at depth 1. It then re-counts in a busy loop until the count
differs from the first count, and calls a user callback once. A `Listener`
carries the event it listens for (`OnFileChange`, `OnFileAdd` or
`OnFileRemove`), a `store_files` flag, and a `files` vector. When the flag is
set, every scan appends to `files` the path of each counted entry whose path
converts to a string.

The model is one module, `Listen`, in `listen.dfy`:

- **Filesystem abstraction.** A directory walk is a `seq<Entry>`. An `Entry` is
  either `Ok(isDir, path)` or `Err`. `isDir` is the answer of the directory
  test. It is false for an entry that vanished after it was listed, so the code
  counts such an entry as a file, and so does the model. `path` is `None` when
  the path is not valid UTF-8. The walk at depth 1 also yields the watched
  directory itself; a listing models it as an `Ok(true, …)` entry, and it is
  not counted. The successive listings the poll loop observes are a
  `seq<seq<Entry>>`, given separately from the baseline listing.
- **Specification functions.** `FileCount` is the number of counted entries.
  `StoredPaths` is the list of paths a storing scan records. `PollPaths` is the
  concatenation of those lists over several scans. `FirstChange` is the index
  of the first poll whose count differs from the baseline. `ScannedPolls` is
  the prefix of the polls the detector actually scans.
- **`Listener` class.** Its fields are `event`, `storeFiles` and `files`
  (`seq<string>`). `CountDirectoryFiles` and `FileChangeListener` are methods
  with loops, proved against the functions above. `Listen` dispatches on the
  event. The callback is recorded as a ghost log `calls` of the arguments it
  received. The `Outcome` says how the call ended: `Fired`, `StillWaiting` or
  `Unimplemented` (the panic of `unimplemented!()`).
- **Constructors.** The anonymous constructor is `Listener::new()`, which is
  `Listener::default()`. `Make` stands for a struct literal with any field
  values. The fields `event` and `store_files` are private and have no setter,
  so outside the crate every `Listener` is the default one; storing files and
  the `OnFileAdd`/`OnFileRemove` panics can only be reached from inside the
  crate.
- **Free functions.** `InternalListener` and `Listen` build a default listener
  and listen with it. They ignore the event they are given.

Behaviour of the code worth knowing, some of it at odds with the crate's own
doc comments:

- `files` is not a list of the files currently in the directory, as its doc
  comment says (src/lib.rs:48-49). The baseline scan and every poll scan
  append to it, and nothing clears it (`StoredPathsAccumulate` shows a
  directory with a and b, into which c is added, leaving
  `[a, b, a, b, a, b, c]` after one unchanged poll).
- `OnFileChange` is documented as triggered when a file is added or removed
  (src/lib.rs:18-19), but only a change in the count is seen: a file removed
  and another added between two polls goes unnoticed
  (`SwappedFileUndetected`).
- A directory that cannot be listed is not reported: the walker yields `Err`
  items, which are skipped, so the count is simply lower (possibly 0).
- An entry that disappears between being listed and being tested is counted,
  because the directory test answers false for it.

## Model

| member | source | states |
|---|---|---|
| `Listen.FileCount` | src/lib.rs:104-113 | the count of a listing is never more than its length |
| `Listen.StoredPaths` | src/lib.rs:111-124 | a storing scan records no more paths than it counts |
| `Listen.FileCountIsCountedPositions` | src/lib.rs:104-113 | the count equals the number of positions holding an `Ok` entry that is not a directory |
| `Listen.FileCountAppend` | src/lib.rs:106-132 | the count of two listings in a row is the sum of their counts |
| `Listen.StoredPathsAppend` | src/lib.rs:106-132 | the recorded paths of two listings in a row are the first's followed by the second's |
| `Listen.UncountedEntryIgnored` | src/lib.rs:107-131 | a directory entry or a walker error, anywhere in a listing, changes neither the count nor the recorded paths |
| `Listen.StoredPathsMembership` | src/lib.rs:115-124 | a string is recorded if and only if some non-directory `Ok` entry of the listing carries it |
| `Listen.StoredPathsMatchCount` | src/lib.rs:111-124 | when every counted entry's path converts to a string, the number of recorded paths equals the count |
| `Listen.Listener.CountDirectoryFiles` | src/lib.rs:104-134 | returns `FileCount` of the listing; with storing on, `files` becomes its old value followed by the listing's recorded paths; with storing off, `files` is unchanged |
| `Listen.FirstChange` | src/lib.rs:93-100 | the index it returns is a poll whose count differs from the baseline while all earlier polls equal it; when it returns none, every poll equals the baseline |
| `Listen.FirstChangeAt` | src/lib.rs:93-100 | a poll that differs after only equal ones is the first change, and the detector scans exactly up to it |
| `Listen.NoChangeIffSteadyCount` | src/lib.rs:93-100 | no change is detected if and only if every poll has the baseline count |
| `Listen.FirstChangeStep` | src/lib.rs:93-100 | while no change has been seen, one more poll reports a change exactly when its count differs |
| `Listen.FirstChangeExtends` | src/lib.rs:93-102 | once a change is found among the first polls, later polls do not alter the result |
| `Listen.DetectorStopsAtFirstChange` | src/lib.rs:93-102 | when the loop stops, because of a change or because polls ran out, it returns true exactly when a change exists and has scanned exactly `ScannedPolls` |
| `Listen.PollPathsStep` | src/lib.rs:94 | scanning one more poll appends that poll's recorded paths |
| `Listen.Listener.FileChangeListener` | src/lib.rs:89-103 | returns true exactly when some poll's count differs from the baseline count; with storing on, `files` gains the baseline's paths and then those of every scanned poll, never cleared; with storing off, `files` is unchanged |
| `Listen.AddedFileDetected` | src/lib.rs:93-99 | adding one file, at any position of the walk, is detected by the next poll |
| `Listen.RemovedFileDetected` | src/lib.rs:93-99 | removing one file is detected by the next poll |
| `Listen.SwappedFileUndetected` | src/lib.rs:93-99 | removing one file and adding another between polls, each at any position of the walk, is never detected, however many polls observe it |
| `Listen.StoredPathsAccumulate` | src/lib.rs:91-94 | with storing on, a directory holding a and b into which c is added leaves `files` as `[a, b, a, b, a, b, c]` after one unchanged poll and the changed one |
| `Listen.Listener.constructor` | src/lib.rs:53-66 | a new (default) listener listens for `OnFileChange`, does not store files and has empty `files` |
| `Listen.Listener.Make` | src/lib.rs:42-51 | a listener built from its three fields holds exactly them |
| `Listen.Listener.Listen` | src/lib.rs:74-88 | for `OnFileChange`, fires exactly when the detector returns true and then logs exactly one callback call, with the original argument; for `OnFileAdd` and `OnFileRemove`, ends as `Unimplemented`, calls nothing and leaves `files` unchanged |
| `Listen.InternalListener` | src/lib.rs:137-140 | whatever the event argument, behaves as a default change listener: fires exactly when a change is detected, logging one call with the argument |
| `Listen.Listen` | src/lib.rs:37-39 | never ends as `Unimplemented`, whatever event it is given; fires exactly when a change is detected, logging one call with the argument |

## Left out

- Real filesystem access: the `WalkDir` traversal, the `is_dir()` test and the UTF-8 conversion `to_str`. Their results are the `Entry` values of a listing. The `path` argument is therefore not modelled; the listings stand for what walking it returns.
- The `println!` diagnostics on a failed path conversion and on a walker error. They are output only.
- Listen.Listener.FileChangeListener: the source loops forever while the count stays the same; the model runs over a finite sequence of polls and returns false (`StillWaiting` in `Listen`) when they run out. Nothing is claimed about what happens after the last supplied poll.
- The busy-wait timing and CPU use of the poll loop, and any notion of time between polls.
- The callback `func: fn(T) -> R`, its return value and any effect it has. Only the fact that it was called, and with which argument, is logged.
- The `i64` width of the count. The count never exceeds the listing's length, so it cannot overflow in practice, and the model uses an unbounded `nat`.
- Add and remove discrimination for `OnFileAdd` and `OnFileRemove`. The code has none; the model gives only the `Unimplemented` outcome, which stands for the panic.
