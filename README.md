# Duplicate-file scanner, modelled in Dafny

`main.go` walks a directory tree and computes the SHA-256 of every regular
file. It keeps a table `file_hashes` that maps each fingerprint to the
first path seen with it. Every later file with the same fingerprint is
removed and replaced by a symbolic link to that canonical path.

The Go program runs three stages at once, joined by goroutines and
channels. This model runs the same stages one after another:

- **Traversal** (`traversal.dfy`, module `Traversal`). `processDirectory`
  is a recursive method over a tree datatype. The tree holds what
  `os.ReadDir` and `os.Lstat` report: directories (readable or not),
  regular files, symbolic links, other kinds, and entries that `Lstat`
  cannot describe. The method is proved equal to the function `Walk`.
  Lemmas about `Walk` show that the paths it emits are exactly the regular
  files reachable through directories, and that each failure affects only
  its own directory or entry.
- **Hashing** (`hashing.dfy`, module `Hashing`). `sha256File` is a method
  built from two classes:
  - `OsFile` has a read offset and a script of short reads and injected
    faults.
  - `Hasher` is the accumulator.

  The read loop is proved equal to the function `HashFile`. SHA-256 itself
  is a function-valued parameter `sum`. The hex rendering `Hex` has an
  inverse `Unhex`, with a proof that the round trip is exact.
- **Resolver** (`resolver.dfy`, module `Resolver`). `dbWorker` is the
  class `Deduper`, with two fields:
  - `index`, a map from fingerprint to path that stands for the
    `file_hashes` table;
  - `fs`, a map from path to `Regular(bytes)` or `Symlink(target)`.

  `Resolve` handles one record and `ResolveAll` drains the record
  sequence. The function `Step` specifies one record. It takes an
  `Outcome` that says whether the SELECT, the INSERT, `os.Remove` and
  `os.Symlink` succeed.
- **The whole run** (`pipeline.dfy`, module `Pipeline`). `Scan` walks,
  hashes and resolves, and then returns the tree as `ReadDir`/`Lstat` see
  it afterwards. The function `Pass` specifies it. The main lemma,
  `SecondPassChangesNothing`, proves idempotence: a second run after a
  failure-free first run leaves the table, the files and the tree
  unchanged, even if calls fail during the second run.

`types.dfy` holds the shared values:

- `FileOp`;
- paths as sequences of names, with the empty path standing for Go's `""`;
- the file map;
- small `Option`/`Result` types;
- the `FirstOr`/`Rest` pair for outcome sequences. Once a sequence is used
  up, every further call succeeds.

### Behaviour of the code worth knowing

- **The lookup and the insert are separate calls** (main.go:139, 160).
  `Step` keeps them separate, and each can fail on its own.
- **A missing row and an empty stored path look the same.** A missing row
  leaves `originalFilePath` as `""`, so the code cannot tell it apart from
  a row that stores the empty path. `Stored` returns the empty path in both
  cases. Records whose path is empty would be re-inserted. The lemmas
  therefore assume non-empty record paths, which the walk always produces
  (`Traversal.Walk`).
- **Stored paths are never re-checked.** The code does not check that a
  stored canonical path still exists or is still a regular file
  (main.go:146-153).
  - If the table already holds stale rows, a duplicate is linked to
    whatever the row names. That may be a link, nothing at all, or a
    regular file that now holds different bytes. In the last case the
    duplicate's own content is silently lost. For example, take the table
    `{h: c}` and the files `c = Regular(b)`, `y = Regular(a)`. Records
    `(c, h2)` and `(y, h)` then leave `y` as a link to `c`, and `c` still
    holds `b`.
  - So "no link points at another link" holds only for fingerprints that
    were new to the table (`Resolver.Deduplicated`).
  - Idempotence holds in full (`Pipeline.SecondPassChangesNothing`).
- **The fingerprint is a string.** It is the lowercase hex text that
  `fmt.Sprintf("%x", …)` produces, not the raw digest.

## Model

| member | source | states |
|---|---|---|
| Hashing.Hex | main.go:44 | `%x` rendering: two characters per digest byte, each a lowercase hex digit |
| Hashing.UnhexHex | main.go:44 | decoding the hex string gives back exactly the digest bytes (round trip) |
| Hashing.HexInjective | main.go:44 | two digests render to the same string if and only if they are equal |
| Hashing.Fingerprint | main.go:44 | a fingerprint is 64 lowercase hex characters |
| Hashing.FingerprintDeterminedByDigest | main.go:29-44 | two contents get the same fingerprint if and only if their SHA-256 digests are equal |
| Hashing.ReadCall | main.go:32-41 | one `Read` into the 64 KiB buffer: succeeds with 1 to BufferSize bytes within the file exactly when bytes remain and no fault is injected; fails exactly when a fault is injected; returns 0 bytes on EOF or on an error; EOF only at end of file, and exactly at end of file when no fault is injected |
| Hashing.ChunksCover | main.go:30-42 | when the read loop reaches EOF, the chunks written to the hasher concatenate to exactly the rest of the file, and each is 1 to BufferSize bytes |
| Hashing.NoFaultReachesEof | main.go:31-42 | with no injected read error the loop always reaches EOF, whatever the short reads |
| Hashing.FaultBeforeEofFails | main.go:36-41 | a read error that the loop reaches before EOF makes the whole hash fail |
| Hashing.HashFile | main.go:22-45 | succeeds if and only if the open succeeds on a regular file and no read fails before EOF; the result is then the fingerprint of the file's content, whatever the chunking; a failure after a successful open is a read error |
| Hashing.OsFile.Read | main.go:32 | one read: the buffer's first n bytes are the next n bytes of the file, and the offset advances by n |
| Hashing.Hasher.Write | main.go:33-35 | writing appends the chunk to the bytes accumulated so far |
| Hashing.Sha256File | main.go:22-45 | the open-and-read loop over a reused buffer returns exactly `HashFile`: the fingerprint of the content, or the open/read error |
| Traversal.Walk | main.go:99-127 | every path emitted for a directory lies strictly below it |
| Traversal.ProcessDirectory | main.go:99-127 | the recursive loop over entries emits exactly `Walk`, in order |
| Traversal.WalkSound | main.go:111-125 | every emitted path is reached only through readable directories and names a regular file by `Lstat`; no symbolic link is emitted or followed |
| Traversal.WalkComplete | main.go:108-125 | every regular file reachable through readable directories is emitted |
| Traversal.LstatFailureIsLocal | main.go:112-116 | an entry whose `Lstat` fails is skipped, and the output equals the walk without that entry |
| Traversal.UnreadableIsLocal | main.go:102-106 | a subdirectory `ReadDir` cannot list contributes nothing, as if empty; its siblings are still walked |
| Resolver.Step | main.go:137-165 | the full decision table, each event with an if-and-only-if condition and the new state: a query error skips; no row inserts (files unchanged); the same path changes nothing; a different path becomes a symlink to the stored path (index unchanged); a failed remove changes nothing; a failed symlink leaves the path absent; no path other than the record's is touched; no content is written |
| Resolver.Deduper.Resolve | main.go:138-165 | one iteration mutates `index` and `fs` exactly as `Step` says and reports its event |
| Resolver.Deduper.ResolveAll | main.go:137-166 | the loop over the records leaves the state equal to the fold `Run` |
| Resolver.FirstPathWins | main.go:139-164 | in a failure-free run, each fingerprint ends with one entry: the one it had before, or else the path of the first record that carries it |
| Resolver.RunFrame | main.go:146-164 | a path that no record names keeps its presence and its file across a run |
| Resolver.RunKeepsContent | main.go:148-158 | a run writes no content: a regular file after the run was the same regular file before it |
| Resolver.StepKeepsSettled | main.go:146-164 | a failure-free step does not disturb a record already resolved (canonical regular file, or a link to the canonical path) |
| Resolver.StepSettles | main.go:139-164 | a failure-free step on a regular file leaves its record resolved |
| Resolver.RunKeepsSettled | main.go:137-165 | a failure-free run keeps a resolved record resolved |
| Resolver.RunSettles | main.go:137-165 | a failure-free run over records for regular files leaves every record resolved: each path is the canonical copy of its content or a link to it |
| Resolver.Deduplicated | main.go:137-165 | after a failure-free run, records with the same fingerprint keep at most one regular file; every link points at the table's canonical path; for fingerprints new to the table that path is a regular file, so there are no link chains |
| Resolver.SettledRunIsNoOp | main.go:146-159 | records whose path is already their fingerprint's stored path change neither table nor files, whatever the calls return |
| Pipeline.Records | main.go:84-97 | each record sent names an emitted path that is a regular file, with the fingerprint of its content; there are at most as many records as paths |
| Pipeline.HashedIsSent | main.go:87-96 | a path whose hash succeeds is sent as a record carrying exactly the fingerprint computed for it |
| Pipeline.FailedHashDrops | main.go:87-91 | a path whose hash fails (and that the walk listed once) gets no record |
| Pipeline.CleanRecords | main.go:84-97 | without injected faults, every emitted regular file gets its record |
| Pipeline.KeepRegular | main.go:119 | keeps exactly those paths that are still regular files |
| Pipeline.WalkReread | main.go:111-125 | walking the tree after a run emits exactly the earlier paths that are still regular files; replaced duplicates are now links, and `Lstat` skips them |
| Pipeline.RereadIdempotent | main.go:111-125 | re-reading the tree a second time against the same files changes nothing more |
| Pipeline.PassKeepsAgreement | main.go:170-189 | whatever fails in a run, every path the next walk emits is a regular file in the file map |
| Pipeline.SecondPassChangesNothing | main.go:170-189 | idempotence: after a failure-free run, a second run over the resulting tree and table leaves table, files and tree unchanged, whatever its calls return |
| Pipeline.Scan | main.go:170-189 | walk, then hash every path, then resolve every record; the final table, files and tree equal `Pass` |

## Left out

- **Concurrency.** Goroutines, channels, `sync.WaitGroup`, `newWorkerPool`,
  `Wait` and the shutdown order (main.go:47-82, 167) are not modelled. The
  stages run one after another, and records are resolved in the order the
  walk emits them. The WaitGroup accounting in the source is inconsistent
  (`Add(numWorkers)` once, but `Done` from twice as many goroutines). It is
  neither modelled nor corrected.
- **SQLite.** The driver, the SQL text, statement preparation and schema
  creation (main.go:130-135, 171-180) are left out. The table is a map from
  fingerprint to one path. The real table has no uniqueness constraint, so
  concurrent workers could insert two rows for one fingerprint. That cannot
  happen in a sequential run.
- **SHA-256 internals.** The algorithm is not modelled: the digest is an
  arbitrary function `sum` of the accumulated bytes.
- **Path cleaning.** `filepath.Join` cleaning is not modelled: a path is a
  sequence of names.
- **Logging and the command line.** `fmt.Printf` logging, argument parsing
  and `os.Exit` (main.go:191-204) are left out.
- **`file.Close`.** It is not modelled. Its error is ignored in the source.
- **The environment.** I/O errors, short reads and database/filesystem call
  results are parameters (`IoScript`, `Outcome`). They are not observed
  behaviour.
- Hashing.ReadCall: does not model a `Read` that returns bytes and an error
  together, because `os.File.Read` on a regular file returns either n > 0
  with no error, or 0 with EOF or an error.
- Hashing.HashFile: opening a path that holds a symbolic link fails in the
  model, while `os.Open` follows the link. The walk never sends a link's
  path to the hashers, so this matters only for a record whose file changes
  between the walk and the hash, a race the sequential model does not have.
- Resolver.Deduplicated: does not prove that there are no link chains for
  fingerprints the table already held before the run. The code never
  re-checks a stored path, so a stale row can make a duplicate point at a
  link or at nothing.
- Resolver.Step: paths are compared, stored and linked as values, so two spellings of one file are different paths and no file can be reached under two names. The source passes raw strings. A row written by an earlier run under another spelling of the same file (for example an absolute root, then a relative one) makes the canonical file look like its own duplicate, and the program then removes it and links it to itself. The model cannot show this.
- Pipeline.Records: the contract does not state that records keep the order of the walk. `Pass` and `Scan` use the function itself, whose records follow that order.
- Resolver.Deduplicated: a link's target is the stored path taken as is. The model does not resolve a relative target against the link's own directory, as the operating system does. With a relative root (say `photos`), `os.Symlink("photos/a/x", "photos/b/y")` makes a link that dangles. "Every link points at the canonical path" and "no link chains" hold for the stored string, not for what the link resolves to.
- Resolver.Step: `os.Remove` on a missing path fails and `os.Symlink` onto
  a freed path succeeds unless its outcome says otherwise. Other
  filesystem conditions are not distinguished, for example a directory at
  the path or a permission error.
