# hscan in Dafny

hscan looks for files whose SHA-1 digest appears in a set of reference hash
databases. A database is a directory of text files with one checksum per line.
The program loads every text file of that directory into one map from normalised
digest to the index of the file it came from. It then walks a directory tree and
hashes every entry that is not a directory, not a symbolic link and not empty, up to
250000000 bytes. Each hit is written
to `hscan_match.log` as `<digest> <database file name> <path>`. Unreadable and
oversized files are written to `hscan_error.log`.

This project models the bookkeeping of `hscan.go` as one sequential state and proves
what it does:

- `text.dfy` (module `Text`): ASCII models of `strings.TrimSpace`, `strings.ToLower`
  and the `%q` quoting of log paths.
- `hex.dfy` (module `Hex`): 20-byte digests, the `%x` rendering that gives the lookup
  key, and its inverse.
- `state.dfy` (module `Model`): the globals as one value (`Snapshot`), the zero-value
  reading of Go maps (`Count`), the sum of the per-database counters, and the state
  invariant `Valid`.
- `database.dfy` (module `Database`): line normalisation and the loading of database
  files as functions on the state, with their properties. These cover key shape,
  last writer wins, index assignment, counter initialisation and the "no database"
  outcome.
- `scan.dfy` (module `Scan`): `walkFn`, the size guard, `sha1sum` and
  `workerPoolAction` as functions on the state, with their properties. These cover
  eligibility, the size guard, the match step, counting over a whole walk, and the
  invariant `nbTotalSha1Match == sum of nbSha1Match`.
- `hscan.dfy` (module `HScan`): class `Scanner`. Its fields are the globals of
  `hscan.go`, and its methods are the program's functions, with the same loops and
  branches. Each method is proved to produce exactly the state the matching function
  of `Database` or `Scan` describes.
- `uint8_file_index.dfy` (module `Uint8FileIndex`): the 8-bit file counter of `loadDbFiles` as
  written, and the inputs that show where it goes wrong.

Inputs the program gets from the outside world are parameters of the model:

- the directory listing of the database directory, as `DbFile` records holding a name,
  a directory flag, the content sniffer's text/plain verdict and the file's lines;
- the walk, as a sequence of `Entry` records holding a path, a directory flag, a
  symbolic-link flag, a size and the result of reading and hashing the file (a digest,
  or the read error's message).

The tasks of the worker pool run one after another, each to completion, in the order
the walk submits them. The model's end state is the one the program reaches after
`wp.StopWait()` when no unlocked counter update is lost and the log lines come out in
submission order.

Three behaviours of `hscan.go` are worth stating plainly:

- An unreadable file is looked up under the all-zero digest like any other file.
  It is a match if a database lists forty `0` digits (`Scan.UnreadableLooksUpZeroKey`).
- walkFn submits every entry that is not a directory, not a symbolic link and not
  empty. This includes devices, pipes and sockets, not only regular files.
- The unit test of `loadChecksumFile` expects five keys from `testfiles/sha1.txt`
  (`Database.KeyFileLoaded` states the general case).

## Model

| member | source | states |
|---|---|---|
| Text.TrimSpace | hscan.go:260 | `strings.TrimSpace` on ASCII: drops the leading, then the trailing white space (space, tab, newline, vertical tab, form feed, carriage return) |
| Text.TrimSpaceSpec | hscan.go:260 | the trimmed line is no longer than the line, is empty exactly when the line is all white space, and neither begins nor ends with white space |
| Text.TrimSpacePadded | hscan.go:260 | white space around a word that neither begins nor ends with white space is exactly what trimming removes |
| Text.TrimSpaceKeepsLeadingWord | hscan.go:260-261 | a word at the start of a line survives trimming as a prefix of the result, whatever follows it |
| Text.ToLower | hscan.go:262 | `strings.ToLower` on ASCII: each upper-case letter becomes its lower-case letter, every other character is kept |
| Text.ToLowerSpec | hscan.go:262 | lower-casing keeps the length, maps each character on its own and leaves no upper-case letter |
| Text.ToLowerFixes | hscan.go:262 | a string without upper-case letters is left unchanged |
| Text.ToLowerPrefix | hscan.go:261-262 | on ASCII, cutting to a prefix and lower-casing can be done in either order |
| Text.Quote | hscan.go:77 | `%q` output is delimited by double quotes and holds no control character, so a quoted path cannot split a log line |
| Text.QuotePlain | hscan.go:77 | a string of printable characters other than quote and backslash is quoted as itself |
| Hex.Hex | hscan.go:288 | `%x` of a byte array has two lower-case hexadecimal digits per byte |
| Hex.UnhexHex | hscan.go:288 | rendering a digest and reading it back gives the digest |
| Hex.HexUnhex | hscan.go:288 | reading a string of lower-case digit pairs and rendering it gives the string |
| Hex.HexInjective | hscan.go:288-292 | two digests have the same lookup key only when they are equal |
| Hex.HexOfZeros | hscan.go:226 | the key of the all-zero digest is a run of `0` digits |
| Model.InitialValid | hscan.go:28-36 | the globals at their zero values satisfy the state invariant |
| Model.SumToBump | hscan.go:298-301 | bumping one counter below n bumps the sum below n by one |
| Model.SumToReset | hscan.go:269 | starting the counter of the next index at 0 keeps the sum |
| Database.NormalizeLine | hscan.go:260-262 | the key a database line gives: trimmed, cut to its first 40 characters when longer, then lower-cased |
| Database.NormalizeLineSpec | hscan.go:260-263 | a line yields no key exactly when it is blank; otherwise its key is non-empty, at most 40 characters and free of upper-case letters |
| Database.DigestLineKey | hscan.go:260-262 | a line holding a digest's key in any letter case, padded with white space, yields exactly that key |
| Database.DigestLineWithTrailingText | hscan.go:260-262 | a line starting with a digest's key in any letter case yields that key whatever follows the first 40 characters |
| Database.Keys | hscan.go:259-266 | the keys one database file inserts, in line order, duplicates kept and lines that normalise to the empty string skipped |
| Database.KeysSpec | hscan.go:259-266 | there are no more keys than lines, and every key has the key shape |
| Database.KeysFromLines | hscan.go:259-264 | every non-blank line contributes its key, and every key comes from some line |
| Database.KeysCount | hscan.go:257-265 | the line counter `cpt` is the number of non-blank lines, duplicates included |
| Database.BlankLineIgnored | hscan.go:263 | a blank line changes neither the database nor the line counter |
| Database.Insert | hscan.go:264 | `arrSha1[l] = idx` for each key in turn, a later insert overwriting an earlier entry |
| Database.AfterLoadChecksumFile | hscan.go:245-273 | loadChecksumFile on the state: inserts the file's keys under idx, then sets `nbSha1Match[idx]` to 0; nothing else changes |
| Database.AfterLoadDbFiles | hscan.go:187-211 | loadDbFiles on the state: skips directories and non-text files, and for each other entry appends its name and loads it under the index equal to the number of names before it |
| Database.InsertResult | hscan.go:264 | after the inserts every inserted key maps to the file's index, every other key keeps its old entry, and the map grows by at most the number of keys |
| Database.KeyFileLoaded | hscan_test.go:70-91 | a file of n distinct digests not yet present adds exactly n keys, each mapped to the file's index |
| Database.ListedDigestLoaded | hscan.go:259-264 | a line that carries a digest's key puts that key in the database under the file's index |
| Database.Accepted | hscan.go:195-202 | the kept entries are non-directory, text/plain ones, no more of them than in the listing |
| Database.AcceptedSpec | hscan.go:195-202 | an entry is kept exactly when it is in the listing, is not a directory and is text/plain; nothing is kept exactly when no entry is accepted |
| Database.LastOwner | hscan.go:264 | reference for last writer wins: the position it gives is an accepted file that yields the key |
| Database.LastOwnerIsLast | hscan.go:264 | no accepted file after that position yields the key |
| Database.LastOwnerNone | hscan.go:264 | there is no position exactly when no accepted file yields the key |
| Database.LoadDbFilesNames | hscan.go:194-206 | the accepted file names are appended in listing order, so the i-th accepted file's name is at index i |
| Database.LoadDbFilesCounters | hscan.go:203-205 | every accepted file's match counter is present and 0, and no other counter is added or changed |
| Database.LoadDbFilesKeys | hscan.go:194-206 | a key some accepted file yields maps to the index of the last such file; any other key keeps its entry or stays absent |
| Database.LoadDbFilesFrame | hscan.go:187-211 | loading leaves the scan statistics, the match total and both logs alone |
| Database.NoDatabaseOutcome | hscan.go:207-210 | no name is appended exactly when the listing holds no accepted file |
| Database.LoadDbFilesKeepsValid | hscan.go:187-211 | loading the databases keeps the state invariant |
| Scan.UnreadableLine | hscan.go:224 | the error line of a file that cannot be read: `could not sha1sum file <%q path>: <error>` and a newline |
| Scan.SkipSizeLine | hscan.go:77 | the error line of an oversized file: `skip file size > 238 Mb : <%q path>` and a newline |
| Scan.MatchLine | hscan.go:294 | the match line: key, database file name and path, separated by single spaces, and a newline |
| Scan.DigestOf | hscan.go:221-229 | the digest sha1sum returns: that of the content, or twenty zero bytes when the file cannot be read |
| Scan.AfterSha1Sum | hscan.go:221-229 | sha1sum: a readable file gives its digest and leaves the state alone; a read failure logs one error line, bumps `nbUnreadableFile` and gives the all-zero digest |
| Scan.AfterWorkerPoolAction | hscan.go:286-305 | workerPoolAction: the state after sha1sum, followed by the lookup of the `%x` rendering of its digest |
| Scan.AfterLookup | hscan.go:292-304 | the lookup: on a hit, one match line naming the owning file, and one more on that file's counter and on the total; on a miss, no change |
| Scan.AfterTask | hscan.go:74-81 | the submitted task: above 250000000 bytes one skip line, otherwise workerPoolAction |
| Scan.AfterWalkFn | hscan.go:64-87 | walkFn: a directory bumps `nbDirs`; a non-symlink, non-empty entry runs its task and bumps `nbFiles`; anything else is ignored |
| Scan.LookupKeyShape | hscan.go:288 | the lookup key is 40 lower-case hexadecimal digits and is the key a database line holding it yields |
| Scan.UnreadableLooksUpZeroKey | hscan.go:224-226 | an unreadable file is looked up under forty `0` digits and is a hit exactly when a database lists them |
| Scan.WorkerPoolActionEffect | hscan.go:286-305 | a hit bumps the owning counter and the total by one, leaves the other counters alone and appends one match line; a miss on a readable file changes nothing; a read failure appends one error line and counts one unreadable file |
| Scan.SizeGuard | hscan.go:76-80 | a file above 250000000 bytes gets one skip line and is never read; a file of exactly 250000000 bytes goes through the match step |
| Scan.WalkFnDispatch | hscan.go:64-87 | a directory only bumps `nbDirs`; a non-symlink, non-empty file runs its task and bumps `nbFiles`; anything else changes nothing |
| Scan.WalkFnCounts | hscan.go:64-87 | what each counter and log gains from one entry is fixed by the kind of the entry |
| Scan.WalkCounts | hscan.go:115-117 | after the walk each counter and log has grown by the number of entries of its kind, in total and per database file |
| Scan.MatchLineOf | hscan.go:292-294 | the match line one entry writes: one for a hashed entry whose key is in the database, naming the file that holds the key; none otherwise |
| Scan.ErrorLineOf | hscan.go:76-79 | the error line one entry writes: a skip line for an oversized submitted file, a read-failure line for an unreadable hashed one, none otherwise |
| Scan.MatchLines | hscan.go:115-117 | the match lines a walk writes, one entry after another |
| Scan.ErrorLines | hscan.go:115-117 | the error lines a walk writes, one entry after another |
| Scan.WalkFnLogs | hscan.go:64-87 | one walkFn call appends to each log exactly the line the entry gives, if any |
| Scan.WalkMatchLog | hscan.go:115-117 | the match log is only appended to, and a walk appends exactly its match lines, in entry order |
| Scan.WalkErrorLog | hscan.go:115-117 | the error log is only appended to, and a walk appends exactly its error lines, in entry order |
| Scan.WorkerPoolActionKeepsValid | hscan.go:292-301 | the match step keeps the total equal to the sum of the per-database counters |
| Scan.WalkKeepsValid | hscan.go:115-117 | any walk keeps the total equal to the sum of the per-database counters |
| Scan.AfterWalk | hscan.go:115-117 | the database and the file names do not change during the scan |
| HScan.Scanner.constructor | hscan.go:28-49 | every global starts at its zero value, with both logs empty |
| HScan.Scanner.WriteSha1Log | hscan.go:275-277 | appends one line to the match log and changes nothing else |
| HScan.Scanner.WriteErrorLog | hscan.go:279-281 | appends one line to the error log and changes nothing else |
| HScan.Scanner.Sha1Sum | hscan.go:221-229 | returns the file's digest, or on a read failure logs one error, counts one unreadable file and returns the all-zero digest |
| HScan.Scanner.WorkerPoolAction | hscan.go:286-305 | its new state is `Scan.AfterWorkerPoolAction` of the old one, and it keeps the state invariant |
| HScan.Scanner.Task | hscan.go:74-81 | its new state is `Scan.AfterTask` of the old one, and it keeps the state invariant |
| HScan.Scanner.WalkFn | hscan.go:64-87 | its new state is `Scan.AfterWalkFn` of the old one, and it keeps the state invariant |
| HScan.Scanner.Walk | hscan.go:115-117 | its new state is `Scan.AfterWalk` of the old one, and it keeps the state invariant |
| HScan.Scanner.LoadChecksumFile | hscan.go:245-273 | its new state is `Database.AfterLoadChecksumFile` of the old one: inserts every key of the file under its index, starts the file's counter at 0, and returns the number of non-blank lines |
| HScan.Scanner.LoadDbFiles | hscan.go:187-211 | its new state is `Database.AfterLoadDbFiles` of the old one, the load of every accepted file under the next index; it reports "no database" exactly when no file was accepted; it keeps the state invariant |
| HScan.Scanner.Run | hscan.go:109-117 | from the zero state, stops after loading when there is no database, and otherwise ends in the walk's state over the loaded databases, satisfying the state invariant |
| HScan.RunReport | hscan.go:109-126 | at the end of a run `checksumFilenames` holds the accepted names in listing order; the directory, file, unreadable-file, error-line and match counts are those of the entries; the total equals both the number of match lines and the sum of the counters; the match log and the error log hold exactly the lines of the entries, in entry order |
| Uint8FileIndex.Inc | hscan.go:205 | `cpt++` on a `uint8`: one more, with 255 wrapping to 0 |
| Uint8FileIndex.Counter | hscan.go:193-206 | the value of `cpt` after the loop: starts at `uint8(0)` and is incremented once per accepted file |
| Uint8FileIndex.AfterLoadDbFilesAsWritten | hscan.go:193-205 | loadDbFiles as written: each accepted file's name is appended, and the file is loaded under the index the `uint8` counter holds |
| Uint8FileIndex.CounterWraps | hscan.go:193-205 | the uint8 counter holds the number of accepted files modulo 256 |
| Uint8FileIndex.ManyDatabasesReportedAsNone | hscan.go:193-210 | with 256 text files the program as written takes the "no database" exit |
| Uint8FileIndex.KeysOfFile257Misattributed | hscan.go:193-205 | as written, the 257th text file's keys map to index 0, the first file's name; the corrected load maps them to index 256 |

## Left out

- Concurrency: the five-worker pool, the mutex around `nbSha1Match`, and the races
  on `nbTotalSha1Match`, `nbUnreadableFile`, `nbFiles` and `nbDirs`. These are updated
  outside the lock and read by `showInfos`, which the workers call too. Tasks run one
  after another and to completion, and the model does not capture those races. The
  program bumps `nbFiles` right after submitting the task, while the task may already
  be running; the model bumps it after the task. The end state is the same.
- SHA-1 itself is a library call. Each entry carries the result of reading and
  hashing its file.
- MIME sniffing is a library over file bytes. Each listing entry carries the
  text/plain verdict. The exit on a sniffing error is not modelled.
- The program exits when the database directory cannot be listed or a database
  file cannot be opened, and panics when a log file cannot be opened or written.
  These paths are not modelled.
- The walker's error callback and `nbUnreadableDir` are not modelled, because the
  walk is given as its entries.
- `bufio.Scanner` stops silently at a line longer than 64 KiB, and the program never
  checks the scanner's error. The model reads every line.
- Command-line parsing, `dirExists`, the usage text, progress and summary printing,
  and timing are left out. The summary prints the per-file counters by ranging over
  the `nbSha1Match` map, in Go's unspecified map order; that print order is not
  modelled. So is the per-file message with `len(arrSha1)`.
- Go strings are UTF-8 bytes, and `strings.TrimSpace` and `strings.ToLower` are
  Unicode-aware. The model works on ASCII characters; the 40-byte cut is a
  40-character cut.
- Text.Quote: escapes only ASCII control characters. It does not model the
  `\u`/`\U` escapes `%q` writes for non-printable non-ASCII characters.
- The counters are unbounded. Go's `int` is at least 32 bits wide (64 bits on the
  usual platforms), and a run would need more than two thousand million files to
  overflow it.
- File indices are unbounded in the corrected model. The `uint8` of the program is
  modelled only in `Uint8FileIndex`.

## Findings

| source | as written | input that shows it | evidently intended | confidence | as-written member | corrected member |
|---|---|---|---|---|---|---|
| hscan.go:193-210 | `cpt` is a `uint8`, so after 256 accepted text files it is 0 again and `cpt == 0` takes the "No database text file found" exit | a database directory holding 256 text files | the exit is taken only when no file was accepted | not executed | Uint8FileIndex.ManyDatabasesReportedAsNone | HScan.Scanner.LoadDbFiles |
| hscan.go:193-205 | the 257th text file is loaded under index `uint8(256) == 0`, so its digests are reported under the first file's name and counted in its counter | 256 text files followed by a 257th holding one digest | the i-th accepted file is loaded under index i | not executed | Uint8FileIndex.KeysOfFile257Misattributed | Database.LoadDbFilesKeys |
