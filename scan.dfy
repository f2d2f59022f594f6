/** The scan of a directory tree (walkFn, the task it submits for each file,
    workerPoolAction and sha1sum in hscan.go), with the submitted tasks run one after
    another to completion. */
module Scan {
  import Text
  import Hex
  import Database
  import opened Model

  /** Files larger than this many bytes are never hashed. */
  const MaxFileSize: int := 250000000

  /** What reading a file gives: the SHA-1 digest of its content, or the read error as
      its message prints. */
  datatype ReadResult = Contents(digest: Hex.Digest) | ReadError(cause: string)

  /** One entry reported by the directory walk: its path, whether it is a directory or
      a symbolic link, its size in bytes, and what reading it would give. */
  datatype Entry = Entry(path: string, isDir: bool, isSymlink: bool, size: int, read: ReadResult)

  function UnreadableLine(path: string, cause: string): string {
    "could not sha1sum file " + Text.Quote(path) + ": " + cause + "\n"
  }

  function SkipSizeLine(path: string): string {
    "skip file size > 238 Mb : " + Text.Quote(path) + "\n"
  }

  function MatchLine(key: string, source: string, path: string): string {
    key + " " + source + " " + path + "\n"
  }

  /** The state after sha1sum and the digest it returns. */
  datatype Sha1Sum = Sha1Sum(state: Snapshot, digest: Hex.Digest)

  /** The digest sha1sum returns: that of the content, or all zeros when the file
      cannot be read. */
  function DigestOf(read: ReadResult): Hex.Digest {
    match read
    case Contents(d) => d
    case ReadError(_) => Hex.ZeroDigest()
  }

  /** sha1sum: the digest of the content; on a read failure, one error line, one more
      unreadable file, and the all-zero digest. */
  function AfterSha1Sum(s: Snapshot, path: string, read: ReadResult): Sha1Sum {
    var t := match read
      case Contents(_) => s
      case ReadError(cause) =>
        s.(errorLog := s.errorLog + [UnreadableLine(path, cause)], nbUnreadableFile := s.nbUnreadableFile + 1);
    Sha1Sum(t, DigestOf(read))
  }

  /** workerPoolAction: hash the file, render the digest with %x and look it up; on a
      hit, log one match line and bump the counter of the owning database and the total. */
  function AfterWorkerPoolAction(s: Snapshot, path: string, read: ReadResult): Snapshot
    requires WellIndexed(s)
  {
    var h := AfterSha1Sum(s, path, read);
    AfterLookup(h.state, path, Hex.Hex(h.digest))
  }

  /** The lookup that follows the hashing: a hit logs one match line and bumps the
      owning file's counter and the total; a miss changes nothing. */
  function AfterLookup(t: Snapshot, path: string, key: string): Snapshot
    requires WellIndexed(t)
  {
    if key in t.arrSha1 then
      var idx := t.arrSha1[key];
      t.(matchLog := t.matchLog + [MatchLine(key, t.checksumFilenames[idx], path)],
         nbSha1Match := t.nbSha1Match[idx := Count(t.nbSha1Match, idx) + 1],
         nbTotalSha1Match := t.nbTotalSha1Match + 1)
    else t
  }

  /** The task submitted for a file: the size guard, then workerPoolAction. */
  function AfterTask(s: Snapshot, path: string, size: int, read: ReadResult): Snapshot
    requires WellIndexed(s)
  {
    if size > MaxFileSize then s.(errorLog := s.errorLog + [SkipSizeLine(path)])
    else AfterWorkerPoolAction(s, path, read)
  }

  /** walkFn: a directory is only counted; a file that is not a symbolic link and is not
      empty has its task run and is counted; anything else is ignored. */
  function AfterWalkFn(s: Snapshot, e: Entry): Snapshot
    requires WellIndexed(s)
  {
    if e.isDir then s.(nbDirs := s.nbDirs + 1)
    else if !e.isSymlink && e.size > 0 then
      var t := AfterTask(s, e.path, e.size, e.read);
      t.(nbFiles := t.nbFiles + 1)
    else s
  }

  /** The walk over a sequence of entries, then the wait for every task. The database
      is read-only during the scan. */
  function AfterWalk(s: Snapshot, es: seq<Entry>): (r: Snapshot)
    requires WellIndexed(s)
    ensures r.arrSha1 == s.arrSha1 && r.checksumFilenames == s.checksumFilenames
  {
    if es == [] then s else AfterWalkFn(AfterWalk(s, es[..|es| - 1]), es[|es| - 1])
  }

  /** The entries walkFn submits. */
  predicate Eligible(e: Entry) {
    !e.isDir && !e.isSymlink && e.size > 0
  }

  /** Submitted, but stopped by the size guard. */
  predicate Oversize(e: Entry) {
    Eligible(e) && e.size > MaxFileSize
  }

  /** Submitted and hashed. */
  predicate Hashed(e: Entry) {
    Eligible(e) && e.size <= MaxFileSize
  }

  predicate Unreadable(e: Entry) {
    Hashed(e) && e.read.ReadError?
  }

  function LookupKey(e: Entry): string {
    Hex.Hex(DigestOf(e.read))
  }

  /** The entry is hashed and its key is in the database. */
  predicate Hit(db: map<string, nat>, e: Entry) {
    Hashed(e) && LookupKey(e) in db
  }

  /** The entry is a hit for database file j. */
  predicate HitOn(db: map<string, nat>, j: nat, e: Entry) {
    Hit(db, e) && db[LookupKey(e)] == j
  }

  /** The kinds of entry the scan statistics count. */
  datatype Kind = Directory | Submitted | UnreadableFile | ErrorLogged | Match(db: map<string, nat>) | MatchOn(db: map<string, nat>, j: nat)

  predicate Is(k: Kind, e: Entry) {
    match k
    case Directory => e.isDir
    case Submitted => Eligible(e)
    case UnreadableFile => Unreadable(e)
    case ErrorLogged => Oversize(e) || Unreadable(e)
    case Match(db) => Hit(db, e)
    case MatchOn(db, j) => HitOn(db, j, e)
  }

  /** The number of entries of kind k. */
  function CountIf(es: seq<Entry>, k: Kind): nat {
    if es == [] then 0 else CountIf(es[..|es| - 1], k) + (if Is(k, es[|es| - 1]) then 1 else 0)
  }

  /** The match line one entry gives: one for a hit, naming the database file that
      holds the key, none otherwise. */
  function MatchLineOf(db: map<string, nat>, names: seq<string>, e: Entry): seq<string>
    requires forall k :: k in db ==> db[k] < |names|
  {
    if Hit(db, e) then [MatchLine(LookupKey(e), names[db[LookupKey(e)]], e.path)] else []
  }

  /** The error line one entry gives: a skip line for an oversized file, a read-failure
      line for an unreadable one, none otherwise. */
  function ErrorLineOf(e: Entry): seq<string> {
    if Oversize(e) then [SkipSizeLine(e.path)]
    else if Unreadable(e) then [UnreadableLine(e.path, e.read.cause)]
    else []
  }

  /** The match lines a walk writes, in entry order. */
  function MatchLines(db: map<string, nat>, names: seq<string>, es: seq<Entry>): seq<string>
    requires forall k :: k in db ==> db[k] < |names|
  {
    if es == [] then [] else MatchLines(db, names, es[..|es| - 1]) + MatchLineOf(db, names, es[|es| - 1])
  }

  /** The error lines a walk writes, in entry order. */
  function ErrorLines(es: seq<Entry>): seq<string> {
    if es == [] then [] else ErrorLines(es[..|es| - 1]) + ErrorLineOf(es[|es| - 1])
  }

  /** The key workerPoolAction looks up is a 40-digit lower-case hexadecimal string: it
      has the shape of a database key and is what a database line holding it yields. */
  lemma LookupKeyShape(read: ReadResult)
    ensures var key := Hex.Hex(DigestOf(read));
      |key| == KeyWidth && Hex.AllLowerHex(key) && IsKey(key) && Database.NormalizeLine(key) == key
  {
    var key := Hex.Hex(DigestOf(read));
    assert Text.NoUpper(key) by {
      forall i | 0 <= i < |key| ensures !Text.IsUpper(key[i]) {
        assert Hex.IsLowerHex(key[i]);
      }
    }
    Text.ToLowerFixes(key);
    Database.DigestLineKey(DigestOf(read), [], key, []);
    assert [] + key + [] == key;
  }

  /** An unreadable file is looked up under forty '0' digits, so it counts as a match
      exactly when a database lists that key. */
  lemma UnreadableLooksUpZeroKey(s: Snapshot, e: Entry)
    requires WellIndexed(s) && Unreadable(e)
    ensures LookupKey(e) == seq(40, _ => '0')
    ensures Hit(s.arrSha1, e) <==> seq(40, _ => '0') in s.arrSha1
  {
    Hex.HexOfZeros(20);
  }

  /** The match step. A hit adds one to the counter of the owning database and to the
      total, leaves every other counter alone, and appends one line
      "<key> <database file name> <path>"; a miss on a readable file changes nothing;
      a read failure logs one error and counts one unreadable file whatever the lookup
      gives. */
  lemma WorkerPoolActionEffect(s: Snapshot, path: string, read: ReadResult)
    requires WellIndexed(s)
    ensures var r := AfterWorkerPoolAction(s, path, read); var key := Hex.Hex(DigestOf(read));
      && r.arrSha1 == s.arrSha1 && r.checksumFilenames == s.checksumFilenames
      && r.nbFiles == s.nbFiles && r.nbDirs == s.nbDirs
      && (key in s.arrSha1 ==>
            var idx := s.arrSha1[key];
            && r.nbTotalSha1Match == s.nbTotalSha1Match + 1
            && Count(r.nbSha1Match, idx) == Count(s.nbSha1Match, idx) + 1
            && (forall j :: j != idx ==> Count(r.nbSha1Match, j) == Count(s.nbSha1Match, j))
            && r.matchLog == s.matchLog + [MatchLine(key, s.checksumFilenames[idx], path)])
      && (key !in s.arrSha1 ==>
            r.nbTotalSha1Match == s.nbTotalSha1Match && r.nbSha1Match == s.nbSha1Match && r.matchLog == s.matchLog)
      && (read.Contents? ==> r.nbUnreadableFile == s.nbUnreadableFile && r.errorLog == s.errorLog)
      && (read.Contents? && key !in s.arrSha1 ==> r == s)
      && (read.ReadError? ==>
            r.nbUnreadableFile == s.nbUnreadableFile + 1 && r.errorLog == s.errorLog + [UnreadableLine(path, read.cause)])
  {
  }

  /** The size guard: a file above 250000000 bytes gets one "skip file size" line and is
      never read, so what reading it would give makes no difference; a file of exactly
      that size goes through the match step. */
  lemma SizeGuard(s: Snapshot, path: string, size: int, read: ReadResult, other: ReadResult)
    requires WellIndexed(s)
    ensures size > MaxFileSize ==>
      AfterTask(s, path, size, read) == AfterTask(s, path, size, other) == s.(errorLog := s.errorLog + [SkipSizeLine(path)])
    ensures size == MaxFileSize ==> AfterTask(s, path, size, read) == AfterWorkerPoolAction(s, path, read)
  {
  }

  /** Which entries walkFn acts on: a directory only bumps the directory count; a file
      that is neither a symbolic link nor empty runs its task and bumps the file count;
      every other entry changes nothing. */
  lemma WalkFnDispatch(s: Snapshot, e: Entry)
    requires WellIndexed(s)
    ensures e.isDir ==> AfterWalkFn(s, e) == s.(nbDirs := s.nbDirs + 1)
    ensures Eligible(e) ==>
      var t := AfterTask(s, e.path, e.size, e.read);
      AfterWalkFn(s, e) == t.(nbFiles := t.nbFiles + 1) && t.nbFiles == s.nbFiles && t.nbDirs == s.nbDirs
    ensures !e.isDir && !Eligible(e) ==> AfterWalkFn(s, e) == s
  {
    if Eligible(e) {
      WorkerPoolActionEffect(s, e.path, e.read);
    }
  }

  /** One walkFn call, counted: what each counter and log gains is fixed by the kind of
      the entry. */
  lemma {:induction false} WalkFnCounts(s: Snapshot, e: Entry)
    requires WellIndexed(s)
    ensures var r := AfterWalkFn(s, e);
      && r.arrSha1 == s.arrSha1 && r.checksumFilenames == s.checksumFilenames
      && r.nbDirs == s.nbDirs + (if e.isDir then 1 else 0)
      && r.nbFiles == s.nbFiles + (if Eligible(e) then 1 else 0)
      && r.nbUnreadableFile == s.nbUnreadableFile + (if Unreadable(e) then 1 else 0)
      && |r.errorLog| == |s.errorLog| + (if Oversize(e) || Unreadable(e) then 1 else 0)
      && r.nbTotalSha1Match == s.nbTotalSha1Match + (if Hit(s.arrSha1, e) then 1 else 0)
      && |r.matchLog| == |s.matchLog| + (if Hit(s.arrSha1, e) then 1 else 0)
      && (forall j :: Count(r.nbSha1Match, j) == Count(s.nbSha1Match, j) + (if HitOn(s.arrSha1, j, e) then 1 else 0))
  {
    if Hashed(e) {
      WorkerPoolActionEffect(s, e.path, e.read);
    }
  }

  /** After the whole walk, every counter and log has grown by the number of entries of
      its kind: directories, submitted files, unreadable files, error lines, and matches
      (in total and per database file). */
  lemma {:induction false} WalkCounts(s: Snapshot, es: seq<Entry>)
    requires WellIndexed(s)
    ensures var r := AfterWalk(s, es); var db := s.arrSha1;
      && r.nbDirs == s.nbDirs + CountIf(es, Directory)
      && r.nbFiles == s.nbFiles + CountIf(es, Submitted)
      && r.nbUnreadableFile == s.nbUnreadableFile + CountIf(es, UnreadableFile)
      && |r.errorLog| == |s.errorLog| + CountIf(es, ErrorLogged)
      && r.nbTotalSha1Match == s.nbTotalSha1Match + CountIf(es, Match(db))
      && |r.matchLog| == |s.matchLog| + CountIf(es, Match(db))
      && (forall j :: Count(r.nbSha1Match, j) == Count(s.nbSha1Match, j) + CountIf(es, MatchOn(db, j)))
  {
    if es != [] {
      var init, e := es[..|es| - 1], es[|es| - 1];
      WalkCounts(s, init);
      WalkFnCounts(AfterWalk(s, init), e);
    }
  }

  /** One walkFn call appends the entry's match line and error line, if any, to the
      logs. */
  lemma WalkFnLogs(s: Snapshot, e: Entry)
    requires WellIndexed(s)
    ensures AfterWalkFn(s, e).matchLog == s.matchLog + MatchLineOf(s.arrSha1, s.checksumFilenames, e)
    ensures AfterWalkFn(s, e).errorLog == s.errorLog + ErrorLineOf(e)
  {
    if Hashed(e) {
      WorkerPoolActionEffect(s, e.path, e.read);
    }
  }

  /** The match log is only appended to, and what a walk appends is exactly its match
      lines, in entry order. */
  lemma {:induction false} WalkMatchLog(s: Snapshot, es: seq<Entry>)
    requires WellIndexed(s)
    ensures AfterWalk(s, es).matchLog == s.matchLog + MatchLines(s.arrSha1, s.checksumFilenames, es)
  {
    if es != [] {
      var init := es[..|es| - 1];
      WalkMatchLog(s, init);
      WalkFnLogs(AfterWalk(s, init), es[|es| - 1]);
    }
  }

  /** The error log is only appended to, and what a walk appends is exactly its error
      lines, in entry order. */
  lemma {:induction false} WalkErrorLog(s: Snapshot, es: seq<Entry>)
    requires WellIndexed(s)
    ensures AfterWalk(s, es).errorLog == s.errorLog + ErrorLines(es)
  {
    if es != [] {
      var init := es[..|es| - 1];
      WalkErrorLog(s, init);
      WalkFnLogs(AfterWalk(s, init), es[|es| - 1]);
    }
  }

  /** The match step keeps the total equal to the sum of the per-database counters. */
  lemma WorkerPoolActionKeepsValid(s: Snapshot, path: string, read: ReadResult)
    requires Valid(s)
    ensures Valid(AfterWorkerPoolAction(s, path, read))
  {
    var key := Hex.Hex(DigestOf(read));
    WorkerPoolActionEffect(s, path, read);
    if key in s.arrSha1 {
      SumToBump(s.nbSha1Match, s.arrSha1[key], |s.checksumFilenames|);
    }
  }

  lemma WalkFnKeepsValid(s: Snapshot, e: Entry)
    requires Valid(s)
    ensures Valid(AfterWalkFn(s, e))
  {
    if Hashed(e) {
      WorkerPoolActionKeepsValid(s, e.path, e.read);
    }
  }

  /** Across any sequence of entries, the total stays the sum of the per-database
      counters and the database keeps its shape. */
  lemma {:induction false} WalkKeepsValid(s: Snapshot, es: seq<Entry>)
    requires Valid(s)
    ensures Valid(AfterWalk(s, es))
  {
    if es != [] {
      WalkKeepsValid(s, es[..|es| - 1]);
      WalkFnKeepsValid(AfterWalk(s, es[..|es| - 1]), es[|es| - 1]);
    }
  }
}
