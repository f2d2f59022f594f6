/** The scanner as hscan.go writes it: the globals are the fields of one object, and
    each function of the program that updates them is a method proved to do what the
    matching function of Database or Scan describes. */
module HScan {
  import Text
  import Hex
  import opened Model
  import opened Database
  import opened Scan

  class Scanner {
    var arrSha1: map<string, nat>
    var checksumFilenames: seq<string>
    var nbSha1Match: map<nat, nat>
    var nbTotalSha1Match: nat
    var nbFiles: nat
    var nbDirs: nat
    var nbUnreadableFile: nat
    var matchLog: seq<string>  // what has been written to hscan_match.log
    var errorLog: seq<string>  // what has been written to hscan_error.log

    function State(): Snapshot
      reads this
    {
      Snapshot(arrSha1, checksumFilenames, nbSha1Match, nbTotalSha1Match, nbFiles, nbDirs, nbUnreadableFile, matchLog, errorLog)
    }

    predicate Valid()
      reads this
    {
      Model.Valid(State())
    }

    /** The globals at their zero values, with both logs empty. */
    constructor ()
      ensures State() == Initial && Valid()
    {
      arrSha1, checksumFilenames, nbSha1Match := map[], [], map[];
      nbTotalSha1Match, nbFiles, nbDirs, nbUnreadableFile := 0, 0, 0, 0;
      matchLog, errorLog := [], [];
      InitialValid();
    }

    method WriteSha1Log(line: string)
      modifies this
      ensures State() == old(State()).(matchLog := old(matchLog) + [line])
    {
      matchLog := matchLog + [line];
    }

    method WriteErrorLog(line: string)
      modifies this
      ensures State() == old(State()).(errorLog := old(errorLog) + [line])
    {
      errorLog := errorLog + [line];
    }

    /** sha1sum; `read` stands for reading the file and hashing what was read. */
    method Sha1Sum(filename: string, read: ReadResult) returns (digest: Hex.Digest)
      modifies this
      ensures State() == AfterSha1Sum(old(State()), filename, read).state
      ensures digest == AfterSha1Sum(old(State()), filename, read).digest
    {
      match read
      case ReadError(cause) =>
        WriteErrorLog("could not sha1sum file " + Text.Quote(filename) + ": " + cause + "\n");
        nbUnreadableFile := nbUnreadableFile + 1;
        digest := Hex.ZeroDigest();
      case Contents(d) =>
        digest := d;
    }

    method WorkerPoolAction(filename: string, read: ReadResult)
      requires WellIndexed(State())
      modifies this
      ensures State() == AfterWorkerPoolAction(old(State()), filename, read)
      ensures old(Valid()) ==> Valid()
    {
      var bSha1 := Sha1Sum(filename, read);
      ghost var t := State();
      var sSha1 := Hex.Hex(bSha1);
      if sSha1 in arrSha1 {
        var idx := arrSha1[sSha1];
        WriteSha1Log(sSha1 + " " + checksumFilenames[idx] + " " + filename + "\n");
        nbSha1Match := nbSha1Match[idx := Count(nbSha1Match, idx) + 1];
        nbTotalSha1Match := nbTotalSha1Match + 1;
      }
      assert State() == AfterLookup(t, filename, sSha1);
      if old(Valid()) {
        WorkerPoolActionKeepsValid(old(State()), filename, read);
      }
    }

    /** The task walkFn submits for a file of the given size. */
    method Task(path: string, size: int, read: ReadResult)
      requires WellIndexed(State())
      modifies this
      ensures State() == AfterTask(old(State()), path, size, read)
      ensures old(Valid()) ==> Valid()
    {
      if size > MaxFileSize {
        WriteErrorLog("skip file size > 238 Mb : " + Text.Quote(path) + "\n");
        return;
      }
      WorkerPoolAction(path, read);
    }

    method WalkFn(e: Entry)
      requires WellIndexed(State())
      modifies this
      ensures State() == AfterWalkFn(old(State()), e)
      ensures old(Valid()) ==> Valid()
    {
      if old(Valid()) {
        WalkFnKeepsValid(State(), e);
      }
      if e.isDir {
        nbDirs := nbDirs + 1;
        return;
      }
      if !e.isSymlink && e.size > 0 {
        Task(e.path, e.size, e.read);
        nbFiles := nbFiles + 1;
      }
    }

    /** The walk over the entries, each task run to completion before the next entry:
        walker.Walk followed by the wait for the worker pool. */
    method Walk(entries: seq<Entry>)
      requires WellIndexed(State())
      modifies this
      ensures State() == AfterWalk(old(State()), entries)
      ensures old(Valid()) ==> Valid()
    {
      var i := 0;
      while i < |entries|
        invariant 0 <= i <= |entries|
        invariant State() == AfterWalk(old(State()), entries[..i])
      {
        assert entries[..i + 1][..i] == entries[..i];
        WalkFn(entries[i]);
        i := i + 1;
      }
      assert entries[..|entries|] == entries;
      if old(Valid()) {
        WalkKeepsValid(old(State()), entries);
      }
    }

    /** loadChecksumFile: normalise each line, map every non-blank result to idx, count
        them in `cpt`, then start the match counter of idx at 0. */
    method LoadChecksumFile(lines: seq<string>, idx: nat) returns (cpt: nat)
      modifies this
      ensures State() == AfterLoadChecksumFile(old(State()), lines, idx)
      ensures cpt == |Keys(lines)| == NonBlank(lines)
    {
      cpt := 0;
      var i := 0;
      while i < |lines|
        invariant 0 <= i <= |lines|
        invariant arrSha1 == Insert(old(arrSha1), Keys(lines[..i]), idx)
        invariant cpt == |Keys(lines[..i])|
        invariant State() == old(State()).(arrSha1 := arrSha1)
      {
        KeysStep(lines, i);
        var l := Text.TrimSpace(lines[i]);
        if |l| > KeyWidth {
          l := l[..KeyWidth];
        }
        l := Text.ToLower(l);
        assert l == NormalizeLine(lines[i]);
        if l != "" {
          InsertStep(old(arrSha1), Keys(lines[..i]), l, idx);
          arrSha1 := arrSha1[l := idx];
          cpt := cpt + 1;
        }
        i := i + 1;
      }
      assert lines[..|lines|] == lines;
      nbSha1Match := nbSha1Match[idx := 0];
      KeysCount(lines);
    }

    /** loadDbFiles over a directory listing: every accepted file has its name appended
        and is loaded under the next index. `noDatabase` is the program's "No database
        text file found" exit. */
    method LoadDbFiles(files: seq<DbFile>) returns (noDatabase: bool)
      requires checksumFilenames == []
      modifies this
      ensures State() == AfterLoadDbFiles(old(State()), files)
      ensures noDatabase <==> Accepted(files) == []
      ensures old(Valid()) ==> Valid()
    {
      var cpt: nat := 0;
      var i := 0;
      while i < |files|
        invariant 0 <= i <= |files|
        invariant State() == AfterLoadDbFiles(old(State()), files[..i])
        invariant cpt == |checksumFilenames|
      {
        assert files[..i + 1][..i] == files[..i];
        var file := files[i];
        if !file.isDir && file.isText {
          checksumFilenames := checksumFilenames + [file.name];
          var lineCount := LoadChecksumFile(file.lines, cpt);
          cpt := cpt + 1;
        }
        i := i + 1;
      }
      assert files[..|files|] == files;
      noDatabase := cpt == 0;
      NoDatabaseOutcome(old(State()), files);
      if old(Valid()) {
        LoadDbFilesKeepsValid(old(State()), files);
      }
    }

    /** The program from a fresh start: load the databases, stop when there is none,
        otherwise scan the entries. */
    method Run(db: seq<DbFile>, entries: seq<Entry>) returns (noDatabase: bool)
      requires State() == Initial
      modifies this
      ensures noDatabase <==> Accepted(db) == []
      ensures noDatabase ==> State() == AfterLoadDbFiles(Initial, db)
      ensures !noDatabase ==> Model.Valid(AfterLoadDbFiles(Initial, db))
      ensures !noDatabase ==> State() == AfterWalk(AfterLoadDbFiles(Initial, db), entries)
      ensures Valid()
    {
      InitialValid();
      noDatabase := LoadDbFiles(db);
      if noDatabase {
        return;
      }
      Walk(entries);
    }
  }

  /** The state at the end of a run: the databases' names in listing order, the scan
      statistics counted over the entries, a total that is both the number of logged
      matches and the sum of the per-database counters, and both logs holding exactly
      the lines of the entries, in entry order. */
  lemma RunReport(db: seq<DbFile>, entries: seq<Entry>)
    ensures var loaded := AfterLoadDbFiles(Initial, db);
      Model.Valid(loaded) &&
      var r := AfterWalk(loaded, entries);
      && Model.Valid(r)
      && r.checksumFilenames == Names(Accepted(db))
      && r.nbDirs == CountIf(entries, Directory)
      && r.nbFiles == CountIf(entries, Submitted)
      && r.nbUnreadableFile == CountIf(entries, UnreadableFile)
      && |r.errorLog| == CountIf(entries, ErrorLogged)
      && r.nbTotalSha1Match == |r.matchLog| == CountIf(entries, Match(loaded.arrSha1))
      && r.nbTotalSha1Match == SumTo(r.nbSha1Match, |Accepted(db)|)
      && r.matchLog == MatchLines(loaded.arrSha1, Names(Accepted(db)), entries)
      && r.errorLog == ErrorLines(entries)
  {
    var loaded := AfterLoadDbFiles(Initial, db);
    InitialValid();
    LoadDbFilesKeepsValid(Initial, db);
    LoadDbFilesNames(Initial, db);
    LoadDbFilesFrame(Initial, db);
    WalkCounts(loaded, entries);
    WalkKeepsValid(loaded, entries);
    WalkMatchLog(loaded, entries);
    WalkErrorLog(loaded, entries);
  }
}
