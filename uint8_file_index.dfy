/** loadDbFiles as written counts the accepted database files in a uint8 and uses that
    counter both as the index of the file being loaded and as the "no database" test.
    With 256 or more text files the counter wraps around. The rest of the model uses
    the counter without wrap-around (Database.AfterLoadDbFiles, Scanner.LoadDbFiles). */
module Uint8FileIndex {
  import Text
  import opened Model
  import opened Database

  newtype uint8 = x: int | 0 <= x < 256

  /** `cpt++` on a uint8. */
  function Inc(c: uint8): uint8 {
    ((c as int + 1) % 256) as uint8
  }

  /** The value of `cpt` after the loop over the listing. */
  function Counter(files: seq<DbFile>): uint8 {
    if files == [] then 0
    else
      var c := Counter(files[..|files| - 1]);
      if Accepts(files[|files| - 1]) then Inc(c) else c
  }

  /** The counter holds the number of accepted files modulo 256. */
  lemma {:induction false} CounterWraps(files: seq<DbFile>)
    ensures Counter(files) as int == |Accepted(files)| % 256
  {
    if files != [] {
      var init := files[..|files| - 1];
      CounterWraps(init);
      if Accepts(files[|files| - 1]) {
        assert |Accepted(files)| == |Accepted(init)| + 1;
        WrapStep(|Accepted(init)|);
      } else {
        assert Accepted(files) == Accepted(init);
      }
    }
  }

  lemma WrapStep(n: nat)
    ensures (n % 256 + 1) % 256 == (n + 1) % 256
  {
  }

  /** The test `cpt == 0` as written. */
  predicate NoDatabaseAsWritten(files: seq<DbFile>) {
    Counter(files) == 0
  }

  /** loadDbFiles as written: the index a file is loaded under is the uint8 counter. */
  function AfterLoadDbFilesAsWritten(s: Snapshot, files: seq<DbFile>): Snapshot {
    if files == [] then s
    else
      var init, f := files[..|files| - 1], files[|files| - 1];
      var p := AfterLoadDbFilesAsWritten(s, init);
      if Accepts(f) then
        AfterLoadChecksumFile(p.(checksumFilenames := p.checksumFilenames + [f.name]), f.lines, Counter(init) as nat)
      else p
  }

  /** The names are appended as in the corrected model; only the indices differ. */
  lemma {:induction false} AsWrittenNames(s: Snapshot, files: seq<DbFile>)
    ensures AfterLoadDbFilesAsWritten(s, files).checksumFilenames == s.checksumFilenames + Names(Accepted(files))
  {
    if files != [] {
      AsWrittenNames(s, files[..|files| - 1]);
    }
  }

  lemma {:induction false} AcceptedAll(files: seq<DbFile>)
    requires forall i :: 0 <= i < |files| ==> Accepts(files[i])
    ensures Accepted(files) == files
  {
    if files != [] {
      AcceptedAll(files[..|files| - 1]);
    }
  }

  /** Distinct names "aa.txt", "ab.txt", ... for up to 260 files, in the sorted order
      of a directory listing. */
  function DbName(i: nat): string
    requires i < 260
  {
    [('a' as int + i / 26) as char, ('a' as int + i % 26) as char] + ".txt"
  }

  /** A listing of n empty text files. */
  function TextFiles(n: nat): seq<DbFile>
    requires n <= 260
  {
    seq(n, i requires 0 <= i < n => DbFile(DbName(i), false, true, []))
  }

  /** With 256 text files the program as written reports that there is no database,
      while the corrected test sees all 256. */
  lemma ManyDatabasesReportedAsNone()
    ensures NoDatabaseAsWritten(TextFiles(256))
    ensures |Accepted(TextFiles(256))| == 256
    ensures |AfterLoadDbFiles(Initial, TextFiles(256)).checksumFilenames| == 256
  {
    AcceptedAll(TextFiles(256));
    CounterWraps(TextFiles(256));
    LoadDbFilesNames(Initial, TextFiles(256));
  }

  /** After 256 text files, a 257th one is loaded under index 0 as written: its keys are
      reported as matches of the first file's name. The corrected load maps them to
      index 256, where the 257th name is. */
  lemma KeysOfFile257Misattributed(line: string)
    requires !Text.AllSpace(line)
    ensures var files := TextFiles(256) + [DbFile("zz.txt", false, true, [line])];
      var k := NormalizeLine(line);
      var asWritten := AfterLoadDbFilesAsWritten(Initial, files);
      var corrected := AfterLoadDbFiles(Initial, files);
      && |asWritten.checksumFilenames| == 257
      && asWritten.checksumFilenames[0] == "aa.txt" && asWritten.checksumFilenames[256] == "zz.txt"
      && k in asWritten.arrSha1 && asWritten.arrSha1[k] == 0
      && corrected.checksumFilenames == asWritten.checksumFilenames
      && k in corrected.arrSha1 && corrected.arrSha1[k] == 256
  {
    var pre, last := TextFiles(256), DbFile("zz.txt", false, true, [line]);
    var files := pre + [last];
    assert files[..|files| - 1] == pre;
    AcceptedAll(pre);
    AcceptedAll(files);
    CounterWraps(pre);
    AsWrittenNames(Initial, files);
    LoadDbFilesNames(Initial, files);
    LoadDbFilesNames(Initial, pre);
    NormalizeLineSpec(line);
    KeyOfLine([line], line);
    var k := NormalizeLine(line);
    var p := AfterLoadDbFilesAsWritten(Initial, pre);
    InsertAt(p.arrSha1, Keys([line]), 0, k);
    var q := AfterLoadDbFiles(Initial, pre);
    InsertAt(q.arrSha1, Keys([line]), 256, k);
  }
}
