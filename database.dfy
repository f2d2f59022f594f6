/** Loading the reference hash databases (loadChecksumFile and loadDbFiles in
    hscan.go): each database file is a list of lines, each line is normalised into a
    key, and every key is mapped to the index of the file it came from. */
module Database {
  import Text
  import Hex
  import opened Model

  /** The key a database line yields: trimmed of white space, cut to its first 40
      characters and lower-cased. */
  function NormalizeLine(line: string): string {
    var t := Text.TrimSpace(line);
    Text.ToLower(if |t| > KeyWidth then t[..KeyWidth] else t)
  }

  /** A line yields the empty string exactly when it is blank, and otherwise a string
      with the shape of a database key. */
  lemma NormalizeLineSpec(line: string)
    ensures NormalizeLine(line) == [] <==> Text.AllSpace(line)
    ensures NormalizeLine(line) != [] ==> IsKey(NormalizeLine(line))
  {
    var t := Text.TrimSpace(line);
    Text.TrimSpaceSpec(line);
    Text.ToLowerSpec(if |t| > KeyWidth then t[..KeyWidth] else t);
  }

  predicate AllKeys(ks: seq<string>) {
    forall k :: k in ks ==> IsKey(k)
  }

  /** The keys the lines of one database file yield, in order, duplicates kept and
      blank lines dropped: the keys loadChecksumFile inserts and counts in `cpt`. */
  function Keys(lines: seq<string>): seq<string> {
    if lines == [] then []
    else
      var k := NormalizeLine(lines[|lines| - 1]);
      Keys(lines[..|lines| - 1]) + (if k == [] then [] else [k])
  }

  /** Every key a file yields has the key shape, and there are no more keys than lines. */
  lemma {:induction false} KeysSpec(lines: seq<string>)
    ensures |Keys(lines)| <= |lines|
    ensures AllKeys(Keys(lines))
  {
    if lines != [] {
      KeysSpec(lines[..|lines| - 1]);
      NormalizeLineSpec(lines[|lines| - 1]);
    }
  }

  /** Every non-blank line contributes its key, and nothing but those keys is produced. */
  lemma KeysFromLines(lines: seq<string>)
    ensures forall l :: l in lines && !Text.AllSpace(l) ==> NormalizeLine(l) in Keys(lines)
    ensures forall k :: k in Keys(lines) ==> exists l :: l in lines && NormalizeLine(l) == k
  {
    forall l | l in lines && !Text.AllSpace(l)
      ensures NormalizeLine(l) in Keys(lines)
    {
      KeyOfLine(lines, l);
    }
    forall k | k in Keys(lines)
      ensures exists l :: l in lines && NormalizeLine(l) == k
    {
      LineOfKey(lines, k);
    }
  }

  lemma {:induction false} KeyOfLine(lines: seq<string>, l: string)
    requires l in lines && !Text.AllSpace(l)
    ensures NormalizeLine(l) in Keys(lines)
  {
    var init, last := lines[..|lines| - 1], lines[|lines| - 1];
    assert lines == init + [last];
    if l == last {
      NormalizeLineSpec(l);
    } else {
      assert l in init;
      KeyOfLine(init, l);
    }
  }

  lemma {:induction false} LineOfKey(lines: seq<string>, k: string)
    requires k in Keys(lines)
    ensures exists l :: l in lines && NormalizeLine(l) == k
  {
    var init, last := lines[..|lines| - 1], lines[|lines| - 1];
    assert lines == init + [last];
    if k in Keys(init) {
      LineOfKey(init, k);
      var l :| l in init && NormalizeLine(l) == k;
      assert l in lines;
    } else {
      assert NormalizeLine(last) == k;
      assert last in lines;
    }
  }

  /** The number of keys is the number of non-blank lines. */
  function NonBlank(lines: seq<string>): nat {
    if lines == [] then 0
    else NonBlank(lines[..|lines| - 1]) + (if Text.AllSpace(lines[|lines| - 1]) then 0 else 1)
  }

  lemma {:induction false} KeysCount(lines: seq<string>)
    ensures |Keys(lines)| == NonBlank(lines)
  {
    if lines != [] {
      KeysCount(lines[..|lines| - 1]);
      NormalizeLineSpec(lines[|lines| - 1]);
    }
  }

  /** Inserting the keys one after another, each one overwriting what was there. */
  function Insert(m: map<string, nat>, ks: seq<string>, v: nat): map<string, nat> {
    if ks == [] then m else Insert(m, ks[..|ks| - 1], v)[ks[|ks| - 1] := v]
  }

  /** After the inserts, every inserted key maps to v, every other key keeps its old
      entry, and the map grew by at most the number of inserts. */
  lemma {:induction false} InsertResult(m: map<string, nat>, ks: seq<string>, v: nat)
    ensures forall k :: k in Insert(m, ks, v) <==> k in m || k in ks
    ensures forall k :: k in ks ==> Insert(m, ks, v)[k] == v
    ensures forall k :: k in m && k !in ks ==> Insert(m, ks, v)[k] == m[k]
    ensures |Insert(m, ks, v)| <= |m| + |ks|
  {
    forall k ensures k in Insert(m, ks, v) <==> k in m || k in ks {
      InsertAt(m, ks, v, k);
    }
    forall k | k in Insert(m, ks, v) ensures Insert(m, ks, v)[k] == if k in ks then v else m[k] {
      InsertAt(m, ks, v, k);
    }
    InsertSize(m, ks, v);
  }

  /** One more line: its key, if it has one, is appended. */
  lemma KeysStep(lines: seq<string>, i: nat)
    requires i < |lines|
    ensures NormalizeLine(lines[i]) == [] ==> Keys(lines[..i + 1]) == Keys(lines[..i])
    ensures NormalizeLine(lines[i]) != [] ==> Keys(lines[..i + 1]) == Keys(lines[..i]) + [NormalizeLine(lines[i])]
  {
    assert lines[..i + 1][..i] == lines[..i];
  }

  /** One more key: it is inserted last. */
  lemma InsertStep(m: map<string, nat>, ks: seq<string>, k: string, v: nat)
    ensures Insert(m, ks + [k], v) == Insert(m, ks, v)[k := v]
  {
    assert (ks + [k])[..|ks|] == ks;
  }

  lemma {:induction false} InsertAt(m: map<string, nat>, ks: seq<string>, v: nat, k: string)
    ensures k in Insert(m, ks, v) <==> k in m || k in ks
    ensures k in ks ==> Insert(m, ks, v)[k] == v
    ensures k in m && k !in ks ==> Insert(m, ks, v)[k] == m[k]
  {
    if ks != [] {
      var init, last := ks[..|ks| - 1], ks[|ks| - 1];
      assert ks == init + [last];
      assert k in ks <==> k in init || k == last;
      InsertAt(m, init, v, k);
    }
  }

  lemma {:induction false} InsertSize(m: map<string, nat>, ks: seq<string>, v: nat)
    ensures |Insert(m, ks, v)| <= |m| + |ks|
  {
    if ks != [] {
      var init, last := ks[..|ks| - 1], ks[|ks| - 1];
      InsertSize(m, init, v);
      var p := Insert(m, init, v);
      assert p[last := v].Keys == p.Keys + {last};
    }
  }

  /** One entry of the database directory listing. `isText` stands for the content
      sniffer's verdict that the file is text/plain; `lines` for what the line scanner
      reads from it. */
  datatype DbFile = DbFile(name: string, isDir: bool, isText: bool, lines: seq<string>)

  /** The files loadDbFiles loads: not a directory, and sniffed as plain text. */
  predicate Accepts(f: DbFile) {
    !f.isDir && f.isText
  }

  function Accepted(files: seq<DbFile>): (acc: seq<DbFile>)
    ensures |acc| <= |files|
    ensures forall j :: 0 <= j < |acc| ==> Accepts(acc[j])
  {
    if files == [] then []
    else Accepted(files[..|files| - 1]) + (if Accepts(files[|files| - 1]) then [files[|files| - 1]] else [])
  }

  /** Accepted keeps exactly the accepted entries of the listing: every accepted entry
      is kept, nothing else is, and nothing is kept only when no entry is accepted. */
  lemma {:induction false} AcceptedSpec(files: seq<DbFile>)
    ensures forall f :: f in Accepted(files) <==> f in files && Accepts(f)
    ensures Accepted(files) == [] <==> forall j :: 0 <= j < |files| ==> !Accepts(files[j])
  {
    if files != [] {
      var init, last := files[..|files| - 1], files[|files| - 1];
      AcceptedSpec(init);
      assert files == init + [last];
      forall f ensures f in Accepted(files) <==> f in files && Accepts(f) {
        assert f in files <==> f in init || f == last;
      }
      if Accepted(files) == [] {
        forall j | 0 <= j < |files| ensures !Accepts(files[j]) {
          assert files[j] in files;
        }
      } else {
        var f := Accepted(files)[0];
        assert f in Accepted(files);
        var j :| 0 <= j < |files| && files[j] == f;
      }
    }
  }

  function Names(fs: seq<DbFile>): (names: seq<string>)
    ensures |names| == |fs|
    ensures forall j :: 0 <= j < |fs| ==> names[j] == fs[j].name
  {
    if fs == [] then [] else Names(fs[..|fs| - 1]) + [fs[|fs| - 1].name]
  }

  /** loadChecksumFile(lines, idx): every key of the file is mapped to idx, and the
      match counter of idx starts at 0. */
  function AfterLoadChecksumFile(s: Snapshot, lines: seq<string>, idx: nat): Snapshot {
    s.(arrSha1 := Insert(s.arrSha1, Keys(lines), idx), nbSha1Match := s.nbSha1Match[idx := 0])
  }

  /** loadDbFiles over a listing: each accepted file has its name appended and is
      loaded under the index equal to the number of names before it. The program runs
      it once, on an empty name list, so there the i-th accepted file gets index i, as
      the counter `cpt` starting at 0 gives it; over a state that already holds n names
      the indices count on from n, and the lemmas below are stated for that general
      case (Scanner.LoadDbFiles requires the empty list). */
  function AfterLoadDbFiles(s: Snapshot, files: seq<DbFile>): Snapshot {
    if files == [] then s
    else
      var p := AfterLoadDbFiles(s, files[..|files| - 1]);
      var f := files[|files| - 1];
      if Accepts(f) then
        AfterLoadChecksumFile(p.(checksumFilenames := p.checksumFilenames + [f.name]), f.lines, |p.checksumFilenames|)
      else p
  }

  /** A reference for "last writer wins": the position, among the accepted files, of
      the last one that yields key k. */
  function LastOwner(acc: seq<DbFile>, k: string): (o: Option)
    ensures o.Some? ==> o.value < |acc| && k in Keys(acc[o.value].lines)
  {
    if acc == [] then None
    else if k in Keys(acc[|acc| - 1].lines) then Some(|acc| - 1)
    else LastOwner(acc[..|acc| - 1], k)
  }

  /** LastOwner finds the last owner: no accepted file after it yields k. */
  lemma {:induction false} LastOwnerIsLast(acc: seq<DbFile>, k: string)
    requires LastOwner(acc, k).Some?
    ensures forall j :: LastOwner(acc, k).value < j < |acc| ==> k !in Keys(acc[j].lines)
  {
    if k !in Keys(acc[|acc| - 1].lines) {
      var init := acc[..|acc| - 1];
      var o := LastOwner(init, k);
      assert LastOwner(acc, k) == o;
      LastOwnerIsLast(init, k);
      forall j | o.value < j < |acc| ensures k !in Keys(acc[j].lines) {
        if j < |init| {
          assert init[j] == acc[j];
        }
      }
    }
  }

  /** There is no owner exactly when no accepted file yields k. */
  lemma {:induction false} LastOwnerNone(acc: seq<DbFile>, k: string)
    ensures LastOwner(acc, k).None? <==> forall j :: 0 <= j < |acc| ==> k !in Keys(acc[j].lines)
  {
    if acc != [] && k !in Keys(acc[|acc| - 1].lines) {
      var init := acc[..|acc| - 1];
      assert LastOwner(acc, k) == LastOwner(init, k);
      LastOwnerNone(init, k);
      if LastOwner(init, k).None? {
        forall j | 0 <= j < |acc| ensures k !in Keys(acc[j].lines) {
          if j < |init| {
            assert init[j] == acc[j];
          }
        }
      }
    }
  }

  datatype Option = None | Some(value: nat)

  /** The file names are appended in listing order: the i-th accepted file gets index
      i (counted on from the names already present) and its name is at that index. */
  lemma {:induction false} LoadDbFilesNames(s: Snapshot, files: seq<DbFile>)
    ensures AfterLoadDbFiles(s, files).checksumFilenames == s.checksumFilenames + Names(Accepted(files))
  {
    if files != [] {
      LoadDbFilesNames(s, files[..|files| - 1]);
    }
  }

  /** Loading the listing leaves the scan statistics, the match total and the logs alone. */
  lemma {:induction false} LoadDbFilesFrame(s: Snapshot, files: seq<DbFile>)
    ensures var r := AfterLoadDbFiles(s, files);
      && r.nbTotalSha1Match == s.nbTotalSha1Match && r.nbFiles == s.nbFiles && r.nbDirs == s.nbDirs
      && r.nbUnreadableFile == s.nbUnreadableFile && r.matchLog == s.matchLog && r.errorLog == s.errorLog
  {
    if files != [] {
      LoadDbFilesFrame(s, files[..|files| - 1]);
    }
  }

  /** Each accepted file gets a match counter starting at 0, and no other counter is added. */
  lemma {:induction false} LoadDbFilesCounters(s: Snapshot, files: seq<DbFile>)
    ensures var r := AfterLoadDbFiles(s, files); var n := |s.checksumFilenames|;
      && (forall i :: n <= i < n + |Accepted(files)| ==> i in r.nbSha1Match && r.nbSha1Match[i] == 0)
      && (forall i :: i in r.nbSha1Match <==> i in s.nbSha1Match || n <= i < n + |Accepted(files)|)
      && (forall i :: i in s.nbSha1Match && !(n <= i < n + |Accepted(files)|) ==> r.nbSha1Match[i] == s.nbSha1Match[i])
  {
    if files != [] {
      var init, f := files[..|files| - 1], files[|files| - 1];
      LoadDbFilesCounters(s, init);
      LoadDbFilesNames(s, init);
      var p := AfterLoadDbFiles(s, init);
      var n := |s.checksumFilenames|;
      assert |p.checksumFilenames| == n + |Accepted(init)|;
      if Accepts(f) {
        assert |Accepted(files)| == |Accepted(init)| + 1;
        assert AfterLoadDbFiles(s, files).nbSha1Match == p.nbSha1Match[n + |Accepted(init)| := 0];
      } else {
        assert Accepted(files) == Accepted(init);
        assert AfterLoadDbFiles(s, files) == p;
      }
    }
  }

  /** Last writer wins: a key any accepted file yields maps to the index of the last
      such file; a key none of them yields keeps its old entry or stays absent. */
  lemma LoadDbFilesKeys(s: Snapshot, files: seq<DbFile>)
    ensures var r := AfterLoadDbFiles(s, files); var acc := Accepted(files); var n := |s.checksumFilenames|;
      && (forall k :: k in r.arrSha1 <==> k in s.arrSha1 || LastOwner(acc, k).Some?)
      && (forall k :: LastOwner(acc, k).Some? ==> r.arrSha1[k] == n + LastOwner(acc, k).value)
      && (forall k :: k in s.arrSha1 && LastOwner(acc, k).None? ==> r.arrSha1[k] == s.arrSha1[k])
  {
    forall k {
      LoadDbFilesKeyAt(s, files, k);
    }
  }

  lemma {:induction false} LoadDbFilesKeyAt(s: Snapshot, files: seq<DbFile>, k: string)
    ensures var r := AfterLoadDbFiles(s, files); var o := LastOwner(Accepted(files), k);
      && (k in r.arrSha1 <==> k in s.arrSha1 || o.Some?)
      && (o.Some? ==> k in r.arrSha1 && r.arrSha1[k] == |s.checksumFilenames| + o.value)
      && (k in s.arrSha1 && o.None? ==> k in r.arrSha1 && r.arrSha1[k] == s.arrSha1[k])
  {
    if files != [] {
      var init, f := files[..|files| - 1], files[|files| - 1];
      LoadDbFilesKeyAt(s, init, k);
      LoadDbFilesNames(s, init);
      var p := AfterLoadDbFiles(s, init);
      if Accepts(f) {
        InsertAt(p.arrSha1, Keys(f.lines), |p.checksumFilenames|, k);
        var acc := Accepted(files);
        assert acc == Accepted(init) + [f];
        assert acc[..|acc| - 1] == Accepted(init);
      } else {
        assert Accepted(files) == Accepted(init);
      }
    }
  }

  /** There is no database exactly when the listing holds no accepted file. */
  lemma NoDatabaseOutcome(s: Snapshot, files: seq<DbFile>)
    ensures |AfterLoadDbFiles(s, files).checksumFilenames| == |s.checksumFilenames| <==> Accepted(files) == []
  {
    LoadDbFilesNames(s, files);
  }

  /** One database file keeps the state valid when it is loaded under the index its
      name was just appended at. */
  lemma LoadChecksumFileKeepsValid(s: Snapshot, name: string, lines: seq<string>)
    requires Valid(s)
    ensures Valid(AfterLoadChecksumFile(s.(checksumFilenames := s.checksumFilenames + [name]), lines, |s.checksumFilenames|))
  {
    var n := |s.checksumFilenames|;
    InsertResult(s.arrSha1, Keys(lines), n);
    KeysSpec(lines);
    SumToReset(s.nbSha1Match, n);
  }

  lemma {:induction false} LoadDbFilesKeepsValid(s: Snapshot, files: seq<DbFile>)
    requires Valid(s)
    ensures Valid(AfterLoadDbFiles(s, files))
  {
    if files != [] {
      LoadDbFilesKeepsValid(s, files[..|files| - 1]);
      var p := AfterLoadDbFiles(s, files[..|files| - 1]);
      var f := files[|files| - 1];
      if Accepts(f) {
        LoadChecksumFileKeepsValid(p, f.name, f.lines);
      }
    }
  }

  /** A line that is a digest's key in any letter case, with blank padding on either
      side, yields exactly that key. */
  lemma DigestLineKey(d: Hex.Digest, pre: string, h: string, post: string)
    requires Text.AllSpace(pre) && Text.AllSpace(post)
    requires Text.ToLower(h) == Hex.Hex(d)
    ensures NormalizeLine(pre + h + post) == Hex.Hex(d)
  {
    Text.ToLowerSpec(h);
    NotSpaceWhenHex(h, 0);
    NotSpaceWhenHex(h, |h| - 1);
    Text.TrimSpacePadded(pre, h, post);
  }

  /** A line that starts with a digest's key in any letter case keeps that key whatever
      follows it: everything after the first 40 characters is cut away. */
  lemma DigestLineWithTrailingText(d: Hex.Digest, pre: string, h: string, rest: string)
    requires Text.AllSpace(pre)
    requires Text.ToLower(h) == Hex.Hex(d)
    ensures NormalizeLine(pre + h + rest) == Hex.Hex(d)
  {
    Text.ToLowerSpec(h);
    NotSpaceWhenHex(h, 0);
    NotSpaceWhenHex(h, |h| - 1);
    Text.TrimSpaceKeepsLeadingWord(pre, h, rest);
    var t := Text.TrimSpace(pre + h + rest);
    assert |h| == KeyWidth;
    assert (if |t| > KeyWidth then t[..KeyWidth] else t) == h;
  }

  lemma NotSpaceWhenHex(h: string, i: nat)
    requires i < |h| && Hex.AllLowerHex(Text.ToLower(h))
    ensures !Text.IsSpace(h[i])
  {
    Text.ToLowerSpec(h);
    assert Hex.IsLowerHex(Text.ToLower(h)[i]);
  }

  /** A database line that carries a digest's key puts that key in the database,
      mapped to the index of the file. */
  lemma ListedDigestLoaded(s: Snapshot, lines: seq<string>, idx: nat, d: Hex.Digest, pre: string, h: string, rest: string)
    requires pre + h + rest in lines
    requires Text.AllSpace(pre) && Text.ToLower(h) == Hex.Hex(d)
    ensures var r := AfterLoadChecksumFile(s, lines, idx);
      Hex.Hex(d) in r.arrSha1 && r.arrSha1[Hex.Hex(d)] == idx
  {
    DigestLineWithTrailingText(d, pre, h, rest);
    NormalizeLineSpec(pre + h + rest);
    KeyOfLine(lines, pre + h + rest);
    InsertAt(s.arrSha1, Keys(lines), idx, Hex.Hex(d));
  }

  /** A blank line changes neither the database nor the line count. */
  lemma BlankLineIgnored(s: Snapshot, lines: seq<string>, line: string, idx: nat)
    requires Text.AllSpace(line)
    ensures Keys(lines + [line]) == Keys(lines)
    ensures AfterLoadChecksumFile(s, lines + [line], idx) == AfterLoadChecksumFile(s, lines, idx)
  {
    NormalizeLineSpec(line);
    assert (lines + [line])[..|lines|] == lines;
  }

  /** A line holding exactly one rendered digest. */
  predicate IsKeyLine(line: string) {
    |line| == KeyWidth && Hex.AllLowerHex(line)
  }

  /** A line that is already a 40-digit lower-case hexadecimal key is its own key. */
  lemma KeyLineIsItsKey(line: string)
    requires IsKeyLine(line)
    ensures NormalizeLine(line) == line
  {
    assert !Text.IsSpace(line[0]) && !Text.IsSpace(line[|line| - 1]);
    assert [] + line + [] == line;
    Text.TrimSpacePadded([], line, []);
    assert Text.NoUpper(line) by {
      forall i | 0 <= i < |line| ensures !Text.IsUpper(line[i]) {
        assert Hex.IsLowerHex(line[i]);
      }
    }
    Text.ToLowerFixes(line);
  }

  lemma {:induction false} KeysOfKeyLines(lines: seq<string>)
    requires forall i :: 0 <= i < |lines| ==> IsKeyLine(lines[i])
    ensures Keys(lines) == lines
  {
    if lines != [] {
      var n := |lines| - 1;
      assert lines[..n + 1] == lines == lines[..n] + [lines[n]];
      KeysOfKeyLines(lines[..n]);
      KeyLineIsItsKey(lines[n]);
      KeysStep(lines, n);
      assert Keys(lines) == lines[..n] + [lines[n]];
    }
  }

  /** A file whose lines are n distinct digests, none of them in the database yet,
      adds exactly n keys, each mapped to the file's index. */
  lemma KeyFileLoaded(s: Snapshot, lines: seq<string>, idx: nat)
    requires forall i :: 0 <= i < |lines| ==> IsKeyLine(lines[i])
    requires forall i, j :: 0 <= i < j < |lines| ==> lines[i] != lines[j]
    requires forall i :: 0 <= i < |lines| ==> lines[i] !in s.arrSha1
    ensures var r := AfterLoadChecksumFile(s, lines, idx);
      && (forall l :: l in lines ==> l in r.arrSha1 && r.arrSha1[l] == idx)
      && |r.arrSha1| == |s.arrSha1| + |lines|
  {
    KeysOfKeyLines(lines);
    forall l | l in lines ensures l in Insert(s.arrSha1, lines, idx) && Insert(s.arrSha1, lines, idx)[l] == idx {
      InsertAt(s.arrSha1, lines, idx, l);
    }
    InsertFresh(s.arrSha1, lines, idx);
  }

  lemma {:induction false} InsertFresh(m: map<string, nat>, ks: seq<string>, v: nat)
    requires forall i, j :: 0 <= i < j < |ks| ==> ks[i] != ks[j]
    requires forall i :: 0 <= i < |ks| ==> ks[i] !in m
    ensures |Insert(m, ks, v)| == |m| + |ks|
  {
    if ks != [] {
      var init, last := ks[..|ks| - 1], ks[|ks| - 1];
      InsertFresh(m, init, v);
      InsertAt(m, init, v, last);
      var p := Insert(m, init, v);
      assert last !in init by {
        forall i | 0 <= i < |init| ensures init[i] != last {
          assert init[i] == ks[i];
        }
      }
      assert p[last := v].Keys == p.Keys + {last};
    }
  }
}
