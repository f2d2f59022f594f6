/** The scanner's process-wide state as one value: the database of known digests,
    the database file names, the match counters, the scan statistics and the two
    append-only logs. Each global of hscan.go is one field. */
module Model {
  import Text

  /** Database keys are at most this many characters long. */
  const KeyWidth: nat := 40

  /** The shape of every key in the database: not empty, at most 40 characters,
      no upper-case letter. */
  predicate IsKey(k: string) {
    k != [] && |k| <= KeyWidth && Text.NoUpper(k)
  }

  datatype Snapshot = Snapshot(
    arrSha1: map<string, nat>,        // normalised digest -> index of the database file
    checksumFilenames: seq<string>,   // index -> database file name
    nbSha1Match: map<nat, nat>,       // index -> number of matches
    nbTotalSha1Match: nat,
    nbFiles: nat,
    nbDirs: nat,
    nbUnreadableFile: nat,
    matchLog: seq<string>,            // lines appended to hscan_match.log
    errorLog: seq<string>)            // lines appended to hscan_error.log

  /** Every global at its zero value, before the databases are loaded. */
  const Initial: Snapshot := Snapshot(map[], [], map[], 0, 0, 0, 0, [], [])

  /** A counter read from a Go map: a missing index reads as 0. */
  function Count(m: map<nat, nat>, i: nat): nat {
    if i in m then m[i] else 0
  }

  /** The sum of the counters of the indices below n. */
  function SumTo(m: map<nat, nat>, n: nat): nat {
    if n == 0 then 0 else SumTo(m, n - 1) + Count(m, n - 1)
  }

  /** Every database key points at a loaded database file, so the file name of a
      match can be looked up. */
  predicate WellIndexed(s: Snapshot) {
    forall k :: k in s.arrSha1 ==> s.arrSha1[k] < |s.checksumFilenames|
  }

  /** What stays true of the state from the first database load to the end of the scan:
      keys have the normalised shape, indices are in range, and the total match count
      is the sum of the per-database counts. */
  predicate Valid(s: Snapshot) {
    && WellIndexed(s)
    && (forall k :: k in s.arrSha1 ==> IsKey(k))
    && (forall i :: i in s.nbSha1Match ==> i < |s.checksumFilenames|)
    && s.nbTotalSha1Match == SumTo(s.nbSha1Match, |s.checksumFilenames|)
  }

  lemma InitialValid()
    ensures Valid(Initial)
  {
  }

  /** The sum below n does not depend on the counters at n or above. */
  lemma {:induction false} SumToFrame(m: map<nat, nat>, m': map<nat, nat>, n: nat)
    requires forall i :: 0 <= i < n ==> Count(m, i) == Count(m', i)
    ensures SumTo(m, n) == SumTo(m', n)
  {
    if n > 0 {
      SumToFrame(m, m', n - 1);
    }
  }

  /** Bumping one counter below n bumps the sum below n by one. */
  lemma {:induction false} SumToBump(m: map<nat, nat>, j: nat, n: nat)
    requires j < n
    ensures SumTo(m[j := Count(m, j) + 1], n) == SumTo(m, n) + 1
  {
    var m' := m[j := Count(m, j) + 1];
    if j == n - 1 {
      SumToFrame(m, m', n - 1);
    } else {
      SumToBump(m, j, n - 1);
    }
  }

  /** Setting the counter at n to 0 and counting one index further keeps the sum. */
  lemma SumToReset(m: map<nat, nat>, n: nat)
    ensures SumTo(m[n := 0], n + 1) == SumTo(m, n)
  {
    SumToFrame(m, m[n := 0], n);
  }
}
