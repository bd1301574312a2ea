/**
 * `wait_for_download_completion` (utils.py lines 43-143): polls a download
 * directory until a file that was not in the baseline, and whose name does
 * not mark an unfinished transfer, keeps the same non-zero size for five
 * consecutive readings.
 *
 * The clock, the directory listings, the modification times and the size
 * readings are the environment's answers, given as functions of the poll
 * number: `elapsed(k)` is the time since the start at the k-th loop test,
 * `scans(k)` what the k-th pass of the outer loop saw, and `sizes(j)` the
 * j-th `getsize` of the stability phase.
 */
module Detector {
  import opened Text
  import opened Paths
  import opened Wrappers

  /** The listing of one pass (in iteration order) and the mtimes it could read. */
  datatype Scan = Scan(listing: seq<string>, mtimes: map<string, int>)

  /** One `os.path.getsize` call: a size, or an `OSError`. */
  datatype Reading = Size(bytes: nat) | ReadError

  /** `stable_size_checks` and `last_known_size`. */
  datatype Stability = Stability(checks: nat, last: int)

  const PartialSuffixes: seq<string> :=
    [".crdownload", ".part", ".tmp", ".torrent", ".download", ".inprogress"]
  const StabilityAttempts: nat := 25
  const StableReadings: nat := 5

  /** The lower-cased name ends with one of the in-progress suffixes. */
  predicate IsPartial(name: string)
  {
    exists suffix :: suffix in PartialSuffixes && EndsWith(Lower(name), suffix)
  }

  /** `new_completed_files`: new names, in listing order, without the in-progress ones. */
  function NewCompleted(listing: seq<string>, initial: set<string>): (r: seq<string>)
    ensures forall i :: 0 <= i < |r| ==> r[i] in listing && r[i] !in initial && !IsPartial(r[i])
    ensures forall n :: n in listing && n !in initial && !IsPartial(n) ==> n in r
  {
    if listing == [] then []
    else
      var rest := NewCompleted(listing[1..], initial);
      var n := listing[0];
      if n !in initial && !IsPartial(n) then [n] + rest else rest
  }

  /** The candidate with the largest mtime, the first one in the list among equals. */
  predicate IsNewest(names: seq<string>, mtimes: map<string, int>, n: string)
  {
    n in mtimes &&
    (forall i :: 0 <= i < |names| && names[i] in mtimes ==> mtimes[names[i]] <= mtimes[n]) &&
    exists j :: 0 <= j < |names| && names[j] == n &&
      forall i :: 0 <= i < j && names[i] in mtimes ==> mtimes[names[i]] < mtimes[n]
  }

  /**
   * The first element of `candidate_files_with_mtime` after its stable
   * descending sort, as a name: names whose mtime could not be read are skipped.
   */
  function Newest(names: seq<string>, mtimes: map<string, int>): (r: Option<string>)
    ensures r.None? <==> forall i :: 0 <= i < |names| ==> names[i] !in mtimes
    ensures r.Some? ==> r.value in mtimes
  {
    if names == [] then None
    else
      var init := names[..|names| - 1];
      var last := names[|names| - 1];
      var best := Newest(init, mtimes);
      if last in mtimes && (best.None? || mtimes[best.value] < mtimes[last]) then
        Some(last)
      else
        best
  }

  /** What `Newest` finds has the largest mtime and is the first among equals. */
  lemma {:induction false} NewestIsNewest(names: seq<string>, mtimes: map<string, int>)
    ensures Newest(names, mtimes).Some? ==> IsNewest(names, mtimes, Newest(names, mtimes).value)
    decreases |names|
  {
    if names != [] {
      var init := names[..|names| - 1];
      var last := names[|names| - 1];
      var best := Newest(init, mtimes);
      NewestIsNewest(init, mtimes);
      if last in mtimes && (best.None? || mtimes[best.value] < mtimes[last]) {
        forall i | 0 <= i < |names| - 1 && names[i] in mtimes
          ensures mtimes[names[i]] < mtimes[last]
        {
          assert names[i] == init[i];
        }
        assert names[|names| - 1] == last;
      } else if best.Some? {
        var n := best.value;
        var j :| 0 <= j < |init| && init[j] == n &&
          forall i :: 0 <= i < j && init[i] in mtimes ==> mtimes[init[i]] < mtimes[n];
        forall i | 0 <= i < j && names[i] in mtimes ensures mtimes[names[i]] < mtimes[n] {
          assert names[i] == init[i];
        }
        forall i | 0 <= i < |names| && names[i] in mtimes ensures mtimes[names[i]] <= mtimes[n] {
          if i < |names| - 1 { assert names[i] == init[i]; }
        }
        assert names[j] == n;
      }
    }
  }

  /**
   * The candidate loop and the sort of utils.py lines 83-99: the path of
   * the newest readable candidate, or None when no mtime could be read.
   */
  method SelectCandidate(dir: string, names: seq<string>, mtimes: map<string, int>)
    returns (r: Option<string>)
    ensures r.None? <==> forall i :: 0 <= i < |names| ==> names[i] !in mtimes
    ensures r.Some? ==> exists n :: r.value == Join(dir, n) && IsNewest(names, mtimes, n)
    ensures r == Chosen(dir, Newest(names, mtimes))
  {
    NewestIsNewest(names, mtimes);
    var best: Option<string> := None;
    var bestTime := 0;
    var i := 0;
    while i < |names|
      invariant 0 <= i <= |names|
      invariant best == Newest(names[..i], mtimes)
      invariant best.Some? ==> bestTime == mtimes[best.value]
    {
      assert names[..i + 1][..i] == names[..i];
      var n := names[i];
      if n in mtimes && (best.None? || bestTime < mtimes[n]) {
        best := Some(n);
        bestTime := mtimes[n];
      }
      i := i + 1;
    }
    assert names[..i] == names;
    r := Chosen(dir, best);
  }

  function Chosen(dir: string, n: Option<string>): Option<string>
  {
    match n
    case None => None
    case Some(name) => Some(Join(dir, name))
  }

  /** One tick of the stability loop, utils.py lines 107-130. */
  function Step(st: Stability, reading: Reading): (r: Stability)
    ensures r.checks <= st.checks + 1
    ensures r.checks > 0 ==> reading.Size? && reading.bytes > 0 && r.last == reading.bytes
    ensures reading.Size? ==> r.last == reading.bytes
    ensures reading.ReadError? ==> r.checks == 0 && r.last == st.last
  {
    match reading
    case ReadError => Stability(0, st.last)
    case Size(n) =>
      if n > 0 && n == st.last then Stability(st.checks + 1, st.last)
      else Stability(if n > 0 then 1 else 0, n)
  }

  /** The counter after the first `n` readings, starting from `(0, -1)`. */
  function Counter(sizes: nat -> Reading, n: nat): (r: Stability)
    ensures r.checks <= n
    ensures r.checks > 0 ==> sizes(n - 1).Size? && sizes(n - 1).bytes > 0 && r.last == sizes(n - 1).bytes
  {
    if n == 0 then Stability(0, -1) else Step(Counter(sizes, n - 1), sizes(n - 1))
  }

  /** Readings `end - k .. end - 1` are all the same non-zero size. */
  predicate SteadyRun(sizes: nat -> Reading, end: nat, k: nat)
  {
    1 <= k <= end && sizes(end - 1).Size? && sizes(end - 1).bytes > 0 &&
    forall i :: end - k <= i < end ==> sizes(i) == sizes(end - 1)
  }

  /** Within the first `limit` readings, five in a row show the same non-zero size. */
  predicate SettledBy(sizes: nat -> Reading, limit: nat)
  {
    exists end :: StableReadings <= end <= limit && SteadyRun(sizes, end, StableReadings)
  }

  /**
   * A positive counter value `k` means the last `k` readings were all the
   * same non-zero size, which is the size the counter remembers.
   */
  lemma {:induction false} CounterSound(sizes: nat -> Reading, n: nat)
    requires Counter(sizes, n).checks >= 1
    ensures SteadyRun(sizes, n, Counter(sizes, n).checks)
    ensures sizes(n - 1) == Size(Counter(sizes, n).last)
  {
    var prev := Counter(sizes, n - 1);
    var cur := Counter(sizes, n);
    if prev.checks >= 1 && cur.checks == prev.checks + 1 {
      CounterSound(sizes, n - 1);
    }
  }

  /** Conversely, `k` equal non-zero readings in a row drive the counter to at least `k`. */
  lemma {:induction false} CounterComplete(sizes: nat -> Reading, n: nat, k: nat)
    requires SteadyRun(sizes, n, k)
    ensures Counter(sizes, n).checks >= k
    ensures Counter(sizes, n).last == sizes(n - 1).bytes
  {
    if k > 1 {
      CounterComplete(sizes, n - 1, k - 1);
    }
  }

  /**
   * The stability loop of utils.py lines 103-136: at most 25 readings,
   * success as soon as the counter reaches 5.
   */
  method AwaitStableSize(sizes: nat -> Reading) returns (stable: bool)
    ensures stable <==> SettledBy(sizes, StabilityAttempts)
  {
    var checks: nat := 0;
    var last: int := -1;
    for attempt := 0 to StabilityAttempts
      invariant Stability(checks, last) == Counter(sizes, attempt)
      invariant forall j :: 1 <= j <= attempt ==> Counter(sizes, j).checks < StableReadings
    {
      match sizes(attempt)
      case ReadError =>
        checks := 0;
      case Size(current) =>
        if current > 0 && current == last {
          checks := checks + 1;
          if checks >= StableReadings {
            CounterSound(sizes, attempt + 1);
            assert SteadyRun(sizes, attempt + 1, StableReadings);
            return true;
          }
        } else {
          checks := if current > 0 then 1 else 0;
          last := current;
        }
    }
    if SettledBy(sizes, StabilityAttempts) {
      var end :| StableReadings <= end <= StabilityAttempts && SteadyRun(sizes, end, StableReadings);
      CounterComplete(sizes, end, StableReadings);
      assert false;
    }
    return false;
  }

  /** The clock advances at every pass (each pass sleeps at least a second). */
  ghost predicate Ticking(elapsed: nat -> int)
  {
    forall i: nat, j: nat :: i < j ==> elapsed(i) < elapsed(j)
  }

  /** The outcome of the polling loop from pass `k` on. */
  ghost function Detect(dir: string, initial: set<string>, timeout: int,
                        elapsed: nat -> int, scans: nat -> Scan, sizes: nat -> Reading,
                        k: nat): Option<string>
    requires Ticking(elapsed)
    decreases timeout - elapsed(k)
  {
    if elapsed(k) >= timeout then None
    else
      match Newest(NewCompleted(scans(k).listing, initial), scans(k).mtimes)
      case None =>
        assert elapsed(k) < elapsed(k + 1);
        Detect(dir, initial, timeout, elapsed, scans, sizes, k + 1)
      case Some(n) =>
        if SettledBy(sizes, StabilityAttempts) then Some(Join(dir, n)) else None
  }

  /** `wait_for_download_completion(download_dir, initial_files, timeout)`. */
  method WaitForDownloadCompletion(dir: string, initial: set<string>, timeout: int,
                                   elapsed: nat -> int, scans: nat -> Scan, sizes: nat -> Reading)
    returns (r: Option<string>)
    requires Ticking(elapsed)
    ensures r == Detect(dir, initial, timeout, elapsed, scans, sizes, 0)
  {
    var k: nat := 0;
    while elapsed(k) < timeout
      invariant Detect(dir, initial, timeout, elapsed, scans, sizes, 0)
             == Detect(dir, initial, timeout, elapsed, scans, sizes, k)
      decreases timeout - elapsed(k)
    {
      var newFiles := NewCompleted(scans(k).listing, initial);
      if newFiles != [] {
        var path := SelectCandidate(dir, newFiles, scans(k).mtimes);
        if path.Some? {
          var stable := AwaitStableSize(sizes);
          if stable {
            return path;
          }
          return None;
        }
      }
      assert elapsed(k) < elapsed(k + 1);
      k := k + 1;
    }
    return None;
  }

  /** Name `n` is what pass `scan` selects: new, finished, readable and newest. */
  predicate Selected(scan: Scan, initial: set<string>, n: string)
  {
    n in scan.listing && n !in initial && !IsPartial(n) && n in scan.mtimes &&
    forall m :: m in scan.listing && m !in initial && !IsPartial(m) && m in scan.mtimes ==>
      scan.mtimes[m] <= scan.mtimes[n]
  }

  /**
   * A returned path is the directory joined with a name that some pass
   * before the timeout selected (never an in-progress name), and the size
   * readings held five equal non-zero values within 25 attempts.
   */
  lemma {:induction false} DetectSound(dir: string, initial: set<string>, timeout: int,
                                       elapsed: nat -> int, scans: nat -> Scan,
                                       sizes: nat -> Reading, k: nat, p: string)
    requires Ticking(elapsed)
    requires Detect(dir, initial, timeout, elapsed, scans, sizes, k) == Some(p)
    ensures SettledBy(sizes, StabilityAttempts)
    ensures exists j: nat, n :: k <= j && elapsed(j) < timeout && p == Join(dir, n) &&
                                Selected(scans(j), initial, n)
    decreases timeout - elapsed(k)
  {
    var newFiles := NewCompleted(scans(k).listing, initial);
    match Newest(newFiles, scans(k).mtimes)
    case None =>
      assert elapsed(k) < elapsed(k + 1);
      DetectSound(dir, initial, timeout, elapsed, scans, sizes, k + 1, p);
    case Some(n) =>
      NewestIsNewest(newFiles, scans(k).mtimes);
      assert Selected(scans(k), initial, n) by {
        forall m | m in scans(k).listing && m !in initial && !IsPartial(m) && m in scans(k).mtimes
          ensures scans(k).mtimes[m] <= scans(k).mtimes[n]
        {
          var i :| 0 <= i < |newFiles| && newFiles[i] == m;
        }
      }
  }

  /**
   * Once the stability phase fails, the call fails: no other candidate is
   * tried, whatever later passes would have seen.
   */
  lemma {:induction false} DetectUnsettled(dir: string, initial: set<string>, timeout: int,
                                           elapsed: nat -> int, scans: nat -> Scan,
                                           sizes: nat -> Reading, k: nat)
    requires Ticking(elapsed)
    requires !SettledBy(sizes, StabilityAttempts)
    ensures Detect(dir, initial, timeout, elapsed, scans, sizes, k) == None
    decreases timeout - elapsed(k)
  {
    if elapsed(k) < timeout {
      assert elapsed(k) < elapsed(k + 1);
      DetectUnsettled(dir, initial, timeout, elapsed, scans, sizes, k + 1);
    }
  }

  /**
   * If no pass before the timeout sees a new finished file whose mtime can
   * be read (for instance, only `.crdownload` files appear), the result is None.
   */
  lemma {:induction false} DetectTimeout(dir: string, initial: set<string>, timeout: int,
                                         elapsed: nat -> int, scans: nat -> Scan,
                                         sizes: nat -> Reading, k: nat)
    requires Ticking(elapsed)
    requires forall j: nat :: k <= j && elapsed(j) < timeout ==>
               forall n :: n in scans(j).listing && n !in initial && !IsPartial(n) ==>
                 n !in scans(j).mtimes
    ensures Detect(dir, initial, timeout, elapsed, scans, sizes, k) == None
    decreases timeout - elapsed(k)
  {
    if elapsed(k) < timeout {
      var newFiles := NewCompleted(scans(k).listing, initial);
      assert Newest(newFiles, scans(k).mtimes) == None;
      assert elapsed(k) < elapsed(k + 1);
      DetectTimeout(dir, initial, timeout, elapsed, scans, sizes, k + 1);
    }
  }

  /**
   * Conversely, if pass `j` is the first before the timeout to select a
   * file and the readings settle, that file's path is returned.
   */
  lemma {:induction false} DetectComplete(dir: string, initial: set<string>, timeout: int,
                                          elapsed: nat -> int, scans: nat -> Scan,
                                          sizes: nat -> Reading, k: nat, j: nat)
    requires Ticking(elapsed)
    requires k <= j && elapsed(j) < timeout
    requires forall i: nat :: k <= i < j ==>
               Newest(NewCompleted(scans(i).listing, initial), scans(i).mtimes).None?
    requires Newest(NewCompleted(scans(j).listing, initial), scans(j).mtimes).Some?
    requires SettledBy(sizes, StabilityAttempts)
    ensures Detect(dir, initial, timeout, elapsed, scans, sizes, k)
         == Some(Join(dir, Newest(NewCompleted(scans(j).listing, initial), scans(j).mtimes).value))
    decreases j - k
  {
    if k < j {
      assert elapsed(k) < elapsed(k + 1);
      DetectComplete(dir, initial, timeout, elapsed, scans, sizes, k + 1, j);
    }
  }
}
