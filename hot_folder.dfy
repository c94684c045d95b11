/**
 * The watcher's scheduler as the main loop runs it: three pieces of state that
 * the scan loop and the job clean-up update in place. Each method is proved
 * against the matching function of ScanRules, where its properties are proved.
 * Jobs run on a thread pool in the watcher; here a scan returns the files it
 * hands to the pool, and the end of a job is a separate call.
 */
module HotFolder {
  import opened Wrappers
  import opened ScanRules

  class Scheduler {
    /** Files handed to the pool whose jobs have not finished. */
    var processing: set<Path>
    /** The (size, mtime) of each file as the last scan that looked at it saw it. */
    var snapshots: map<Path, Stat>
    /** Files that must not be retried before the given time. */
    var nextTryAt: map<Path, int>
    /** `ready_min_age_s`: how long a file must have been left untouched before it is submitted. */
    const readyMinAge: int

    function State(): Sched
      reads this
    {
      Sched(processing, snapshots, nextTryAt)
    }

    constructor (readyMinAge: int)
      ensures State() == Sched({}, map[], map[])
      ensures this.readyMinAge == readyMinAge
    {
      processing := {};
      snapshots := map[];
      nextTryAt := map[];
      this.readyMinAge := readyMinAge;
    }

    /** `_submit`: mark the file as in flight (handing it to the pool is the caller's). */
    method Submit(p: Path)
      modifies this
      ensures processing == old(processing) + {p}
      ensures snapshots == old(snapshots) && nextTryAt == old(nextTryAt)
    {
      processing := processing + {p};
    }

    /** The first loop of a scan: forget what is recorded about snapshotted files that are no longer listed. */
    method DropVanishedFiles(current: set<Path>)
      modifies this
      ensures State() == DropVanished(old(State()), current)
    {
      ghost var s0 := State();
      var known := snapshots.Keys;
      while known != {}
        invariant known <= s0.snapshots.Keys
        invariant processing == s0.processing
        invariant snapshots == s0.snapshots - (s0.snapshots.Keys - known - current)
        invariant nextTryAt == s0.nextTryAt - (s0.snapshots.Keys - known - current)
        decreases known
      {
        var p :| p in known;
        if p !in current {
          snapshots := snapshots - {p};
          nextTryAt := nextTryAt - {p};
        }
        known := known - {p};
      }
    }

    /**
     * The body of the second loop for one listed file: skip it when it is in
     * flight or backed off, skip it when it has vanished, stop the scan when its
     * stat fails otherwise, record its snapshot, and submit it when it is ready.
     */
    method VisitFile(e: Entry, now: int, submitted: seq<Path>) returns (submitted': seq<Path>, failed: bool)
      modifies this
      ensures ScanResult(State(), submitted', failed) == Visit(ScanResult(old(State()), submitted, false), e, now, readyMinAge)
    {
      submitted', failed := submitted, false;
      var p := e.name;
      if p in processing {
        return;
      }
      var retryAt := if p in nextTryAt then nextTryAt[p] else 0;
      if retryAt > now {
        return;
      }
      match e.outcome
      case Vanished =>
        return;
      case Failed =>
        failed := true;
      case Found(st) =>
        var prev := if p in snapshots then Some(snapshots[p]) else None;
        snapshots := snapshots[p := st];
        // Require one earlier scan with the same size and mtime, and a minimum age.
        if prev.None? || prev.value != st || now - st.mtime < readyMinAge {
          return;
        }
        Submit(p);
        submitted' := submitted + [p];
    }

    /**
     * One iteration of the main loop over a listing of the input folder (None
     * when listing it fails). Returns the files submitted, in order, and whether
     * an error ended the scan early.
     */
    method Scan(listing: Option<seq<Entry>>, now: int) returns (submitted: seq<Path>, failed: bool)
      modifies this
      ensures ScanResult(State(), submitted, failed) == Scanned(old(State()), listing, now, readyMinAge)
    {
      submitted, failed := [], false;
      if listing.None? {
        failed := true;
        return;
      }
      var current := Candidates(listing.value);
      DropVanishedFiles(Names(current));

      ghost var start := ScanResult(State(), [], false);
      for i := 0 to |current|
        invariant ScanResult(State(), submitted, false) == Run(start, current[..i], now, readyMinAge)
      {
        RunStep(start, current, i, now, readyMinAge);
        submitted, failed := VisitFile(current[i], now, submitted);
        if failed {
          RunAbortSticks(start, current, i + 1, now, readyMinAge);
          return;
        }
      }
      assert current[..|current|] == current;
    }

    /**
     * `process_wrapper`'s clean-up when a job ends, however it ends: the file
     * leaves `processing`, and if it still exists it is backed off for 30 seconds.
     */
    method Finish(p: Path, stillExists: bool, now: int)
      modifies this
      ensures State() == Finished(old(State()), p, stillExists, now)
    {
      processing := processing - {p};
      if stillExists {
        nextTryAt := nextTryAt[p := now + RetryBackoff];
      }
    }
  }
}
