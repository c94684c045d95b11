/**
 * The hot-folder scheduling rule of the watcher's main loop, as pure functions:
 * what one scan of the input folder does to the bookkeeping (files in flight,
 * the last (size, mtime) seen of each file, and the per-file retry time), which
 * files it submits for compression, and what the clean-up after a job does.
 * Files are named by their name in the input folder; time is whole seconds.
 */
module ScanRules {
  import opened Wrappers
  import opened Paths

  type Path = string

  /** Seconds a file that is still present waits after its job ends, successful or not. */
  const RetryBackoff := 30

  /** What `stat` reports: size in bytes and modification time. */
  datatype Stat = Stat(size: nat, mtime: int)

  /**
   * The result of `p.stat()` at the moment the scan reaches the file: a stat,
   * FileNotFoundError (the file went away), or any other error, which escapes
   * the scan and ends it early.
   */
  datatype StatOutcome = Found(stat: Stat) | Vanished | Failed

  /** One entry of the input folder's listing, with the outcome of `is_file()` and of `stat()`. */
  datatype Entry = Entry(name: Path, isFile: bool, outcome: StatOutcome)

  /** The watcher's bookkeeping: `processing`, `snapshots` and `next_try_at`. */
  datatype Sched = Sched(processing: set<Path>, snapshots: map<Path, Stat>, nextTryAt: map<Path, int>)

  /** The state after (part of) a scan, the files submitted so far, and whether an error cut it short. */
  datatype ScanResult = ScanResult(state: Sched, submitted: seq<Path>, aborted: bool)

  /** `_is_candidate`: a regular file whose name does not start with a dot. */
  predicate IsCandidate(e: Entry) {
    e.isFile && !IsHidden(e.name)
  }

  /** `current`: the candidates among the listed entries, in listing order. */
  function Candidates(listing: seq<Entry>): (r: seq<Entry>)
    ensures |r| <= |listing|
    ensures forall i :: 0 <= i < |r| ==> IsCandidate(r[i]) && r[i] in listing
    ensures forall e :: e in listing && IsCandidate(e) ==> e in r
    decreases |listing|
  {
    if listing == [] then []
    else (if IsCandidate(listing[0]) then [listing[0]] else []) + Candidates(listing[1..])
  }

  function Names(es: seq<Entry>): set<Path> {
    set i | 0 <= i < |es| :: es[i].name
  }

  predicate DistinctNames(es: seq<Entry>) {
    forall i, j :: 0 <= i < j < |es| ==> es[i].name != es[j].name
  }

  /** `next_try_at.get(p, 0)`. */
  function RetryAt(s: Sched, p: Path): int {
    if p in s.nextTryAt then s.nextTryAt[p] else 0
  }

  /** Nothing that the bookkeeping records about p differs between a and b, apart from its retry time. */
  predicate SameAt(a: Sched, b: Sched, p: Path) {
    && (p in a.processing <==> p in b.processing)
    && (p in a.snapshots <==> p in b.snapshots)
    && (p in a.snapshots ==> a.snapshots[p] == b.snapshots[p])
  }

  /** The first loop of a scan: forget the snapshot and the retry time of every snapshotted file no longer listed. */
  function DropVanished(s: Sched, current: set<Path>): Sched {
    var gone := s.snapshots.Keys - current;
    Sched(s.processing, s.snapshots - gone, s.nextTryAt - gone)
  }

  /** The two guards that skip a file without looking at it: it is in flight, or its retry time lies ahead. */
  predicate Skipped(s: Sched, e: Entry, now: int) {
    e.name in s.processing || RetryAt(s, e.name) > now
  }

  /** The file is looked at and its stat fails with an error other than FileNotFoundError. */
  predicate Aborts(s: Sched, e: Entry, now: int) {
    !Skipped(s, e, now) && e.outcome.Failed?
  }

  /** The file is looked at and a new snapshot of it is recorded. */
  predicate Records(s: Sched, e: Entry, now: int) {
    !Skipped(s, e, now) && e.outcome.Found?
  }

  /**
   * The file is submitted: it is looked at, the previous scan recorded exactly
   * the size and mtime it has now, and it was last modified at least minAge ago.
   */
  predicate Ready(s: Sched, e: Entry, now: int, minAge: int) {
    && Records(s, e, now)
    && e.name in s.snapshots
    && s.snapshots[e.name] == e.outcome.stat
    && now - e.outcome.stat.mtime >= minAge
  }

  predicate NoAbort(s: Sched, es: seq<Entry>, now: int) {
    forall j :: 0 <= j < |es| ==> !Aborts(s, es[j], now)
  }

  /** One pass of the second loop's body, for one listed file. */
  function Visit(r: ScanResult, e: Entry, now: int, minAge: int): ScanResult {
    var s := r.state;
    if r.aborted then r
    else if e.name in s.processing then r
    else if RetryAt(s, e.name) > now then r
    else
      match e.outcome
      case Vanished => r
      case Failed => r.(aborted := true)
      case Found(st) =>
        var recorded := s.(snapshots := s.snapshots[e.name := st]);
        if e.name !in s.snapshots then r.(state := recorded)
        else if s.snapshots[e.name] != st then r.(state := recorded)
        else if now - st.mtime < minAge then r.(state := recorded)
        else ScanResult(recorded.(processing := recorded.processing + {e.name}), r.submitted + [e.name], false)
  }

  /** The second loop over the listed files, in order. */
  function Run(r: ScanResult, es: seq<Entry>, now: int, minAge: int): ScanResult
    decreases |es|
  {
    if es == [] then r else Visit(Run(r, es[..|es| - 1], now, minAge), es[|es| - 1], now, minAge)
  }

  /** The loop one file further on: the first i + 1 files are the first i followed by a visit of file i. */
  lemma RunStep(r: ScanResult, es: seq<Entry>, i: nat, now: int, minAge: int)
    requires i < |es|
    ensures Run(r, es[..i + 1], now, minAge) == Visit(Run(r, es[..i], now, minAge), es[i], now, minAge)
  {
    assert es[..i + 1][..i] == es[..i];
  }

  /**
   * One iteration of the main loop. `listing` is None when listing the input
   * folder fails, which leaves everything as it was.
   */
  function Scanned(s: Sched, listing: Option<seq<Entry>>, now: int, minAge: int): ScanResult {
    match listing
    case None => ScanResult(s, [], true)
    case Some(entries) =>
      var current := Candidates(entries);
      Run(ScanResult(DropVanished(s, Names(current)), [], false), current, now, minAge)
  }

  /** `process_wrapper`'s clean-up: the file leaves `processing`; if it still exists it may be retried in 30 seconds. */
  function Finished(s: Sched, p: Path, stillExists: bool, now: int): (r: Sched)
    ensures p !in r.processing && r.processing + {p} >= s.processing && r.processing <= s.processing
    ensures r.snapshots == s.snapshots
    ensures RetryAt(r, p) == if stillExists then now + RetryBackoff else RetryAt(s, p)
    ensures forall q :: q != p ==> RetryAt(r, q) == RetryAt(s, q)
  {
    Sched(s.processing - {p}, s.snapshots, if stillExists then s.nextTryAt[p := now + RetryBackoff] else s.nextTryAt)
  }

  // ----- How a run of visits changes the bookkeeping -----

  lemma NamesLast(es: seq<Entry>)
    requires es != []
    ensures Names(es) == Names(es[..|es| - 1]) + {es[|es| - 1].name}
  {
    var init := es[..|es| - 1];
    forall p | p in Names(es) ensures p in Names(init) + {es[|es| - 1].name} {
      var i :| 0 <= i < |es| && es[i].name == p;
      if i < |es| - 1 {
        assert init[i] == es[i];
      }
    }
    forall p | p in Names(init) ensures p in Names(es) {
      var i :| 0 <= i < |init| && init[i].name == p;
      assert es[i] == init[i];
    }
  }

  /** A run never touches retry times, only grows `processing`, and leaves unlisted files alone. */
  lemma {:induction false} RunFrame(r0: ScanResult, es: seq<Entry>, now: int, minAge: int)
    ensures var r := Run(r0, es, now, minAge);
      && r.state.nextTryAt == r0.state.nextTryAt
      && r0.state.processing <= r.state.processing
      && (r0.aborted ==> r == r0)
      && |r0.submitted| <= |r.submitted| && r.submitted[..|r0.submitted|] == r0.submitted
      && (forall k :: |r0.submitted| <= k < |r.submitted| ==> r.submitted[k] in Names(es))
      && (forall p :: p !in Names(es) ==> SameAt(r.state, r0.state, p))
      && r.state.snapshots.Keys <= r0.state.snapshots.Keys + Names(es)
    decreases |es|
  {
    if es != [] {
      var init := es[..|es| - 1];
      RunFrame(r0, init, now, minAge);
      NamesLast(es);
    }
  }

  /** Files a run submits are new to `processing`, distinct, and added to it. */
  lemma {:induction false} RunProcessing(s: Sched, es: seq<Entry>, now: int, minAge: int)
    ensures var r := Run(ScanResult(s, [], false), es, now, minAge);
      && r.state.processing == s.processing + (set x | x in r.submitted)
      && (forall x :: x in r.submitted ==> x !in s.processing)
      && (forall i, j :: 0 <= i < j < |r.submitted| ==> r.submitted[i] != r.submitted[j])
    decreases |es|
  {
    if es != [] {
      RunProcessing(s, es[..|es| - 1], now, minAge);
    }
  }

  /** Once a run has been cut short, the rest of the listing changes nothing. */
  lemma {:induction false} RunAbortSticks(r0: ScanResult, es: seq<Entry>, n: nat, now: int, minAge: int)
    requires n <= |es| && Run(r0, es[..n], now, minAge).aborted
    ensures Run(r0, es, now, minAge) == Run(r0, es[..n], now, minAge)
    decreases |es|
  {
    if n < |es| {
      var init := es[..|es| - 1];
      assert init[..n] == es[..n];
      RunAbortSticks(r0, init, n, now, minAge);
    } else {
      assert es[..n] == es;
    }
  }

  /** A file that is in flight or backed off when a run starts is neither recorded nor submitted by it. */
  lemma {:induction false} RunKeepsSkipped(r0: ScanResult, es: seq<Entry>, now: int, minAge: int, p: Path)
    requires p in r0.state.processing || RetryAt(r0.state, p) > now
    ensures var r := Run(r0, es, now, minAge);
      && SameAt(r.state, r0.state, p)
      && (forall k :: |r0.submitted| <= k < |r.submitted| ==> r.submitted[k] != p)
    decreases |es|
  {
    if es != [] {
      RunKeepsSkipped(r0, es[..|es| - 1], now, minAge, p);
      RunFrame(r0, es[..|es| - 1], now, minAge);
    }
  }

  /** With distinct names, a run is cut short exactly when some listed file's stat fails. */
  lemma {:induction false} RunAborted(s: Sched, es: seq<Entry>, now: int, minAge: int)
    requires DistinctNames(es)
    ensures Run(ScanResult(s, [], false), es, now, minAge).aborted <==> !NoAbort(s, es, now)
    decreases |es|
  {
    if es != [] {
      var init, last := es[..|es| - 1], es[|es| - 1];
      var start := ScanResult(s, [], false);
      RunAborted(s, init, now, minAge);
      RunFrame(start, init, now, minAge);
      NamesLast(es);
      assert last.name !in Names(init) by {
        forall i | 0 <= i < |init| ensures init[i].name != last.name {
          assert init[i] == es[i];
        }
      }
      forall j | 0 <= j < |init| ensures init[j] == es[j] { }
    }
  }

  /** What a run does to one file, given the state before that file and whether the run is still going. */
  predicate VisitedAs(r: ScanResult, s: Sched, e: Entry, reached: bool, now: int, minAge: int) {
    && (e.name in r.submitted <==> reached && Ready(s, e, now, minAge))
    && (reached && Records(s, e, now) ==> e.name in r.state.snapshots && r.state.snapshots[e.name] == e.outcome.stat)
    && (!(reached && Records(s, e, now)) ==> (e.name in r.state.snapshots <==> e.name in s.snapshots))
    && (!(reached && Records(s, e, now)) && e.name in s.snapshots ==> r.state.snapshots[e.name] == s.snapshots[e.name])
  }

  /** Visiting one file leaves every other file as it was. */
  lemma VisitOther(r: ScanResult, e: Entry, now: int, minAge: int, p: Path)
    requires e.name != p
    ensures var v := Visit(r, e, now, minAge);
      && SameAt(v.state, r.state, p)
      && (p in v.submitted <==> p in r.submitted)
  {
  }

  /** Visiting a file that has not been submitted yet: the case analysis of the loop body. */
  lemma VisitSelf(r: ScanResult, e: Entry, now: int, minAge: int)
    requires e.name !in r.submitted
    ensures VisitedAs(Visit(r, e, now, minAge), r.state, e, !r.aborted, now, minAge)
  {
  }

  /**
   * With distinct names, what a run does to the k-th listed file is decided by
   * the state at the start of the run and whether an earlier file cut it short.
   */
  lemma {:induction false} RunAt(s: Sched, es: seq<Entry>, now: int, minAge: int, k: nat)
    requires DistinctNames(es) && k < |es|
    ensures VisitedAs(Run(ScanResult(s, [], false), es, now, minAge), s, es[k], NoAbort(s, es[..k], now), now, minAge)
    decreases |es|
  {
    var init, last := es[..|es| - 1], es[|es| - 1];
    var start := ScanResult(s, [], false);
    var r1 := Run(start, init, now, minAge);
    assert Run(start, es, now, minAge) == Visit(r1, last, now, minAge);
    if k < |es| - 1 {
      assert init[k] == es[k] && init[..k] == es[..k];
      assert DistinctNames(init) by {
        forall i, j | 0 <= i < j < |init| ensures init[i].name != init[j].name {
          assert init[i] == es[i] && init[j] == es[j];
        }
      }
      RunAt(s, init, now, minAge, k);
      VisitOther(r1, last, now, minAge, es[k].name);
    } else {
      assert last.name !in Names(init) by {
        forall i | 0 <= i < |init| ensures init[i].name != last.name {
          assert init[i] == es[i];
        }
      }
      RunFrame(start, init, now, minAge);
      assert init == es[..k];
      RunAborted(s, init, now, minAge);
      assert SameAt(r1.state, s, last.name) && r1.state.nextTryAt == s.nextTryAt;
      assert last.name !in r1.submitted;
      VisitSelf(r1, last, now, minAge);
    }
  }

  // ----- What one scan does -----

  /** Dropping vanished files does not change what the scan sees of a listed file. */
  lemma DropKeepsListed(s: Sched, current: seq<Entry>, now: int, minAge: int)
    ensures var d := DropVanished(s, Names(current));
      && d.processing == s.processing
      && forall j :: 0 <= j < |current| ==>
           && SameAt(d, s, current[j].name) && RetryAt(d, current[j].name) == RetryAt(s, current[j].name)
           && (Skipped(d, current[j], now) <==> Skipped(s, current[j], now))
           && (Aborts(d, current[j], now) <==> Aborts(s, current[j], now))
           && (Records(d, current[j], now) <==> Records(s, current[j], now))
           && (Ready(d, current[j], now, minAge) <==> Ready(s, current[j], now, minAge))
  {
    forall j | 0 <= j < |current| ensures current[j].name in Names(current) { }
  }

  lemma DropKeepsNoAbort(s: Sched, current: seq<Entry>, n: nat, now: int, minAge: int)
    requires n <= |current|
    ensures NoAbort(DropVanished(s, Names(current)), current[..n], now) <==> NoAbort(s, current[..n], now)
  {
    DropKeepsListed(s, current, now, minAge);
    forall j | 0 <= j < n ensures current[..n][j] == current[j] { }
  }

  /**
   * Clean-up: after a listed scan, only listed files have snapshots; a file that
   * had a snapshot and is no longer listed has lost its retry time as well; every
   * other retry time is unchanged.
   */
  lemma ScanForgetsVanished(s: Sched, listing: seq<Entry>, now: int, minAge: int)
    ensures var r, current := Scanned(s, Some(listing), now, minAge), Names(Candidates(listing));
      && r.state.snapshots.Keys <= current
      && (forall p :: p in s.snapshots && p !in current ==> p !in r.state.snapshots && p !in r.state.nextTryAt)
      && (forall p :: !(p in s.snapshots && p !in current) ==> RetryAt(r.state, p) == RetryAt(s, p))
  {
    var cur := Candidates(listing);
    RunFrame(ScanResult(DropVanished(s, Names(cur)), [], false), cur, now, minAge);
  }

  /**
   * The submission rule, file by file (names in a folder listing are distinct):
   * a listed file is submitted exactly when no earlier file's stat failed, it is
   * not in flight, its retry time has passed, the previous scan recorded the same
   * size and mtime, and it is at least minAge seconds old. A file that is looked
   * at gets its new snapshot; any other keeps the one it had.
   */
  lemma ScanSubmits(s: Sched, listing: seq<Entry>, now: int, minAge: int, k: nat)
    requires DistinctNames(Candidates(listing)) && k < |Candidates(listing)|
    ensures var r, e := Scanned(s, Some(listing), now, minAge), Candidates(listing)[k];
      var reached := NoAbort(s, Candidates(listing)[..k], now);
      && (e.name in r.submitted <==> reached && Ready(s, e, now, minAge))
      && (reached && Records(s, e, now) ==> e.name in r.state.snapshots && r.state.snapshots[e.name] == e.outcome.stat)
      && (!(reached && Records(s, e, now)) ==> (e.name in r.state.snapshots <==> e.name in s.snapshots))
      && (!(reached && Records(s, e, now)) && e.name in s.snapshots ==> r.state.snapshots[e.name] == s.snapshots[e.name])
  {
    var cur := Candidates(listing);
    var d := DropVanished(s, Names(cur));
    DropKeepsListed(s, cur, now, minAge);
    DropKeepsNoAbort(s, cur, k, now, minAge);
    RunAt(d, cur, now, minAge, k);
  }

  /**
   * Everything a scan submits is a listed, non-hidden regular file that was
   * stable since the previous scan and old enough; in particular a file seen
   * for the first time is never submitted by that scan.
   */
  lemma ScanSubmitsOnlyReady(s: Sched, listing: seq<Entry>, now: int, minAge: int)
    requires DistinctNames(Candidates(listing))
    ensures var r := Scanned(s, Some(listing), now, minAge);
      forall p :: p in r.submitted ==>
        && p in s.snapshots
        && !IsHidden(p)
        && exists e :: e in listing && e.name == p && e.isFile && Ready(s, e, now, minAge)
  {
    var cur := Candidates(listing);
    var r := Scanned(s, Some(listing), now, minAge);
    RunFrame(ScanResult(DropVanished(s, Names(cur)), [], false), cur, now, minAge);
    forall p | p in r.submitted
      ensures p in s.snapshots && !IsHidden(p)
      ensures exists e :: e in listing && e.name == p && e.isFile && Ready(s, e, now, minAge)
    {
      var i :| 0 <= i < |r.submitted| && r.submitted[i] == p;
      assert p in Names(cur);
      var k :| 0 <= k < |cur| && cur[k].name == p;
      ScanSubmits(s, listing, now, minAge, k);
      assert cur[k] in listing;
    }
  }

  /** A scan adds exactly what it submits to `processing`, and submits no file twice or while in flight. */
  lemma ScanProcessing(s: Sched, listing: seq<Entry>, now: int, minAge: int)
    ensures var r := Scanned(s, Some(listing), now, minAge);
      && r.state.processing == s.processing + (set x | x in r.submitted)
      && (forall x :: x in r.submitted ==> x !in s.processing)
      && (forall i, j :: 0 <= i < j < |r.submitted| ==> r.submitted[i] != r.submitted[j])
  {
    var cur := Candidates(listing);
    RunProcessing(DropVanished(s, Names(cur)), cur, now, minAge);
  }

  /** A listed file that is in flight or backed off is not submitted and keeps its snapshot. */
  lemma ScanKeepsSkipped(s: Sched, listing: seq<Entry>, now: int, minAge: int, p: Path)
    requires p in s.processing || RetryAt(s, p) > now
    requires p in Names(Candidates(listing))
    ensures var r := Scanned(s, Some(listing), now, minAge);
      && p !in r.submitted
      && (p in r.state.snapshots <==> p in s.snapshots)
      && (p in s.snapshots ==> r.state.snapshots[p] == s.snapshots[p])
  {
    var cur := Candidates(listing);
    var d := DropVanished(s, Names(cur));
    RunKeepsSkipped(ScanResult(d, [], false), cur, now, minAge, p);
  }

  /** A file submitted by one scan is not submitted again by the next while its job has not finished. */
  lemma NoResubmitWhileInFlight(s: Sched, first: seq<Entry>, second: seq<Entry>, now1: int, now2: int, minAge: int)
    ensures var r1 := Scanned(s, Some(first), now1, minAge);
      var r2 := Scanned(r1.state, Some(second), now2, minAge);
      forall p :: p in r1.submitted ==> p !in r2.submitted
  {
    var r1 := Scanned(s, Some(first), now1, minAge);
    ScanProcessing(s, first, now1, minAge);
    ScanProcessing(r1.state, second, now2, minAge);
  }

  /** After a job ends with its input still present, scans in the next 30 seconds do not submit it again. */
  lemma BackoffAfterFinish(s: Sched, p: Path, finishedAt: int, listing: seq<Entry>, now: int, minAge: int)
    requires now < finishedAt + RetryBackoff
    ensures p !in Scanned(Finished(s, p, true, finishedAt), Some(listing), now, minAge).submitted
  {
    var f := Finished(s, p, true, finishedAt);
    var cur := Candidates(listing);
    if p in Names(cur) {
      ScanKeepsSkipped(f, listing, now, minAge, p);
    } else {
      RunFrame(ScanResult(DropVanished(f, Names(cur)), [], false), cur, now, minAge);
    }
  }

  /** A listed file whose retry time lies ahead is not submitted, and the scan keeps that retry time. */
  lemma ScanKeepsBackoff(s: Sched, listing: seq<Entry>, now: int, minAge: int, p: Path)
    requires p in Names(Candidates(listing)) && RetryAt(s, p) > now
    ensures var r := Scanned(s, Some(listing), now, minAge);
      p !in r.submitted && RetryAt(r.state, p) == RetryAt(s, p)
  {
    ScanKeepsSkipped(s, listing, now, minAge, p);
    ScanForgetsVanished(s, listing, now, minAge);
  }

  /** The bookkeeping after successive scans of the given listings at the given times. */
  function ScanStates(s: Sched, listings: seq<seq<Entry>>, times: seq<int>, minAge: int): Sched
    requires |listings| == |times|
    decreases |listings|
  {
    if listings == [] then s
    else
      var n := |listings| - 1;
      Scanned(ScanStates(s, listings[..n], times[..n], minAge), Some(listings[n]), times[n], minAge).state
  }

  /** Scans that all list the file, all before its retry time, leave that retry time in place. */
  lemma {:induction false} BackoffPersists(s: Sched, p: Path, listings: seq<seq<Entry>>, times: seq<int>, minAge: int)
    requires |listings| == |times|
    requires forall i :: 0 <= i < |listings| ==> p in Names(Candidates(listings[i])) && times[i] < RetryAt(s, p)
    ensures RetryAt(ScanStates(s, listings, times, minAge), p) == RetryAt(s, p)
    decreases |listings|
  {
    if listings != [] {
      var n := |listings| - 1;
      var ls, ts := listings[..n], times[..n];
      assert forall i :: 0 <= i < |ls| ==> ls[i] == listings[i] && ts[i] == times[i];
      BackoffPersists(s, p, ls, ts, minAge);
      ScanKeepsBackoff(ScanStates(s, ls, ts, minAge), listings[n], times[n], minAge, p);
    }
  }

  /**
   * After a job ends with its input still present, no scan in the next 30
   * seconds submits the file, as long as every one of those scans lists it.
   * (A scan that does not list it forgets its retry time.)
   */
  lemma BackoffAcrossScans(s: Sched, p: Path, finishedAt: int, listings: seq<seq<Entry>>, times: seq<int>, minAge: int, k: nat)
    requires |listings| == |times| && k < |listings|
    requires forall i :: 0 <= i < |listings| ==> p in Names(Candidates(listings[i])) && times[i] < finishedAt + RetryBackoff
    ensures var before := ScanStates(Finished(s, p, true, finishedAt), listings[..k], times[..k], minAge);
      p !in Scanned(before, Some(listings[k]), times[k], minAge).submitted
  {
    var f := Finished(s, p, true, finishedAt);
    var ls, ts := listings[..k], times[..k];
    assert forall i :: 0 <= i < |ls| ==> ls[i] == listings[i] && ts[i] == times[i];
    BackoffPersists(f, p, ls, ts, minAge);
    ScanKeepsBackoff(ScanStates(f, ls, ts, minAge), listings[k], times[k], minAge, p);
  }

  /**
   * Stability across two scans: a file unknown before two scans and submitted
   * by the second was listed by both, with the same size and mtime, and is at
   * least minAge old.
   */
  lemma TwoScansBeforeSubmit(s: Sched, first: seq<Entry>, second: seq<Entry>, now1: int, now2: int, minAge: int, p: Path)
    requires DistinctNames(Candidates(first)) && DistinctNames(Candidates(second))
    requires p !in s.snapshots
    requires p in Scanned(Scanned(s, Some(first), now1, minAge).state, Some(second), now2, minAge).submitted
    ensures exists e1, e2 :: e1 in first && e2 in second && e1.name == p && e2.name == p
                           && e1.outcome.Found? && e1.outcome == e2.outcome
                           && now2 - e2.outcome.stat.mtime >= minAge
  {
    var r1 := Scanned(s, Some(first), now1, minAge);
    ScanSubmitsOnlyReady(r1.state, second, now2, minAge);
    var e2 :| e2 in second && e2.name == p && e2.isFile && Ready(r1.state, e2, now2, minAge);
    var cur1 := Candidates(first);
    assert p in r1.state.snapshots;
    ScanForgetsVanished(s, first, now1, minAge);
    var k :| 0 <= k < |cur1| && cur1[k].name == p;
    ScanSubmits(s, first, now1, minAge, k);
    assert cur1[k] in first;
  }
}
