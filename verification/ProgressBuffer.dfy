/**
 Buffered progress reports (api/progress.go, dao/progress.go): reports are collected
 and written in batches, all unwatched reports of a batch before its watched ones.
 */
module ProgressBuffer {
  import opened Basics

  datatype Key = Key(stream: nat, user: nat)
  datatype Report = Report(key: Key, progress: real, watched: bool)
  datatype Row = Row(progress: real, watched: bool)
  type Table = map<Key, Row>

  // ---------------------------------------------------------------- Writes

  /** One row of an upsert: the update writes the progress, and the watched flag
      only when that column is listed; an insert writes both. */
  function Put(db: Table, r: Report, flagListed: bool): Table {
    if r.key !in db then db[r.key := Row(r.progress, r.watched)]
    else db[r.key := Row(r.progress, if flagListed then r.watched else db[r.key].watched)]
  }

  function PutAll(db: Table, reports: seq<Report>, flagListed: bool): Table
    decreases |reports|
  {
    if reports == [] then db
    else Put(PutAll(db, reports[..|reports| - 1], flagListed), reports[|reports| - 1], flagListed)
  }

  /** The reports with this flag, in order. */
  function FilterProgress(reports: seq<Report>, watched: bool): seq<Report> {
    Filter(reports, (r: Report) => r.watched == watched)
  }

  /** `SaveProgresses` with its two statements, each of which can fail as a whole. */
  datatype Writes = Writes(unwatchedOk: bool, watchedOk: bool)

  const AllOk := Writes(true, true)

  function Saved(db: Table, reports: seq<Report>, w: Writes): Table {
    var db1 := if w.unwatchedOk then PutAll(db, FilterProgress(reports, false), false) else db;
    if w.watchedOk then PutAll(db1, FilterProgress(reports, true), true) else db1
  }

  /** The reference: every report saved by a call of its own. */
  function SaveOneByOne(db: Table, reports: seq<Report>): Table
    decreases |reports|
  {
    if reports == [] then db
    else Saved(SaveOneByOne(db, reports[..|reports| - 1]), [reports[|reports| - 1]], AllOk)
  }

  // ------------------------------------------------------ What a row becomes

  /** The row of a key, if there is one. */
  function RowOf(db: Table, k: Key): Option<Row> {
    if k in db then Some(db[k]) else None
  }

  /** The last report for a key. */
  function LastFor(reports: seq<Report>, k: Key): Option<Report>
    decreases |reports|
  {
    if reports == [] then None
    else if reports[|reports| - 1].key == k then Some(reports[|reports| - 1])
    else LastFor(reports[..|reports| - 1], k)
  }

  function LastWatchedFor(reports: seq<Report>, k: Key): Option<Report> {
    LastFor(FilterProgress(reports, true), k)
  }

  predicate Flagged(row: Option<Row>) {
    row.Some? && row.value.watched
  }

  /** Writing a progress and perhaps raising the flag. */
  function Raised(row: Option<Row>, r: Option<Report>, raise: bool): Option<Row> {
    if r.None? then row else Some(Row(r.value.progress, raise || Flagged(row)))
  }

  lemma {:induction false} PutAllRow(db: Table, reports: seq<Report>, flag: bool, k: Key)
    requires forall i :: 0 <= i < |reports| ==> reports[i].watched == flag
    ensures RowOf(PutAll(db, reports, flag), k) == Raised(RowOf(db, k), LastFor(reports, k), flag)
    decreases |reports|
  {
    if reports != [] {
      PutAllRow(db, reports[..|reports| - 1], flag, k);
    }
  }

  lemma FilterKeepsFlag(reports: seq<Report>, watched: bool)
    ensures var kept := FilterProgress(reports, watched);
            forall i :: 0 <= i < |kept| ==> kept[i].watched == watched
  {
    var kept := FilterProgress(reports, watched);
    assert forall i :: 0 <= i < |kept| ==> kept[i] in kept;
  }

  lemma SavedRow(db: Table, reports: seq<Report>, k: Key)
    ensures RowOf(Saved(db, reports, AllOk), k) ==
            Raised(Raised(RowOf(db, k), LastFor(FilterProgress(reports, false), k), false),
                   LastWatchedFor(reports, k), true)
  {
    hide PutAll, FilterProgress, LastFor, Raised;
    FilterKeepsFlag(reports, false);
    FilterKeepsFlag(reports, true);
    PutAllRow(db, FilterProgress(reports, false), false, k);
    PutAllRow(PutAll(db, FilterProgress(reports, false), false), FilterProgress(reports, true), true, k);
  }

  /** The last report for a key is the last of those with its own flag. */
  lemma {:induction false} LastByFlag(reports: seq<Report>, k: Key)
    ensures LastFor(reports, k).None? <==>
              LastFor(FilterProgress(reports, false), k).None? && LastWatchedFor(reports, k).None?
    ensures LastFor(reports, k).Some? ==>
              && LastFor(reports, k).value.key == k
              && LastFor(FilterProgress(reports, LastFor(reports, k).value.watched), k) == LastFor(reports, k)
    decreases |reports|
  {
    if reports != [] {
      var n := |reports| - 1;
      LastByFlag(reports[..n], k);
      FilterLast(reports, k, true);
      FilterLast(reports, k, false);
    }
  }

  lemma FilterLast(reports: seq<Report>, k: Key, watched: bool)
    requires reports != []
    ensures var n := |reports| - 1;
            LastFor(FilterProgress(reports, watched), k) ==
            if reports[n].watched == watched && reports[n].key == k then Some(reports[n])
            else LastFor(FilterProgress(reports[..n], watched), k)
  {
    var n := |reports| - 1;
    var front, all := FilterProgress(reports[..n], watched), FilterProgress(reports, watched);
    if reports[n].watched == watched {
      assert all[|all| - 1] == reports[n] && all[..|all| - 1] == front;
    } else {
      assert all == front;
    }
  }

  /** What one flush does to a key: the flag is raised by any watched report for it,
      and the progress is that of the last watched report if there is one. */
  lemma FlushedRow(db: Table, reports: seq<Report>, k: Key)
    ensures var row := RowOf(Saved(db, reports, AllOk), k);
            && (row.Some? <==> k in db || LastFor(reports, k).Some?)
            && (Flagged(row) <==> Flagged(RowOf(db, k)) || LastWatchedFor(reports, k).Some?)
            && (row.Some? ==> row.value.progress ==
                              if LastWatchedFor(reports, k).Some? then LastWatchedFor(reports, k).value.progress
                              else if LastFor(reports, k).Some? then LastFor(reports, k).value.progress
                              else db[k].progress)
  {
    hide Saved, FilterProgress, LastFor;
    SavedRow(db, reports, k);
    LastByFlag(reports, k);
  }

  /** What saving one at a time does: the same to the flag, but the last report of
      any kind decides the progress. */
  lemma {:induction false} OneByOneRow(db: Table, reports: seq<Report>, k: Key)
    ensures var row := RowOf(SaveOneByOne(db, reports), k);
            && (row.Some? <==> k in db || LastFor(reports, k).Some?)
            && (Flagged(row) <==> Flagged(RowOf(db, k)) || LastWatchedFor(reports, k).Some?)
            && (row.Some? ==> row.value.progress ==
                              if LastFor(reports, k).Some? then LastFor(reports, k).value.progress else db[k].progress)
    decreases |reports|
  {
    hide Saved, FilterProgress;
    if reports != [] {
      var n := |reports| - 1;
      OneByOneRow(db, reports[..n], k);
      FlushedRow(SaveOneByOne(db, reports[..n]), [reports[n]], k);
      FilterLast(reports, k, true);
      FilterLast([reports[n]], k, true);
      assert [reports[n]][..0] == [];
      assert FilterProgress([], true) == [] by { NoneFiltered(); }
    } else {
      NoneFiltered();
    }
  }

  lemma NoneFiltered()
    ensures FilterProgress([], true) == []
  {
  }

  /** The reports for a key end in one whose progress the flush stores. */
  predicate OrderHarmless(reports: seq<Report>, k: Key) {
    match (LastWatchedFor(reports, k), LastFor(reports, k))
    case (Some(watched), Some(last)) => watched.progress == last.progress
    case _ => true
  }

  /** One flush stores what saving one at a time would, for exactly the keys whose
      last watched report agrees with their last report. The flag never differs. */
  lemma FlushMatchesOneByOne(db: Table, reports: seq<Report>, k: Key)
    ensures LastWatchedFor(reports, k).Some? ==> LastFor(reports, k).Some?
    ensures RowOf(Saved(db, reports, AllOk), k) == RowOf(SaveOneByOne(db, reports), k) <==> OrderHarmless(reports, k)
    ensures Flagged(RowOf(Saved(db, reports, AllOk), k)) == Flagged(RowOf(SaveOneByOne(db, reports), k))
  {
    hide Saved, SaveOneByOne, FilterProgress, LastFor;
    LastByFlag(reports, k);
    FlushedRow(db, reports, k);
    OneByOneRow(db, reports, k);
  }

  /** An unwatched report behind a watched one: the flush stores the earlier progress. */
  lemma LateUnwatchedReportIsLost(k: Key)
    ensures var reports := [Report(k, 0.9, true), Report(k, 0.1, false)];
            && RowOf(Saved(map[], reports, AllOk), k) == Some(Row(0.9, true))
            && RowOf(SaveOneByOne(map[], reports), k) == Some(Row(0.1, true))
  {
    hide Saved, SaveOneByOne, FilterProgress;
    var reports := [Report(k, 0.9, true), Report(k, 0.1, false)];
    assert reports[..1] == [reports[0]] && reports[..1][..0] == [];
    FilterLast(reports, k, true);
    FilterLast(reports[..1], k, true);
    FlushedRow(map[], reports, k);
    OneByOneRow(map[], reports, k);
  }

  // ------------------------------------------------------------------ Runs

  datatype Step = Add(report: Report) | Flush(writes: Writes)

  /** The table, the buffer, and the batches handed to the database so far. */
  datatype State = State(db: Table, buffer: seq<Report>, flushed: seq<seq<Report>>)

  function Next(s: State, step: Step): State {
    match step
    case Add(r) => s.(buffer := s.buffer + [r])
    case Flush(w) =>
      if s.buffer == [] then s
      else State(Saved(s.db, s.buffer, w), [], s.flushed + [s.buffer])
  }

  function Run(db: Table, steps: seq<Step>): State
    decreases |steps|
  {
    if steps == [] then State(db, [], []) else Next(Run(db, steps[..|steps| - 1]), steps[|steps| - 1])
  }

  function Added(steps: seq<Step>): seq<Report>
    decreases |steps|
  {
    if steps == [] then []
    else
      var last := steps[|steps| - 1];
      Added(steps[..|steps| - 1]) + (if last.Add? then [last.report] else [])
  }

  function Joined(batches: seq<seq<Report>>): seq<Report>
    decreases |batches|
  {
    if batches == [] then [] else Joined(batches[..|batches| - 1]) + batches[|batches| - 1]
  }

  lemma JoinedMore(batches: seq<seq<Report>>, batch: seq<Report>)
    ensures Joined(batches + [batch]) == Joined(batches) + batch
  {
    assert (batches + [batch])[..|batches|] == batches;
  }

  /** Every report added lands in exactly one flush, in order, or still waits: also
      when writes fail, since the buffer is emptied either way. */
  lemma {:induction false} EveryReportInOneFlush(db: Table, steps: seq<Step>)
    ensures var s := Run(db, steps);
            && Joined(s.flushed) + s.buffer == Added(steps)
            && [] !in s.flushed
    decreases |steps|
  {
    hide Saved;
    if steps != [] {
      var n := |steps| - 1;
      var s := Run(db, steps[..n]);
      EveryReportInOneFlush(db, steps[..n]);
      assert (s.flushed + [s.buffer])[..|s.flushed|] == s.flushed;
      if steps[n].Add? {
        assert Joined(s.flushed) + (s.buffer + [steps[n].report]) == Added(steps);
      }
    }
  }

  /** Every write of the run succeeds. */
  predicate WritesSucceed(steps: seq<Step>) {
    forall k :: 0 <= k < |steps| && steps[k].Flush? ==> steps[k].writes == AllOk
  }

  function SaveBatches(db: Table, batches: seq<seq<Report>>): Table
    decreases |batches|
  {
    if batches == [] then db
    else Saved(SaveBatches(db, batches[..|batches| - 1]), batches[|batches| - 1], AllOk)
  }

  lemma {:induction false} RunSavesBatches(db: Table, steps: seq<Step>)
    requires WritesSucceed(steps)
    ensures Run(db, steps).db == SaveBatches(db, Run(db, steps).flushed)
    decreases |steps|
  {
    hide Saved;
    if steps != [] {
      var n := |steps| - 1;
      var s := Run(db, steps[..n]);
      RunSavesBatches(db, steps[..n]);
      assert (s.flushed + [s.buffer])[..|s.flushed|] == s.flushed;
    }
  }

  lemma {:induction false} OneByOneInParts(db: Table, a: seq<Report>, b: seq<Report>)
    ensures SaveOneByOne(db, a + b) == SaveOneByOne(SaveOneByOne(db, a), b)
    decreases |b|
  {
    hide Saved;
    if b == [] {
      assert a + b == a;
    } else {
      var n := |b| - 1;
      OneByOneInParts(db, a, b[..n]);
      assert (a + b)[..|a + b| - 1] == a + b[..n] && (a + b)[|a + b| - 1] == b[n];
    }
  }

  /** The last batch that holds a report for a key. */
  function LastBatchFor(batches: seq<seq<Report>>, k: Key): Option<seq<Report>>
    decreases |batches|
  {
    if batches == [] then None
    else if LastFor(batches[|batches| - 1], k).Some? then Some(batches[|batches| - 1])
    else LastBatchFor(batches[..|batches| - 1], k)
  }

  predicate HarmlessBatches(batches: seq<seq<Report>>, k: Key) {
    match LastBatchFor(batches, k)
    case Some(batch) => OrderHarmless(batch, k)
    case None => true
  }

  lemma {:induction false} BatchesMatchOneByOne(db: Table, batches: seq<seq<Report>>, k: Key)
    ensures var fast, slow := RowOf(SaveBatches(db, batches), k), RowOf(SaveOneByOne(db, Joined(batches)), k);
            && fast.Some? == slow.Some?
            && Flagged(fast) == Flagged(slow)
            && (fast == slow <==> HarmlessBatches(batches, k))
    decreases |batches|
  {
    hide Saved, SaveOneByOne, FilterProgress, LastFor, RowOf;
    if batches != [] {
      var front, batch := batches[..|batches| - 1], batches[|batches| - 1];
      var fast, slow := SaveBatches(db, front), SaveOneByOne(db, Joined(front));
      BatchesMatchOneByOne(db, front, k);
      OneByOneInParts(db, Joined(front), batch);
      LastByFlag(batch, k);
      FlushedRow(fast, batch, k);
      OneByOneRow(slow, batch, k);
      RowsKnown(fast, slow, k);
    } else {
      NothingSaved(db);
    }
  }

  lemma NothingSaved(db: Table)
    ensures SaveOneByOne(db, []) == db
  {
  }

  lemma RowsKnown(a: Table, b: Table, k: Key)
    ensures RowOf(a, k) == if k in a then Some(a[k]) else None
    ensures RowOf(b, k) == if k in b then Some(b[k]) else None
  {
  }

  /** Main result: over any interleaving of adds and flushes, the stored keys and
      watched flags are those of saving the flushed reports one at a time, and a
      whole row is, exactly if in the last flush that held a report for the key
      the last watched one agrees with the last one. */
  lemma RunMatchesOneByOne(db: Table, steps: seq<Step>, k: Key)
    requires WritesSucceed(steps)
    ensures var s := Run(db, steps);
            var slow := SaveOneByOne(db, Joined(s.flushed));
            && (k in s.db <==> k in slow)
            && Flagged(RowOf(s.db, k)) == Flagged(RowOf(slow, k))
            && (RowOf(s.db, k) == RowOf(slow, k) <==> HarmlessBatches(s.flushed, k))
    ensures var s := Run(db, steps);
            s.buffer == [] ==> Joined(s.flushed) == Added(steps)
  {
    hide Run, SaveBatches, SaveOneByOne, Joined, Added, HarmlessBatches;
    RunSavesBatches(db, steps);
    EveryReportInOneFlush(db, steps);
    BatchesMatchOneByOne(db, Run(db, steps).flushed, k);
  }

  // ---------------------------------------------------------- Failing writes

  lemma {:induction false} PutAllKeepsFlags(db: Table, reports: seq<Report>, flag: bool, listed: bool, k: Key)
    requires forall i :: 0 <= i < |reports| ==> reports[i].watched == flag
    requires listed ==> flag
    requires Flagged(RowOf(db, k))
    ensures Flagged(RowOf(PutAll(db, reports, listed), k))
    decreases |reports|
  {
    if reports != [] {
      PutAllKeepsFlags(db, reports[..|reports| - 1], flag, listed, k);
    }
  }

  /** No report clears a watched flag, whichever statements fail. */
  lemma {:induction false} FlagsAreKept(db: Table, steps: seq<Step>, m: nat, k: Key)
    requires m <= |steps| && Flagged(RowOf(Run(db, steps[..m]).db, k))
    ensures Flagged(RowOf(Run(db, steps).db, k))
    decreases |steps|
  {
    hide PutAll, FilterProgress, Flagged, RowOf;
    if m == |steps| {
      assert steps[..m] == steps;
    } else {
      var n := |steps| - 1;
      assert steps[..n][..m] == steps[..m];
      FlagsAreKept(db, steps[..n], m, k);
      var s := Run(db, steps[..n]);
      if steps[n].Flush? {
        FilterKeepsFlag(s.buffer, false);
        FilterKeepsFlag(s.buffer, true);
        PutAllKeepsFlags(s.db, FilterProgress(s.buffer, false), false, false, k);
        PutAllKeepsFlags(s.db, FilterProgress(s.buffer, true), true, true, k);
        PutAllKeepsFlags(PutAll(s.db, FilterProgress(s.buffer, false), false),
                         FilterProgress(s.buffer, true), true, true, k);
      }
    }
  }

  // -------------------------------------------------------------- The objects

  class ProgressDao {
    var rows: Table

    constructor ()
      ensures rows == map[]
    {
      rows := map[];
    }

    static method Select(progresses: seq<Report>, watched: bool) returns (result: seq<Report>)
      ensures result == FilterProgress(progresses, watched)
    {
      result := [];
      for i := 0 to |progresses|
        invariant result == FilterProgress(progresses[..i], watched)
      {
        assert progresses[..i + 1][..i] == progresses[..i];
        if progresses[i].watched == watched {
          result := result + [progresses[i]];
        }
      }
      assert progresses[..|progresses|] == progresses;
    }

    /** `fails` says which of the two statements the database rejects; the answer
        is whether an error is returned. */
    method SaveProgresses(progresses: seq<Report>, w: Writes) returns (failed: bool)
      modifies this
      ensures rows == Saved(old(rows), progresses, w)
      ensures failed <==> || (!w.unwatchedOk && FilterProgress(progresses, false) != [])
                          || (!w.watchedOk && FilterProgress(progresses, true) != [])
    {
      var noWatched := Select(progresses, false);
      var watched := Select(progresses, true);
      var err, err2 := false, false;
      if |noWatched| > 0 {
        if w.unwatchedOk {
          rows := PutAll(rows, noWatched, false);
        } else {
          err := true;
        }
      }
      if |watched| > 0 {
        if w.watchedOk {
          rows := PutAll(rows, watched, true);
        } else {
          err2 := true;
        }
      }
      if err {
        return err;
      }
      failed := err2;
    }
  }

  /** The buffer, with all reports it was given and the batches it handed on. */
  class Buffer {
    var progresses: seq<Report>
    ghost var given: seq<Report>
    ghost var flushed: seq<seq<Report>>

    /** Every report given is in exactly one batch, in order, or still waits. */
    ghost predicate Valid()
      reads this
    {
      Joined(flushed) + progresses == given && [] !in flushed
    }

    constructor ()
      ensures Valid() && progresses == [] && given == [] && flushed == []
    {
      progresses, given, flushed := [], [], [];
    }

    /** The report waits behind all others; no batch changes. */
    method Add(progress: Report)
      requires Valid()
      modifies this
      ensures Valid()
      ensures given == old(given) + [progress] && flushed == old(flushed)
    {
      progresses := progresses + [progress];
      given := given + [progress];
    }

    /** Everything given is handed on, also if a write fails; so that nothing waits,
        the rows are those after a flush of the run. */
    method Flush(dao: ProgressDao, w: Writes) returns (failed: bool)
      requires Valid()
      modifies this, dao
      ensures Valid() && given == old(given) && progresses == []
      ensures Joined(flushed) == given
      ensures State(dao.rows, progresses, flushed)
           == Next(State(old(dao.rows), old(progresses), old(flushed)), Step.Flush(w))
      ensures failed ==> w != AllOk
    {
      hide Saved, Joined, FilterProgress;
      if |progresses| == 0 {
        assert Joined(flushed) + [] == Joined(flushed);
        return false;
      }
      failed := dao.SaveProgresses(progresses, w);
      JoinedMore(flushed, progresses);
      flushed := flushed + [progresses];
      progresses := [];
    }
  }
}
