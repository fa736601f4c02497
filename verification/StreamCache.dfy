/**
 The read-through cache of streams (dao/streams.go): readers and writers in any
 interleaving, with the cache lookup, the database read, the fill, the write and
 the clear as separate steps, and entries that expire or are dropped.
 */
module StreamCache {
  import opened Basics

  type Id = string
  type Content = string

  /** Lifetime of an entry, in milliseconds. */
  const TTL := 10_000

  datatype Entry = Entry(content: Content, readAt: int, filledAt: int)

  /** A reader after a miss, and after its database read. */
  datatype Reader = Missed(id: Id) | Fetched(id: Id, content: Content, readAt: int)

  /** The rows from some moment on. */
  datatype Version = Version(since: int, rows: map<Id, Content>)

  datatype State = State(now: int, rows: map<Id, Content>, history: seq<Version>,
                         cache: map<Id, Entry>, readers: map<nat, Reader>)

  datatype Step =
    | Wait(delay: nat)
    | Write(rows: map<Id, Content>)  // a committed change of the rows
    | Clear                          // Cache.Clear()
    | Drop(id: Id)                   // the cache gives up an entry
    | Look(reader: nat, id: Id)      // Cache.Get
    | Fetch(reader: nat)             // DB.First
    | Fill(reader: nat)              // Cache.SetWithTTL, and the return

  predicate Hit(s: State, id: Id) {
    id in s.cache && s.now <= s.cache[id].filledAt + TTL
  }

  function Next(s: State, step: Step): Option<State> {
    match step
    case Wait(d) => Some(s.(now := s.now + d))
    case Write(rows) => Some(s.(rows := rows, history := s.history + [Version(s.now, rows)]))
    case Clear => Some(s.(cache := map[]))
    case Drop(id) => Some(s.(cache := s.cache - {id}))
    case Look(r, id) =>
      if r in s.readers then None
      else if Hit(s, id) then Some(s)
      else Some(s.(readers := s.readers[r := Missed(id)]))
    case Fetch(r) =>
      if r !in s.readers || !s.readers[r].Missed? then None
      else
        var id := s.readers[r].id;
        if id in s.rows then Some(s.(readers := s.readers[r := Fetched(id, s.rows[id], s.now)]))
        else Some(s.(readers := s.readers - {r}))
    case Fill(r) =>
      if r !in s.readers || !s.readers[r].Fetched? then None
      else
        var f := s.readers[r];
        Some(s.(cache := s.cache[f.id := Entry(f.content, f.readAt, s.now)], readers := s.readers - {r}))
  }

  /** What `GetStreamByID` returns at a step, if it returns a stream there. */
  function Answer(s: State, step: Step): Option<(Id, Content)> {
    match step
    case Look(r, id) => if r !in s.readers && Hit(s, id) then Some((id, s.cache[id].content)) else None
    case Fill(r) =>
      if r in s.readers && s.readers[r].Fetched? then Some((s.readers[r].id, s.readers[r].content)) else None
    case _ => None
  }

  function Run(s: State, steps: seq<Step>): Option<State> {
    if steps == [] then Some(s)
    else
      match Run(s, steps[..|steps| - 1])
      case None => None
      case Some(s') => Next(s', steps[|steps| - 1])
  }

  function Start(now: int, rows: map<Id, Content>): State {
    State(now, rows, [Version(now, rows)], map[], map[])
  }

  // --------------------------------------------------- Bounded staleness

  predicate Spans(history: seq<Version>, k: nat, t: int)
    requires k < |history|
  {
    history[k].since <= t && (k + 1 < |history| ==> t <= history[k + 1].since)
  }

  /** At time `t` the database held this content (at the instant of a write, the
      content before and the content after it both count). */
  ghost predicate HeldAt(history: seq<Version>, id: Id, content: Content, t: int) {
    exists k :: 0 <= k < |history| && Spans(history, k, t)
                && id in history[k].rows && history[k].rows[id] == content
  }

  /** Every fill comes at most `gap` after its reader's database read. */
  ghost predicate FillsWithin(s: State, steps: seq<Step>, gap: nat) {
    forall k :: 0 <= k < |steps| && steps[k].Fill? ==>
                  match Run(s, steps[..k])
                  case None => true
                  case Some(at) =>
                    steps[k].reader in at.readers && at.readers[steps[k].reader].Fetched? ==>
                      at.now - at.readers[steps[k].reader].readAt <= gap
  }

  ghost predicate Traceable(s: State, gap: nat) {
    && |s.history| > 0
    && s.history[|s.history| - 1].since <= s.now
    && s.history[|s.history| - 1].rows == s.rows
    && (forall id :: id in s.cache ==>
          && s.cache[id].readAt <= s.cache[id].filledAt <= s.now
          && s.cache[id].filledAt - s.cache[id].readAt <= gap
          && HeldAt(s.history, id, s.cache[id].content, s.cache[id].readAt))
    && (forall r :: r in s.readers && s.readers[r].Fetched? ==>
          && s.readers[r].readAt <= s.now
          && HeldAt(s.history, s.readers[r].id, s.readers[r].content, s.readers[r].readAt))
  }

  lemma HeldStaysHeld(history: seq<Version>, more: Version, id: Id, content: Content, t: int)
    requires HeldAt(history, id, content, t) && t <= more.since
    ensures HeldAt(history + [more], id, content, t)
  {
    var k :| 0 <= k < |history| && Spans(history, k, t)
             && id in history[k].rows && history[k].rows[id] == content;
    assert Spans(history + [more], k, t);
  }

  lemma StepKeepsTraces(s: State, step: Step, gap: nat)
    requires Traceable(s, gap) && Next(s, step).Some?
    requires step.Fill? ==> s.now - s.readers[step.reader].readAt <= gap
    ensures Traceable(Next(s, step).value, gap)
  {
    hide HeldAt;
    if step.Write? {
      var more := Version(s.now, step.rows);
      forall id | id in s.cache
        ensures HeldAt(s.history + [more], id, s.cache[id].content, s.cache[id].readAt)
      {
        HeldStaysHeld(s.history, more, id, s.cache[id].content, s.cache[id].readAt);
      }
      forall r | r in s.readers && s.readers[r].Fetched?
        ensures HeldAt(s.history + [more], s.readers[r].id, s.readers[r].content, s.readers[r].readAt)
      {
        HeldStaysHeld(s.history, more, s.readers[r].id, s.readers[r].content, s.readers[r].readAt);
      }
    } else if step.Fetch? && s.readers[step.reader].id in s.rows {
      HeldNow(s, s.readers[step.reader].id, gap);
    }
  }

  lemma HeldNow(s: State, id: Id, gap: nat)
    requires Traceable(s, gap) && id in s.rows
    ensures HeldAt(s.history, id, s.rows[id], s.now)
  {
    var k := |s.history| - 1;
    assert Spans(s.history, k, s.now);
  }

  lemma {:induction false} RunKeepsTraces(now: int, rows: map<Id, Content>, steps: seq<Step>, gap: nat)
    requires Run(Start(now, rows), steps).Some? && FillsWithin(Start(now, rows), steps, gap)
    ensures Traceable(Run(Start(now, rows), steps).value, gap)
    decreases |steps|
  {
    if steps != [] {
      var n := |steps| - 1;
      var before := steps[..n];
      assert forall k :: 0 <= k <= n ==> before[..k] == steps[..k];
      RunKeepsTraces(now, rows, before, gap);
      StepKeepsTraces(Run(Start(now, rows), before).value, steps[n], gap);
    }
  }

  /** In every interleaving, whatever is written, cleared or dropped, an answer is
      content the database held no longer ago than the lifetime of an entry plus
      the longest gap between a reader's database read and its fill. */
  lemma AnswersAreRecent(now: int, rows: map<Id, Content>, steps: seq<Step>, gap: nat, s: State, step: Step)
    requires Run(Start(now, rows), steps) == Some(s) && FillsWithin(Start(now, rows), steps, gap)
    requires Answer(s, step).Some?
    requires step.Fill? ==> s.now - s.readers[step.reader].readAt <= gap
    ensures var (id, content) := Answer(s, step).value;
            exists t :: s.now - 10 * 1000 - gap <= t <= s.now && HeldAt(s.history, id, content, t)
  {
    hide HeldAt;
    RunKeepsTraces(now, rows, steps, gap);
    var (id, content) := Answer(s, step).value;
    var t := if step.Look? then s.cache[step.id].readAt else s.readers[step.reader].readAt;
    assert HeldAt(s.history, id, content, t);
  }

  // ----------------------------------------------------- Answers from the cache

  /** Nothing takes the entry of `id` away. */
  predicate Spares(steps: seq<Step>, id: Id) {
    forall k :: 0 <= k < |steps| ==> !steps[k].Clear? && steps[k] != Drop(id)
  }

  predicate FilledSince(s: State, id: Id, t: int) {
    id in s.cache && t <= s.cache[id].filledAt && t <= s.now
  }

  lemma {:induction false} EntryStays(s: State, steps: seq<Step>, id: Id, t: int)
    requires FilledSince(s, id, t) && Spares(steps, id) && Run(s, steps).Some?
    ensures FilledSince(Run(s, steps).value, id, t)
    ensures (forall k :: 0 <= k < |steps| ==> !steps[k].Fill?) ==> Run(s, steps).value.cache[id] == s.cache[id]
    decreases |steps|
  {
    if steps != [] {
      EntryStays(s, steps[..|steps| - 1], id, t);
    }
  }

  /** For 10 seconds after a fill, whatever is written, read or filled, and unless the
      entry is cleared or dropped, a lookup is answered without a database read; and
      with the content filled, if nothing is filled in between. */
  lemma FillIsServed(s: State, r: nat, steps: seq<Step>, reader: nat)
    requires r in s.readers && s.readers[r].Fetched? && Spares(steps, s.readers[r].id)
    requires Next(s, Fill(r)).Some? && Run(Next(s, Fill(r)).value, steps).Some?
    ensures var id := s.readers[r].id;
            var later := Run(Next(s, Fill(r)).value, steps).value;
            later.now <= s.now + 10 * 1000 && reader !in later.readers ==>
              && Answer(later, Look(reader, id)).Some? && Next(later, Look(reader, id)) == Some(later)
              && ((forall k :: 0 <= k < |steps| ==> !steps[k].Fill?) ==>
                    Answer(later, Look(reader, id)) == Some((id, s.readers[r].content)))
  {
    hide Run;
    EntryStays(Next(s, Fill(r)).value, steps, s.readers[r].id, s.now);
  }

  /** An entry that is dropped, cleared or out of time is looked for in the database. */
  lemma GoneIsMissed(s: State, id: Id, reader: nat)
    requires reader !in s.readers
    ensures var missed := (t: State) =>
              Next(t, Look(reader, id)) == Some(t.(readers := t.readers[reader := Missed(id)]));
            && missed(Next(s, Drop(id)).value) && missed(Next(s, Clear).value)
            && (id in s.cache && s.now > s.cache[id].filledAt + 10 * 1000 ==> missed(s))
            && (forall other :: other != id && other in s.cache ==>
                  other in Next(s, Drop(id)).value.cache && Next(s, Drop(id)).value.cache[other] == s.cache[other])
  {
  }

  // -------------------------------------------- Visibility of a clearing write

  /** No answer for `id` can come from anything but the current row. */
  predicate Current(s: State, id: Id) {
    && (id in s.cache ==> id in s.rows && s.cache[id].content == s.rows[id])
    && (forall r :: r in s.readers && s.readers[r].Fetched? && s.readers[r].id == id ==>
          id in s.rows && s.readers[r].content == s.rows[id])
  }

  /** No reader holds other than the current row between its read and its fill. */
  predicate NoStaleReader(s: State, id: Id) {
    forall r :: r in s.readers && s.readers[r].Fetched? && s.readers[r].id == id ==>
                  id in s.rows && s.readers[r].content == s.rows[id]
  }

  predicate Quiet(steps: seq<Step>) {
    forall k :: 0 <= k < |steps| ==> !steps[k].Write?
  }

  predicate StaleAnswer(s: State, step: Step, id: Id) {
    && Answer(s, step).Some? && Answer(s, step).value.0 == id
    && !(id in s.rows && Answer(s, step).value.1 == s.rows[id])
  }

  lemma QuietStepKeepsCurrent(s: State, step: Step, id: Id)
    requires Current(s, id) && !step.Write? && Next(s, step).Some?
    ensures Current(Next(s, step).value, id) && Next(s, step).value.rows == s.rows
    ensures !StaleAnswer(s, step, id)
  {
  }

  lemma {:induction false} QuietRunKeepsCurrent(s: State, steps: seq<Step>, id: Id)
    requires Current(s, id) && Quiet(steps) && Run(s, steps).Some?
    ensures Current(Run(s, steps).value, id) && Run(s, steps).value.rows == s.rows
    decreases |steps|
  {
    if steps != [] {
      QuietRunKeepsCurrent(s, steps[..|steps| - 1], id);
      QuietStepKeepsCurrent(Run(s, steps[..|steps| - 1]).value, steps[|steps| - 1], id);
    }
  }

  /** Until the next write, and in every interleaving, each answer is the current row. */
  ghost predicate ServesCurrent(s: State, id: Id) {
    forall steps, step ::
      && Quiet(steps) && Run(s, steps).Some?
      && Next(Run(s, steps).value, step).Some? && !step.Write? ==>
        !StaleAnswer(Run(s, steps).value, step, id)
  }

  /** Main result for writers that clear: right after the clear, every later read
      until the next write sees the current row exactly when no reader stands
      with another row between its database read and its fill. */
  lemma ClearedCacheIsCurrent(s: State, id: Id)
    requires s.cache == map[]
    ensures ServesCurrent(s, id) <==> NoStaleReader(s, id)
  {
    if NoStaleReader(s, id) {
      forall steps, step | Quiet(steps) && Run(s, steps).Some? && Next(Run(s, steps).value, step).Some? && !step.Write?
        ensures !StaleAnswer(Run(s, steps).value, step, id)
      {
        QuietRunKeepsCurrent(s, steps, id);
        QuietStepKeepsCurrent(Run(s, steps).value, step, id);
      }
    } else {
      var r :| r in s.readers && s.readers[r].Fetched? && s.readers[r].id == id
               && !(id in s.rows && s.readers[r].content == s.rows[id]);
      StaleFillIsServed(s, r);
    }
  }

  /** A stale fill is also served to readers that start after the clear. */
  lemma StaleFillIsServed(s: State, r: nat)
    requires r in s.readers && s.readers[r].Fetched?
    requires var f := s.readers[r]; !(f.id in s.rows && f.content == s.rows[f.id])
    ensures var id := s.readers[r].id;
            && Run(s, [Fill(r)]).Some?
            && StaleAnswer(Run(s, [Fill(r)]).value, Look(r, id), id)
            && !ServesCurrent(s, id)
  {
    var id := s.readers[r].id;
    assert [Fill(r)][..0] == [];
    assert Run(s, [Fill(r)]) == Next(s, Fill(r));
    var after := Next(s, Fill(r)).value;
    assert Next(after, Look(r, id)).Some?;
    assert Quiet([Fill(r)]);
  }

  /** A run that reads a row, changes it, clears, and only then fills. */
  lemma OldRowOutlivesClear(id: Id)
    ensures var before, after := map[id := "old"], map[id := "new"];
            var s := Run(Start(0, before), [Look(1, id), Fetch(1), Write(after), Clear]);
            && s.Some? && s.value.rows == after && s.value.cache == map[]
            && !NoStaleReader(s.value, id) && !ServesCurrent(s.value, id)
            && Run(s.value, [Fill(1)]).Some?
            && Answer(Run(s.value, [Fill(1)]).value, Look(2, id)) == Some((id, "old"))
  {
    hide ServesCurrent, Run, Answer;
    var before, after := map[id := "old"], map[id := "new"];
    var s0 := Start(0, before);
    var s1 := s0.(readers := s0.readers[1 := Missed(id)]);
    var s2 := s1.(readers := s1.readers[1 := Fetched(id, "old", 0)]);
    var s3 := s2.(rows := after, history := s2.history + [Version(0, after)]);
    NoSteps(s0);
    RunOne(s0, [], Look(1, id), s0, s1);
    assert [] + [Look(1, id)] == [Look(1, id)];
    RunOne(s0, [Look(1, id)], Fetch(1), s1, s2);
    assert [Look(1, id)] + [Fetch(1)] == [Look(1, id), Fetch(1)];
    RunOne(s0, [Look(1, id), Fetch(1)], Write(after), s2, s3);
    assert [Look(1, id), Fetch(1)] + [Write(after)] == [Look(1, id), Fetch(1), Write(after)];
    RunOne(s0, [Look(1, id), Fetch(1), Write(after)], Clear, s3, s3);
    assert [Look(1, id), Fetch(1), Write(after)] + [Clear] == [Look(1, id), Fetch(1), Write(after), Clear];
    StaleFillIsServed(s3, 1);
    NoSteps(s3);
    RunOne(s3, [], Fill(1), s3, Next(s3, Fill(1)).value);
    assert [] + [Fill(1)] == [Fill(1)];
    assert Answer(Next(s3, Fill(1)).value, Look(2, id)) == Some((id, "old")) by { FilledIsServed(s3, id); }
  }

  lemma FilledIsServed(s: State, id: Id)
    requires 1 in s.readers && s.readers[1].Fetched? && s.readers[1].id == id && 2 !in s.readers
    ensures Next(s, Fill(1)).Some?
    ensures Answer(Next(s, Fill(1)).value, Look(2, id)) == Some((id, s.readers[1].content))
  {
  }

  // ------------------------------------------------------------- The DAO

  /** The stream table and the shared cache, with the calls of one goroutine. */
  class StreamsDao {
    var now: int
    var rows: map<Id, Content>
    ghost var history: seq<Version>
    var cache: map<Id, Entry>
    var readers: map<nat, Reader>

    ghost function View(): State
      reads this
    {
      State(now, rows, history, cache, readers)
    }

    constructor (now: int, rows: map<Id, Content>)
      ensures View() == Start(now, rows)
    {
      this.now, this.rows, history := now, rows, [Version(now, rows)];
      cache, readers := map[], map[];
    }

    /** `GetStreamByID` with nothing in between. */
    method GetStreamByID(me: nat, id: Id) returns (res: Option<Content>)
      requires me !in readers
      modifies this`cache, this`readers
      ensures Hit(old(View()), id) ==> res == Some(old(cache)[id].content) && View() == old(View())
      ensures !Hit(old(View()), id) ==> res == if id in rows then Some(rows[id]) else None
      ensures !Hit(old(View()), id) ==>
                Run(old(View()), [Look(me, id), Fetch(me)] + if id in rows then [Fill(me)] else []) == Some(View())
    {
      hide Run;
      if id in cache && now <= cache[id].filledAt + TTL {
        return Some(cache[id].content);
      }
      ghost var s0 := View();
      NoSteps(s0);
      readers := readers[me := Missed(id)];
      ghost var s1 := View();
      RunOne(s0, [], Look(me, id), s0, s1);
      assert [] + [Look(me, id)] == [Look(me, id)];
      if id !in rows {
        readers := readers - {me};
        RunOne(s0, [Look(me, id)], Fetch(me), s1, View());
        assert [Look(me, id)] + [Fetch(me)] == [Look(me, id), Fetch(me)] + [];
        return None;
      }
      readers := readers[me := Fetched(id, rows[id], now)];
      ghost var s2 := View();
      RunOne(s0, [Look(me, id)], Fetch(me), s1, s2);
      assert [Look(me, id)] + [Fetch(me)] == [Look(me, id), Fetch(me)];
      res := Some(rows[id]);
      cache := cache[id := Entry(rows[id], now, now)];
      readers := readers - {me};
      RunOne(s0, [Look(me, id), Fetch(me)], Fill(me), s2, View());
    }

    method WriteRow(id: Id, content: Content)
      modifies this`rows, this`history
      ensures Next(old(View()), Write(old(rows)[id := content])) == Some(View())
    {
      rows := rows[id := content];
      history := history + [Version(now, rows)];
    }

    /** `UpdateStream` and the other writers that clear on return. */
    method UpdateStream(id: Id, content: Content)
      modifies this
      ensures Run(old(View()), [Write(old(rows)[id := content]), Clear]) == Some(View())
      ensures rows == old(rows)[id := content] && cache == map[] && readers == old(readers)
      ensures NoStaleReader(View(), id) <==> ServesCurrent(View(), id)
    {
      ghost var s0 := View();
      WriteRow(id, content);
      ghost var s1 := View();
      cache := map[];
      RunOne(s0, [], Write(s0.rows[id := content]), s0, s1);
      assert [] + [Write(s0.rows[id := content])] == [Write(s0.rows[id := content])];
      RunOne(s0, [Write(s0.rows[id := content])], Clear, s1, View());
      assert [Write(s0.rows[id := content])] + [Clear] == [Write(s0.rows[id := content]), Clear];
      ClearedCacheIsCurrent(View(), id);
    }

    /** `SetLectureHall`: a writer that leaves the cache alone. */
    method SetLectureHall(id: Id, content: Content)
      modifies this`rows, this`history
      ensures Next(old(View()), Write(old(rows)[id := content])) == Some(View())
      ensures rows == old(rows)[id := content]
      ensures Hit(View(), id) && cache[id].content != content ==> !ServesCurrent(View(), id)
    {
      WriteRow(id, content);
      UnclearedHitIsStale(View(), id);
    }
  }

  /** Without a clear a live entry with other content keeps being served. */
  lemma UnclearedHitIsStale(s: State, id: Id)
    ensures Hit(s, id) && !(id in s.rows && s.cache[id].content == s.rows[id]) ==> !ServesCurrent(s, id)
  {
    if Hit(s, id) && !(id in s.rows && s.cache[id].content == s.rows[id]) {
      var r := UnusedReader(s.readers.Keys);
      assert Run(s, []) == Some(s) && Quiet([]);
      assert StaleAnswer(s, Look(r, id), id);
    }
  }

  /** A reader number above all those in use. */
  lemma UnusedReader(used: set<nat>) returns (r: nat)
    ensures forall u :: u in used ==> u < r
    decreases used
  {
    if used == {} {
      r := 0;
    } else {
      var x :| x in used;
      var r' := UnusedReader(used - {x});
      r := if x < r' then r' else x + 1;
      assert forall u :: u in used ==> u == x || u in used - {x};
    }
  }

  lemma NoSteps(start: State)
    ensures Run(start, []) == Some(start)
  {
  }

  lemma RunOne(start: State, steps: seq<Step>, step: Step, before: State, after: State)
    requires Run(start, steps) == Some(before) && Next(before, step) == Some(after)
    ensures Run(start, steps + [step]) == Some(after)
  {
    assert (steps + [step])[..|steps|] == steps;
  }
}
