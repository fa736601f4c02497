/**
 The mail queue (tools/email.go, dao/email.go): due mails are fetched and tried in
 passes; how often a mail is tried, and how many attempts fall into a minute.
 Times are in nanoseconds.
 */
module MailQueue {
  import opened Basics

  /** A row of the emails table; its position stands for its id. */
  datatype Mail = Mail(success: bool, retries: nat, lastTry: Option<int>)

  const FreshMail := Mail(false, 0, None)
  const MINUTE := 60_000_000_000
  const MAX_RETRIES := 10
  const DEFAULT_PER_MINUTE := 10

  /** The sleep after each mail. */
  function Pause(max: nat): nat
    requires max > 0
  {
    1000 * (60 / max)
  }

  predicate Due(m: Mail, asked: int) {
    !m.success && m.retries <= MAX_RETRIES && (m.lastTry.None? || m.lastTry.value < asked - MINUTE)
  }

  /** What the query may return: due mails, none twice, and all of them unless the
      limit is reached. It gives no order. */
  predicate IsDueList(mails: seq<Mail>, limit: nat, asked: int, ids: seq<nat>) {
    && |ids| <= limit
    && (forall k :: 0 <= k < |ids| ==> ids[k] < |mails| && Due(mails[ids[k]], asked))
    && (forall j, k :: 0 <= j < k < |ids| ==> ids[j] != ids[k])
    && (|ids| < limit ==> forall i: nat :: i < |mails| && Due(mails[i], asked) ==> i in ids)
  }

  /** What happens to one mail: when sending starts and ends, and whether the mail
      goes out and the row is saved. */
  datatype Try = Try(at: int, done: int, ok: bool, saved: bool)

  /** One pass of the loop: mails created since the last one, the time at its
      start, how much later than asked it wakes, and the query and its result. */
  datatype Pass = Pass(created: nat, now: int, late: nat, asked: int, picked: Option<seq<nat>>, tries: seq<Try>)

  datatype Attempt = Attempt(id: nat, at: int, done: int, ok: bool)

  /** The table, the loop variable, the time, and all attempts: those of earlier
      passes and those of the latest. */
  datatype State = State(mails: seq<Mail>, lastRun: int, clock: int, past: seq<Attempt>, latest: seq<Attempt>)
  {
    function All(): seq<Attempt> { past + latest }
  }

  /** When a pass starts: at once if the last one is a minute old, else after a sleep. */
  function Start(lastRun: int, p: Pass): int {
    (if p.now - lastRun < MINUTE then lastRun + MINUTE else p.now) + p.late
  }

  function Begin(s: State, p: Pass): State {
    State(s.mails + seq(p.created, _ => FreshMail), Start(s.lastRun, p), p.asked, s.All(), [])
  }

  function Tried(m: Mail, t: Try): Mail {
    if t.ok then m.(success := true) else m.(lastTry := Some(t.done), retries := m.retries + 1)
  }

  function AfterTry(s: State, id: nat, t: Try): (r: State)
    requires id < |s.mails|
  {
    State(if t.saved then s.mails[id := Tried(s.mails[id], t)] else s.mails,
          s.lastRun, t.done, s.past, s.latest + [Attempt(id, t.at, t.done, t.ok)])
  }

  predicate Exist(s: State, p: Pass) {
    p.picked.Some? ==> |p.tries| == |p.picked.value| && forall id :: id in p.picked.value ==> id < |s.mails| + p.created
  }

  /** The state after the first `k` mails of a pass. */
  function After(s: State, p: Pass, k: nat): (r: State)
    requires Exist(s, p) && k <= if p.picked.Some? then |p.tries| else 0
    ensures |r.mails| == |s.mails| + p.created && |r.latest| == k
    ensures r.lastRun == Start(s.lastRun, p) && r.past == s.All()
  {
    if k == 0 then Begin(s, p)
    else
      assert p.picked.value[k - 1] in p.picked.value;
      AfterTry(After(s, p, k - 1), p.picked.value[k - 1], p.tries[k - 1])
  }

  function Next(s: State, p: Pass): State
    requires Exist(s, p)
  {
    After(s, p, if p.picked.Some? then |p.tries| else 0)
  }

  /** What the clock and the query allow: time does not run backwards, and each
      mail after the first is preceded by the pause. */
  predicate Fits(s: State, p: Pass, max: nat)
    requires max > 0
  {
    && s.clock <= p.now && Start(s.lastRun, p) <= p.asked
    && Exist(s, p)
    && (p.picked.Some? ==>
          && IsDueList(Begin(s, p).mails, max, p.asked, p.picked.value)
          && (forall k :: 0 <= k < |p.tries| ==> p.tries[k].at <= p.tries[k].done)
          && (forall k :: 0 <= k < |p.tries| ==>
                (if k == 0 then p.asked else p.tries[k - 1].done + Pause(max)) <= p.tries[k].at))
  }

  /** The table at the start, and the loop variable a minute back. */
  function Init(mails: nat, now: int): State {
    State(seq(mails, _ => FreshMail), now - MINUTE, now, [], [])
  }

  predicate Possible(init: State, passes: seq<Pass>, max: nat)
    requires max > 0
    decreases |passes|, 0
  {
    passes == [] ||
    var front := passes[..|passes| - 1];
    Possible(init, front, max) && Fits(Run(init, front, max), passes[|passes| - 1], max)
  }

  function Run(init: State, passes: seq<Pass>, max: nat): State
    requires max > 0 && Possible(init, passes, max)
    decreases |passes|, 1
  {
    if passes == [] then init else Next(Run(init, passes[..|passes| - 1], max), passes[|passes| - 1])
  }

  // ------------------------------------------------------------------- Pace

  /** Attempts that start in (a, a + length]. */
  function InWindow(log: seq<Attempt>, a: int, length: int): nat {
    |Filter(log, (e: Attempt) => a < e.at <= a + length)|
  }

  function StartedAfter(log: seq<Attempt>, a: int): nat {
    |Filter(log, (e: Attempt) => a < e.at)|
  }

  ghost predicate Paced(s: State, max: nat) {
    && (forall e :: e in s.past ==> e.at <= s.lastRun)
    && (forall e :: e in s.latest ==> s.lastRun <= e.at <= s.clock)
    && |s.latest| <= max
    && s.lastRun <= s.clock
    && StartedAfter(s.past, s.lastRun - MINUTE) <= max
    && (forall a :: InWindow(s.All(), a, MINUTE) <= 2 * max)
  }

  lemma {:induction false} FilterSplits(s: seq<Attempt>, t: seq<Attempt>, keep: Attempt -> bool)
    ensures |Filter(s + t, keep)| == |Filter(s, keep)| + |Filter(t, keep)|
    decreases |t|
  {
    if t == [] {
      assert s + t == s;
    } else {
      var n := |t| - 1;
      FilterSplits(s, t[..n], keep);
      assert (s + t)[..|s + t| - 1] == s + t[..n] && (s + t)[|s + t| - 1] == t[n];
    }
  }

  lemma {:induction false} FilterBounds(s: seq<Attempt>, keep: Attempt -> bool, weaker: Attempt -> bool)
    requires forall e :: e in s && keep(e) ==> weaker(e)
    ensures |Filter(s, keep)| <= |Filter(s, weaker)| <= |s|
  {
    if s != [] {
      FilterBounds(s[..|s| - 1], keep, weaker);
    }
  }

  /** The attempts of a pass start at or after the pass, in order. */
  lemma {:induction false} LatestInOrder(s: State, p: Pass, max: nat, k: nat)
    requires max > 0 && Fits(s, p, max) && k <= if p.picked.Some? then |p.tries| else 0
    ensures var r := After(s, p, k);
            && r.lastRun <= r.clock
            && (k == 0 ==> r.clock == p.asked)
            && (k > 0 ==> r.clock == p.tries[k - 1].done)
            && (forall e :: e in r.latest ==> p.asked <= e.at <= r.clock)
            && (forall j :: 0 <= j < k ==>
                  r.latest[j] == Attempt(p.picked.value[j], p.tries[j].at, p.tries[j].done, p.tries[j].ok))
  {
    hide IsDueList;
    if k > 0 {
      LatestInOrder(s, p, max, k - 1);
    }
  }

  lemma WindowGrows(past: seq<Attempt>, latest: seq<Attempt>, max: nat, lastRun: int, a: int)
    requires |latest| <= max && (forall e :: e in latest ==> lastRun <= e.at)
    requires StartedAfter(past, lastRun - MINUTE) <= max
    requires InWindow(past, a, MINUTE) <= 2 * max
    ensures InWindow(past + latest, a, MINUTE) <= 2 * max
  {
    var inside := (e: Attempt) => a < e.at <= a + MINUTE;
    FilterSplits(past, latest, inside);
    if a + MINUTE < lastRun {
      FilterNone(latest, inside);
    } else {
      FilterBounds(latest, inside, inside);
      FilterBounds(past, inside, (e: Attempt) => lastRun - MINUTE < e.at);
    }
  }

  lemma PassKeepsPace(s: State, p: Pass, max: nat)
    requires max > 0 && Fits(s, p, max) && Paced(s, max)
    ensures Paced(Next(s, p), max)
  {
    hide IsDueList, Filter, InWindow, StartedAfter;
    var r := Next(s, p);
    LatestInOrder(s, p, max, |r.latest|);
    assert StartedAfter(r.past, r.lastRun - MINUTE) <= max by { PastOfPass(s, r, max); }
    assert |r.latest| <= max by { LatestIsShort(s, p, max); }
    forall a ensures InWindow(r.All(), a, MINUTE) <= 2 * max {
      WindowGrows(r.past, r.latest, max, r.lastRun, a);
    }
  }

  lemma LatestIsShort(s: State, p: Pass, max: nat)
    requires max > 0 && Fits(s, p, max)
    ensures |Next(s, p).latest| <= max
  {
  }

  lemma PastOfPass(s: State, r: State, max: nat)
    requires Paced(s, max) && r.past == s.All() && s.lastRun + MINUTE <= r.lastRun
    ensures StartedAfter(r.past, r.lastRun - MINUTE) <= max
  {
    var later := (e: Attempt) => r.lastRun - MINUTE < e.at;
    FilterSplits(s.past, s.latest, later);
    FilterNone(s.past, later);
    FilterBounds(s.latest, later, later);
  }

  lemma {:induction false} RunIsPaced(mails: nat, now: int, passes: seq<Pass>, max: nat)
    requires max > 0 && Possible(Init(mails, now), passes, max)
    ensures Paced(Run(Init(mails, now), passes, max), max)
    decreases |passes|
  {
    hide Paced, Fits, Next;
    if passes == [] {
      InitIsPaced(mails, now, max);
    } else {
      RunIsPaced(mails, now, passes[..|passes| - 1], max);
      PassKeepsPace(Run(Init(mails, now), passes[..|passes| - 1], max), passes[|passes| - 1], max);
    }
  }

  lemma InitIsPaced(mails: nat, now: int, max: nat)
    ensures Paced(Init(mails, now), max)
  {
  }

  /** Main result: however the attempts of a pass are delayed, and whether or not
      rows can be saved, no window of a minute, open at its start, holds more than
      twice the configured number of attempts. */
  lemma PaceBound(mails: nat, now: int, passes: seq<Pass>, max: nat, a: int)
    requires max > 0 && Possible(Init(mails, now), passes, max)
    ensures InWindow(Run(Init(mails, now), passes, max).All(), a, 60 * 1_000_000_000) <= 2 * max
  {
    hide Run, Possible, InWindow;
    RunIsPaced(mails, now, passes, max);
  }

  /** Every attempt of a pass starts within `delay` of the pass. */
  predicate Prompt(p: Pass, lastRun: int, delay: nat) {
    forall k :: 0 <= k < |p.tries| ==> p.tries[k].at <= Start(lastRun, p) + delay
  }

  predicate AllPrompt(init: State, passes: seq<Pass>, max: nat, delay: nat)
    requires max > 0 && Possible(init, passes, max)
    decreases |passes|
  {
    passes == [] ||
    var front := passes[..|passes| - 1];
    AllPrompt(init, front, max, delay) && Prompt(passes[|passes| - 1], Run(init, front, max).lastRun, delay)
  }

  ghost predicate PacedPromptly(s: State, max: nat, delay: nat) {
    && (forall e :: e in s.past ==> e.at <= s.lastRun - MINUTE + delay)
    && (forall e :: e in s.latest ==> s.lastRun <= e.at <= s.lastRun + delay)
    && |s.latest| <= max
    && (forall a, w :: w <= MINUTE - delay ==> InWindow(s.All(), a, w) <= max)
  }

  lemma PassKeepsPromptPace(s: State, p: Pass, max: nat, delay: nat)
    requires max > 0 && Fits(s, p, max) && Prompt(p, s.lastRun, delay) && PacedPromptly(s, max, delay)
    ensures PacedPromptly(Next(s, p), max, delay)
  {
    hide IsDueList, Filter, InWindow;
    var r := Next(s, p);
    LatestInOrder(s, p, max, |r.latest|);
    LatestIsShort(s, p, max);
    forall a, w | w <= MINUTE - delay ensures InWindow(r.All(), a, w) <= max {
      PromptWindow(r.past, r.latest, max, r.lastRun, delay, a, w);
    }
  }

  lemma PromptWindow(past: seq<Attempt>, latest: seq<Attempt>, max: nat, lastRun: int, delay: nat, a: int, w: int)
    requires |latest| <= max && (forall e :: e in latest ==> lastRun <= e.at)
    requires forall e :: e in past ==> e.at <= lastRun - MINUTE + delay
    requires w <= MINUTE - delay && InWindow(past, a, w) <= max
    ensures InWindow(past + latest, a, w) <= max
  {
    var inside := (e: Attempt) => a < e.at <= a + w;
    FilterSplits(past, latest, inside);
    if a + w < lastRun {
      FilterNone(latest, inside);
    } else {
      FilterBounds(latest, inside, inside);
      FilterNone(past, inside);
    }
  }

  lemma {:induction false} RunIsPacedPromptly(mails: nat, now: int, passes: seq<Pass>, max: nat, delay: nat)
    requires max > 0 && Possible(Init(mails, now), passes, max)
    requires AllPrompt(Init(mails, now), passes, max, delay)
    ensures PacedPromptly(Run(Init(mails, now), passes, max), max, delay)
    decreases |passes|
  {
    hide PacedPromptly, Fits, Next, Prompt;
    if passes == [] {
      assert PacedPromptly(Init(mails, now), max, delay) by { InitIsPacedPromptly(mails, now, max, delay); }
    } else {
      RunIsPacedPromptly(mails, now, passes[..|passes| - 1], max, delay);
      PassKeepsPromptPace(Run(Init(mails, now), passes[..|passes| - 1], max), passes[|passes| - 1], max, delay);
    }
  }

  lemma InitIsPacedPromptly(mails: nat, now: int, max: nat, delay: nat)
    ensures PacedPromptly(Init(mails, now), max, delay)
  {
  }

  /** If every attempt starts within `delay` of its pass, any window shorter than
      a minute by that much holds no more than the configured number. */
  lemma PromptPace(mails: nat, now: int, passes: seq<Pass>, max: nat, delay: nat, a: int)
    requires max > 0 && Possible(Init(mails, now), passes, max)
    requires AllPrompt(Init(mails, now), passes, max, delay)
    ensures InWindow(Run(Init(mails, now), passes, max).All(), a, 60 * 1_000_000_000 - delay) <= max
  {
    hide Run, Possible, AllPrompt, InWindow;
    RunIsPacedPromptly(mails, now, passes, max, delay);
  }

  const SlowFirst := Pass(2, 0, 0, 0, Some([0]), [Try(MINUTE, MINUTE, true, true)])
  const NextPass := Pass(0, MINUTE, 0, MINUTE, Some([1]), [Try(MINUTE, MINUTE, true, true)])
  const AfterFirst := State([Mail(true, 0, None), FreshMail], 0, MINUTE, [], [Attempt(0, MINUTE, MINUTE, true)])
  const AfterSecond := State([Mail(true, 0, None), Mail(true, 0, None)], MINUTE, MINUTE,
                             [Attempt(0, MINUTE, MINUTE, true)], [Attempt(1, MINUTE, MINUTE, true)])

  lemma FirstPass()
    ensures Fits(Init(0, 0), SlowFirst, 1) && Next(Init(0, 0), SlowFirst) == AfterFirst
  {
    var s := Begin(Init(0, 0), SlowFirst);
    assert s.mails == [FreshMail, FreshMail];
    assert After(Init(0, 0), SlowFirst, 1) == AfterTry(s, 0, SlowFirst.tries[0]);
  }

  lemma SecondPass()
    ensures Fits(AfterFirst, NextPass, 1) && Next(AfterFirst, NextPass) == AfterSecond
  {
    var s := Begin(AfterFirst, NextPass);
    assert s.mails == AfterFirst.mails;
    assert After(AfterFirst, NextPass, 1) == AfterTry(s, 1, NextPass.tries[0]);
  }

  /** The bound is met: with one mail a minute, a first attempt that starts a minute
      after its pass and one of the next pass fall into the same window. */
  lemma SlowPassDoublesPace()
    ensures Possible(Init(0, 0), [SlowFirst, NextPass], 1)
    ensures InWindow(Run(Init(0, 0), [SlowFirst, NextPass], 1).All(), 0, 60 * 1_000_000_000) == 2
  {
    hide Fits, Next, Filter;
    FirstPass();
    SecondPass();
    var init := Init(0, 0);
    assert [SlowFirst, NextPass][..1] == [SlowFirst] && [SlowFirst][..0] == [];
    assert Possible(init, [], 1) && Run(init, [], 1) == init;
    assert Possible(init, [SlowFirst], 1) && Run(init, [SlowFirst], 1) == AfterFirst;
    FilterBoth(AfterSecond.All(), (e: Attempt) => 0 < e.at <= 0 + MINUTE);
  }

  lemma FilterBoth(s: seq<Attempt>, keep: Attempt -> bool)
    requires |s| == 2 && keep(s[0]) && keep(s[1])
    ensures |Filter(s, keep)| == 2
  {
    assert s[..1][..0] == [];
    assert Filter(s[..1][..0], keep) == [];
    assert Filter(s[..1], keep) == [s[0]];
  }

  // ---------------------------------------------------------------- Retries

  predicate AllSaved(passes: seq<Pass>) {
    forall j, k :: 0 <= j < |passes| && 0 <= k < |passes[j].tries| ==> passes[j].tries[k].saved
  }

  function AttemptsOf(log: seq<Attempt>, id: nat): nat {
    |Filter(log, (e: Attempt) => e.id == id)|
  }

  /** A later attempt for the same mail follows a failure recorded over a minute ago. */
  predicate Spaced(log: seq<Attempt>) {
    forall i, j :: 0 <= i < j < |log| && log[i].id == log[j].id ==>
                     !log[i].ok && log[i].done + 60 * 1_000_000_000 < log[j].at
  }

  /** The row of a mail tells of its attempts. */
  ghost predicate Recorded(m: Mail, log: seq<Attempt>, id: nat) {
    && AttemptsOf(log, id) == m.retries + (if m.success then 1 else 0) <= 11
    && ((exists e :: e in log && e.id == id && e.ok) <==> m.success)
    && (forall e :: e in log && e.id == id && !e.ok ==> m.lastTry.Some? && e.done <= m.lastTry.value)
  }

  ghost predicate Booked(s: State) {
    && (forall e :: e in s.All() ==> e.id < |s.mails| && e.done <= s.clock)
    && (forall id: nat :: id < |s.mails| ==> Recorded(s.mails[id], s.All(), id))
    && Spaced(s.All())
  }

  lemma AttemptsOfMore(log: seq<Attempt>, e: Attempt, id: nat)
    ensures AttemptsOf(log + [e], id) == AttemptsOf(log, id) + (if e.id == id then 1 else 0)
  {
    assert (log + [e])[..|log|] == log;
  }

  lemma TryIsRecorded(m: Mail, log: seq<Attempt>, id: nat, t: Try, asked: int)
    requires Recorded(m, log, id) && Due(m, asked) && asked <= t.at <= t.done
    requires forall e :: e in log ==> e.done <= t.at
    ensures Recorded(Tried(m, t), log + [Attempt(id, t.at, t.done, t.ok)], id)
  {
    hide AttemptsOf;
    var e := Attempt(id, t.at, t.done, t.ok);
    AttemptsOfMore(log, e, id);
    assert e in log + [e];
  }

  lemma OthersStayRecorded(m: Mail, log: seq<Attempt>, id: nat, e: Attempt)
    requires Recorded(m, log, id) && e.id != id
    ensures Recorded(m, log + [e], id)
  {
    hide AttemptsOf;
    AttemptsOfMore(log, e, id);
    if m.success {
      var x :| x in log && x.id == id && x.ok;
      assert x in log + [e];
    }
  }

  lemma DueMailIsSpaced(s: State, id: nat, e: Attempt, asked: int)
    requires Booked(s) && id < |s.mails| && Due(s.mails[id], asked) && asked <= e.at && e.id == id
    ensures Spaced(s.All() + [e])
  {
    hide AttemptsOf;
    var log := s.All();
    forall i | 0 <= i < |log| && log[i].id == id ensures !log[i].ok && log[i].done + MINUTE < e.at {
      assert log[i] in log && Recorded(s.mails[id], log, id);
    }
  }

  lemma TryKeepsBooks(s: State, id: nat, t: Try, asked: int)
    requires Booked(s) && id < |s.mails| && Due(s.mails[id], asked)
    requires asked <= t.at <= t.done && s.clock <= t.at && t.saved
    ensures Booked(AfterTry(s, id, t))
  {
    hide Recorded, Spaced, Due;
    var r := AfterTry(s, id, t);
    var e := Attempt(id, t.at, t.done, t.ok);
    assert r.All() == s.All() + [e];
    DueMailIsSpaced(s, id, e, asked);
    TryIsRecorded(s.mails[id], s.All(), id, t, asked);
    forall x: nat | x < |r.mails| && x != id ensures Recorded(r.mails[x], r.All(), x) {
      OthersStayRecorded(s.mails[x], s.All(), x, e);
    }
  }

  lemma BeginKeepsBooks(s: State, p: Pass)
    requires Booked(s) && s.clock <= p.asked
    ensures Booked(Begin(s, p))
  {
    hide Recorded, Spaced;
    var r := Begin(s, p);
    assert r.All() == s.All();
    forall id: nat | |s.mails| <= id < |r.mails| ensures Recorded(r.mails[id], r.All(), id) {
      UntriedIsRecorded(s.All(), id);
    }
  }

  lemma UntriedIsRecorded(log: seq<Attempt>, id: nat)
    requires forall e :: e in log ==> e.id < id
    ensures Recorded(FreshMail, log, id)
  {
    FilterNone(log, (e: Attempt) => e.id == id);
  }

  /** Mails still ahead in the pass are as the query saw them. */
  lemma {:induction false} AheadUnchanged(s: State, p: Pass, max: nat, k: nat)
    requires max > 0 && Fits(s, p, max) && k <= if p.picked.Some? then |p.tries| else 0
    ensures forall j :: k <= j < |p.tries| && p.picked.Some? ==>
                          p.picked.value[j] < |s.mails| + p.created
                          && After(s, p, k).mails[p.picked.value[j]] == Begin(s, p).mails[p.picked.value[j]]
    decreases k
  {
    hide Due, Tried;
    if k > 0 {
      AheadUnchanged(s, p, max, k - 1);
    }
  }

  lemma {:induction false} PassKeepsBooks(s: State, p: Pass, max: nat, k: nat)
    requires max > 0 && Fits(s, p, max) && k <= if p.picked.Some? then |p.tries| else 0
    requires Booked(s) && forall j :: 0 <= j < |p.tries| ==> p.tries[j].saved
    ensures Booked(After(s, p, k))
    decreases k
  {
    hide Booked, Due, Tried;
    if k == 0 {
      BeginKeepsBooks(s, p);
    } else {
      PassKeepsBooks(s, p, max, k - 1);
      AheadUnchanged(s, p, max, k - 1);
      LatestInOrder(s, p, max, k - 1);
      TryKeepsBooks(After(s, p, k - 1), p.picked.value[k - 1], p.tries[k - 1], p.asked);
    }
  }

  /** Main result: with rows saved, every mail's row counts its attempts, of which
      there are at most 11; no attempt follows a success; and a retry starts over a
      minute after every earlier failure was recorded. */
  lemma {:induction false} RetriesAreBooked(mails: nat, now: int, passes: seq<Pass>, max: nat)
    requires max > 0 && Possible(Init(mails, now), passes, max) && AllSaved(passes)
    ensures Booked(Run(Init(mails, now), passes, max))
    decreases |passes|
  {
    hide Booked, Fits;
    if passes == [] {
      InitIsBooked(mails, now);
    } else {
      var front, last := passes[..|passes| - 1], passes[|passes| - 1];
      RetriesAreBooked(mails, now, front, max);
      PassKeepsBooks(Run(Init(mails, now), front, max), last, max, if last.picked.Some? then |last.tries| else 0);
    }
  }

  lemma InitIsBooked(mails: nat, now: int)
    ensures Booked(Init(mails, now))
  {
    forall id: nat | id < mails ensures Recorded(FreshMail, [], id) {
      UntriedIsRecorded([], id);
    }
  }

  /** A mail never tried is due at once. */
  lemma FreshMailIsDue(asked: int)
    ensures Due(FreshMail, asked)
  {
  }

  /** A pass starts at once if the last one is a minute old, and else exactly when it
      is; plus what it wakes late. */
  lemma StartExactly(lastRun: int, p: Pass)
    ensures p.late == 0 ==>
              Start(lastRun, p) == if p.now >= lastRun + 60 * 1_000_000_000 then p.now else lastRun + 60 * 1_000_000_000
    ensures Start(lastRun, p) == Start(lastRun, p.(late := 0)) + p.late
  {
  }

  /** The pauses of a whole pass add up to 60 microseconds at most: they spread no
      attempts over the minute. */
  lemma PausesAreShort(max: nat)
    requires max > 0
    ensures max * Pause(max) <= 60_000
  {
    assert max * (60 / max) <= 60;
  }

  /** What a saved attempt means for the due query: after a success a mail is never
      due again; after a failure it is due exactly from the moment the failure is
      more than a minute old, and never again after the eleventh. */
  lemma DueAfterTry(mails: seq<Mail>, id: nat, t: Try, before: int, limit: nat, asked: int, ids: seq<nat>)
    requires id < |mails| && Due(mails[id], before)
    requires IsDueList(mails[id := Tried(mails[id], t)], limit, asked, ids)
    ensures id in ids ==> !t.ok && mails[id].retries < 10 && t.done + 60 * 1_000_000_000 < asked
    ensures |ids| < limit ==>
              (id in ids <==> !t.ok && mails[id].retries < 10 && t.done + 60 * 1_000_000_000 < asked)
  {
    var after := mails[id := Tried(mails[id], t)];
    assert Due(after[id], asked) <==> !t.ok && mails[id].retries < MAX_RETRIES && t.done + MINUTE < asked;
    if id in ids {
      var k :| 0 <= k < |ids| && ids[k] == id;
    }
  }

  // -------------------------------------------------------------- The objects

  class EmailDao {
    var mails: seq<Mail>

    constructor ()
      ensures mails == []
    {
      mails := [];
    }

    /** The row is overwritten by the copy in hand. */
    method Save(id: nat, m: Mail, works: bool) returns (failed: bool)
      requires id < |mails|
      modifies this
      ensures mails == if works then old(mails)[id := m] else old(mails)
      ensures failed == !works
    {
      if works {
        mails := mails[id := m];
      }
      failed := !works;
    }
  }

  class Mailer {
    const max: nat
    var lastRun: int

    constructor (maxMailsPerMinute: nat, now: int)
      ensures max == if maxMailsPerMinute == 0 then 10 else maxMailsPerMinute
      ensures lastRun == now - 60 * 1_000_000_000
    {
      max := if maxMailsPerMinute == 0 then DEFAULT_PER_MINUTE else maxMailsPerMinute;
      lastRun := now - MINUTE;
    }

    /** One turn of the endless loop. The mails are copied by the query, and the
        copies are changed and saved one by one. */
    method RunOnce(dao: EmailDao, p: Pass, ghost s: State) returns (attempts: seq<Attempt>)
      requires max > 0 && dao.mails == s.mails + seq(p.created, _ => FreshMail)
        && lastRun == s.lastRun && Fits(s, p, max)
      modifies this, dao
      ensures p.late == 0 ==>
                lastRun == if p.now >= old(lastRun) + 60 * 1_000_000_000 then p.now
                           else old(lastRun) + 60 * 1_000_000_000
      ensures dao.mails == Next(s, p).mails && lastRun == Next(s, p).lastRun && attempts == Next(s, p).latest
    {
      var wake := p.now;
      if wake - lastRun < MINUTE {
        wake := lastRun + MINUTE;
      }
      lastRun := wake + p.late;
      attempts := [];
      if p.picked.None? {
        return;
      }
      var ids := p.picked.value;
      assert forall k :: 0 <= k < |ids| ==> ids[k] in ids;
      var mails := dao.mails;
      var emails := seq(|ids|, k requires 0 <= k < |ids| => mails[ids[k]]);
      for k := 0 to |ids|
        invariant lastRun == Start(s.lastRun, p)
        invariant dao.mails == After(s, p, k).mails && attempts == After(s, p, k).latest
      {
        AheadUnchanged(s, p, max, k);
        var email, t := emails[k], p.tries[k];
        if !t.ok {
          email := email.(lastTry := Some(t.done), retries := email.retries + 1);
        } else {
          email := email.(success := true);
        }
        var _ := dao.Save(ids[k], email, t.saved);
        attempts := attempts + [Attempt(ids[k], t.at, t.done, t.ok)];
      }
    }
  }
}
