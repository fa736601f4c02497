/**
 The pool of ingest slots (dao/ingest_server.go, api/worker_grpc.go): slots are
 handed to streams and freed when a stream finishes. A pick and its save are one
 step.
 */
module IngestSlots {
  import opened Basics

  /** `stream` is the holder; rows are kept in the order of their primary keys. */
  datatype Slot = Slot(server: nat, transcoding: bool, stream: Option<nat>, freedAt: int)
  {
    predicate Free(server: nat, transcoding: bool) {
      this.stream.None? && this.server == server && this.transcoding == transcoding
    }
  }

  type Table = seq<Slot>

  /** The first free row of a server and kind by the time it was freed, then by
      primary key: the order of the slot queries. */
  function Pick(t: Table, server: nat, transcoding: bool): (r: Option<nat>)
    ensures r.Some? ==> r.value < |t| && t[r.value].Free(server, transcoding)
  {
    if t == [] then None
    else
      var n := |t| - 1;
      var best := Pick(t[..n], server, transcoding);
      if t[n].Free(server, transcoding) && (best.None? || t[n].freedAt < t[best.value].freedAt) then Some(n) else best
  }

  lemma {:induction false} PickIsEarliest(t: Table, server: nat, transcoding: bool)
    ensures var r := Pick(t, server, transcoding);
            && (r.None? <==> forall k :: 0 <= k < |t| ==> !t[k].Free(server, transcoding))
            && (r.Some? ==> forall k :: 0 <= k < |t| && t[k].Free(server, transcoding) ==>
                  || t[r.value].freedAt < t[k].freedAt
                  || (t[r.value].freedAt == t[k].freedAt && r.value <= k))
  {
    if t != [] {
      var n := |t| - 1;
      PickIsEarliest(t[..n], server, transcoding);
      assert forall k :: 0 <= k < n ==> t[..n][k] == t[k];
    }
  }

  /** What a request asks a slot for; `Self` is a self-stream. */
  datatype Source = Comb | Cam | Pres | Self

  /** A combined view takes a transcoding slot if there is one; all others, and a
      combined view without one, take a plain slot. */
  function Choose(t: Table, server: nat, source: Source): Option<nat> {
    if source == Comb && Pick(t, server, true).Some? then Pick(t, server, true)
    else Pick(t, server, false)
  }

  datatype Step = Assign(stream: nat, source: Source, server: nat) | Finish(stream: nat, now: int)

  function FreeAll(t: Table, stream: nat, now: int): Table {
    seq(|t|, k requires 0 <= k < |t| =>
          if t[k].stream == Some(stream) then t[k].(stream := None, freedAt := now) else t[k])
  }

  /** One step; a request that finds no slot leaves the table as it is. */
  function Next(t: Table, step: Step): Table {
    match step
    case Assign(stream, source, server) =>
      var slot := Choose(t, server, source);
      if slot.None? then t else t[slot.value := t[slot.value].(stream := Some(stream))]
    case Finish(stream, now) => FreeAll(t, stream, now)
  }

  function Run(t: Table, steps: seq<Step>): Table {
    if steps == [] then t else Next(Run(t, steps[..|steps| - 1]), steps[|steps| - 1])
  }

  lemma RunOneMore(t: Table, steps: seq<Step>, step: Step)
    ensures Run(t, steps + [step]) == Next(Run(t, steps), step)
  {
    assert (steps + [step])[..|steps|] == steps;
  }

  predicate FinishesIn(steps: seq<Step>, stream: nat) {
    exists k :: 0 <= k < |steps| && steps[k].Finish? && steps[k].stream == stream
  }

  // ---------------------------------------------------------- Exclusivity

  lemma StepKeepsHolder(t: Table, step: Step, k: nat, stream: nat)
    requires k < |t| && t[k].stream == Some(stream) && step != Finish(stream, if step.Finish? then step.now else 0)
    ensures |Next(t, step)| == |t| && Next(t, step)[k] == t[k]
  {
  }

  lemma {:induction false} RunKeepsRows(t: Table, steps: seq<Step>)
    ensures |Run(t, steps)| == |t|
    ensures forall k :: 0 <= k < |t| ==>
                          Run(t, steps)[k].server == t[k].server && Run(t, steps)[k].transcoding == t[k].transcoding
    decreases |steps|
  {
    if steps != [] {
      RunKeepsRows(t, steps[..|steps| - 1]);
    }
  }

  /** Over any run, an occupied slot stays with its holder until the holder finishes. */
  lemma {:induction false} HolderKeepsSlot(t: Table, steps: seq<Step>, k: nat, stream: nat)
    requires k < |t| && t[k].stream == Some(stream)
    ensures |Run(t, steps)| == |t|
    ensures Run(t, steps)[k].stream == Some(stream) || FinishesIn(steps, stream)
    decreases |steps|
  {
    RunKeepsRows(t, steps);
    if steps != [] {
      var n := |steps| - 1;
      var before := steps[..n];
      HolderKeepsSlot(t, before, k, stream);
      if FinishesIn(before, stream) {
        var i :| 0 <= i < |before| && before[i].Finish? && before[i].stream == stream;
        assert steps[i] == before[i];
      } else if steps[n].Finish? && steps[n].stream == stream {
        assert FinishesIn(steps, stream);
      } else {
        StepKeepsHolder(Run(t, before), steps[n], k, stream);
      }
    }
  }

  /** The free slot of a server and kind that was freed first, by primary key among equals. */
  predicate IsEarliest(t: Table, server: nat, transcoding: bool, i: nat) {
    && i < |t| && t[i].Free(server, transcoding)
    && forall k :: 0 <= k < |t| && t[k].Free(server, transcoding) ==>
                     t[i].freedAt < t[k].freedAt || (t[i].freedAt == t[k].freedAt && i <= k)
  }

  predicate HasFree(t: Table, server: nat, transcoding: bool) {
    exists k :: 0 <= k < |t| && t[k].stream.None? && t[k].server == server && t[k].transcoding == transcoding
  }

  /** What one request does, from the rows alone: a combined view takes the earliest
      freed transcoding slot if there is one; without one, and for any other source,
      the earliest freed plain slot is taken; and the table is left alone if and
      only if there is none of these. */
  lemma AssignExactly(t: Table, stream: nat, source: Source, server: nat)
    ensures var after := Next(t, Assign(stream, source, server));
            var transcoding := source == Comb && HasFree(t, server, true);
            && (after == t <==> !HasFree(t, server, false) && (source == Comb ==> !HasFree(t, server, true)))
            && (transcoding || HasFree(t, server, false) ==>
                  exists i: nat ::
                    IsEarliest(t, server, transcoding, i) && after == t[i := t[i].(stream := Some(stream))])
  {
    hide Pick;
    PickIsEarliest(t, server, true);
    PickIsEarliest(t, server, false);
    var r := Choose(t, server, source);
    if r.Some? {
      var transcoding := source == Comb && HasFree(t, server, true);
      assert t[r.value].Free(server, transcoding);
      assert IsEarliest(t, server, transcoding, r.value);
      assert Next(t, Assign(stream, source, server))[r.value].stream == Some(stream);
    }
  }

  /** What one assignment changes: at most one slot, which was free; only a
      combined view takes a transcoding slot, and it takes a plain one only when
      no transcoding slot of the server is free. */
  lemma AssignTakesOneFreeSlot(t: Table, stream: nat, source: Source, server: nat)
    ensures var after := Next(t, Assign(stream, source, server));
            || (after == t && forall k :: 0 <= k < |t| ==> !t[k].Free(server, false))
            || exists i :: && 0 <= i < |t|
                           && t[i].stream.None? && t[i].server == server
                           && after == t[i := t[i].(stream := Some(stream))]
                           && (t[i].transcoding ==> source == Comb)
                           && (source == Comb && !t[i].transcoding ==>
                                 forall k :: 0 <= k < |t| ==> !t[k].Free(server, true))
  {
    PickIsEarliest(t, server, true);
    PickIsEarliest(t, server, false);
    var r := Choose(t, server, source);
    if r.Some? {
      var i := r.value;
      assert Next(t, Assign(stream, source, server)) == t[i := t[i].(stream := Some(stream))];
    }
  }

  // --------------------------------------------- Slots and the past of a run

  /** The `i`-th step of the run hands slot `k` to the stream. */
  predicate TakesAt(t: Table, steps: seq<Step>, i: nat, k: nat, stream: nat)
    requires i < |steps|
  {
    && steps[i].Assign? && steps[i].stream == stream
    && Choose(Run(t, steps[..i]), steps[i].server, steps[i].source) == Some(k)
  }

  /** The slot was handed to the stream, at the start or by a request of the run,
      whether or not that request failed later, and no finish came after. */
  predicate Unfinished(t: Table, steps: seq<Step>, k: nat, stream: nat)
    requires k < |t|
  {
    || (t[k].stream == Some(stream) && !FinishesIn(steps, stream))
    || exists i :: 0 <= i < |steps| && TakesAt(t, steps, i, k, stream) && !FinishesIn(steps[i + 1..], stream)
  }

  lemma FinishesInMore(steps: seq<Step>, step: Step, stream: nat)
    ensures FinishesIn(steps + [step], stream) <==> FinishesIn(steps, stream) || (step.Finish? && step.stream == stream)
  {
    var all := steps + [step];
    if step.Finish? && step.stream == stream {
      assert all[|steps|] == step;
    }
    if FinishesIn(steps, stream) {
      var k :| 0 <= k < |steps| && steps[k].Finish? && steps[k].stream == stream;
      assert all[k] == steps[k];
    }
  }

  /** How the past of a slot grows by one step. */
  lemma UnfinishedOfMore(t: Table, steps: seq<Step>, step: Step, k: nat, stream: nat)
    requires k < |t|
    ensures Unfinished(t, steps + [step], k, stream) <==>
              || TakesAt(t, steps + [step], |steps|, k, stream)
              || (Unfinished(t, steps, k, stream) && !(step.Finish? && step.stream == stream))
  {
    hide Run, Choose, FinishesIn;
    var all, n := steps + [step], |steps|;
    FinishesInMore(steps, step, stream);
    assert all[n + 1..] == [] && !FinishesIn([], stream) by { NoneFinishes(stream); }
    forall i | 0 <= i < n
      ensures TakesAt(t, all, i, k, stream) <==> TakesAt(t, steps, i, k, stream)
      ensures FinishesIn(all[i + 1..], stream) <==>
                FinishesIn(steps[i + 1..], stream) || (step.Finish? && step.stream == stream)
    {
      assert all[..i] == steps[..i] && all[i] == steps[i];
      assert all[i + 1..] == steps[i + 1..] + [step];
      FinishesInMore(steps[i + 1..], step, stream);
    }
    if Unfinished(t, steps, k, stream) && !(step.Finish? && step.stream == stream)
       && !(t[k].stream == Some(stream) && !FinishesIn(steps, stream)) {
      var i :| 0 <= i < n && TakesAt(t, steps, i, k, stream) && !FinishesIn(steps[i + 1..], stream);
      assert TakesAt(t, all, i, k, stream) && !FinishesIn(all[i + 1..], stream);
    }
  }

  lemma NoneFinishes(stream: nat)
    ensures !FinishesIn([], stream)
  {
  }

  /** Main result: after any run, a slot is held by a stream exactly when it was
      handed to it and the stream has not finished since. */
  lemma {:induction false} HeldExactly(t: Table, steps: seq<Step>, k: nat, stream: nat)
    requires k < |t|
    ensures |Run(t, steps)| == |t|
    ensures Run(t, steps)[k].stream == Some(stream) <==> Unfinished(t, steps, k, stream)
    decreases |steps|
  {
    hide Choose, Unfinished, FinishesIn, Run, Next;
    RunKeepsRows(t, steps);
    if steps == [] {
      AtTheStart(t, k, stream);
      assert Run(t, steps) == t by { NoSteps(t); }
    } else {
      var n := |steps| - 1;
      var before := steps[..n];
      assert before + [steps[n]] == steps;
      RunKeepsRows(t, before);
      HeldExactly(t, before, k, stream);
      UnfinishedOfMore(t, before, steps[n], k, stream);
      RunOneMore(t, before, steps[n]);
      HolderAfter(Run(t, before), steps[n], k, stream);
    }
  }

  lemma NoSteps(t: Table)
    ensures Run(t, []) == t
  {
  }

  /** Who holds a slot after one step. */
  lemma HolderAfter(t: Table, step: Step, k: nat, stream: nat)
    requires k < |t|
    ensures |Next(t, step)| == |t|
    ensures Next(t, step)[k].stream == Some(stream) <==>
              || (step.Assign? && step.stream == stream && Choose(t, step.server, step.source) == Some(k))
              || (t[k].stream == Some(stream) && !(step.Finish? && step.stream == stream))
  {
    hide Choose;
    if step.Assign? {
      ChoiceIsFree(t, step.server, step.source);
    }
  }

  lemma AtTheStart(t: Table, k: nat, stream: nat)
    requires k < |t|
    ensures Unfinished(t, [], k, stream) <==> t[k].stream == Some(stream)
  {
  }

  lemma ChoiceIsFree(t: Table, server: nat, source: Source)
    ensures var r := Choose(t, server, source); r.Some? ==> r.value < |t| && t[r.value].stream.None?
  {
  }

  /** After any run, a finish frees exactly the slots handed to the stream since its
      last finish, also by requests that failed, and touches no other. */
  lemma FinishFreesExactly(t: Table, steps: seq<Step>, stream: nat, now: int)
    ensures var before, after := Run(t, steps), Run(t, steps + [Finish(stream, now)]);
            && |before| == |after| == |t|
            && forall k :: 0 <= k < |t| ==>
                             after[k] == if Unfinished(t, steps, k, stream)
                                         then Slot(t[k].server, t[k].transcoding, None, now) else before[k]
  {
    hide Run, Unfinished;
    RunOneMore(t, steps, Finish(stream, now));
    RunKeepsRows(t, steps);
    forall k | 0 <= k < |t|
      ensures Run(t, steps)[k].stream == Some(stream) <==> Unfinished(t, steps, k, stream)
    {
      HeldExactly(t, steps, k, stream);
    }
  }

  // ----------------------------------------------------------- FIFO order

  predicate Distinct(q: seq<nat>) {
    forall i, j :: 0 <= i < |q| && 0 <= j < |q| && i != j ==> q[i] != q[j]
  }

  predicate FreeAt(t: Table, k: nat, server: nat, transcoding: bool) {
    k < |t| && t[k].Free(server, transcoding)
  }

  /** The queue holds exactly the free slots of a server and kind, earliest freed first. */
  ghost predicate Queued(q: seq<nat>, t: Table, server: nat, transcoding: bool) {
    && Distinct(q)
    && (forall k: nat :: k in q <==> FreeAt(t, k, server, transcoding))
    && ByTime(q, t)
  }

  predicate ByTime(q: seq<nat>, t: Table) {
    && (forall i :: 0 <= i < |q| ==> q[i] < |t|)
    && (forall i, j :: 0 <= i < j < |q| ==> t[q[i]].freedAt <= t[q[j]].freedAt)
  }

  /** The same queue up to slots freed at the same time. */
  ghost predicate SameTimes(q: seq<nat>, q': seq<nat>, t: Table) {
    && |q| == |q'|
    && forall i :: 0 <= i < |q| && q[i] < |t| && q'[i] < |t| ==> t[q[i]].freedAt == t[q'[i]].freedAt
  }

  /** The queue with its element at `p` moved to the front. */
  function ToFront(q: seq<nat>, p: nat): (q': seq<nat>)
    requires p < |q|
    ensures |q'| == |q|
    ensures forall j :: 0 <= j < |q| ==> q'[j] == q[From(p, j)]
  {
    [q[p]] + q[..p] + q[p + 1..]
  }

  function From(p: nat, j: nat): nat {
    if j == 0 then p else if j <= p then j - 1 else j
  }

  function To(p: nat, j: nat): nat {
    if j == p then 0 else if j < p then j + 1 else j
  }

  lemma ToFrontKeepsElements(q: seq<nat>, p: nat)
    requires p < |q| && Distinct(q)
    ensures Distinct(ToFront(q, p))
    ensures forall k :: k in ToFront(q, p) <==> k in q
  {
    var q' := ToFront(q, p);
    forall k | k in q ensures k in q' {
      var j :| 0 <= j < |q| && q[j] == k;
      assert From(p, To(p, j)) == j && q'[To(p, j)] == k;
    }
  }

  lemma EarlierOrEqual(t: Table, q: seq<nat>, p: nat, j: nat)
    requires ByTime(q, t) && p < |q| && j <= p
    ensures t[q[j]].freedAt <= t[q[p]].freedAt
  {
  }

  /** Slots before the pick in the queue were freed at the same time as it. */
  lemma PickInQueue(t: Table, q: seq<nat>, server: nat, transcoding: bool) returns (p: nat)
    requires Queued(q, t, server, transcoding) && Pick(t, server, transcoding).Some?
    ensures p < |q| && q[p] == Pick(t, server, transcoding).value
    ensures forall j :: 0 <= j <= p ==> t[q[j]].freedAt == t[q[p]].freedAt
  {
    hide Pick;
    var i := Pick(t, server, transcoding).value;
    PickIsEarliest(t, server, transcoding);
    assert FreeAt(t, i, server, transcoding);
    p :| 0 <= p < |q| && q[p] == i;
    forall j | 0 <= j <= p ensures t[q[j]].freedAt == t[i].freedAt {
      assert q[j] in q && FreeAt(t, q[j], server, transcoding);
      EarlierOrEqual(t, q, p, j);
    }
  }

  lemma ToFrontKeepsQueue(t: Table, q: seq<nat>, p: nat, server: nat, transcoding: bool)
    requires Queued(q, t, server, transcoding) && p < |q|
    requires forall j :: 0 <= j <= p ==> t[q[j]].freedAt == t[q[p]].freedAt
    ensures Queued(ToFront(q, p), t, server, transcoding) && SameTimes(q, ToFront(q, p), t)
  {
    hide ToFront, FreeAt, Distinct;
    var q' := ToFront(q, p);
    ToFrontKeepsElements(q, p);
    forall j | 0 <= j < |q| ensures q'[j] < |t| && t[q'[j]].freedAt == t[q[j]].freedAt {
      assert q'[j] == q[From(p, j)];
    }
    SameTimesKeepOrder(t, q, q');
  }

  lemma SameTimesKeepOrder(t: Table, q: seq<nat>, q': seq<nat>)
    requires ByTime(q, t) && |q| == |q'|
    requires forall j :: 0 <= j < |q| ==> q'[j] < |t| && t[q'[j]].freedAt == t[q[j]].freedAt
    ensures ByTime(q', t)
  {
    forall i, j | 0 <= i < j < |q'| ensures t[q'[i]].freedAt <= t[q'[j]].freedAt {
      assert t[q[i]].freedAt <= t[q[j]].freedAt;
    }
  }

  /** A pick takes the head of the queue, up to equal freed times, and leaves the rest. */
  lemma PickTakesHead(t: Table, q: seq<nat>, server: nat, transcoding: bool, stream: nat) returns (q': seq<nat>)
    requires Queued(q, t, server, transcoding) && Pick(t, server, transcoding).Some?
    ensures Queued(q', t, server, transcoding) && SameTimes(q, q', t)
    ensures q' != [] && q'[0] == Pick(t, server, transcoding).value
    ensures var i := Pick(t, server, transcoding).value;
            Queued(q'[1..], t[i := t[i].(stream := Some(stream))], server, transcoding)
  {
    hide Pick, Queued, SameTimes;
    var p := PickInQueue(t, q, server, transcoding);
    q' := ToFront(q, p);
    ToFrontKeepsQueue(t, q, p, server, transcoding);
    RestOfQueue(q', t, server, transcoding, stream);
  }

  lemma RestOfQueue(q: seq<nat>, t: Table, server: nat, transcoding: bool, stream: nat)
    requires Queued(q, t, server, transcoding) && q != [] && q[0] < |t|
    ensures Queued(q[1..], t[q[0] := t[q[0]].(stream := Some(stream))], server, transcoding)
  {
    var t' := t[q[0] := t[q[0]].(stream := Some(stream))];
    var rest := q[1..];
    assert forall j :: 0 <= j < |rest| ==> rest[j] == q[j + 1];
    forall k: nat | k in rest ensures FreeAt(t', k, server, transcoding) {
      var j :| 0 <= j < |rest| && rest[j] == k;
      assert q[j + 1] != q[0] && k in q && FreeAt(t, k, server, transcoding);
    }
    forall k: nat | FreeAt(t', k, server, transcoding) ensures k in rest {
      assert FreeAt(t, k, server, transcoding) && k in q;
      var j :| 0 <= j < |q| && q[j] == k;
      assert j != 0 && rest[j - 1] == k;
    }
  }

  predicate HeldAt(t: Table, k: nat, stream: nat, server: nat, transcoding: bool) {
    k < |t| && t[k].stream == Some(stream) && t[k].server == server && t[k].transcoding == transcoding
  }

  /** The slots of a server and kind that a finish frees. */
  function Freed(t: Table, stream: nat, server: nat, transcoding: bool): (f: seq<nat>)
    ensures forall k: nat :: k in f <==> HeldAt(t, k, stream, server, transcoding)
    ensures Distinct(f)
  {
    if t == [] then []
    else
      var n := |t| - 1;
      var before := Freed(t[..n], stream, server, transcoding);
      assert forall k: nat :: k < n ==> t[..n][k] == t[k];
      assert forall i :: 0 <= i < |before| ==>
        before[i] in before && HeldAt(t[..n], before[i], stream, server, transcoding);
      before + (if HeldAt(t, n, stream, server, transcoding) then [n] else [])
  }

  /** A finish appends the freed slots at the end of the queue. */
  lemma FinishAppends(t: Table, q: seq<nat>, server: nat, transcoding: bool, stream: nat, now: int)
    requires Queued(q, t, server, transcoding) && forall k :: 0 <= k < |t| ==> t[k].freedAt <= now
    ensures Queued(q + Freed(t, stream, server, transcoding), Next(t, Finish(stream, now)), server, transcoding)
  {
    hide Freed;
    var f := Freed(t, stream, server, transcoding);
    var t' := Next(t, Finish(stream, now));
    var all := q + f;
    forall i | 0 <= i < |all|
      ensures all[i] < |t'| && t'[all[i]].freedAt == if i < |q| then t[q[i]].freedAt else now
    {
      if i < |q| {
        assert q[i] in q && FreeAt(t, q[i], server, transcoding);
      } else {
        assert f[i - |q|] in f && HeldAt(t, f[i - |q|], stream, server, transcoding);
      }
    }
    forall i, j | 0 <= i < |q| && 0 <= j < |f| ensures q[i] != f[j] {
      assert q[i] in q && f[j] in f;
      assert FreeAt(t, q[i], server, transcoding) && HeldAt(t, f[j], stream, server, transcoding);
    }
    forall k: nat ensures k in all <==> FreeAt(t', k, server, transcoding) {
      assert k in all <==> k in q || k in f;
      assert k in q <==> FreeAt(t, k, server, transcoding);
      assert k in f <==> HeldAt(t, k, stream, server, transcoding);
    }
  }

  /** What a step does to the queue of one server and kind: a finish appends, an
      assignment from this queue takes the head up to equal freed times, any other
      assignment leaves it. */
  ghost predicate QueueStep(t: Table, step: Step, q: seq<nat>, next: seq<nat>, server: nat, transcoding: bool) {
    match step
    case Finish(stream, _) => next == q + Freed(t, stream, server, transcoding)
    case Assign(_, source, s) =>
      var slot := Choose(t, s, source);
      if slot.Some? && t[slot.value].server == server && t[slot.value].transcoding == transcoding
      then exists q' :: SameTimes(q, q', t) && Queued(q', t, server, transcoding) && q' == [slot.value] + next
      else next == q
  }

  lemma OtherSlotKeepsQueue(t: Table, q: seq<nat>, i: nat, stream: nat, server: nat, transcoding: bool)
    requires Queued(q, t, server, transcoding) && i < |t|
    requires !t[i].Free(server, transcoding)
    ensures Queued(q, t[i := t[i].(stream := Some(stream))], server, transcoding)
  {
    var t' := t[i := t[i].(stream := Some(stream))];
    forall k: nat ensures FreeAt(t', k, server, transcoding) <==> FreeAt(t, k, server, transcoding) {
    }
    forall j | 0 <= j < |q| ensures q[j] < |t'| && t'[q[j]].freedAt == t[q[j]].freedAt {
      assert q[j] in q;
    }
  }

  /** No finish is recorded before an earlier one. */
  predicate InTime(t: Table, step: Step) {
    step.Finish? ==> forall k :: 0 <= k < |t| ==> t[k].freedAt <= step.now
  }

  lemma StepIsFifo(t: Table, step: Step, q: seq<nat>, server: nat, transcoding: bool) returns (next: seq<nat>)
    requires Queued(q, t, server, transcoding) && InTime(t, step)
    ensures Queued(next, Next(t, step), server, transcoding)
    ensures QueueStep(t, step, q, next, server, transcoding)
  {
    hide Queued, Pick, SameTimes;
    match step
    case Finish(stream, now) =>
      FinishAppends(t, q, server, transcoding, stream, now);
      next := q + Freed(t, stream, server, transcoding);
    case Assign(stream, source, s) =>
      var slot := Choose(t, s, source);
      if slot.None? {
        next := q;
      } else if t[slot.value].server == server && t[slot.value].transcoding == transcoding {
        assert Pick(t, server, transcoding) == slot;
        var q' := PickTakesHead(t, q, server, transcoding, stream);
        next := q'[1..];
        assert q' == [slot.value] + next;
      } else {
        OtherSlotKeepsQueue(t, q, slot.value, stream, server, transcoding);
        next := q;
      }
  }

  /** Over any run, for each server and kind, slots are reused in the order in
      which they were freed: one queue follows the whole run step by step. */
  lemma RunIsFifo(t: Table, steps: seq<Step>, q: seq<nat>, server: nat, transcoding: bool) returns (qs: seq<seq<nat>>)
    requires Queued(q, t, server, transcoding)
    requires forall k :: 0 <= k < |steps| ==> InTime(Run(t, steps[..k]), steps[k])
    ensures |qs| == |steps| + 1 && qs[0] == q
    ensures forall k :: 0 <= k <= |steps| ==> Queued(qs[k], Run(t, steps[..k]), server, transcoding)
    ensures forall k :: 0 <= k < |steps| ==>
                          QueueStep(Run(t, steps[..k]), steps[k], qs[k], qs[k + 1], server, transcoding)
    decreases |steps|
  {
    hide Queued, QueueStep, Next, InTime, Run;
    if steps == [] {
      NoSteps(t);
      qs := [q];
    } else {
      var n := |steps| - 1;
      var before := steps[..n];
      assert forall k :: 0 <= k <= n ==> before[..k] == steps[..k];
      assert steps[..n + 1] == steps && before + [steps[n]] == steps;
      RunOneMore(t, before, steps[n]);
      var qs' := RunIsFifo(t, before, q, server, transcoding);
      var next := StepIsFifo(Run(t, before), steps[n], qs'[n], server, transcoding);
      qs := qs' + [next];
      assert Run(t, steps[..n + 1]) == Next(Run(t, steps[..n]), steps[n]);
    }
  }

  // ------------------------------------------------------------- The pool

  class IngestServerDao {
    var slots: Table

    /** `GetTranscodedStreamSlot` and `GetStreamSlot`. */
    method GetSlot(server: nat, transcoding: bool) returns (slot: Option<nat>)
      ensures slot == Pick(slots, server, transcoding)
    {
      slot := None;
      for k := 0 to |slots|
        invariant slot == Pick(slots[..k], server, transcoding)
      {
        assert slots[..k + 1][..k] == slots[..k];
        if slots[k].Free(server, transcoding) && (slot.None? || slots[k].freedAt < slots[slot.value].freedAt) {
          slot := Some(k);
        }
      }
      assert slots[..|slots|] == slots;
    }

    /** `RemoveStreamFromSlot`. */
    method RemoveStreamFromSlot(stream: nat, now: int)
      modifies this
      ensures slots == Next(old(slots), Finish(stream, now))
    {
      for k := 0 to |slots|
        invariant |slots| == |old(slots)|
        invariant forall j :: 0 <= j < k ==> slots[j] == FreeAll(old(slots), stream, now)[j]
        invariant forall j :: k <= j < |slots| ==> slots[j] == old(slots)[j]
      {
        if slots[k].stream == Some(stream) {
          slots := slots[k := slots[k].(stream := None, freedAt := now)];
        }
      }
    }

    /** The slot part of `CreateStreamRequest` and `SendSelfStreamRequest`. */
    method TakeSlot(stream: nat, source: Source, server: nat) returns (slot: Option<nat>)
      modifies this
      ensures slot == Choose(old(slots), server, source)
      ensures slot.None? <==>
                !HasFree(old(slots), server, false) && (source == Comb ==> !HasFree(old(slots), server, true))
      ensures slot.Some? ==>
                IsEarliest(old(slots), server, source == Comb && HasFree(old(slots), server, true), slot.value)
      ensures slots == Next(old(slots), Assign(stream, source, server))
    {
      hide Pick;
      PickIsEarliest(slots, server, true);
      PickIsEarliest(slots, server, false);
      slot := None;
      if source == Comb {
        slot := GetSlot(server, true);
      }
      if source != Comb || slot.None? {
        slot := GetSlot(server, false);
        if slot.None? {
          return;
        }
      }
      slots := slots[slot.value := slots[slot.value].(stream := Some(stream))];
    }
  }
}
