/**
 One stream request (api/worker_grpc.go, CreateStreamRequest): a slot of the
 ingest server, a worker, and what fails in between; and the three requests of a
 combined lecture.
 */
module StreamRequests {
  import opened Basics
  import Workloads
  import IngestSlots

  /** How far a request came. */
  datatype End = NoSource | NoServer | NoSlot | Sent(slot: nat, worker: nat)

  /** What a request asks for: `server` is the ingest server found, `delivery` what
      becomes of the call. */
  datatype Request = Request(stream: nat, source: IngestSlots.Source, url: string, server: Option<nat>,
                             delivery: Workloads.Delivery)

  /** There is a source, a server, and a free slot for it: a plain one, or for a
      combined view also a transcoding one. */
  predicate IsServed(t: IngestSlots.Table, r: Request) {
    && r.url != "" && r.server.Some?
    && (|| IngestSlots.HasFree(t, r.server.value, false)
        || (r.source == IngestSlots.Comb && IngestSlots.HasFree(t, r.server.value, true)))
  }

  /** A request takes the earliest freed slot of its kind and raises a least loaded
      worker, by 3, or by 2 if the dial or the call fails; or it changes nothing. */
  ghost predicate Handled(t: IngestSlots.Table, loads: seq<nat>, r: Request, end: End, t': IngestSlots.Table,
                          loads': seq<nat>)
  {
    && (end.Sent? <==> IsServed(t, r))
    && (!end.Sent? ==> t' == t && loads' == loads)
    && (end.Sent? ==>
          && r.server.Some?
          && IngestSlots.IsEarliest(t, r.server.value,
                                    r.source == IngestSlots.Comb && IngestSlots.HasFree(t, r.server.value, true),
                                    end.slot)
          && t' == t[end.slot := t[end.slot].(stream := Some(r.stream))]
          && Workloads.IsLeast(loads, end.worker)
          && loads' == loads[end.worker := loads[end.worker]
                                           + (if r.delivery.DialFailed? || r.delivery.Refused? then 2 else 3)])
  }

  method CreateStreamRequest(pool: IngestSlots.IngestServerDao, workers: array<Workloads.Worker>, r: Request)
    returns (end: End)
    requires workers.Length > 0
    modifies pool, workers
    ensures end.NoSource? <==> r.url == ""
    ensures end.NoServer? <==> r.url != "" && r.server.None?
    ensures Handled(old(pool.slots), Workloads.Loads(old(workers[..])), r, end,
                    pool.slots, Workloads.Loads(workers[..]))
    ensures end.Sent? ==>
              && r.server.Some?
              && pool.slots == IngestSlots.Next(old(pool.slots), IngestSlots.Assign(r.stream, r.source, r.server.value))
              && Workloads.Run(Workloads.Loads(old(workers[..])), [Workloads.Choice(end.worker, r.delivery.Weight())])
                 == Some(Workloads.Loads(workers[..]))
    ensures !end.Sent? ==> workers[..] == old(workers[..])
    ensures forall i :: 0 <= i < workers.Length ==> workers[i].workerID == old(workers[i].workerID)
  {
    hide IngestSlots.Choose, IngestSlots.Pick, Workloads.Run, IngestSlots.HasFree, IngestSlots.IsEarliest;
    if r.url == "" {
      return NoSource;
    }
    if r.server.None? {
      return NoServer;
    }
    var slot := pool.TakeSlot(r.stream, r.source, r.server.value);
    if slot.None? {
      return NoSlot;
    }
    ghost var before := workers[..];
    var worker := Workloads.AssignWorker(workers, r.delivery);
    OneRaised(before, workers[..], worker,
              if r.delivery.DialFailed? || r.delivery.Refused? then 2 else 3);
    return Sent(slot.value, worker);
  }

  lemma OneRaised(before: seq<Workloads.Worker>, after: seq<Workloads.Worker>, i: nat, gain: nat)
    requires i < |before| == |after| && after[i].workload == before[i].workload + gain
    requires forall k :: 0 <= k < |before| && k != i ==> after[k] == before[k]
    ensures Workloads.Loads(after) == Workloads.Loads(before)[i := Workloads.Loads(before)[i] + gain]
  {
  }

  /** The three views of a combined lecture, in the order of the tick. Each request
      meets the slots and loads that the one before it left. The requests sent are a
      run of least-load choices of weight at most 3. */
  method RequestAllViews(pool: IngestSlots.IngestServerDao, workers: array<Workloads.Worker>, pres: Request,
                         cam: Request, comb: Request)
    returns (ends: seq<End>, ghost tables: seq<IngestSlots.Table>, ghost loads: seq<seq<nat>>,
             ghost choices: seq<Workloads.Choice>)
    requires workers.Length > 0
    requires pres.source == IngestSlots.Pres && cam.source == IngestSlots.Cam && comb.source == IngestSlots.Comb
    modifies pool, workers
    ensures |ends| == 3 && |tables| == |loads| == 4
    ensures tables[0] == old(pool.slots) && tables[3] == pool.slots
    ensures loads[0] == Workloads.Loads(old(workers[..])) && loads[3] == Workloads.Loads(workers[..])
    ensures Handled(tables[0], loads[0], pres, ends[0], tables[1], loads[1])
    ensures Handled(tables[1], loads[1], cam, ends[1], tables[2], loads[2])
    ensures Handled(tables[2], loads[2], comb, ends[2], tables[3], loads[3])
    ensures Workloads.Run(loads[0], choices) == Some(loads[3])
    ensures Workloads.AtMost(choices, 3) && |choices| <= 3 && Workloads.Gains(choices) <= 9
  {
    hide Handled, Workloads.Run, Workloads.Loads, Workloads.Gains, Workloads.AtMost, IngestSlots.Next;
    tables, loads := [pool.slots], [Workloads.Loads(workers[..])];
    choices := [];
    NoChoice(loads[0]);
    var first := CreateStreamRequest(pool, workers, pres);
    tables, loads := tables + [pool.slots], loads + [Workloads.Loads(workers[..])];
    choices := OneMoreEnd(loads[0], choices, first, pres.delivery, loads[0], loads[1]);
    var second := CreateStreamRequest(pool, workers, cam);
    tables, loads := tables + [pool.slots], loads + [Workloads.Loads(workers[..])];
    choices := OneMoreEnd(loads[0], choices, second, cam.delivery, loads[1], loads[2]);
    var third := CreateStreamRequest(pool, workers, comb);
    tables, loads := tables + [pool.slots], loads + [Workloads.Loads(workers[..])];
    choices := OneMoreEnd(loads[0], choices, third, comb.delivery, loads[2], loads[3]);
    ends := [first, second, third];
  }

  lemma NoChoice(loads: seq<nat>)
    ensures Workloads.Run(loads, []) == Some(loads) && Workloads.AtMost([], 3) && Workloads.Gains([]) == 0
  {
  }

  lemma OneMoreEnd(start: seq<nat>, choices: seq<Workloads.Choice>, end: End, delivery: Workloads.Delivery,
                   before: seq<nat>, after: seq<nat>) returns (more: seq<Workloads.Choice>)
    requires Workloads.Run(start, choices) == Some(before) && Workloads.AtMost(choices, 3)
    requires !end.Sent? ==> after == before
    requires end.Sent? ==> Workloads.Run(before, [Workloads.Choice(end.worker, delivery.Weight())]) == Some(after)
    ensures Workloads.Run(start, more) == Some(after) && Workloads.AtMost(more, 3)
    ensures |more| <= |choices| + 1 && Workloads.Gains(more) <= Workloads.Gains(choices) + 3
  {
    hide Workloads.Run, Workloads.Gains;
    more := choices;
    if end.Sent? {
      var c := Workloads.Choice(end.worker, delivery.Weight());
      Workloads.RunOneMore(start, choices, c, before);
      more := choices + [c];
    }
  }
}
