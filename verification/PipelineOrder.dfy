/** When the queue stays in collection order, when it does not, and why the totals
    of a gauge do not add up. */
module PipelineOrder {
  import opened Counters
  import opened Sequences
  import opened Collection
  import opened Pipeline
  import opened PipelineTheorems
  import opened PipelineStop

  ghost predicate Increasing(xs: seq<nat>) {
    forall i, j :: 0 <= i < j < |xs| ==> xs[i] < xs[j]
  }

  /** At most one send in flight, and what is put back listed in batch order. */
  ghost predicate Orderly(s: System, step: Step)
    requires Enabled(s, step)
  {
    && |Next(s, step).inflight| <= 1
    && (step.FinishSend? && step.reply.Rejected? ==> ReadableInOrder(step.reply.errors))
  }

  ghost predicate OrderlyRun(s: System, steps: seq<Step>)
    requires Legal(s, steps)
    decreases |steps|
  {
    steps == [] || (Orderly(s, steps[0]) && OrderlyRun(Next(s, steps[0]), steps[1..]))
  }

  /** The batch in flight, then the queue, are in collection order. */
  ghost predicate Ordered(s: System) {
    |s.inflight| <= 1 && Increasing(InFlight(s) + s.queue)
  }

  lemma IncreasingSnoc(xs: seq<nat>, x: nat)
    ensures Increasing(xs + [x]) <==> Increasing(xs) && forall i :: 0 <= i < |xs| ==> xs[i] < x
  {
    if Increasing(xs + [x]) {
      SplitInOrder(xs, [x]);
      assert forall i :: 0 <= i < |xs| ==> xs[i] < [x][0];
    }
  }

  /** A later report that can be put back comes after all earlier ones that can. */
  ghost predicate ReadableLast(errors: seq<EventError>, e: EventError) {
    e.readable ==> forall i :: 0 <= i < |errors| && errors[i].readable ==> errors[i].index < e.index
  }

  lemma ReadableSnoc(errors: seq<EventError>, e: EventError)
    ensures ReadableInOrder(errors + [e]) <==> ReadableInOrder(errors) && ReadableLast(errors, e)
  {
    var all := errors + [e];
    if ReadableInOrder(all) {
      forall i, j | 0 <= i < j < |errors| && errors[i].readable && errors[j].readable
        ensures errors[i].index < errors[j].index
      {
        assert all[i].readable && all[j].readable;
      }
      if e.readable {
        forall i | 0 <= i < |errors| && errors[i].readable ensures errors[i].index < e.index {
          assert all[i].readable && all[|errors|].readable;
        }
      }
    }
  }

  /** A readable report names position `v` of the history. */
  ghost predicate Names(batch: seq<nat>, errors: seq<EventError>, v: nat)
    requires InRange(batch, errors)
  {
    exists k :: 0 <= k < |errors| && errors[k].readable && batch[errors[k].index] == v
  }

  /** The positions put back are those that readable reports name. */
  lemma {:induction false} RepostedFrom(batch: seq<nat>, errors: seq<EventError>, v: nat)
    requires InRange(batch, errors)
    ensures v in Reposted(batch, errors) <==> Names(batch, errors, v)
    ensures v in Reposted(batch, errors) ==> v in batch
  {
    if errors != [] {
      var n := |errors| - 1;
      RepostedFrom(batch, errors[..n], v);
      NamesSnoc(batch, errors[..n], errors[n], v);
      assert errors == errors[..n] + [errors[n]];
    }
  }

  lemma NamesSnoc(batch: seq<nat>, errors: seq<EventError>, e: EventError, v: nat)
    requires InRange(batch, errors) && e.index < |batch|
    ensures InRange(batch, errors + [e])
    ensures Names(batch, errors + [e], v) <==> Names(batch, errors, v) || (e.readable && batch[e.index] == v)
  {
    var all := errors + [e];
    if Names(batch, errors, v) {
      var k :| 0 <= k < |errors| && errors[k].readable && batch[errors[k].index] == v;
      assert all[k].readable && batch[all[k].index] == v;
    }
    assert all[|errors|] == e;
  }

  /** What is put back is in order exactly when the readable reports are. */
  lemma {:induction false} RepostedInOrder(batch: seq<nat>, errors: seq<EventError>)
    requires Increasing(batch) && InRange(batch, errors)
    ensures Increasing(Reposted(batch, errors)) <==> ReadableInOrder(errors)
  {
    if errors != [] {
      var n := |errors| - 1;
      RepostedInOrder(batch, errors[..n]);
      assert errors == errors[..n] + [errors[n]];
      ReadableSnoc(errors[..n], errors[n]);
      if errors[n].readable {
        IncreasingSnoc(Reposted(batch, errors[..n]), batch[errors[n].index]);
        LastInOrder(batch, errors[..n], errors[n]);
      } else {
        assert Reposted(batch, errors) == Reposted(batch, errors[..n]);
      }
    }
  }

  lemma LastInOrder(batch: seq<nat>, errors: seq<EventError>, e: EventError)
    requires Increasing(batch) && InRange(batch, errors) && e.index < |batch| && e.readable
    ensures var r := Reposted(batch, errors);
            (forall i :: 0 <= i < |r| ==> r[i] < batch[e.index]) <==> ReadableLast(errors, e)
  {
    var r := Reposted(batch, errors);
    if forall i :: 0 <= i < |r| ==> r[i] < batch[e.index] {
      forall i | 0 <= i < |errors| && errors[i].readable ensures errors[i].index < e.index {
        RepostedFrom(batch, errors, batch[errors[i].index]);
      }
    }
    if ReadableLast(errors, e) {
      forall i | 0 <= i < |r| ensures r[i] < batch[e.index] {
        RepostedFrom(batch, errors, r[i]);
      }
    }
  }

  lemma ConcatInOrder(xs: seq<nat>, ys: seq<nat>)
    requires Increasing(xs) && Increasing(ys)
    requires forall i, j :: 0 <= i < |xs| && 0 <= j < |ys| ==> xs[i] < ys[j]
    ensures Increasing(xs + ys)
  {
  }

  lemma SplitInOrder(xs: seq<nat>, ys: seq<nat>)
    requires Increasing(xs + ys)
    ensures Increasing(xs) && Increasing(ys)
    ensures forall i, j :: 0 <= i < |xs| && 0 <= j < |ys| ==> xs[i] < ys[j]
  {
    forall i, j | 0 <= i < j < |xs| ensures xs[i] < xs[j] {
      assert (xs + ys)[i] < (xs + ys)[j];
    }
    forall i, j | 0 <= i < j < |ys| ensures ys[i] < ys[j] {
      assert (xs + ys)[|xs| + i] < (xs + ys)[|xs| + j];
    }
    forall i, j | 0 <= i < |xs| && 0 <= j < |ys| ensures xs[i] < ys[j] {
      assert (xs + ys)[i] < (xs + ys)[|xs| + j];
    }
  }

  lemma SingleBatch(s: System)
    requires |s.inflight| == 1
    ensures InFlight(s) == s.inflight[0]
  {
    assert s.inflight == [] + [s.inflight[0]];
    FlattenSnoc<nat>([], s.inflight[0]);
  }

  lemma EnqueuedInOrder(s: System)
    requires s.pass.Collecting? && InPlace(s) && Ordered(s)
    ensures Ordered(Enqueued(s))
  {
    PlacesWithin(s);
    var e := Enqueued(s);
    if HasSnapshots(s.pass.built) {
      assert InFlight(e) + e.queue == (InFlight(s) + s.queue) + [|s.log|];
    }
  }

  lemma RepliedInOrder(s: System, reply: Reply)
    requires Ordered(s) && |s.inflight| == 1 && ReplyPossible(s, s.inflight[0], reply)
    requires reply.Rejected? ==> ReadableInOrder(reply.errors)
    ensures Ordered(Replied(s, 0, reply))
  {
    var batch := s.inflight[0];
    SingleBatch(s);
    SplitInOrder(batch, s.queue);
    var r := Replied(s, 0, reply);
    assert r.inflight == [];
    assert InFlight(r) + r.queue == r.queue;
    match reply
    case Accepted => assert r.queue == s.queue;
    case Failed =>
    case Rejected(errors) =>
      RepostedInOrder(batch, errors);
      forall i | 0 <= i < |Reposted(batch, errors)| ensures Reposted(batch, errors)[i] in batch {
        RepostedFrom(batch, errors, Reposted(batch, errors)[i]);
      }
      ConcatInOrder(Reposted(batch, errors), s.queue);
  }

  lemma OrderedKept(s: System, step: Step)
    requires Inv(s) && Ordered(s) && Enabled(s, step) && Orderly(s, step)
    ensures Ordered(Next(s, step))
  {
    var r := Next(s, step);
    match step
    case EndTick =>
      EnqueuedInOrder(s);
      if s.countdown == 0 {
        PostedInOrder(Enqueued(s));
      }
    case EndFinal =>
      EnqueuedInOrder(s);
      PostedInOrder(Enqueued(s));
    case FinishSend(k, reply) => RepliedInOrder(s, reply);
    case _ =>
  }

  lemma PostedInOrder(s: System)
    requires Ordered(s) && |Posted(s).inflight| <= 1
    ensures Ordered(Posted(s))
  {
  }

  lemma {:induction false} OrderedAlong(s: System, steps: seq<Step>)
    requires Inv(s) && Ordered(s) && Legal(s, steps) && OrderlyRun(s, steps)
    ensures Ordered(After(s, steps))
    decreases |steps|
  {
    if steps != [] {
      InvKept(s, steps[0]);
      OrderedKept(s, steps[0]);
      OrderedAlong(Next(s, steps[0]), steps[1..]);
    }
  }

  /** With one send at a time and readable failures in batch order, the queue is in
      collection order in every run, across any number of failures. */
  lemma QueueStaysInOrder(cycle: nat, steps: seq<Step>)
    requires Legal(Init(cycle), steps) && OrderlyRun(Init(cycle), steps)
    ensures Increasing(After(Init(cycle), steps).queue)
  {
    InvInit(cycle);
    OrderedAlong(Init(cycle), steps);
    var s := After(Init(cycle), steps);
    SplitInOrder(InFlight(s), s.queue);
  }

  // ----- the exact condition ------------------------------------------------------

  lemma PuttingBackKeepsOrder(back: seq<nat>, queue: seq<nat>)
    requires Increasing(queue)
    ensures Increasing(back + queue) <==>
            Increasing(back) && (back == [] || queue == [] || back[|back| - 1] < queue[0])
  {
    if Increasing(back + queue) {
      SplitInOrder(back, queue);
    }
  }

  /** The reports that can be put back are in batch order, and what is put back is older
      than what has been queued meanwhile. */
  ghost predicate Fits(s: System, k: nat, reply: Reply)
    requires k < |s.inflight| && ReplyPossible(s, s.inflight[k], reply)
  {
    var back := Returned(s.inflight[k], reply);
    && (reply.Rejected? ==> ReadableInOrder(reply.errors))
    && (back == [] || s.queue == [] || back[|back| - 1] < s.queue[0])
  }

  /** The queue and every batch in flight are in collection order. */
  ghost predicate InOrder(s: System) {
    Increasing(s.queue) && forall k :: 0 <= k < |s.inflight| ==> Increasing(s.inflight[k])
  }

  /** A reply leaves the queue in order if and only if it fits. */
  lemma ReplyKeepsOrder(s: System, k: nat, reply: Reply)
    requires InOrder(s) && k < |s.inflight| && ReplyPossible(s, s.inflight[k], reply)
    ensures Increasing(Replied(s, k, reply).queue) <==> Fits(s, k, reply)
  {
    if reply.Rejected? {
      RepostedInOrder(s.inflight[k], reply.errors);
    }
    PuttingBackKeepsOrder(Returned(s.inflight[k], reply), s.queue);
  }

  /** Every other step leaves it in order anyway. */
  lemma StepKeepsOrder(s: System, step: Step)
    requires InPlace(s) && InOrder(s) && Enabled(s, step)
    requires step.FinishSend? ==> Fits(s, step.send, step.reply)
    ensures InOrder(Next(s, step))
  {
    if step.FinishSend? {
      ReplyKeepsOrder(s, step.send, step.reply);
    } else if step.EndTick? || step.EndFinal? {
      PlacesWithin(s);
      IncreasingSnoc(s.queue, |s.log|);
    }
  }

  /** The queue is in order at every point of a run. */
  ghost predicate AlwaysInOrder(s: System, steps: seq<Step>)
    requires Legal(s, steps)
    decreases |steps|
  {
    Increasing(s.queue) && (steps == [] || AlwaysInOrder(Next(s, steps[0]), steps[1..]))
  }

  ghost predicate AllFit(s: System, steps: seq<Step>)
    requires Legal(s, steps)
    decreases |steps|
  {
    steps == [] ||
    (&& (steps[0].FinishSend? ==> Fits(s, steps[0].send, steps[0].reply))
     && AllFit(Next(s, steps[0]), steps[1..]))
  }

  lemma {:induction false} OrderExactFrom(s: System, steps: seq<Step>)
    requires Inv(s) && InOrder(s) && Legal(s, steps)
    ensures AlwaysInOrder(s, steps) <==> AllFit(s, steps)
    decreases |steps|
  {
    if steps != [] {
      var step := steps[0];
      InvKept(s, step);
      if step.FinishSend? && !Fits(s, step.send, step.reply) {
        ReplyKeepsOrder(s, step.send, step.reply);
      } else {
        StepKeepsOrder(s, step);
        OrderExactFrom(Next(s, step), steps[1..]);
      }
    }
  }

  /** In a run with any number of sends in flight, the queue is in collection order
      throughout if and only if every reply fits. */
  lemma QueueOrderIsExact(cycle: nat, steps: seq<Step>)
    requires Legal(Init(cycle), steps)
    ensures AlwaysInOrder(Init(cycle), steps) <==> AllFit(Init(cycle), steps)
  {
    InvInit(cycle);
    OrderExactFrom(Init(cycle), steps);
  }

  // ----- witness runs ---------------------------------------------------------

  /** One counter in one monitor, whose agenda is known. */
  ghost function Setup(cumulative: bool): (steps: seq<Step>) {
    [NewCounter(0, cumulative, false), NewMonitor("m"), AddCounter(0, 0)]
  }

  lemma SetupRuns(cycle: nat, cumulative: bool)
    ensures Legal(Init(cycle), Setup(cumulative))
    ensures After(Init(cycle), Setup(cumulative)) ==
            Init(cycle).(store := map[0 := Fresh(cumulative, false)], monitors := [MonitorInfo("m", [0])])
  {
    var s0 := Init(cycle);
    var a, b, c := NewCounter(0, cumulative, false), NewMonitor("m"), AddCounter(0, 0);
    assert Legal(s0, []) && After(s0, []) == s0;
    RunSnoc(s0, [], a);
    RunSnoc(s0, [] + [a], b);
    RunSnoc(s0, [] + [a] + [b], c);
    assert [] + [a] + [b] + [c] == Setup(cumulative);
    var s3 := After(s0, Setup(cumulative));
    var ids: seq<nat> := [] + [0];
    assert ids == [0];
    assert s3.monitors == [MonitorInfo("m", ids)];
    assert s3.store == map[0 := Fresh(cumulative, false)];
  }

  ghost predicate OneCounter(s: System) {
    && s.monitors == [MonitorInfo("m", [0])] && 0 in s.store
    && !s.store[0].ignoreZeroSnapshots && WellFormed(s)
  }

  /** A pass over the single counter. */
  function OneSnapshot(c: CounterState): (p: Payload<nat>) {
    [MonitorSnapshot("m", [Snapshot(0, c.value)])]
  }

  lemma OnePass(s: System)
    requires OneCounter(s)
    ensures CollectMonitors(s.store, s.monitors) ==
            (s.store[0 := AfterCollect(s.store[0])], OneSnapshot(s.store[0]))
    ensures HasSnapshots(OneSnapshot(s.store[0]))
  {
    var ids := s.monitors[0].counters;
    assert |ids| == 1 && ids[0] == 0 && ids[..0] == [];
    assert Covers(s.store, ids);
    assert CollectCounters<nat>(s.store, ids[..0]) == (s.store, []);
    var (st, ss) := CollectCounters<nat>(s.store, ids);
    assert st == s.store[0 := AfterCollect(s.store[0])];
    assert ss == [Snapshot(0, s.store[0].value)];
    assert CollectUpto<nat>(s.store, s.monitors, 0) == (s.store, []);
    var (st1, p1) := CollectUpto<nat>(s.store, s.monitors, 1);
    assert st1 == st && p1 == OneSnapshot(s.store[0]);
    assert OneSnapshot(s.store[0])[0].counters != [];
  }

  /** With a cycle of one, a whole tick sends the queue and the new payload. */
  lemma OneTick(s: System) returns (steps: seq<Step>)
    requires OneCounter(s) && s.cycle == 1 && s.countdown == 0 && s.pass.Idle? && s.phase.Running?
    ensures Legal(s, steps)
    ensures After(s, steps) ==
            s.(store := s.store[0 := AfterCollect(s.store[0])],
               log := s.log + [OneSnapshot(s.store[0])],
               queue := [],
               inflight := s.inflight + [s.queue + [|s.log|]],
               ticks := s.ticks + 1, posts := s.posts + 1)
    ensures OneCounter(After(s, steps))
    ensures forall i :: 0 <= i < |steps| ==> !ClientStep(steps[i])
  {
    OnePass(s);
    TickRuns(s);
    steps := [BeginTick] + Repeat(CollectNext, |Agenda(s.monitors)|) + [EndTick];
    RepeatAll(CollectNext, |Agenda(s.monitors)|);
    assert WellFormed(After(s, steps)) by {
      assert CoversAll(s.store, s.monitors);
      assert Covers(s.store, s.monitors[0].counters);
    }
  }

  lemma {:induction false} RepeatAll(step: Step, n: nat)
    ensures forall i :: 0 <= i < n ==> Repeat(step, n)[i] == step
  {
    if n > 0 {
      RepeatAll(step, n - 1);
    }
  }

  /** Two ticks of a cycle of one, with no reply in between. */
  lemma TwoTicks(s0: System, before: seq<Step>) returns (steps: seq<Step>)
    requires Legal(s0, before)
    requires var s := After(s0, before);
             && OneCounter(s) && s.cycle == 1 && s.countdown == 0 && s.pass.Idle? && s.phase.Running?
             && s.log == [] && s.queue == [] && s.inflight == []
    ensures Legal(s0, steps)
    ensures var s, t := After(s0, before), After(s0, steps);
            var c := s.store[0];
            && t.inflight == [[0], [1]] && t.queue == [] && t.pass.Idle?
            && t.log == [OneSnapshot(c), OneSnapshot(AfterCollect(c))]
            && 0 in t.store && t.store[0] == AfterCollect(AfterCollect(c))
            && t.accepted == s.accepted && t.lost == s.lost
  {
    var s1 := After(s0, before);
    var t1 := OneTick(s1);
    RunConcat(s0, before, t1);
    var s2 := After(s1, t1);
    assert s2.inflight[0] == [0];
    var t2 := OneTick(s2);
    RunConcat(s0, before + t1, t2);
    var s3 := After(s2, t2);
    assert s3.inflight[1] == [1];
    assert s3.inflight == [s2.inflight[0], s3.inflight[1]];
    steps := before + t1 + t2;
  }

  /** Both of two batches in flight fail, the older one first. */
  lemma BothFailed(s0: System, before: seq<Step>) returns (steps: seq<Step>)
    requires Legal(s0, before)
    requires var s := After(s0, before); s.inflight == [[0], [1]] && s.queue == [] && s.pass.Idle?
    ensures Legal(s0, steps)
    ensures After(s0, steps).queue == [1, 0]
  {
    var s := After(s0, before);
    var fail := FinishSend(0, Failed);
    RunSnoc(s0, before, fail);
    var t := Next(s, fail);
    assert t.inflight == [[1]] && t.queue == [0];
    RunSnoc(s0, before + [fail], fail);
    steps := before + [fail] + [fail];
    assert Next(t, fail).queue == [1] + [0];
  }

  /** Two overlapping sends that both fail, the older one first, leave the queue out
      of collection order. */
  lemma OverlapBreaksOrder()
    ensures exists steps :: Legal(Init(1), steps) && !Increasing(After(Init(1), steps).queue)
  {
    SetupRuns(1, true);
    var sent := TwoTicks(Init(1), Setup(true));
    var steps := BothFailed(Init(1), sent);
    var queue := After(Init(1), steps).queue;
    assert queue[0] == 1 && queue[1] == 0;
  }

  /** A tick, a failed send, and a second tick: both payloads are in one batch. */
  lemma BatchOfTwo(s0: System, before: seq<Step>) returns (steps: seq<Step>)
    requires Legal(s0, before)
    requires var s := After(s0, before);
             && OneCounter(s) && s.cycle == 1 && s.countdown == 0 && s.pass.Idle? && s.phase.Running?
             && s.log == [] && s.queue == [] && s.inflight == []
    ensures Legal(s0, steps)
    ensures var t := After(s0, steps); t.inflight == [[0, 1]] && t.queue == [] && t.pass.Idle?
  {
    var s1 := After(s0, before);
    var t1 := OneTick(s1);
    RunConcat(s0, before, t1);
    var s2 := After(s1, t1);
    assert s2.inflight[0] == [0];
    RunSnoc(s0, before + t1, FinishSend(0, Failed));
    var s3 := Next(s2, FinishSend(0, Failed));
    assert s3.inflight == [] && s3.queue == [0];
    var t3 := OneTick(s3);
    RunConcat(s0, before + t1 + [FinishSend(0, Failed)], t3);
    steps := before + t1 + [FinishSend(0, Failed)] + t3;
    var s4 := After(s3, t3);
    assert s4.inflight[0] == [0, 1];
  }

  /** A report that names the later of two failed events first. */
  const REVERSED := Rejected([EventError(1, true), EventError(0, true)])

  /** A single send suffices: its report lists two failures in reverse, and the queue is
      out of order although it was empty. */
  lemma ReportBreaksOrder()
    ensures exists steps :: Legal(Init(1), steps) && ReversedByReport(After(Init(1), steps))
  {
    SetupRuns(1, true);
    var steps := BatchOfTwo(Init(1), Setup(true));
    ReversedReposted(0, 1);
    assert ReversedByReport(After(Init(1), steps));
  }

  lemma ReversedReposted(a: nat, b: nat)
    ensures InRange([a, b], REVERSED.errors) && Distinct(REVERSED.errors)
    ensures Reposted<nat>([a, b], REVERSED.errors) == [b, a]
  {
    var errors := REVERSED.errors;
    assert errors[..1] == [EventError(1, true)] && errors[..1][..0] == [];
    assert Reposted<nat>([a, b], errors[..1]) == [b];
  }

  ghost predicate ReversedByReport(s: System) {
    && |s.inflight| == 1 && s.queue == [] && Enabled(s, FinishSend(0, REVERSED))
    && Next(s, FinishSend(0, REVERSED)).queue == [1, 0]
  }

  /** Both of two batches in flight are accepted. */
  lemma BothAccepted(s0: System, before: seq<Step>) returns (steps: seq<Step>)
    requires Legal(s0, before)
    requires var s := After(s0, before); s.inflight == [[0], [1]] && s.accepted == []
    ensures Legal(s0, steps)
    ensures After(s0, steps) == After(s0, before).(inflight := [], accepted := [0, 1])
  {
    var s := After(s0, before);
    var accept := FinishSend(0, Accepted);
    RunSnoc(s0, before, accept);
    var t := Next(s, accept);
    assert t.inflight == [[1]] && t.accepted == [0];
    RunSnoc(s0, before + [accept], accept);
    var u := Next(t, accept);
    assert u.inflight == [] && u.accepted == [0, 1];
    assert u.queue == s.queue && u.lost == s.lost;
    steps := before + [accept] + [accept];
  }

  lemma TwoSnapshotsSum(log: seq<Payload<nat>>, c: CounterState)
    requires log == [OneSnapshot(c), OneSnapshot(c)]
    ensures Within([0, 1], |log|) && Carried(log, 0, [0, 1]) == 2 * c.value
  {
    OneSnapshotSum(c);
    var one, two: seq<nat> := [0], [0, 1];
    assert one[..0] == [] && two[..1] == one;
    assert Carried(log, 0, one) == c.value;
    assert Carried(log, 0, two) == Carried(log, 0, one) + c.value;
  }

  /** A gauge that is set to one and collected twice: everything was sent and
      accepted, and the accepted snapshots add up to two. */
  lemma GaugeDoesNotAddUp()
    ensures exists steps :: Legal(Init(1), steps) && GaugeOvercounted(After(Init(1), steps))
  {
    var s0 := Init(1);
    SetupRuns(1, false);
    RunSnoc(s0, Setup(false), UpdateCounter(0, Inc));
    var sent := TwoTicks(s0, Setup(false) + [UpdateCounter(0, Inc)]);
    var steps := BothAccepted(s0, sent);
    var s := After(s0, steps);
    TwoSnapshotsSum(s.log, s.store[0]);
    assert GaugeOvercounted(s);
  }

  ghost predicate GaugeOvercounted(s: System) {
    && s.queue == [] && s.inflight == [] && s.lost == [] && s.pass.Idle?
    && 0 in s.store && !s.store[0].cumulative && Get(s.store[0]) == 1
    && Within(s.accepted, |s.log|) && Carried(s.log, 0, s.accepted) == 2
  }

  lemma OneSnapshotSum(c: CounterState)
    ensures PayloadSum(OneSnapshot(c), 0) == c.value
  {
    var p := OneSnapshot(c);
    assert p[..0] == [] && p[0].counters[..0] == [];
    assert SnapshotSum(p[0].counters, 0) == c.value;
  }
}
