/** What `Stop` leaves behind, and what an uninterrupted tick does. */
module PipelineStop {
  import opened GoInts
  import opened Counters
  import opened Collection
  import opened Pipeline
  import opened PipelineTheorems

  // ----- extending runs ------------------------------------------------------

  lemma {:induction false} RunConcat(s: System, a: seq<Step>, b: seq<Step>)
    requires Legal(s, a) && Legal(After(s, a), b)
    ensures Legal(s, a + b) && After(s, a + b) == After(After(s, a), b)
    decreases |a|
  {
    if a == [] {
      assert a + b == b;
    } else {
      RunConcat(Next(s, a[0]), a[1..], b);
      assert (a + b)[1..] == a[1..] + b;
    }
  }

  lemma {:induction false} RunSnoc(s: System, a: seq<Step>, step: Step)
    requires Legal(s, a) && Enabled(After(s, a), step)
    ensures Legal(s, a + [step]) && After(s, a + [step]) == Next(After(s, a), step)
  {
    var t := After(s, a);
    assert [step][1..] == [];
    assert Legal(Next(t, step), []);
    assert Legal(t, [step]) && After(t, [step]) == Next(t, step);
    RunConcat(s, a, [step]);
  }

  // ----- an uninterrupted pass ------------------------------------------------

  /** Works off a to-do list without interference. */
  function Drain(store: Store<nat>, built: Payload<nat>, todo: seq<Todo>)
    : (r: (Store<nat>, Payload<nat>))
    requires forall i :: 0 <= i < |todo| && todo[i].Take? ==> todo[i].counter in store
    requires built == [] ==> todo == [] || todo[0].Open?
    decreases |todo|
  {
    if todo == [] then (store, built)
    else
      match todo[0]
      case Open(name) => Drain(store, built + [MonitorSnapshot(name, [])], todo[1..])
      case Take(id) =>
        Drain(store[id := AfterCollect(store[id])], Extended(built, id, store[id]), todo[1..])
  }

  function Repeat(step: Step, n: nat): (r: seq<Step>)
    ensures |r| == n
  {
    if n == 0 then [] else [step] + Repeat(step, n - 1)
  }

  /** Collecting without interference is a legal run that works off the list. */
  lemma {:induction false} PassRuns(s: System)
    requires WellFormed(s) && s.pass.Collecting?
    ensures var steps := Repeat(CollectNext, |s.pass.todo|);
            var (st, p) := Drain(s.store, s.pass.built, s.pass.todo);
            Legal(s, steps) && After(s, steps) == s.(store := st, pass := Collecting([], p))
    decreases |s.pass.todo|
  {
    if s.pass.todo != [] {
      assert Enabled(s, CollectNext);
      WellFormedKept(s, CollectNext);
      var t := Next(s, CollectNext);
      PassRuns(t);
      var steps := Repeat(CollectNext, |s.pass.todo|);
      assert steps[1..] == Repeat(CollectNext, |t.pass.todo|);
    }
  }

  lemma {:induction false} DrainConcat(store: Store<nat>, built: Payload<nat>, a: seq<Todo>, b: seq<Todo>)
    requires TodoCovered(store, a + b)
    requires built == [] ==> a + b == [] || (a + b)[0].Open?
    ensures TodoCovered(store, a) && (built == [] ==> a == [] || a[0].Open?)
    ensures var (st, p) := Drain(store, built, a);
            && TodoCovered(st, b) && (p == [] ==> b == [] || b[0].Open?)
            && Drain(store, built, a + b) == Drain(st, p, b)
    decreases |a|
  {
    assert forall i :: 0 <= i < |a| ==> (a + b)[i] == a[i];
    assert forall i :: 0 <= i < |b| ==> (a + b)[|a| + i] == b[i];
    if a == [] {
      assert a + b == b;
    } else {
      assert (a + b)[1..] == a[1..] + b;
      match a[0]
      case Open(name) => DrainConcat(store, built + [MonitorSnapshot(name, [])], a[1..], b);
      case Take(id) =>
        DrainConcat(store[id := AfterCollect(store[id])], Extended(built, id, store[id]), a[1..], b);
    }
  }

  lemma ExtendedLast(built: Payload<nat>, name: string, ss: seq<Snapshot<nat>>, id: nat, c: CounterState)
    ensures Extended(built + [MonitorSnapshot(name, ss)], id, c) ==
            built + [MonitorSnapshot(name, ss + SnapshotOf(id, c))]
  {
  }

  lemma DrainOne(store: Store<nat>, built: Payload<nat>, id: nat)
    requires id in store && built != []
    ensures Drain(store, built, [Take(id)]) ==
            (store[id := AfterCollect(store[id])], Extended(built, id, store[id]))
  {
  }

  lemma TakesSnoc(ids: seq<nat>, id: nat)
    ensures TakeAll(ids + [id]) == TakeAll(ids) + [Take(id)]
  {
  }

  /** Working off one monitor's counters is `CollectCounters`. */
  lemma {:induction false} DrainTakes(store: Store<nat>, built: Payload<nat>, name: string, ids: seq<nat>)
    requires Covers(store, ids)
    ensures var (st, ss) := CollectCounters(store, ids);
            Drain(store, built + [MonitorSnapshot(name, [])], TakeAll(ids)) ==
            (st, built + [MonitorSnapshot(name, ss)])
    decreases |ids|
  {
    if ids != [] {
      var n := |ids| - 1;
      var init, id := ids[..n], ids[n];
      assert ids == init + [id];
      CollectSnoc<nat>(store, init, id);
      DrainTakes(store, built, name, init);
      DrainTakesSnoc(store, built, name, init, id);
    }
  }

  lemma DrainTakesSnoc(store: Store<nat>, built: Payload<nat>, name: string, ids: seq<nat>, id: nat)
    requires Covers(store, ids + [id]) && Covers(store, ids)
    requires var (st, ss) := CollectCounters(store, ids);
             Drain(store, built + [MonitorSnapshot(name, [])], TakeAll(ids)) ==
             (st, built + [MonitorSnapshot(name, ss)])
    ensures var (st, ss) := CollectCounters(store, ids + [id]);
            Drain(store, built + [MonitorSnapshot(name, [])], TakeAll(ids + [id])) ==
            (st, built + [MonitorSnapshot(name, ss)])
  {
    var open := built + [MonitorSnapshot(name, [])];
    var (st, ss) := CollectCounters(store, ids);
    CollectSnoc<nat>(store, ids, id);
    TakesSnoc(ids, id);
    TakesCovered(store, ids + [id]);
    DrainConcat(store, open, TakeAll(ids), [Take(id)]);
    DrainOne(st, built + [MonitorSnapshot(name, ss)], id);
    ExtendedLast(built, name, ss, id, st[id]);
  }

  lemma TakesCovered(store: Store<nat>, ids: seq<nat>)
    requires Covers(store, ids)
    ensures TodoCovered(store, TakeAll(ids))
  {
  }

  /** Working off the whole agenda is `CollectMonitors`. */
  lemma {:induction false} DrainAgenda(store: Store<nat>, monitors: seq<MonitorInfo<nat>>, n: nat)
    requires CoversAll(store, monitors) && n <= |monitors|
    ensures TodoCovered(store, Agenda(monitors[..n]))
    ensures Agenda(monitors[..n]) == [] || Agenda(monitors[..n])[0].Open?
    ensures Drain(store, [], Agenda(monitors[..n])) == CollectUpto(store, monitors, n)
    decreases n
  {
    assert CoversAll(store, monitors[..n]) by {
      forall i | 0 <= i < n ensures Covers(store, monitors[..n][i].counters) {
        assert Covers(store, monitors[i].counters);
      }
    }
    AgendaCovered(store, monitors[..n]);
    if n > 0 {
      DrainAgenda(store, monitors, n - 1);
      assert monitors[..n][..n - 1] == monitors[..n - 1];
      var m := monitors[n - 1];
      var (st, p) := CollectUpto(store, monitors, n - 1);
      var head := Agenda(monitors[..n - 1]);
      if m.counters == [] {
        assert Agenda(monitors[..n]) == head;
      } else {
        var tail := [Open(m.name)] + TakeAll(m.counters);
        assert Agenda(monitors[..n]) == head + tail;
        DrainConcat(store, [], head, tail);
        assert Covers(st, m.counters) by {
          assert Covers(store, m.counters);
        }
        DrainTakes(st, p, m.name, m.counters);
        assert tail[1..] == TakeAll(m.counters);
      }
    }
  }

  /** The payloads a list of positions stands for. */
  ghost function Values(log: seq<Payload<nat>>, xs: seq<nat>): (r: seq<Payload<nat>>)
    requires Within(xs, |log|)
    ensures |r| == |xs| && forall i :: 0 <= i < |xs| ==> r[i] == log[xs[i]]
  {
    seq(|xs|, i requires 0 <= i < |xs| => log[xs[i]])
  }

  /** A tick that nothing interrupts is a legal run: one whole pass over the
      registered monitors, then the end of the tick. */
  lemma TickRuns(s: System)
    requires WellFormed(s) && s.pass.Idle? && s.phase.Running?
    ensures var steps := [BeginTick] + Repeat(CollectNext, |Agenda(s.monitors)|) + [EndTick];
            var (st, p) := CollectMonitors(s.store, s.monitors);
            Legal(s, steps) && After(s, steps) == Ticked(s.(store := st, pass := Collecting([], p)))
  {
    assert Enabled(s, BeginTick);
    var b := Next(s, BeginTick);
    assert Legal(s, []) && After(s, []) == s;
    RunSnoc(s, [], BeginTick);
    assert [] + [BeginTick] == [BeginTick];
    WellFormedKept(s, BeginTick);
    PassRuns(b);
    DrainAgenda(s.store, s.monitors, |s.monitors|);
    assert s.monitors[..|s.monitors|] == s.monitors;
    var mid := Repeat(CollectNext, |Agenda(s.monitors)|);
    RunConcat(s, [BeginTick], mid);
    RunSnoc(s, [BeginTick] + mid, EndTick);
  }

  /** By value, the end of a tick does to queue, sends and countdown what the
      service's `Collect` does. */
  lemma TickedValues(c: System)
    requires c.pass.Collecting? && Within(c.queue, |c.log|)
    ensures var t := Ticked(c);
            var queue := Queued(Values(c.log, c.queue), c.pass.built);
            && t.store == c.store
            && if c.countdown == 0
               then && t.queue == [] && t.countdown == c.cycle - 1
                    && |t.inflight| == |c.inflight| + 1 && t.inflight[..|c.inflight|] == c.inflight
                    && Within(t.inflight[|c.inflight|], |t.log|)
                    && Values(t.log, t.inflight[|c.inflight|]) == queue
               else && t.inflight == c.inflight && t.countdown == c.countdown - 1
                    && Within(t.queue, |t.log|) && Values(t.log, t.queue) == queue
  {
    var e := Enqueued(c);
    assert Within(e.queue, |e.log|);
    assert Values(e.log, e.queue) == Queued(Values(c.log, c.queue), c.pass.built);
  }

  /** What a reply returns to the queue is the same by position and by value. */
  lemma {:induction false} ReturnedValues(log: seq<Payload<nat>>, batch: seq<nat>, errors: seq<EventError>)
    requires Within(batch, |log|) && InRange(batch, errors)
    ensures Within(Reposted(batch, errors), |log|)
    ensures Values(log, Reposted(batch, errors)) == Reposted(Values(log, batch), errors)
  {
    if errors != [] {
      ReturnedValues(log, batch, errors[..|errors| - 1]);
    }
  }

  // ----- what `Stop` waits for --------------------------------------------------

  /** In the last phase of `Stop` its own send is the only one in flight, and it took the
      whole queue along; once `Stop` has returned there is none. */
  ghost predicate Settling(s: System) {
    && (s.phase.Finishing? && s.pass.Collecting? ==> s.inflight == [])
    && (s.phase.Finishing? && s.pass.Idle? ==> s.inflight == [] || (s.queue == [] && |s.inflight| == 1))
    && (s.phase.Stopped? ==> s.pass.Idle? && s.inflight == [])
  }

  lemma SettlingKept(s: System, step: Step)
    requires WellFormed(s) && Settling(s) && Enabled(s, step)
    ensures Settling(Next(s, step))
  {
  }

  lemma {:induction false} SettlingAlong(s: System, steps: seq<Step>)
    requires Inv(s) && Settling(s) && Legal(s, steps)
    ensures Settling(After(s, steps))
    decreases |steps|
  {
    if steps != [] {
      InvKept(s, steps[0]);
      SettlingKept(s, steps[0]);
      SettlingAlong(Next(s, steps[0]), steps[1..]);
    }
  }

  lemma AlwaysSettling(cycle: nat, steps: seq<Step>)
    requires Legal(Init(cycle), steps)
    ensures Settling(After(Init(cycle), steps))
  {
    InvInit(cycle);
    SettlingAlong(Init(cycle), steps);
  }

  /** Nothing is in flight, and the accepted, lost and queued payloads are all there is:
      for counter `id` they carry what `Get` returns, less what it still holds. */
  ghost predicate AccountedFor(s: System, id: nat)
    requires id in s.store
  {
    && s.inflight == []
    && Within(s.accepted, |s.log|) && Within(s.lost, |s.log|) && Within(s.queue, |s.log|)
    && var sum := Carried(s.log, id, s.accepted) + Carried(s.log, id, s.lost) + Carried(s.log, id, s.queue);
    && Get(s.store[id]) == Wrap64(sum + s.store[id].value)
    && (Get(s.store[id]) == Wrap64(sum) <==> s.store[id].value == 0)
  }

  /** In every run, whatever the users of the service do meanwhile: once `Stop` has
      returned nothing is in flight, and `Get` of a cumulative counter is the sum of its
      accepted, lost and queued snapshots and its uncollected value. The snapshots alone
      add up to `Get` if and only if the counter was left with nothing uncollected. */
  lemma StopAccountsForAll(cycle: nat, steps: seq<Step>, id: nat)
    requires Legal(Init(cycle), steps)
    requires var s := After(Init(cycle), steps);
             s.phase.Stopped? && id in s.store && s.store[id].cumulative
    ensures AccountedFor(After(Init(cycle), steps), id)
  {
    AlwaysSettling(cycle, steps);
    ValueConserved(cycle, steps, id);
    var s := After(Init(cycle), steps);
    assert Carried(s.log, id, InFlight(s)) == 0;
    WrapShift(Carried(s.log, id, s.accepted) + Carried(s.log, id, s.lost) + Carried(s.log, id, s.queue),
              s.store[id].value);
  }

  /** The send made by `Stop` is the only one left when it replies, so if it is accepted
      the queue is empty and `Stop` can return. */
  lemma FinalSendSettles(cycle: nat, steps: seq<Step>, k: nat)
    requires Legal(Init(cycle), steps)
    requires var s := After(Init(cycle), steps);
             s.phase.Finishing? && s.pass.Idle? && Enabled(s, FinishSend(k, Accepted))
    ensures var t := Next(After(Init(cycle), steps), FinishSend(k, Accepted));
            t.inflight == [] && t.queue == [] && Enabled(t, StopReturns)
  {
    AlwaysSettling(cycle, steps);
  }

  // ----- what the last pass collects ----------------------------------------------

  ghost predicate Registered(s: System, id: nat) {
    exists i :: 0 <= i < |s.monitors| && id in s.monitors[i].counters
  }

  /** The last pass of `Stop` has begun and has no turn of counter `id` left. */
  ghost predicate TooLate(s: System, id: nat) {
    (s.phase.Finishing? || s.phase.Stopped?) && !(s.pass.Collecting? && Take(id) in s.pass.todo)
  }

  /** Counter `id` is registered when the last pass begins, and is updated, at any time
      and also during that pass, only before its last turn. */
  ghost predicate InTime(s: System, steps: seq<Step>, id: nat)
    requires Legal(s, steps)
    decreases |steps|
  {
    steps == [] ||
    (&& (steps[0].UpdateCounter? && steps[0].id == id ==> !TooLate(s, id))
     && (steps[0].BeginFinal? ==> Registered(s, id))
     && InTime(Next(s, steps[0]), steps[1..], id))
  }

  lemma TakeListed(ids: seq<nat>, id: nat)
    requires id in ids
    ensures Take(id) in TakeAll(ids)
  {
  }

  lemma {:induction false} AgendaTakesAll(monitors: seq<MonitorInfo<nat>>, i: nat, id: nat)
    requires i < |monitors| && id in monitors[i].counters
    ensures Take(id) in Agenda(monitors)
    decreases |monitors|
  {
    var n := |monitors| - 1;
    if i < n {
      AgendaTakesAll(monitors[..n], i, id);
    } else {
      TakeListed(monitors[n].counters, id);
    }
  }

  /** The last pass leaves nothing uncollected in a cumulative counter. */
  ghost predicate DrainedAt(s: System, id: nat) {
    TooLate(s, id) && id in s.store && s.store[id].cumulative ==> s.store[id].value == 0
  }

  lemma DrainedKept(s: System, step: Step, id: nat)
    requires WellFormed(s) && DrainedAt(s, id) && Enabled(s, step)
    requires step.UpdateCounter? && step.id == id ==> !TooLate(s, id)
    requires step.BeginFinal? ==> Registered(s, id)
    ensures DrainedAt(Next(s, step), id)
  {
    if step.BeginFinal? {
      var i :| 0 <= i < |s.monitors| && id in s.monitors[i].counters;
      AgendaTakesAll(s.monitors, i, id);
    } else if step.CollectNext? {
      assert s.pass.todo == [s.pass.todo[0]] + s.pass.todo[1..];
    }
  }

  lemma {:induction false} DrainedAlong(s: System, steps: seq<Step>, id: nat)
    requires Inv(s) && DrainedAt(s, id) && Legal(s, steps) && InTime(s, steps, id)
    ensures DrainedAt(After(s, steps), id)
    decreases |steps|
  {
    if steps != [] {
      InvKept(s, steps[0]);
      DrainedKept(s, steps[0], id);
      DrainedAlong(Next(s, steps[0]), steps[1..], id);
    }
  }

  /** A cumulative counter whose updates were in time has nothing left uncollected. */
  lemma LastPassCollects(cycle: nat, steps: seq<Step>, id: nat)
    requires Legal(Init(cycle), steps) && InTime(Init(cycle), steps, id)
    requires var s := After(Init(cycle), steps);
             s.phase.Stopped? && id in s.store && s.store[id].cumulative
    ensures After(Init(cycle), steps).store[id].value == 0
  {
    InvInit(cycle);
    AlwaysSettling(cycle, steps);
    DrainedAlong(Init(cycle), steps, id);
  }

  // ----- nothing but accepted payloads ----------------------------------------------

  /** The send made by `Stop` is accepted. */
  ghost predicate FinalSendAccepted(s: System, steps: seq<Step>)
    requires Legal(s, steps)
    decreases |steps|
  {
    steps == [] ||
    (&& (steps[0].FinishSend? && s.phase.Finishing? ==> steps[0].reply.Accepted?)
     && FinalSendAccepted(Next(s, steps[0]), steps[1..]))
  }

  /** Once `Stop` has posted for the last time, the queue is empty. */
  ghost predicate Emptied(s: System) {
    s.phase.Stopped? || (s.phase.Finishing? && s.pass.Idle?) ==> s.queue == []
  }

  lemma {:induction false} EmptiedAlong(s: System, steps: seq<Step>)
    requires Inv(s) && Settling(s) && Emptied(s) && Legal(s, steps) && FinalSendAccepted(s, steps)
    ensures Emptied(After(s, steps))
    decreases |steps|
  {
    if steps != [] {
      InvKept(s, steps[0]);
      SettlingKept(s, steps[0]);
      EmptiedKept(s, steps[0]);
      EmptiedAlong(Next(s, steps[0]), steps[1..]);
    }
  }

  lemma EmptiedKept(s: System, step: Step)
    requires WellFormed(s) && Settling(s) && Emptied(s) && Enabled(s, step)
    requires step.FinishSend? && s.phase.Finishing? ==> step.reply.Accepted?
    ensures Emptied(Next(s, step))
  {
  }

  /** Everything that was ever queued has been accepted, and for counter `id` the accepted
      snapshots add up to `Get`. */
  ghost predicate AllAccepted(s: System, id: nat)
    requires id in s.store
  {
    && s.queue == [] && s.inflight == [] && s.lost == []
    && Within(s.accepted, |s.log|)
    && LogSum(s.log, id) == Carried(s.log, id, s.accepted)
    && Get(s.store[id]) == Wrap64(Carried(s.log, id, s.accepted))
  }

  /** If the last send is accepted and no payload was ever lost, then once `Stop` has
      returned the accepted snapshots of a cumulative counter whose updates were in time
      add up to its `Get`. */
  lemma StopDelivers(cycle: nat, steps: seq<Step>, id: nat)
    requires Legal(Init(cycle), steps) && InTime(Init(cycle), steps, id)
    requires FinalSendAccepted(Init(cycle), steps)
    requires var s := After(Init(cycle), steps);
             s.phase.Stopped? && s.lost == [] && id in s.store && s.store[id].cumulative
    ensures AllAccepted(After(Init(cycle), steps), id)
  {
    InvInit(cycle);
    InEveryRun(cycle, steps);
    EmptiedAlong(Init(cycle), steps);
    StopAccountsForAll(cycle, steps, id);
    LastPassCollects(cycle, steps, id);
    PlacesCarryLog(After(Init(cycle), steps), id);
  }

  // ----- users who leave a finishing service alone -------------------------------------

  /** Users of the service do nothing once the last pass has begun; while `Stop` still
      waits for earlier sends they go on as before. */
  ghost predicate Quiet(s: System, steps: seq<Step>)
    requires Legal(s, steps)
    decreases |steps|
  {
    steps == [] ||
    (&& (ClientStep(steps[0]) ==> s.phase.Running? || s.phase.Draining?)
     && Quiet(Next(s, steps[0]), steps[1..]))
  }

  lemma {:induction false} MonitorsStay(s: System, steps: seq<Step>)
    requires Legal(s, steps) && Quiet(s, steps) && (s.phase.Finishing? || s.phase.Stopped?)
    ensures After(s, steps).monitors == s.monitors
    decreases |steps|
  {
    if steps != [] {
      MonitorsStay(Next(s, steps[0]), steps[1..]);
    }
  }

  /** For such users every registered counter is in time. */
  lemma {:induction false} QuietIsInTime(s: System, steps: seq<Step>, id: nat)
    requires Legal(s, steps) && Quiet(s, steps) && Registered(After(s, steps), id)
    ensures InTime(s, steps, id)
    decreases |steps|
  {
    if steps != [] {
      var t := Next(s, steps[0]);
      QuietIsInTime(t, steps[1..], id);
      if steps[0].BeginFinal? {
        MonitorsStay(t, steps[1..]);
        assert t.monitors == s.monitors;
      }
    }
  }
}
