/** The traffic counters inside the metrics pipeline: what the device readings of a run
    and the snapshots that were accepted have to do with each other. */
module TrafficPipeline {
  import opened GoInts
  import opened Counters
  import M = NetworkMetrics
  import opened Pipeline
  import opened PipelineTheorems
  import opened PipelineStop

  /** What one step of the pipeline means to counter `id`. */
  ghost function EventOf(s: System, step: Step, id: nat): (events: seq<M.TrafficEvent>) {
    if step.UpdateCounter? && step.id == id && step.update.Set? then [M.Reading(step.update.reading)]
    else if Collects(s, step, id) then [M.Collection]
    else []
  }

  /** What a whole run means to counter `id`, after the events in `past`. */
  ghost function Traffic(s: System, steps: seq<Step>, id: nat, past: seq<M.TrafficEvent>)
    : (events: seq<M.TrafficEvent>)
    requires Legal(s, steps)
    decreases |steps|
  {
    if steps == [] then past
    else Traffic(Next(s, steps[0]), steps[1..], id, past + EventOf(s, steps[0], id))
  }

  /** A step that treats `id` as a traffic counter: made cumulative and ignoring zero, and
      set to positive readings only. */
  predicate TrafficStep(step: Step, id: nat) {
    && (step.NewCounter? && step.id == id ==> step.cumulative && step.ignoreZeroSnapshots)
    && (step.UpdateCounter? && step.id == id ==> step.update.Set? && step.update.reading > 0)
  }

  predicate TrafficCounter(steps: seq<Step>, id: nat) {
    forall i :: 0 <= i < |steps| ==> TrafficStep(steps[i], id)
  }

  function Total(vs: seq<int>): (n: int) {
    if vs == [] then 0 else Total(vs[..|vs| - 1]) + vs[|vs| - 1]
  }

  /** The counter is what its events made of it, and its snapshots are what was taken. */
  ghost predicate Fed(s: System, id: nat, past: seq<M.TrafficEvent>) {
    if id in s.store then s.store[id] == M.Feeding(past) && TakenSum(s, id) == Total(M.Snapshots(past))
    else past == [] && TakenSum(s, id) == 0
  }

  lemma OneEvent(past: seq<M.TrafficEvent>, e: M.TrafficEvent)
    ensures var c := M.Feeding(past);
            && M.Feeding(past + [e]) == (match e case Reading(r) => M.Feed(c, r) case Collection => AfterCollect(c))
            && Total(M.Snapshots(past + [e])) ==
               Total(M.Snapshots(past)) + if e.Collection? then Emitted(c) else 0
  {
    var vs := M.Snapshots(past);
    assert (past + [e])[..|past|] == past;
    assert forall v: int64 :: (vs + [v])[..|vs|] == vs;
  }

  lemma FedKept(s: System, step: Step, id: nat, past: seq<M.TrafficEvent>)
    requires Fed(s, id, past) && Enabled(s, step) && TrafficStep(step, id)
    ensures Fed(Next(s, step), id, past + EventOf(s, step, id))
  {
    TakenGrows(s, step, id);
    CounterChanges(s, step, id);
    var es := EventOf(s, step, id);
    if es == [] {
      assert past + es == past;
    } else {
      OneEvent(past, es[0]);
    }
  }

  lemma {:induction false} FedAlong(s: System, steps: seq<Step>, id: nat, past: seq<M.TrafficEvent>)
    requires Fed(s, id, past) && Legal(s, steps) && TrafficCounter(steps, id)
    ensures Fed(After(s, steps), id, Traffic(s, steps, id, past))
    decreases |steps|
  {
    if steps != [] {
      assert TrafficStep(steps[0], id);
      FedKept(s, steps[0], id, past);
      FedAlong(Next(s, steps[0]), steps[1..], id, past + EventOf(s, steps[0], id));
    }
  }

  /** The changes between readings add up to the distance from the first to the last. */
  lemma {:induction false} StepsTotal(rs: seq<int>, vs: seq<int>)
    requires |rs| > 0 && vs == M.Steps(rs)
    ensures Total(vs) == rs[|rs| - 1] - rs[0]
    decreases |rs|
  {
    if |rs| > 1 {
      var n := |rs| - 1;
      if rs[n] == rs[n - 1] {
        StepsTotal(rs[..n], vs);
      } else {
        StepsTotal(rs[..n], vs[..|vs| - 1]);
      }
    }
  }

  lemma {:induction false} CollectedFromZero(events: seq<M.TrafficEvent>)
    ensures M.Collected(events)[0] == 0
  {
    if events != [] {
      CollectedFromZero(events[..|events| - 1]);
    }
  }

  /** In every run: what was taken from a traffic counter is, as an exact number, the
      reading last collected, and `Get` is the last reading of the device. */
  lemma TrafficInEveryRun(cycle: nat, steps: seq<Step>, id: nat)
    requires Legal(Init(cycle), steps) && TrafficCounter(steps, id) && id in After(Init(cycle), steps).store
    ensures var s, events := After(Init(cycle), steps), Traffic(Init(cycle), steps, id, []);
            && M.Tracked(s.store[id], M.InForce(events), M.Collected(events))
            && TakenSum(s, id) == s.store[id].cumulativeValue
  {
    var events := Traffic(Init(cycle), steps, id, []);
    FedAlong(Init(cycle), steps, id, []);
    M.TrafficIsReported(events);
    CollectedFromZero(events);
    StepsTotal(M.Collected(events), M.Snapshots(events));
  }

  /** From the device to the service: if the last send of `Stop` is accepted, no payload was
      ever lost and the readings came in time, the accepted snapshots of a traffic counter
      add up to the last reading, exactly and without wrapping. */
  lemma TrafficArrives(cycle: nat, steps: seq<Step>, id: nat)
    requires Legal(Init(cycle), steps) && TrafficCounter(steps, id)
    requires InTime(Init(cycle), steps, id) && FinalSendAccepted(Init(cycle), steps)
    requires var s := After(Init(cycle), steps); s.phase.Stopped? && s.lost == [] && id in s.store
    ensures var s := After(Init(cycle), steps);
            && Within(s.accepted, |s.log|)
            && Carried(s.log, id, s.accepted) == M.InForce(Traffic(Init(cycle), steps, id, []))
  {
    TrafficInEveryRun(cycle, steps, id);
    StopDelivers(cycle, steps, id);
    LastPassCollects(cycle, steps, id);
    AlwaysSettling(cycle, steps);
  }
}
