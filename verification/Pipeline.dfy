/** The metrics pipeline of monitors/monitor.go as a transition system. Counter
    updates, timer ticks, single counter collections, replies of any number of
    overlapping sends and the drain in `Stop` interleave freely, subject to the
    service lock. A queued payload is named by its position in `log`, the history
    of all payloads ever queued, in collection order. */
module Pipeline {
  import opened GoInts
  import opened Counters
  import opened Sequences
  import opened Collection

  /** What a pass still has to do: open the snapshot of a monitor, take a counter. */
  datatype Todo = Open(name: string) | Take(counter: nat)

  /** `Idle` means the service lock is free; a collection pass holds it throughout. */
  datatype Pass = Idle | Collecting(todo: seq<Todo>, built: Payload<nat>)

  /** `Draining`: `Stop` has stopped the timer and waits for the sends in flight.
      `Finishing`: its last pass has begun. */
  datatype Phase = Running | Draining | Finishing | Stopped

  datatype System = System(
    cycle: nat,
    countdown: int,
    store: Store<nat>,
    monitors: seq<MonitorInfo<nat>>,
    pass: Pass,
    phase: Phase,
    log: seq<Payload<nat>>,
    queue: seq<nat>,
    inflight: seq<seq<nat>>,
    accepted: seq<nat>,
    lost: seq<nat>,
    ticks: nat,
    posts: nat,
    failures: nat)

  datatype Step =
    | NewCounter(id: nat, cumulative: bool, ignoreZeroSnapshots: bool)
    | UpdateCounter(id: nat, update: Update)
    | NewMonitor(name: string)
    | AddCounter(monitor: nat, id: nat)
    | DeleteCounter(monitor: nat, id: nat)
    | BeginTick
    | CollectNext
    | EndTick
    | FinishSend(send: nat, reply: Reply)
    | StopTimer
    | BeginFinal
    | EndFinal
    | StopReturns

  /** Steps taken by the users of the service rather than by the service itself. */
  predicate ClientStep(step: Step) {
    step.NewCounter? || step.UpdateCounter? || step.NewMonitor? || step.AddCounter? || step.DeleteCounter?
  }

  function Init(cycle: nat): (s: System) {
    System(cycle, cycle - 1, map[], [], Idle, Running, [], [], [], [], [], 0, 0, 0)
  }

  function TakeAll(ids: seq<nat>): (todo: seq<Todo>)
    ensures |todo| == |ids| && forall i :: 0 <= i < |ids| ==> todo[i] == Take(ids[i])
  {
    seq(|ids|, i requires 0 <= i < |ids| => Take(ids[i]))
  }

  /** The work of one pass over the registered monitors. */
  function Agenda(monitors: seq<MonitorInfo<nat>>): (todo: seq<Todo>) {
    if monitors == [] then []
    else
      var m := monitors[|monitors| - 1];
      Agenda(monitors[..|monitors| - 1]) +
      if m.counters == [] then [] else [Open(m.name)] + TakeAll(m.counters)
  }

  function Built(s: System): (p: Payload<nat>) {
    if s.pass.Collecting? then s.pass.built else []
  }

  /** A reply is possible only for a batch that was sent, that is, a non-empty one;
      anything but full acceptance needs the lock to write back. */
  ghost predicate ReplyPossible(s: System, batch: seq<nat>, reply: Reply) {
    match reply
    case Accepted => true
    case Failed => batch != [] && s.pass.Idle?
    case Rejected(errors) =>
      batch != [] && s.pass.Idle? && errors != [] && InRange(batch, errors) && Distinct(errors)
  }

  ghost predicate Enabled(s: System, step: Step) {
    match step
    case NewCounter(id, _, _) => id !in s.store
    case UpdateCounter(id, _) => id in s.store
    case NewMonitor(_) => s.pass.Idle?
    case AddCounter(m, id) => s.pass.Idle? && m < |s.monitors| && id in s.store
    case DeleteCounter(m, id) =>
      s.pass.Idle? && m < |s.monitors| && s.monitors[m].counters != []
    case BeginTick => s.pass.Idle? && s.phase.Running?
    case CollectNext =>
      s.pass.Collecting? && s.pass.todo != [] &&
      (s.pass.todo[0].Take? ==> s.pass.built != [] && s.pass.todo[0].counter in s.store)
    case EndTick => s.pass.Collecting? && s.pass.todo == [] && s.phase.Running?
    case FinishSend(k, reply) => k < |s.inflight| && ReplyPossible(s, s.inflight[k], reply)
    case StopTimer => s.pass.Idle? && s.phase.Running?
    case BeginFinal => s.pass.Idle? && s.phase.Draining? && s.inflight == []
    case EndFinal => s.pass.Collecting? && s.pass.todo == [] && s.phase.Finishing?
    case StopReturns => s.pass.Idle? && s.phase.Finishing? && s.inflight == []
  }

  /** The counter's snapshot, if any, joins the monitor snapshot opened last. */
  function Extended(built: Payload<nat>, id: nat, c: CounterState): (p: Payload<nat>)
    requires built != []
  {
    var n := |built| - 1;
    built[..n] + [built[n].(counters := built[n].counters + SnapshotOf(id, c))]
  }

  function Collected(s: System): (r: System)
    requires s.pass.Collecting? && s.pass.todo != []
    requires s.pass.todo[0].Take? ==> s.pass.built != [] && s.pass.todo[0].counter in s.store
  {
    var rest := s.pass.todo[1..];
    match s.pass.todo[0]
    case Open(name) =>
      s.(pass := Collecting(rest, s.pass.built + [MonitorSnapshot(name, [])]))
    case Take(id) =>
      s.(pass := Collecting(rest, Extended(s.pass.built, id, s.store[id])),
         store := s.store[id := AfterCollect(s.store[id])])
  }

  /** The end of the collection loop: the payload is queued unless it is empty. */
  ghost function Enqueued(s: System): (r: System)
    requires s.pass.Collecting?
  {
    if HasSnapshots(s.pass.built)
    then s.(pass := Idle, log := s.log + [s.pass.built], queue := s.queue + [|s.log|])
    else s.(pass := Idle)
  }

  function Posted(s: System): (r: System) {
    s.(inflight := s.inflight + [s.queue], queue := [])
  }

  ghost function Ticked(s: System): (r: System)
    requires s.pass.Collecting?
  {
    var e := Enqueued(s).(ticks := s.ticks + 1);
    if s.countdown == 0
    then Posted(e).(countdown := s.cycle - 1, posts := s.posts + 1)
    else e.(countdown := s.countdown - 1)
  }

  /** The members of a batch a reply accepts. */
  ghost function Settled(batch: seq<nat>, reply: Reply): (r: seq<nat>) {
    match reply
    case Accepted => batch
    case Failed => []
    case Rejected(errors) => Delivered(batch, errors)
  }

  /** The members of a batch a reply neither accepts nor returns. */
  ghost function Gone(batch: seq<nat>, reply: Reply): (r: seq<nat>)
    requires reply.Rejected? ==> InRange(batch, reply.errors)
  {
    if reply.Rejected? then Dropped(batch, reply.errors) else []
  }

  ghost function Replied(s: System, k: nat, reply: Reply): (r: System)
    requires k < |s.inflight|
    requires reply.Rejected? ==> InRange(s.inflight[k], reply.errors)
  {
    var batch := s.inflight[k];
    s.(inflight := Without(s.inflight, k),
       queue := Returned(batch, reply) + s.queue,
       accepted := s.accepted + Settled(batch, reply),
       lost := s.lost + Gone(batch, reply),
       failures := s.failures + if reply.Accepted? then 0 else 1)
  }

  ghost function Next(s: System, step: Step): (r: System)
    requires Enabled(s, step)
  {
    match step
    case NewCounter(id, cumulative, ignore) => s.(store := s.store[id := Fresh(cumulative, ignore)])
    case UpdateCounter(id, u) => s.(store := s.store[id := AfterUpdate(s.store[id], u)])
    case NewMonitor(name) => s.(monitors := s.monitors + [MonitorInfo(name, [])])
    case AddCounter(m, id) =>
      s.(monitors := s.monitors[m := s.monitors[m].(counters := s.monitors[m].counters + [id])])
    case DeleteCounter(m, id) =>
      s.(monitors := s.monitors[m := s.monitors[m].(counters := Deleted(s.monitors[m].counters, id))])
    case BeginTick => s.(pass := Collecting(Agenda(s.monitors), []))
    case CollectNext => Collected(s)
    case EndTick => Ticked(s)
    case FinishSend(k, reply) => Replied(s, k, reply)
    case StopTimer => s.(phase := Draining)
    case BeginFinal => s.(pass := Collecting(Agenda(s.monitors), []), phase := Finishing)
    case EndFinal => Posted(Enqueued(s))
    case StopReturns => s.(phase := Stopped)
  }

  /** A legal run from `s`, and the state it ends in. */
  ghost predicate Legal(s: System, steps: seq<Step>)
    decreases |steps|
  {
    steps == [] || (Enabled(s, steps[0]) && Legal(Next(s, steps[0]), steps[1..]))
  }

  ghost function After(s: System, steps: seq<Step>): (r: System)
    requires Legal(s, steps)
    decreases |steps|
  {
    if steps == [] then s else After(Next(s, steps[0]), steps[1..])
  }

  // ----- where payloads are --------------------------------------------------

  /** The payloads of all sends that have not replied yet. */
  function InFlight(s: System): (r: seq<nat>) {
    Flatten<nat>(s.inflight)
  }

  /** Every place a queued payload can be in. */
  function Places(s: System): (r: seq<nat>) {
    s.queue + InFlight(s) + s.accepted + s.lost
  }

  function PlacesBag(s: System): (b: multiset<nat>) {
    multiset(s.queue) + multiset(InFlight(s)) + multiset(s.accepted) + multiset(s.lost)
  }

  lemma PlacesBagged(s: System)
    ensures multiset(Places(s)) == PlacesBag(s)
  {
  }

  /** Every payload of the history is in exactly one place. */
  ghost predicate InPlace(s: System) {
    PlacesBag(s) == multiset(Upto(|s.log|))
  }

  lemma EnqueuedInPlace(s: System)
    requires InPlace(s) && s.pass.Collecting?
    ensures InPlace(Enqueued(s))
  {
    if HasSnapshots(s.pass.built) {
      BagSnoc(s.queue, |s.log|);
      UptoSnoc(|s.log|);
      BagSnoc(Upto(|s.log|), |s.log|);
    }
  }

  lemma PostedInPlace(s: System)
    requires InPlace(s)
    ensures InPlace(Posted(s))
  {
  }

  lemma ReplyDivides(s: System, batch: seq<nat>, reply: Reply)
    requires ReplyPossible(s, batch, reply)
    ensures multiset(batch) ==
            multiset(Returned(batch, reply)) + multiset(Settled(batch, reply)) + multiset(Gone(batch, reply))
  {
    if reply.Rejected? {
      FailedBag(batch, reply.errors);
      ReplySplits(batch, reply.errors);
    }
  }

  lemma RepliedInPlace(s: System, k: nat, reply: Reply)
    requires InPlace(s) && k < |s.inflight| && ReplyPossible(s, s.inflight[k], reply)
    ensures InPlace(Replied(s, k, reply))
  {
    var batch := s.inflight[k];
    var back, taken, gone := Returned(batch, reply), Settled(batch, reply), Gone(batch, reply);
    FlattenWithoutBag<nat>(s.inflight, k);
    ReplyDivides(s, batch, reply);
    PlacesAfterReply(s, Replied(s, k, reply), batch, back, taken, gone);
  }

  lemma PlacesAfterReply(s: System, r: System, batch: seq<nat>, back: seq<nat>, taken: seq<nat>, gone: seq<nat>)
    requires multiset(batch) == multiset(back) + multiset(taken) + multiset(gone)
    requires multiset(InFlight(s)) == multiset(InFlight(r)) + multiset(batch)
    requires r.queue == back + s.queue && r.accepted == s.accepted + taken && r.lost == s.lost + gone
    ensures PlacesBag(r) == PlacesBag(s)
  {
  }

  lemma InPlaceKept(s: System, step: Step)
    requires InPlace(s) && Enabled(s, step)
    ensures InPlace(Next(s, step))
  {
    match step
    case EndTick =>
      EnqueuedInPlace(s);
      PostedInPlace(Enqueued(s));
    case EndFinal =>
      EnqueuedInPlace(s);
      PostedInPlace(Enqueued(s));
    case FinishSend(k, reply) => RepliedInPlace(s, k, reply);
    case _ =>
  }

  // ----- what payloads carry -------------------------------------------------

  /** The total a list of snapshots reports for counter `id`. */
  function SnapshotSum(ss: seq<Snapshot<nat>>, id: nat): (v: int) {
    if ss == [] then 0
    else
      var n := |ss| - 1;
      SnapshotSum(ss[..n], id) + if ss[n].counter == id then ss[n].value else 0
  }

  function PayloadSum(p: Payload<nat>, id: nat): (v: int) {
    if p == [] then 0 else PayloadSum(p[..|p| - 1], id) + SnapshotSum(p[|p| - 1].counters, id)
  }

  function LogSum(log: seq<Payload<nat>>, id: nat): (v: int) {
    if log == [] then 0 else LogSum(log[..|log| - 1], id) + PayloadSum(log[|log| - 1], id)
  }

  /** All that was ever taken from counter `id`: queued so far, or being built. */
  function TakenSum(s: System, id: nat): (v: int) {
    LogSum(s.log, id) + PayloadSum(Built(s), id)
  }

  /** A counter from which `sum` has been taken. */
  predicate TakenFrom(c: CounterState, sum: int) {
    Sound(c) && (c.cumulative ==> c.cumulativeValue == Wrap64(sum))
  }

  ghost predicate BalancedAt(s: System, id: nat) {
    if id in s.store then TakenFrom(s.store[id], TakenSum(s, id)) else TakenSum(s, id) == 0
  }

  /** For every cumulative counter, the accumulated value is what was taken from it. */
  ghost predicate Balanced(s: System) {
    forall id: nat :: BalancedAt(s, id)
  }

  lemma {:induction false} EmptyPayloadSum(p: Payload<nat>, id: nat)
    requires !HasSnapshots(p)
    ensures PayloadSum(p, id) == 0
  {
    if p != [] {
      var n := |p| - 1;
      assert p[n].counters == [];
      assert forall i :: 0 <= i < n ==> p[..n][i] == p[i];
      EmptyPayloadSum(p[..n], id);
    }
  }

  lemma ExtendedSum(built: Payload<nat>, id: nat, c: CounterState, other: nat)
    requires built != []
    ensures PayloadSum(Extended(built, id, c), other) ==
            PayloadSum(built, other) + if other == id then Emitted(c) else 0
  {
    var n := |built| - 1;
    var p := Extended(built, id, c);
    assert p[..n] == built[..n];
    var ss := built[n].counters;
    if Emits(c) {
      assert (ss + SnapshotOf(id, c))[..|ss|] == ss;
    } else {
      assert ss + SnapshotOf(id, c) == ss;
    }
  }

  /** Whether a step collects counter `id`. */
  predicate Collects(s: System, step: Step, id: nat) {
    step.CollectNext? && s.pass.Collecting? && s.pass.todo != [] && s.pass.todo[0] == Take(id)
  }

  lemma CollectedTaken(s: System, id: nat)
    requires Enabled(s, CollectNext)
    ensures TakenSum(Collected(s), id) ==
            TakenSum(s, id) + if Collects(s, CollectNext, id) then Emitted(s.store[id]) else 0
  {
    var built := s.pass.built;
    match s.pass.todo[0]
    case Open(name) => assert (built + [MonitorSnapshot(name, [])])[..|built|] == built;
    case Take(k) => ExtendedSum(built, k, s.store[k], id);
  }

  lemma EnqueuedTaken(s: System, id: nat)
    requires s.pass.Collecting?
    ensures TakenSum(Enqueued(s), id) == TakenSum(s, id)
  {
    if HasSnapshots(s.pass.built) {
      assert (s.log + [s.pass.built])[..|s.log|] == s.log;
    } else {
      EmptyPayloadSum(s.pass.built, id);
    }
  }

  /** What was taken from a counter grows exactly when it is collected, by what it emits;
      a payload that is thrown away because it is empty loses nothing. */
  lemma TakenGrows(s: System, step: Step, id: nat)
    requires Enabled(s, step)
    ensures TakenSum(Next(s, step), id) ==
            TakenSum(s, id) + if Collects(s, step, id) then Emitted(s.store[id]) else 0
  {
    match step
    case CollectNext => CollectedTaken(s, id);
    case EndTick => EnqueuedTaken(s, id);
    case EndFinal => EnqueuedTaken(s, id);
    case _ =>
  }

  /** What a step makes of a counter that exists. */
  function CounterAfter(s: System, step: Step, id: nat): (c: CounterState)
    requires id in s.store
  {
    if step.UpdateCounter? && step.id == id then AfterUpdate(s.store[id], step.update)
    else if Collects(s, step, id) then AfterCollect(s.store[id])
    else s.store[id]
  }

  lemma CounterChanges(s: System, step: Step, id: nat)
    requires Enabled(s, step)
    ensures var r := Next(s, step);
            if id in s.store then id in r.store && r.store[id] == CounterAfter(s, step, id)
            else if step.NewCounter? && step.id == id
            then id in r.store && r.store[id] == Fresh(step.cumulative, step.ignoreZeroSnapshots)
            else id !in r.store
  {
  }

  lemma CollectTakes(c: CounterState, sum: int)
    requires TakenFrom(c, sum)
    ensures TakenFrom(AfterCollect(c), sum + Emitted(c))
  {
    WrapAdd(sum, Emitted(c));
  }

  lemma UpdateTakesNothing(c: CounterState, u: Update, sum: int)
    requires TakenFrom(c, sum)
    ensures TakenFrom(AfterUpdate(c, u), sum)
  {
  }

  lemma BalancedAtKept(s: System, step: Step, id: nat)
    requires BalancedAt(s, id) && Enabled(s, step)
    ensures BalancedAt(Next(s, step), id)
  {
    TakenGrows(s, step, id);
    CounterChanges(s, step, id);
    if id in s.store {
      CollectTakes(s.store[id], TakenSum(s, id));
      if step.UpdateCounter? {
        UpdateTakesNothing(s.store[id], step.update, TakenSum(s, id));
      }
    }
  }

  lemma BalancedKept(s: System, step: Step)
    requires Balanced(s) && Enabled(s, step)
    ensures Balanced(Next(s, step))
  {
    forall id: nat ensures BalancedAt(Next(s, step), id) {
      BalancedAtKept(s, step, id);
    }
  }
}
