/** What holds in every run of the metrics pipeline. */
module PipelineTheorems {
  import opened GoInts
  import opened Counters
  import opened Sequences
  import opened Collection
  import opened Pipeline

  // ----- progress ------------------------------------------------------------

  /** Registered counters exist, and a pass opens a monitor before it takes from it. */
  ghost predicate WellFormed(s: System) {
    && CoversAll(s.store, s.monitors)
    && (s.pass.Collecting? ==>
          && (s.phase.Running? || s.phase.Finishing?)
          && (s.pass.built == [] ==> s.pass.todo == [] || s.pass.todo[0].Open?)
          && TodoCovered(s.store, s.pass.todo))
  }

  ghost predicate TodoCovered(store: Store<nat>, todo: seq<Todo>) {
    forall i :: 0 <= i < |todo| && todo[i].Take? ==> todo[i].counter in store
  }

  lemma {:induction false} AgendaCovered(store: Store<nat>, monitors: seq<MonitorInfo<nat>>)
    requires CoversAll(store, monitors)
    ensures TodoCovered(store, Agenda(monitors))
    ensures Agenda(monitors) == [] || Agenda(monitors)[0].Open?
  {
    if monitors != [] {
      var n := |monitors| - 1;
      assert forall i :: 0 <= i < n ==> monitors[..n][i] == monitors[i];
      AgendaCovered(store, monitors[..n]);
      assert Covers(store, monitors[n].counters);
      forall i | 0 <= i < |Agenda(monitors)| && Agenda(monitors)[i].Take?
        ensures Agenda(monitors)[i].counter in store
      {
        var k := i - |Agenda(monitors[..n])|;
        if k >= 0 {
          assert Agenda(monitors)[i] == ([Open(monitors[n].name)] + TakeAll(monitors[n].counters))[k];
          assert monitors[n].counters[k - 1] in monitors[n].counters;
        }
      }
    }
  }

  lemma DeletedSubset<T>(xs: seq<T>, x: T, y: T)
    requires xs != [] && y in Deleted(xs, x)
    ensures y in xs
  {
  }

  lemma WellFormedKept(s: System, step: Step)
    requires WellFormed(s) && Enabled(s, step)
    ensures WellFormed(Next(s, step))
  {
    var r := Next(s, step);
    match step
    case BeginTick => AgendaCovered(s.store, s.monitors);
    case BeginFinal => AgendaCovered(s.store, s.monitors);
    case AddCounter(m, id) =>
      forall i | 0 <= i < |r.monitors| ensures Covers(r.store, r.monitors[i].counters) {
        assert Covers(s.store, s.monitors[i].counters);
      }
    case DeleteCounter(m, id) =>
      forall i | 0 <= i < |r.monitors| ensures Covers(r.store, r.monitors[i].counters) {
        assert Covers(s.store, s.monitors[i].counters);
        forall k | k in r.monitors[i].counters ensures k in r.store {
          if i == m {
            DeletedSubset(s.monitors[m].counters, id, k);
          }
        }
      }
    case NewMonitor(_) =>
      forall i | 0 <= i < |r.monitors| ensures Covers(r.store, r.monitors[i].counters) {
        if i < |s.monitors| {
          assert Covers(s.store, s.monitors[i].counters);
        }
      }
    case NewCounter(_, _, _) => StoreGrows(s, r.store);
    case UpdateCounter(_, _) => StoreGrows(s, r.store);
    case CollectNext => StoreGrows(s, r.store);
    case _ =>
  }

  lemma StoreGrows(s: System, store: Store<nat>)
    requires WellFormed(s) && s.store.Keys <= store.Keys
    ensures CoversAll(store, s.monitors)
    ensures s.pass.Collecting? ==> TodoCovered(store, s.pass.todo)
  {
  }

  /** A pass never gets stuck: its next step is always enabled. */
  lemma PassAdvances(s: System)
    requires WellFormed(s) && s.pass.Collecting?
    ensures Enabled(s, CollectNext) || Enabled(s, EndTick) || Enabled(s, EndFinal)
  {
  }

  // ----- cadence -------------------------------------------------------------

  ghost predicate Paced(s: System) {
    if s.cycle == 0 then s.countdown == -1 - s.ticks && s.posts == 0
    else 0 <= s.countdown < s.cycle && s.ticks == s.posts * s.cycle + (s.cycle - 1 - s.countdown)
  }

  /** As long as no send fails, the queue only holds what the current cycle collected. */
  ghost predicate Bounded(s: System) {
    s.cycle > 0 && s.failures == 0 ==>
      && |s.queue| <= s.cycle - 1 - s.countdown
      && forall i :: 0 <= i < |s.inflight| ==> |s.inflight[i]| <= s.cycle
  }

  lemma PacedKept(s: System, step: Step)
    requires Paced(s) && Enabled(s, step)
    ensures Paced(Next(s, step))
  {
    if step.EndTick? && s.cycle > 0 {
      assert (s.posts + 1) * s.cycle == s.posts * s.cycle + s.cycle;
    }
  }

  lemma BoundedKept(s: System, step: Step)
    requires Paced(s) && Bounded(s) && Enabled(s, step)
    ensures Bounded(Next(s, step))
  {
  }

  // ----- the invariant over runs ---------------------------------------------

  ghost predicate Inv(s: System) {
    WellFormed(s) && InPlace(s) && Balanced(s) && Paced(s) && Bounded(s)
  }

  lemma InvInit(cycle: nat)
    ensures Inv(Init(cycle))
  {
  }

  lemma InvKept(s: System, step: Step)
    requires Inv(s) && Enabled(s, step)
    ensures Inv(Next(s, step))
  {
    WellFormedKept(s, step);
    InPlaceKept(s, step);
    BalancedKept(s, step);
    PacedKept(s, step);
    BoundedKept(s, step);
  }

  lemma {:induction false} InvAlong(s: System, steps: seq<Step>)
    requires Inv(s) && Legal(s, steps)
    ensures Inv(After(s, steps))
    decreases |steps|
  {
    if steps != [] {
      InvKept(s, steps[0]);
      InvAlong(Next(s, steps[0]), steps[1..]);
    }
  }

  lemma InEveryRun(cycle: nat, steps: seq<Step>)
    requires Legal(Init(cycle), steps)
    ensures Inv(After(Init(cycle), steps))
  {
    InvInit(cycle);
    InvAlong(Init(cycle), steps);
  }

  // ----- conservation of payloads --------------------------------------------

  /** Payload `i` is in one of the four places, once; a number that names no
      payload is in none. */
  ghost predicate ExactlyOnce(s: System, i: nat) {
    multiset(s.queue)[i] + multiset(InFlight(s))[i] +
    multiset(s.accepted)[i] + multiset(s.lost)[i] == if i < |s.log| then 1 else 0
  }

  lemma OnceInSum(q: multiset<nat>, f: multiset<nat>, a: multiset<nat>, l: multiset<nat>, n: nat, i: nat)
    requires q + f + a + l == multiset(Upto(n))
    ensures q[i] + f[i] + a[i] + l[i] == if i < n then 1 else 0
  {
    UptoOnce(n, i);
    BagCount(q, f, i);
    BagCount(q + f, a, i);
    BagCount(q + f + a, l, i);
  }

  lemma OncePlaced(s: System, i: nat)
    requires InPlace(s)
    ensures ExactlyOnce(s, i)
  {
    OnceInSum(multiset(s.queue), multiset(InFlight(s)), multiset(s.accepted), multiset(s.lost), |s.log|, i);
  }

  /** In every run each payload ever queued is in the queue, in one batch in flight,
      accepted or lost, and in only one of these, once; nothing else is in any. */
  lemma PayloadsConserved(cycle: nat, steps: seq<Step>, i: nat)
    requires Legal(Init(cycle), steps)
    ensures ExactlyOnce(After(Init(cycle), steps), i)
  {
    InEveryRun(cycle, steps);
    OncePlaced(After(Init(cycle), steps), i);
  }

  // ----- conservation of value -----------------------------------------------

  ghost predicate Within(xs: seq<nat>, n: nat) {
    forall i :: 0 <= i < |xs| ==> xs[i] < n
  }

  /** The total that the payloads listed in `xs` report for counter `id`. */
  ghost function Carried(log: seq<Payload<nat>>, id: nat, xs: seq<nat>): (v: int)
    requires Within(xs, |log|)
  {
    if xs == [] then 0
    else Carried(log, id, xs[..|xs| - 1]) + PayloadSum(log[xs[|xs| - 1]], id)
  }

  lemma {:induction false} CarriedConcat(log: seq<Payload<nat>>, id: nat, xs: seq<nat>, ys: seq<nat>)
    requires Within(xs, |log|) && Within(ys, |log|)
    ensures Carried(log, id, xs + ys) == Carried(log, id, xs) + Carried(log, id, ys)
  {
    if ys == [] {
      assert xs + ys == xs;
    } else {
      var n := |ys| - 1;
      CarriedConcat(log, id, xs, ys[..n]);
      assert (xs + ys)[..|xs + ys| - 1] == xs + ys[..n];
    }
  }

  /** What is carried depends only on which payloads there are. */
  lemma {:induction false} CarriedByBag(log: seq<Payload<nat>>, id: nat, xs: seq<nat>, ys: seq<nat>)
    requires Within(xs, |log|) && Within(ys, |log|) && multiset(xs) == multiset(ys)
    ensures Carried(log, id, xs) == Carried(log, id, ys)
    decreases |xs|
  {
    if xs == [] {
      assert |ys| == |multiset(ys)| == 0;
    } else {
      var n := |xs| - 1;
      var x := xs[n];
      assert x in multiset(ys);
      var k :| 0 <= k < |ys| && ys[k] == x;
      BagTail(xs, ys, k);
      CarriedWithout(log, id, ys, k);
      CarriedByBag(log, id, xs[..n], Without(ys, k));
    }
  }

  lemma BagTail(xs: seq<nat>, ys: seq<nat>, k: nat)
    requires xs != [] && k < |ys| && ys[k] == xs[|xs| - 1] && multiset(xs) == multiset(ys)
    ensures multiset(xs[..|xs| - 1]) == multiset(Without(ys, k))
  {
    var n := |xs| - 1;
    BagSnoc(xs[..n], xs[n]);
    assert xs == xs[..n] + [xs[n]];
    WithoutBag(ys, k);
    BagDrop(multiset(xs[..n]), multiset(Without(ys, k)), xs[n]);
  }

  lemma WithinWithout(ys: seq<nat>, k: nat, n: nat)
    requires Within(ys, n) && k < |ys|
    ensures Within(ys[..k], n) && ys[k] < n && Within(ys[k + 1..], n) && Within(Without(ys, k), n)
  {
  }

  lemma CarriedWithout(log: seq<Payload<nat>>, id: nat, ys: seq<nat>, k: nat)
    requires Within(ys, |log|) && k < |ys|
    ensures Within(Without(ys, k), |log|)
    ensures Carried(log, id, ys) == Carried(log, id, Without(ys, k)) + PayloadSum(log[ys[k]], id)
  {
    WithinWithout(ys, k, |log|);
    assert ys == ys[..k] + ([ys[k]] + ys[k + 1..]);
    CarriedMiddle(log, id, ys[..k], ys[k], ys[k + 1..]);
  }

  lemma CarriedMiddle(log: seq<Payload<nat>>, id: nat, a: seq<nat>, y: nat, b: seq<nat>)
    requires Within(a, |log|) && y < |log| && Within(b, |log|)
    ensures Within(a + ([y] + b), |log|) && Within(a + b, |log|)
    ensures Carried(log, id, a + ([y] + b)) == Carried(log, id, a + b) + PayloadSum(log[y], id)
  {
    CarriedConcat(log, id, [y], b);
    CarriedConcat(log, id, a, [y] + b);
    CarriedConcat(log, id, a, b);
    assert [y][..0] == [];
  }

  lemma {:induction false} CarriedUpto(log: seq<Payload<nat>>, id: nat, n: nat)
    requires n <= |log|
    ensures Carried(log, id, Upto(n)) == LogSum(log[..n], id)
  {
    if n > 0 {
      CarriedUpto(log, id, n - 1);
      UptoSnoc(n - 1);
      assert Upto(n)[..n - 1] == Upto(n - 1);
      assert log[..n][..n - 1] == log[..n - 1];
    }
  }

  lemma BagWithin(xs: seq<nat>, n: nat)
    requires multiset(xs) <= multiset(Upto(n))
    ensures Within(xs, n)
  {
    forall i | 0 <= i < |xs| ensures xs[i] < n {
      assert xs[i] in multiset(xs);
      UptoOnce(n, xs[i]);
    }
  }

  lemma PlacesWithin(s: System)
    requires InPlace(s)
    ensures Within(s.queue, |s.log|) && Within(InFlight(s), |s.log|)
    ensures Within(s.accepted, |s.log|) && Within(s.lost, |s.log|)
  {
    var n := |s.log|;
    BagWithin(s.queue, n);
    BagWithin(InFlight(s), n);
    BagWithin(s.accepted, n);
    BagWithin(s.lost, n);
  }

  /** The four places together carry everything ever queued. */
  lemma PlacesCarryLog(s: System, id: nat)
    requires InPlace(s)
    ensures Within(s.queue, |s.log|) && Within(InFlight(s), |s.log|)
    ensures Within(s.accepted, |s.log|) && Within(s.lost, |s.log|)
    ensures LogSum(s.log, id) ==
            Carried(s.log, id, s.queue) + Carried(s.log, id, InFlight(s)) +
            Carried(s.log, id, s.accepted) + Carried(s.log, id, s.lost)
  {
    PlacesWithin(s);
    PlacesBagged(s);
    var f := InFlight(s);
    CarriedConcat(s.log, id, s.queue, f);
    CarriedConcat(s.log, id, s.queue + f, s.accepted);
    CarriedConcat(s.log, id, s.queue + f + s.accepted, s.lost);
    CarriedByBag(s.log, id, Places(s), Upto(|s.log|));
    CarriedUpto(s.log, id, |s.log|);
    assert s.log[..|s.log|] == s.log;
  }

  /** `cumulativeValue` is the sum of the snapshots of counter `id` over the queued,
      in-flight, accepted and lost payloads and the one under construction, and `Get`
      is that sum plus the uncollected value, both in 64-bit arithmetic. */
  ghost predicate Conserved(s: System, id: nat)
    requires id in s.store
  {
    && Within(s.queue, |s.log|) && Within(InFlight(s), |s.log|)
    && Within(s.accepted, |s.log|) && Within(s.lost, |s.log|)
    && var sum := Carried(s.log, id, s.queue) + Carried(s.log, id, InFlight(s)) +
                  Carried(s.log, id, s.accepted) + Carried(s.log, id, s.lost) +
                  PayloadSum(Built(s), id);
    && s.store[id].cumulativeValue == Wrap64(sum)
    && Get(s.store[id]) == Wrap64(sum + s.store[id].value)
  }

  lemma BalancedConserves(s: System, id: nat)
    requires InPlace(s) && BalancedAt(s, id) && id in s.store && s.store[id].cumulative
    ensures Conserved(s, id)
  {
    PlacesCarryLog(s, id);
    WrapAdd(TakenSum(s, id), s.store[id].value);
  }

  /** In every run, the value of every cumulative counter is conserved. */
  lemma ValueConserved(cycle: nat, steps: seq<Step>, id: nat)
    requires Legal(Init(cycle), steps)
    requires var s := After(Init(cycle), steps); id in s.store && s.store[id].cumulative
    ensures Conserved(After(Init(cycle), steps), id)
  {
    InEveryRun(cycle, steps);
    BalancedConserves(After(Init(cycle), steps), id);
  }

  lemma {:induction false} CycleStays(s: System, steps: seq<Step>)
    requires Legal(s, steps)
    ensures After(s, steps).cycle == s.cycle
    decreases |steps|
  {
    if steps != [] {
      CycleStays(Next(s, steps[0]), steps[1..]);
    }
  }

  /** After `k` ticks of a cycle of `n` exactly `k / n` posts have been made, none at
      all when `n` is zero; without failures no batch and no queue exceeds `n`. */
  lemma PostsOnSchedule(cycle: nat, steps: seq<Step>)
    requires Legal(Init(cycle), steps)
    ensures var s := After(Init(cycle), steps);
            && s.posts == (if cycle == 0 then 0 else s.ticks / cycle)
            && (cycle > 0 ==> 0 <= s.countdown < cycle)
            && (cycle > 0 && s.failures == 0 ==>
                  |s.queue| < cycle &&
                  forall i :: 0 <= i < |s.inflight| ==> |s.inflight[i]| <= cycle)
  {
    InEveryRun(cycle, steps);
    CycleStays(Init(cycle), steps);
    var s := After(Init(cycle), steps);
    if s.cycle > 0 {
      Quotient(s.ticks, s.posts, s.cycle, s.cycle - 1 - s.countdown);
    }
  }

  lemma Quotient(a: nat, q: nat, b: nat, r: nat)
    requires b > 0 && a == q * b + r && r < b
    ensures a / b == q
  {
    var d := a / b - q;
    assert d * b == r - a % b;
    if d != 0 {
      MultipleIsFar(d, b);
      assert false;
    }
  }

  lemma MultipleIsFar(d: int, b: int)
    requires d != 0 && b >= 0
    ensures d * b >= b || d * b <= -b
  {
  }
}
