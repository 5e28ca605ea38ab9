/** One collection pass over the registered counters, and the handling of a sender's
    reply, as functions (monitors/monitor.go). Counters are named by an identity `K`:
    object references for the service, numbers for the transition system. */
module Collection {
  import opened GoInts
  import opened Counters
  import opened Sequences

  datatype Snapshot<K> = Snapshot(counter: K, value: int64)

  datatype MonitorSnapshot<K> = MonitorSnapshot(name: string, counters: seq<Snapshot<K>>)

  type Payload<K> = seq<MonitorSnapshot<K>>

  /** A monitor as the collector sees it: its name and its counters in order. */
  datatype MonitorInfo<K> = MonitorInfo(name: string, counters: seq<K>)

  type Store<K> = map<K, CounterState>

  ghost predicate Covers<K>(store: Store<K>, ids: seq<K>) {
    forall k :: k in ids ==> k in store
  }

  ghost predicate CoversAll<K>(store: Store<K>, monitors: seq<MonitorInfo<K>>) {
    forall i :: 0 <= i < |monitors| ==> Covers(store, monitors[i].counters)
  }

  function SnapshotOf<K>(id: K, c: CounterState): (ss: seq<Snapshot<K>>) {
    if Emits(c) then [Snapshot(id, c.value)] else []
  }

  /** Collects the counters of one monitor from first to last. */
  ghost function CollectCounters<K>(store: Store<K>, ids: seq<K>)
    : (r: (Store<K>, seq<Snapshot<K>>))
    requires Covers(store, ids)
    ensures r.0.Keys == store.Keys
  {
    if ids == [] then (store, [])
    else
      var n := |ids| - 1;
      var (st, ss) := CollectCounters(store, ids[..n]);
      (st[ids[n] := AfterCollect(st[ids[n]])], ss + SnapshotOf(ids[n], st[ids[n]]))
  }

  /** Collects the first `n` monitors, passing over those that have no counters. */
  ghost function CollectUpto<K>(store: Store<K>, monitors: seq<MonitorInfo<K>>, n: nat)
    : (r: (Store<K>, Payload<K>))
    requires CoversAll(store, monitors) && n <= |monitors|
    ensures r.0.Keys == store.Keys
  {
    if n == 0 then (store, [])
    else
      var (st, p) := CollectUpto(store, monitors, n - 1);
      var m := monitors[n - 1];
      if m.counters == [] then (st, p)
      else
        var (st', ss) := CollectCounters(st, m.counters);
        (st', p + [MonitorSnapshot(m.name, ss)])
  }

  /** One whole pass. */
  ghost function CollectMonitors<K>(store: Store<K>, monitors: seq<MonitorInfo<K>>)
    : (r: (Store<K>, Payload<K>))
    requires CoversAll(store, monitors)
  {
    CollectUpto(store, monitors, |monitors|)
  }

  /** One counter yields its own snapshot. */
  lemma CollectOne<K>(store: Store<K>, id: K)
    requires id in store
    ensures CollectCounters(store, [id]) ==
            (store[id := AfterCollect(store[id])],
             if Emits(store[id]) then [Snapshot(id, store[id].value)] else [])
  {
    assert [id][..0] == [];
    assert CollectCounters(store, [id][..0]) == (store, []);
    assert [] + SnapshotOf(id, store[id]) == SnapshotOf(id, store[id]);
  }

  lemma CollectSnoc<K>(store: Store<K>, ids: seq<K>, id: K)
    requires Covers(store, ids) && id in store
    ensures Covers(store, ids + [id])
    ensures var (st, ss) := CollectCounters(store, ids);
            CollectCounters(store, ids + [id]) ==
            (st[id := AfterCollect(st[id])], ss + SnapshotOf(id, st[id]))
  {
    assert (ids + [id])[..|ids|] == ids;
  }

  /** Collecting `a + b` is collecting `a` and then `b`. */
  ghost predicate InTurn<K>(store: Store<K>, a: seq<K>, b: seq<K>)
    requires Covers(store, a) && Covers(store, b) && Covers(store, a + b)
  {
    var (st, x) := CollectCounters(store, a);
    var (st', y) := CollectCounters(st, b);
    CollectCounters(store, a + b) == (st', x + y)
  }

  lemma CoversSnoc<K>(store: Store<K>, ids: seq<K>, id: K)
    requires Covers(store, ids) && id in store
    ensures Covers(store, ids + [id])
  {
  }

  lemma InTurnSnoc<K>(store: Store<K>, a: seq<K>, b: seq<K>, id: K)
    requires Covers(store, a) && Covers(store, b) && Covers(store, a + b) && id in store && InTurn(store, a, b)
    ensures Covers(store, b + [id]) && Covers(store, a + (b + [id])) && InTurn(store, a, b + [id])
  {
    Assoc(a, b, [id]);
    CoversSnoc(store, b, id);
    CoversSnoc(store, a + b, id);
    CollectSnoc(store, a + b, id);
    var (st, x) := CollectCounters(store, a);
    CoversSnoc(st, b, id);
    CollectSnoc(st, b, id);
    var (st', y) := CollectCounters(st, b);
    Assoc(x, y, SnapshotOf(id, st'[id]));
  }

  /** The counters of two lists are collected one list after the other. */
  lemma {:induction false} CollectConcat<K>(store: Store<K>, a: seq<K>, b: seq<K>)
    requires Covers(store, a) && Covers(store, b)
    ensures Covers(store, a + b) && InTurn(store, a, b)
    decreases |b|
  {
    if b == [] {
      assert a + b == a;
      var (_, x) := CollectCounters(store, a);
      assert x + [] == x;
    } else {
      var n := |b| - 1;
      CollectConcat(store, a, b[..n]);
      InTurnSnoc(store, a, b[..n], b[n]);
      assert b == b[..n] + [b[n]];
    }
  }

  function NonEmpty<K>(monitors: seq<MonitorInfo<K>>): (r: seq<MonitorInfo<K>>) {
    if monitors == [] then []
    else
      var n := |monitors| - 1;
      NonEmpty(monitors[..n]) + if monitors[n].counters == [] then [] else [monitors[n]]
  }

  /** All snapshots are of counters in `ids`. */
  ghost predicate Own<K>(ss: seq<Snapshot<K>>, ids: seq<K>) {
    forall j :: 0 <= j < |ss| ==> ss[j].counter in ids
  }

  ghost predicate Follows<K>(p: Payload<K>, ms: seq<MonitorInfo<K>>) {
    |p| == |ms| && forall i :: 0 <= i < |p| ==> p[i].name == ms[i].name && Own(p[i].counters, ms[i].counters)
  }

  lemma {:induction false} SnapshotsAreOwn<K>(store: Store<K>, ids: seq<K>)
    requires Covers(store, ids)
    ensures Own(CollectCounters(store, ids).1, ids)
  {
    if ids != [] {
      var n := |ids| - 1;
      SnapshotsAreOwn(store, ids[..n]);
      var (st, ss) := CollectCounters(store, ids[..n]);
      forall j | 0 <= j < |ss| ensures ss[j].counter in ids {
        assert ss[j].counter in ids[..n];
      }
    }
  }

  /** A payload has one entry per monitor with counters, in order and under its name; none
      of its snapshots is of a counter of another monitor. */
  lemma {:induction false} PayloadFollowsMonitors<K>(store: Store<K>, monitors: seq<MonitorInfo<K>>, n: nat)
    requires CoversAll(store, monitors) && n <= |monitors|
    ensures Follows(CollectUpto(store, monitors, n).1, NonEmpty(monitors[..n]))
  {
    if n > 0 {
      PayloadFollowsMonitors(store, monitors, n - 1);
      assert monitors[..n][..n - 1] == monitors[..n - 1];
      var m := monitors[n - 1];
      var (st, p) := CollectUpto(store, monitors, n - 1);
      if m.counters == [] {
        assert NonEmpty(monitors[..n]) == NonEmpty(monitors[..n - 1]);
      } else {
        SnapshotsAreOwn(st, m.counters);
        var e := MonitorSnapshot(m.name, CollectCounters(st, m.counters).1);
        FollowsSnoc(p, NonEmpty(monitors[..n - 1]), e, m);
      }
    }
  }

  lemma FollowsSnoc<K>(p: Payload<K>, ms: seq<MonitorInfo<K>>, e: MonitorSnapshot<K>, m: MonitorInfo<K>)
    requires Follows(p, ms) && e.name == m.name && Own(e.counters, m.counters)
    ensures Follows(p + [e], ms + [m])
  {
  }

  /** A payload is queued only when it holds some snapshot. */
  ghost predicate HasSnapshots<K>(p: Payload<K>) {
    exists i :: 0 <= i < |p| && p[i].counters != []
  }

  ghost function Queued<K>(queue: seq<Payload<K>>, p: Payload<K>): (r: seq<Payload<K>>) {
    if HasSnapshots(p) then queue + [p] else queue
  }

  /** One event the sender reports as failed: its position in the batch, and
      whether its data can be read back from JSON. */
  datatype EventError = EventError(index: nat, readable: bool)

  /** What the sender returns for one batch. */
  datatype Reply = Accepted | Failed | Rejected(errors: seq<EventError>)

  predicate InRange<T>(batch: seq<T>, errors: seq<EventError>) {
    forall i :: 0 <= i < |errors| ==> errors[i].index < |batch|
  }

  function Reposted<T>(batch: seq<T>, errors: seq<EventError>): (r: seq<T>)
    requires InRange(batch, errors)
  {
    if errors == [] then []
    else
      var n := |errors| - 1;
      Reposted(batch, errors[..n]) + if errors[n].readable then [batch[errors[n].index]] else []
  }

  function Dropped<T>(batch: seq<T>, errors: seq<EventError>): (r: seq<T>)
    requires InRange(batch, errors)
  {
    if errors == [] then []
    else
      var n := |errors| - 1;
      Dropped(batch, errors[..n]) + if errors[n].readable then [] else [batch[errors[n].index]]
  }

  ghost predicate Reported(errors: seq<EventError>, i: nat) {
    exists k :: 0 <= k < |errors| && errors[k].index == i
  }

  /** The members of the batch the sender did not report. */
  ghost function Delivered<T>(batch: seq<T>, errors: seq<EventError>): (r: seq<T>) {
    if batch == [] then []
    else
      var n := |batch| - 1;
      Delivered(batch[..n], errors) + if Reported(errors, n) then [] else [batch[n]]
  }

  /** What goes back to the front of the queue once the sender has replied. */
  function Returned<T>(batch: seq<T>, reply: Reply): (r: seq<T>)
    requires reply.Rejected? ==> InRange(batch, reply.errors)
  {
    match reply
    case Accepted => []
    case Failed => batch
    case Rejected(errors) => Reposted(batch, errors)
  }

  /** The sender's contract: no event is reported twice. */
  ghost predicate Distinct(errors: seq<EventError>) {
    forall i, j :: 0 <= i < j < |errors| ==> errors[i].index != errors[j].index
  }

  /** Failures listed in the order of the batch. */
  ghost predicate ErrorsInOrder(errors: seq<EventError>) {
    forall i, j :: 0 <= i < j < |errors| ==> errors[i].index < errors[j].index
  }

  /** At least those that can be put back are listed in the order of the batch. */
  ghost predicate ReadableInOrder(errors: seq<EventError>) {
    forall i, j :: 0 <= i < j < |errors| && errors[i].readable && errors[j].readable ==>
      errors[i].index < errors[j].index
  }

  ghost function FailedEvents<T>(batch: seq<T>, errors: seq<EventError>): (r: seq<T>)
    requires InRange(batch, errors)
    ensures |r| == |errors| && forall i :: 0 <= i < |r| ==> r[i] == batch[errors[i].index]
  {
    seq(|errors|, i requires 0 <= i < |errors| => batch[errors[i].index])
  }

  lemma {:induction false} FailedSnoc<T>(batch: seq<T>, errors: seq<EventError>, e: EventError)
    requires InRange(batch, errors + [e])
    ensures InRange(batch, errors) && e.index < |batch|
    ensures multiset(FailedEvents(batch, errors + [e])) ==
            multiset(FailedEvents(batch, errors)) + multiset{batch[e.index]}
  {
    assert forall i :: 0 <= i < |errors| ==> (errors + [e])[i] == errors[i];
    assert (errors + [e])[|errors|] == e;
    assert FailedEvents(batch, errors + [e]) == FailedEvents(batch, errors) + [batch[e.index]];
    BagSnoc(FailedEvents(batch, errors), batch[e.index]);
  }

  lemma {:induction false} FailedBag<T>(batch: seq<T>, errors: seq<EventError>)
    requires InRange(batch, errors)
    ensures multiset(Reposted(batch, errors)) + multiset(Dropped(batch, errors))
            == multiset(FailedEvents(batch, errors))
  {
    if errors != [] {
      var n := |errors| - 1;
      var e := errors[n];
      FailedBag(batch, errors[..n]);
      assert errors == errors[..n] + [e];
      FailedSnoc(batch, errors[..n], e);
      if e.readable {
        BagSnoc(Reposted(batch, errors[..n]), batch[e.index]);
      } else {
        BagSnoc(Dropped(batch, errors[..n]), batch[e.index]);
      }
    }
  }

  /** Reporting one more event takes it out of the delivered ones. */
  lemma {:induction false} DeliveredShrinks<T>(batch: seq<T>, errors: seq<EventError>, e: EventError)
    requires !Reported(errors, e.index)
    ensures multiset(Delivered(batch, errors)) ==
            multiset(Delivered(batch, errors + [e])) +
            if e.index < |batch| then multiset{batch[e.index]} else multiset{}
  {
    if batch != [] {
      var n := |batch| - 1;
      DeliveredShrinks(batch[..n], errors, e);
      ReportedSnoc(errors, e, n);
      BagSnoc(Delivered(batch[..n], errors), batch[n]);
      BagSnoc(Delivered(batch[..n], errors + [e]), batch[n]);
    }
  }

  lemma ReportedSnoc(errors: seq<EventError>, e: EventError, i: nat)
    ensures Reported(errors + [e], i) <==> Reported(errors, i) || e.index == i
  {
    if Reported(errors, i) {
      var k :| 0 <= k < |errors| && errors[k].index == i;
      assert (errors + [e])[k].index == i;
    }
    assert (errors + [e])[|errors|] == e;
  }

  lemma DistinctInit<T>(batch: seq<T>, errors: seq<EventError>)
    requires errors != [] && InRange(batch, errors) && Distinct(errors)
    ensures var n := |errors| - 1;
            && InRange(batch, errors[..n]) && Distinct(errors[..n])
            && !Reported(errors[..n], errors[n].index)
  {
  }

  lemma SplitSnoc<T>(batch: seq<T>, init: seq<EventError>, e: EventError)
    requires e.index < |batch| && InRange(batch, init) && !Reported(init, e.index)
    requires multiset(Delivered(batch, init)) + multiset(FailedEvents(batch, init)) == multiset(batch)
    ensures InRange(batch, init + [e])
    ensures multiset(Delivered(batch, init + [e])) + multiset(FailedEvents(batch, init + [e])) == multiset(batch)
  {
    DeliveredShrinks(batch, init, e);
    FailedSnoc(batch, init, e);
    BagMove(multiset(Delivered(batch, init)), multiset(Delivered(batch, init + [e])),
            multiset(FailedEvents(batch, init)), multiset(FailedEvents(batch, init + [e])), batch[e.index]);
  }

  /** Under the contract, a reply splits the batch: every member is delivered,
      reposted or dropped, once. */
  lemma {:induction false} ReplySplits<T>(batch: seq<T>, errors: seq<EventError>)
    requires InRange(batch, errors) && Distinct(errors)
    ensures multiset(Delivered(batch, errors)) + multiset(FailedEvents(batch, errors)) == multiset(batch)
  {
    if errors == [] {
      AllDelivered(batch);
    } else {
      var n := |errors| - 1;
      DistinctInit(batch, errors);
      ReplySplits(batch, errors[..n]);
      SplitSnoc(batch, errors[..n], errors[n]);
      assert errors == errors[..n] + [errors[n]];
    }
  }

  lemma {:induction false} AllDelivered<T>(batch: seq<T>)
    ensures Delivered(batch, []) == batch
  {
    if batch != [] {
      AllDelivered(batch[..|batch| - 1]);
    }
  }

  /** The contract is exactly what conservation needs: for a batch without repeats,
      nothing is duplicated or forgotten if and only if no event is reported twice. */
  lemma ContractIsExact<T>(batch: seq<T>, errors: seq<EventError>)
    requires InRange(batch, errors) && NoDuplicates(batch)
    ensures multiset(Delivered(batch, errors)) + multiset(Reposted(batch, errors)) +
            multiset(Dropped(batch, errors)) == multiset(batch)
            <==> Distinct(errors)
  {
    FailedBag(batch, errors);
    var failed := FailedEvents(batch, errors);
    if Distinct(errors) {
      ReplySplits(batch, errors);
    } else {
      var i, j :| 0 <= i < j < |errors| && errors[i].index == errors[j].index;
      TwiceInBag(failed, i, j);
      OnceInBag(batch, failed[i]);
    }
  }

  /** The list without the last occurrence of `x`; without its last element when
      `x` does not occur. */
  function Deleted<T(==)>(xs: seq<T>, x: T): (r: seq<T>)
    requires xs != []
  {
    var n := |xs| - 1;
    if x in xs && xs[n] != x
    then Deleted(xs[..n], x) + [xs[n]]
    else xs[..n]
  }

  /** Where the last occurrence sits, and that everything else stays in place. */
  lemma {:induction false} DeletedAt<T>(xs: seq<T>, x: T, k: nat)
    requires k < |xs| && xs[k] == x && x !in xs[k + 1..]
    ensures Deleted(xs, x) == Without(xs, k)
  {
    var n := |xs| - 1;
    if k < n {
      assert xs[n] == xs[k + 1..][n - k - 1];
      assert x in xs;
      assert xs[..n][k + 1..] == xs[k + 1..][..n - k - 1];
      DeletedAt(xs[..n], x, k);
    }
  }

  lemma DeletedKeepsOthers<T>(xs: seq<T>, x: T)
    requires xs != []
    ensures multiset(Deleted(xs, x)) ==
            multiset(xs) - multiset{if x in xs then x else xs[|xs| - 1]}
    decreases |xs|
  {
    var n := |xs| - 1;
    assert xs == xs[..n] + [xs[n]];
    if x in xs && xs[n] != x {
      DeletedKeepsOthers(xs[..n], x);
    }
  }

  /** Deleting removes only the requested counter if and only if it is registered. */
  lemma DeletesOnlyTarget<T>(xs: seq<T>, x: T)
    requires xs != []
    ensures multiset(Deleted(xs, x)) == multiset(xs) - multiset{x} <==> x in xs
  {
    DeletedKeepsOthers(xs, x);
    if x !in xs {
      assert |multiset(Deleted(xs, x))| == |xs| - 1;
      assert multiset(xs) - multiset{x} == multiset(xs);
    }
  }
}
