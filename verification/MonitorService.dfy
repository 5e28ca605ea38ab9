/** The monitor and service objects of monitors/monitor.go. Methods run with the
    service lock held; a send that has been started and has not replied yet is an
    entry of `inflight`, so the wait group's count is `|inflight|`. */
module MonitorServices {
  import opened Counters
  import opened Sequences
  import opened Collection

  class Monitor {
    const name: string
    // the slice `counters`: its backing array, and its length
    var slots: array<Counter>
    var len: nat

    ghost predicate Valid()
      reads this
    {
      len <= slots.Length
    }

    ghost function Counters(): (cs: seq<Counter>)
      requires Valid()
      reads this, slots
    {
      slots[..len]
    }

    constructor (name: string)
      ensures Valid() && fresh(slots)
      ensures this.name == name && Counters() == []
    {
      this.name := name;
      slots := new Counter[0];
      len := 0;
    }

    method AddCounter(c: Counter)
      requires Valid()
      modifies this, slots
      ensures Valid() && (slots == old(slots) || fresh(slots))
      ensures Counters() == old(Counters()) + [c]
    {
      var n, src := len, slots;
      if n == src.Length {
        var grown := new Counter[2 * n + 1](_ => c);
        for i := 0 to n
          invariant grown[..i] == src[..i]
          invariant grown[n] == c
          invariant src[..n] == old(Counters())
        {
          grown[i] := src[i];
        }
        slots := grown;
      } else {
        src[n] := c;
      }
      len := n + 1;
    }

    /** The backward scan: the last position of the counter, or -1. */
    method FindCounter(c: Counter) returns (i: int)
      requires Valid()
      ensures -1 <= i < len
      ensures i >= 0 ==> slots[i] == c
      ensures forall k :: i < k < len ==> slots[k] != c
    {
      i := len - 1;
      while i >= 0 && slots[i] != c
        invariant -1 <= i < len
        invariant forall k :: i < k < len ==> slots[k] != c
      {
        i := i - 1;
      }
    }

    /** Scans backwards, shifts the tail over the match, then cuts the last slot,
        whether or not there was a match. Cutting an empty slice panics (`!ok`). */
    method DeleteCounter(c: Counter) returns (ok: bool)
      requires Valid()
      modifies this, slots
      ensures Valid() && slots == old(slots)
      ensures ok == old(len > 0)
      ensures Counters() == if ok then Deleted(old(Counters()), c) else []
    {
      ghost var was := Counters();
      if len == 0 {
        return false;
      }
      var i := FindCounter(c);
      if i >= 0 {
        DeletedAt(was, c, i);
        ShiftDown(slots, i, len);
      }
      len := len - 1;
      return true;
    }
  }

  /** `copy(a[i:], a[i+1:])` on the first `n` slots. */
  method ShiftDown<T>(a: array<T>, i: nat, n: nat)
    requires i < n <= a.Length
    modifies a
    ensures a[..n - 1] == Without(old(a[..n]), i)
  {
    for k := i to n - 1
      invariant a[..i] == old(a[..i])
      invariant forall x :: i <= x < k ==> a[x] == old(a[x + 1])
      invariant forall x :: k <= x < n ==> a[x] == old(a[x])
    {
      a[k] := a[k + 1];
    }
  }

  /** The state of a set of counters, as a value. */
  ghost function StoreOf(cs: set<Counter>): (store: Store<Counter>)
    reads cs
  {
    map c | c in cs :: c.State()
  }

  ghost function InfosOf(ms: seq<Monitor>): (infos: seq<MonitorInfo<Counter>>)
    requires forall m :: m in ms ==> m.Valid()
    reads ms, set m | m in ms :: m.slots
    ensures |infos| == |ms|
    ensures forall i :: 0 <= i < |ms| ==> infos[i] == MonitorInfo(ms[i].name, ms[i].Counters())
  {
    if ms == [] then []
    else
      var m := ms[|ms| - 1];
      InfosOf(ms[..|ms| - 1]) + [MonitorInfo(m.name, m.Counters())]
  }

  lemma InfosCovered(ms: seq<Monitor>, all: set<Counter>)
    requires forall m :: m in ms ==> m.Valid()
    requires forall m, c :: m in ms && c in m.Counters() ==> c in all
    ensures CoversAll(StoreOf(all), InfosOf(ms))
  {
  }

  lemma CollectedNext(store: Store<Counter>, cs: seq<Counter>, i: nat)
    requires i < |cs| && Covers(store, cs)
    ensures Covers(store, cs[..i]) && Covers(store, cs[..i + 1])
    ensures var (st, ss) := CollectCounters(store, cs[..i]);
            CollectCounters(store, cs[..i + 1]) ==
            (st[cs[i] := AfterCollect(st[cs[i]])], ss + SnapshotOf(cs[i], st[cs[i]]))
  {
    assert cs[..i + 1][..i] == cs[..i];
  }

  lemma HasSnapshotsSnoc<K>(p: Payload<K>, m: MonitorSnapshot<K>)
    ensures HasSnapshots(p + [m]) <==> HasSnapshots(p) || m.counters != []
  {
    if HasSnapshots(p) {
      var i :| 0 <= i < |p| && p[i].counters != [];
      assert (p + [m])[i].counters != [];
    }
    assert (p + [m])[|p|] == m;
  }

  class MonitorService {
    const collectCount: int
    var sendCountdown: int
    var monitors: seq<Monitor>
    var eventPayloads: seq<Payload<Counter>>
    var inflight: seq<seq<Payload<Counter>>>

    ghost predicate Valid()
      reads this, monitors
    {
      forall m :: m in monitors ==> m.Valid()
    }

    /** The registered monitors and their counters, as values. */
    ghost function Infos(): (ms: seq<MonitorInfo<Counter>>)
      requires Valid()
      reads this, monitors, set m | m in monitors :: m.slots
    {
      InfosOf(monitors)
    }

    constructor (collectCount: nat)
      ensures Valid() && monitors == []
      ensures this.collectCount == sendCountdown == collectCount - 1
      ensures eventPayloads == [] && inflight == []
    {
      this.collectCount := collectCount - 1;
      sendCountdown := collectCount - 1;
      monitors, eventPayloads, inflight := [], [], [];
    }

    method NewMonitor(name: string) returns (m: Monitor)
      requires Valid()
      modifies this`monitors
      ensures Valid() && fresh(m) && fresh(m.slots)
      ensures monitors == old(monitors) + [m]
      ensures m.name == name && m.Counters() == []
    {
      m := new Monitor(name);
      monitors := monitors + [m];
    }

    /** Collects one counter out of `all`. */
    method CollectOne(c: Counter, ghost all: set<Counter>) returns (ss: seq<Snapshot<Counter>>)
      requires c in all
      modifies c
      ensures StoreOf(all) == old(StoreOf(all))[c := AfterCollect(old(c.State()))]
      ensures ss == SnapshotOf(c, old(c.State()))
    {
      var s := c.Collect();
      ss := if s.Some? then [Snapshot(c, s.value)] else [];
    }

    /** The loop over the counters of one monitor. */
    method CollectMonitor(m: Monitor, ghost all: set<Counter>) returns (ss: seq<Snapshot<Counter>>)
      requires m.Valid()
      requires forall c :: c in m.Counters() ==> c in all
      modifies all
      ensures Covers(old(StoreOf(all)), m.Counters())
      ensures (StoreOf(all), ss) == CollectCounters(old(StoreOf(all)), m.Counters())
    {
      ss := [];
      ghost var store, cs := StoreOf(all), m.Counters();
      assert Covers(store, cs);
      for i := 0 to m.len
        invariant m.Counters() == cs && Covers(store, cs[..i])
        invariant (StoreOf(all), ss) == CollectCounters(store, cs[..i])
      {
        CollectedNext(store, cs, i);
        var s := CollectOne(m.slots[i], all);
        ss := ss + s;
      }
      assert cs[..m.len] == cs;
    }

    /** The loop over all monitors: the payload and whether it holds any snapshot. */
    method BuildPayload(ghost all: set<Counter>, ghost infos: seq<MonitorInfo<Counter>>)
      returns (payload: Payload<Counter>, addPayload: bool)
      requires Valid() && infos == Infos()
      requires forall m, c :: m in monitors && c in m.Counters() ==> c in all
      modifies all
      ensures CoversAll(old(StoreOf(all)), infos)
      ensures (StoreOf(all), payload) == CollectMonitors(old(StoreOf(all)), infos)
      ensures addPayload == HasSnapshots(payload)
    {
      payload, addPayload := [], false;
      ghost var store := StoreOf(all);
      InfosCovered(monitors, all);
      for i := 0 to |monitors|
        invariant (StoreOf(all), payload) == CollectUpto(store, infos, i)
        invariant addPayload == HasSnapshots(payload)
      {
        var m := monitors[i];
        assert infos[i] == MonitorInfo(m.name, m.Counters());
        if m.len > 0 {
          var ss := CollectMonitor(m, all);
          HasSnapshotsSnoc(payload, MonitorSnapshot(m.name, ss));
          payload := payload + [MonitorSnapshot(m.name, ss)];
          addPayload := addPayload || ss != [];
        }
      }
    }

    /** Queues the payload of one pass, unless it holds no snapshot. */
    method CollectEvents(ghost all: set<Counter>)
      requires Valid()
      requires forall m, c :: m in monitors && c in m.Counters() ==> c in all
      modifies this`eventPayloads, all
      ensures CoversAll(old(StoreOf(all)), old(Infos()))
      ensures var (st, p) := CollectMonitors(old(StoreOf(all)), old(Infos()));
              StoreOf(all) == st && eventPayloads == Queued(old(eventPayloads), p)
    {
      var payload, addPayload := BuildPayload(all, Infos());
      if addPayload {
        eventPayloads := eventPayloads + [payload];
      }
    }

    /** Hands the whole queue to a new send. */
    method PostEvents()
      modifies this`eventPayloads, this`inflight
      ensures eventPayloads == []
      ensures inflight == old(inflight) + [old(eventPayloads)]
    {
      inflight := inflight + [eventPayloads];
      eventPayloads := [];
    }

    /** One timer tick: collect, and post once the countdown has run out. */
    method Collect(ghost all: set<Counter>)
      requires Valid()
      requires forall m, c :: m in monitors && c in m.Counters() ==> c in all
      modifies this`eventPayloads, this`inflight, this`sendCountdown, all
      ensures CoversAll(old(StoreOf(all)), old(Infos()))
      ensures var (st, p) := CollectMonitors(old(StoreOf(all)), old(Infos()));
              var queue := Queued(old(eventPayloads), p);
              && StoreOf(all) == st
              && (if old(sendCountdown) == 0
                  then eventPayloads == [] && inflight == old(inflight) + [queue] &&
                       sendCountdown == collectCount
                  else eventPayloads == queue && inflight == old(inflight) &&
                       sendCountdown == old(sendCountdown) - 1)
    {
      CollectEvents(all);
      if sendCountdown == 0 {
        PostEvents();
        sendCountdown := collectCount;
      } else {
        sendCountdown := sendCountdown - 1;
      }
    }

    /** The end of send `k`: what failed and can be read back goes to the front of
        the queue, in the order in which the sender listed it. */
    method FinishSend(k: nat, reply: Reply)
      requires k < |inflight|
      requires reply.Rejected? ==> InRange(inflight[k], reply.errors)
      modifies this`eventPayloads, this`inflight
      ensures inflight == Without(old(inflight), k)
      ensures eventPayloads == Returned(old(inflight[k]), reply) + old(eventPayloads)
    {
      var batch := inflight[k];
      inflight := inflight[..k] + inflight[k + 1..];
      match reply
      case Accepted =>
      case Failed => eventPayloads := batch + eventPayloads;
      case Rejected(errors) =>
        var repostList := [];
        for i := 0 to |errors|
          invariant repostList == Reposted(batch, errors[..i])
        {
          assert errors[..i + 1][..i] == errors[..i];
          if errors[i].readable {
            repostList := repostList + [batch[errors[i].index]];
          }
        }
        assert errors[..|errors|] == errors;
        eventPayloads := repostList + eventPayloads;
    }
  }
}
