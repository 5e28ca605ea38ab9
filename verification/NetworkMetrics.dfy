/** How device readings reach the traffic counters (vpn/wireguard_client.go,
    vpn/wireguard_ctrl.go), and what the counters then report. */
module NetworkMetrics {
  import opened GoInts
  import opened Outcomes
  import opened Counters

  datatype PeerTraffic = PeerTraffic(receiveBytes: int64, transmitBytes: int64)

  function TotalReceived(peers: seq<PeerTraffic>): (n: int) {
    if peers == [] then 0
    else TotalReceived(peers[..|peers| - 1]) + peers[|peers| - 1].receiveBytes
  }

  function TotalSent(peers: seq<PeerTraffic>): (n: int) {
    if peers == [] then 0
    else TotalSent(peers[..|peers| - 1]) + peers[|peers| - 1].transmitBytes
  }

  /** The totals of one peer are its own counts, and those of two lists of peers add up. */
  lemma {:induction false} TotalsAdd(a: seq<PeerTraffic>, b: seq<PeerTraffic>, p: PeerTraffic)
    ensures TotalReceived([p]) == p.receiveBytes && TotalSent([p]) == p.transmitBytes
    ensures TotalReceived(a + b) == TotalReceived(a) + TotalReceived(b)
    ensures TotalSent(a + b) == TotalSent(a) + TotalSent(b)
    decreases |b|
  {
    assert [p][..0] == [];
    if b == [] {
      assert a + b == a;
    } else {
      var n := |b| - 1;
      TotalsAdd(a, b[..n], p);
      assert (a + b)[..|a| + n] == a + b[..n];
    }
  }

  /** The per-peer totals, as 64-bit addition leaves them. */
  method SumTraffic(peers: seq<PeerTraffic>) returns (recd: int64, sent: int64)
    ensures recd == Wrap64(TotalReceived(peers))
    ensures sent == Wrap64(TotalSent(peers))
  {
    recd, sent := 0, 0;
    for i := 0 to |peers|
      invariant recd == Wrap64(TotalReceived(peers[..i]))
      invariant sent == Wrap64(TotalSent(peers[..i]))
    {
      WrapAdd(TotalReceived(peers[..i]), peers[i].receiveBytes);
      WrapAdd(TotalSent(peers[..i]), peers[i].transmitBytes);
      assert peers[..i + 1][..i] == peers[..i];
      recd := Wrap64(recd + peers[i].receiveBytes);
      sent := Wrap64(sent + peers[i].transmitBytes);
    }
    assert peers[..|peers|] == peers;
  }

  /** A reading reaches the counter only when it is positive. */
  function Feed(c: CounterState, reading: int64): (r: CounterState) {
    if reading > 0 then AfterUpdate(c, Set(reading)) else c
  }

  /** The part of the client that samples the device every half second. */
  class TrafficRecorder {
    const recd: Counter
    const sent: Counter
    var metricsError: Option<string>

    constructor ()
      ensures fresh(recd) && fresh(sent) && recd != sent
      ensures recd.State() == Fresh(true, true) && sent.State() == Fresh(true, true)
      ensures metricsError == None
    {
      var s := new Counter("sent", true, true);
      var r := new Counter("recd", true, true);
      sent, recd := s, r;
      metricsError := None;
    }

    method Record(device: Result<seq<PeerTraffic>, string>)
      requires recd != sent
      modifies this, recd, sent
      ensures device.Err? ==>
                metricsError == Some(device.error) &&
                recd.State() == old(recd.State()) && sent.State() == old(sent.State())
      ensures device.Ok? ==>
                metricsError == old(metricsError) &&
                recd.State() == Feed(old(recd.State()), Wrap64(TotalReceived(device.value))) &&
                sent.State() == Feed(old(sent.State()), Wrap64(TotalSent(device.value)))
    {
      match device
      case Err(e) => metricsError := Some(e);
      case Ok(peers) =>
        var r, s := SumTraffic(peers);
        if r > 0 {
          recd.SetValue(r);
        }
        if s > 0 {
          sent.SetValue(s);
        }
    }

    method BytesTransmitted() returns (r: int64, s: int64, err: Option<string>)
      ensures r == Get(recd.State()) && s == Get(sent.State()) && err == metricsError
    {
      r := recd.GetValue();
      s := sent.GetValue();
      err := metricsError;
    }
  }

  /** The events one traffic counter sees: readings, and collections between them. */
  datatype TrafficEvent = Reading(bytes: int64) | Collection

  function Feeding(events: seq<TrafficEvent>): (c: CounterState)
    ensures c.cumulative && c.ignoreZeroSnapshots
  {
    if events == [] then Fresh(true, true)
    else
      var c := Feeding(events[..|events| - 1]);
      match events[|events| - 1]
      case Reading(r) => Feed(c, r)
      case Collection => AfterCollect(c)
  }

  /** Every snapshot value handed over along the way. */
  function Snapshots(events: seq<TrafficEvent>): (vs: seq<int64>) {
    if events == [] then []
    else
      var before := events[..|events| - 1];
      if events[|events| - 1].Collection? && Emits(Feeding(before))
      then Snapshots(before) + [Feeding(before).value]
      else Snapshots(before)
  }

  /** The last positive reading, zero before the first one. */
  function InForce(events: seq<TrafficEvent>): (r: int64)
    ensures r >= 0
  {
    if events == [] then 0
    else
      var last := events[|events| - 1];
      if last.Reading? && last.bytes > 0 then last.bytes else InForce(events[..|events| - 1])
  }

  /** The reading in force at each collection, after a leading zero. */
  function Collected(events: seq<TrafficEvent>): (rs: seq<int64>)
    ensures |rs| > 0 && rs[|rs| - 1] >= 0
  {
    if events == [] then [0]
    else
      var before := events[..|events| - 1];
      if events[|events| - 1].Collection?
      then Collected(before) + [InForce(before)]
      else Collected(before)
  }

  /** The non-zero differences between neighbours. */
  function Steps(rs: seq<int>): (ds: seq<int>)
    requires |rs| > 0
  {
    if |rs| == 1 then []
    else
      var n := |rs| - 1;
      var d := rs[n] - rs[n - 1];
      if d == 0 then Steps(rs[..n]) else Steps(rs[..n]) + [d]
  }

  /** The counter holds reading `x`, of which the last of `rs` has been collected:
      `Get` is `x`, the cumulative part is what was collected, the rest is pending. */
  predicate Tracked(c: CounterState, x: int64, rs: seq<int64>) {
    && rs != [] && rs[|rs| - 1] >= 0 && x >= 0
    && c.cumulative && c.ignoreZeroSnapshots && Get(c) == x
    && c.cumulativeValue == rs[|rs| - 1] && c.value == x - rs[|rs| - 1]
  }

  lemma FeedTracked(c: CounterState, x: int64, r: int64, rs: seq<int64>)
    requires Tracked(c, x, rs)
    ensures Tracked(Feed(c, r), if r > 0 then r else x, rs)
  {
    GetAfterSet(c, r);
  }

  lemma CollectTracked(c: CounterState, x: int64, rs: seq<int64>)
    requires Tracked(c, x, rs)
    ensures Tracked(AfterCollect(c), x, rs + [x])
    ensures Steps(rs + [x]) == if Emits(c) then Steps(rs) + [c.value] else Steps(rs)
  {
  }

  /** For every interleaving of readings and collections: `Get` is the reading in
      force, the cumulative part is the reading last collected, and what was
      reported is exactly the sequence of non-zero changes between collected
      readings. None of the 64-bit operations involved wraps, because every
      intermediate value lies strictly within the distance of two readings. */
  lemma {:induction false} TrafficIsReported(events: seq<TrafficEvent>)
    ensures Tracked(Feeding(events), InForce(events), Collected(events))
    ensures Snapshots(events) == Steps(Collected(events))
  {
    if events != [] {
      var n := |events| - 1;
      TrafficIsReported(events[..n]);
      var c, x, rs := Feeding(events[..n]), InForce(events[..n]), Collected(events[..n]);
      match events[n]
      case Reading(r) => FeedTracked(c, x, r, rs);
      case Collection => CollectTracked(c, x, rs);
    }
  }

  predicate NonDecreasing(rs: seq<int>) {
    forall i, j :: 0 <= i < j < |rs| ==> rs[i] <= rs[j]
  }

  lemma OrderSnoc(rs: seq<int>)
    requires |rs| > 1
    ensures var n := |rs| - 1;
            NonDecreasing(rs) <==> NonDecreasing(rs[..n]) && rs[n - 1] <= rs[n]
  {
  }

  lemma {:induction false} PositiveSteps(rs: seq<int>)
    requires |rs| > 0
    ensures (forall d :: d in Steps(rs) ==> d > 0) <==> NonDecreasing(rs)
  {
    if |rs| > 1 {
      var n := |rs| - 1;
      PositiveSteps(rs[..n]);
      OrderSnoc(rs);
      var d := rs[n] - rs[n - 1];
      if d == 0 {
        assert Steps(rs) == Steps(rs[..n]);
      } else {
        assert Steps(rs) == Steps(rs[..n]) + [d];
        assert d in Steps(rs);
        assert forall x :: x in Steps(rs[..n]) ==> x in Steps(rs);
      }
    }
  }

  /** Every reported amount is strictly positive if and only if no collected
      reading fell below the one collected before it. */
  lemma SnapshotsPositive(events: seq<TrafficEvent>)
    ensures (forall v :: v in Snapshots(events) ==> v > 0) <==> NonDecreasing(Collected(events))
  {
    TrafficIsReported(events);
    PositiveSteps(Collected(events));
  }

  predicate ReadingsNonDecreasing(events: seq<TrafficEvent>) {
    forall i, j :: 0 <= i < j < |events| && events[i].Reading? && events[j].Reading? ==>
      events[i].bytes <= events[j].bytes
  }

  /** A device whose totals never fall keeps the collected readings in order. */
  lemma {:induction false} SteadyDevice(events: seq<TrafficEvent>)
    requires ReadingsNonDecreasing(events)
    ensures NonDecreasing(Collected(events) + [InForce(events)])
    ensures InForce(events) > 0 ==> Reading(InForce(events)) in events
    ensures forall v :: v in Snapshots(events) ==> v > 0
  {
    if events != [] {
      var n := |events| - 1;
      SteadyDevice(events[..n]);
      if events[n].Reading? && events[n].bytes > 0 && InForce(events[..n]) > 0 {
        var i :| 0 <= i < n && events[i] == Reading(InForce(events[..n]));
        assert InForce(events[..n]) <= InForce(events);
      }
      Extend(Collected(events[..n]), InForce(events[..n]), InForce(events));
    }
    var rs := Collected(events);
    assert rs == (rs + [InForce(events)])[..|rs|];
    SnapshotsPositive(events);
  }

  lemma Extend(rs: seq<int>, a: int, b: int)
    requires |rs| > 0 && NonDecreasing(rs + [a]) && a <= b
    ensures NonDecreasing(rs + [b]) && NonDecreasing(rs + [a] + [b])
  {
    assert forall i :: 0 <= i < |rs| ==> (rs + [a])[i] <= (rs + [a])[|rs|];
    assert rs == (rs + [a])[..|rs|];
  }
}
