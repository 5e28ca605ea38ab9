/** Publishing cloud events and reporting the failed ones (events/events.go). An
    index past the end of the event list, which panics, is `None`. */
module Events {
  import opened Outcomes
  import opened Collection

  datatype EventValue = EventValue(id: string, source: string, data: string)

  datatype PublishDataInput = PublishDataInput(kind: string, compressed: bool, payload: string)

  datatype PublishEventResult = PublishEventResult(success: bool, error: string)

  datatype CloudEventError<E> = CloudEventError(event: E, error: string)

  /** JSON encoding, compression and base64 together; `None` when a step fails. */
  type Encoder = EventValue -> Option<string>

  class CloudEvent {
    const id: string
    const data: string
    var source: string

    constructor (id: string, source: string, data: string)
      ensures Value() == EventValue(id, source, data)
    {
      this.id, this.source, this.data := id, source, data;
    }

    function Value(): (v: EventValue)
      reads this
    {
      EventValue(id, source, data)
    }
  }

  function NewPublishDataInput(v: EventValue, encode: Encoder): (r: Option<PublishDataInput>) {
    match encode(v)
    case None => None
    case Some(payload) => Some(PublishDataInput("event", true, payload))
  }

  /** The inputs of all values that encode, in order. */
  function Published(vs: seq<EventValue>, encode: Encoder): (r: seq<PublishDataInput>) {
    if vs == [] then []
    else
      var input := NewPublishDataInput(vs[|vs| - 1], encode);
      Published(vs[..|vs| - 1], encode) + if input.Some? then [input.value] else []
  }

  ghost function Stamped(events: seq<CloudEvent>, source: string): (vs: seq<EventValue>)
    ensures |vs| == |events|
    ensures forall i :: 0 <= i < |events| ==> vs[i] == EventValue(events[i].id, source, events[i].data)
  {
    if events == [] then []
    else
      var e := events[|events| - 1];
      Stamped(events[..|events| - 1], source) + [EventValue(e.id, source, e.data)]
  }

  /** Every event is stamped with the source, also those that fail to encode. */
  method CreatePublishEventList(source: string, events: seq<CloudEvent>, encode: Encoder)
    returns (inputs: seq<PublishDataInput>)
    modifies events
    ensures forall e :: e in events ==> e.source == source
    ensures inputs == Published(Stamped(events, source), encode)
  {
    inputs := [];
    ghost var vs := Stamped(events, source);
    for i := 0 to |events|
      invariant forall k :: 0 <= k < i ==> events[k].source == source
      invariant inputs == Published(vs[..i], encode)
    {
      events[i].source := source;
      assert vs[..i + 1][..i] == vs[..i];
      var input := NewPublishDataInput(events[i].Value(), encode);
      if input.Some? {
        inputs := inputs + [input.value];
      }
    }
    assert vs[..|events|] == vs;
  }

  /** Positions of the results that report a failure. */
  function Failures(results: seq<PublishEventResult>): (r: seq<nat>)
    ensures forall i :: 0 <= i < |r| ==> r[i] < |results| && !results[r[i]].success
  {
    if results == [] then []
    else
      var n := |results| - 1;
      Failures(results[..n]) + if results[n].success then [] else [n]
  }

  /** One error per failed result, with the event at the same position. */
  method CreateCloudEventErrorList<E>(results: seq<PublishEventResult>, events: seq<E>)
    returns (r: Option<seq<CloudEventError<E>>>)
    ensures r.None? <==> exists i :: |events| <= i < |results| && !results[i].success
    ensures r.Some? ==>
              && |r.value| == |Failures(results)|
              && forall k :: 0 <= k < |r.value| ==>
                   && Failures(results)[k] < |events|
                   && r.value[k] == CloudEventError(events[Failures(results)[k]],
                                                    results[Failures(results)[k]].error)
  {
    var errors := [];
    assert results[..0] == [];
    for i := 0 to |results|
      invariant forall k :: |events| <= k < i ==> results[k].success
      invariant |errors| == |Failures(results[..i])|
      invariant forall k :: 0 <= k < |errors| ==>
                  && Failures(results[..i])[k] < |events|
                  && errors[k] == CloudEventError(events[Failures(results[..i])[k]],
                                                  results[Failures(results[..i])[k]].error)
    {
      assert results[..i + 1][..i] == results[..i];
      if !results[i].success {
        if i >= |events| {
          return None;
        }
        errors := errors + [CloudEventError(events[i], results[i].error)];
      }
    }
    assert results[..|results|] == results;
    return Some(errors);
  }

  /** The same events without the messages; reads every position, so any surplus
      result panics. */
  method FilterCloudEventsWithErrors<E>(results: seq<PublishEventResult>, events: seq<E>)
    returns (r: Option<seq<E>>)
    ensures r.None? <==> |results| > |events|
    ensures r.Some? ==>
              && |r.value| == |Failures(results)|
              && forall k :: 0 <= k < |r.value| ==> r.value[k] == events[Failures(results)[k]]
  {
    var failed := [];
    assert results[..0] == [];
    for i := 0 to |results|
      invariant i <= |events|
      invariant |failed| == |Failures(results[..i])|
      invariant forall k :: 0 <= k < |failed| ==> failed[k] == events[Failures(results[..i])[k]]
    {
      assert results[..i + 1][..i] == results[..i];
      if i >= |events| {
        return None;
      }
      if !results[i].success {
        failed := failed + [events[i]];
      }
    }
    assert results[..|results|] == results;
    return Some(failed);
  }

  // ----- do results and events line up? ---------------------------------------

  lemma {:induction false} FailuresAscend(results: seq<PublishEventResult>)
    ensures forall i, j :: 0 <= i < j < |Failures(results)| ==> Failures(results)[i] < Failures(results)[j]
    ensures forall j :: 0 <= j < |results| && !results[j].success ==> j in Failures(results)
  {
    if results != [] {
      var n := |results| - 1;
      FailuresAscend(results[..n]);
      forall j | 0 <= j < |results| && !results[j].success ensures j in Failures(results) {
        if j < n {
          assert results[..n][j] == results[j];
          assert j in Failures(results[..n]);
        }
      }
    }
  }

  /** The positions of the events that encode. */
  function Kept(encodes: seq<bool>): (r: seq<nat>)
    ensures forall i :: 0 <= i < |r| ==> r[i] < |encodes| && encodes[r[i]]
  {
    if encodes == [] then []
    else
      var n := |encodes| - 1;
      Kept(encodes[..n]) + if encodes[n] then [n] else []
  }

  lemma {:induction false} KeptAscend(encodes: seq<bool>)
    ensures |Kept(encodes)| <= |encodes|
    ensures forall i, j :: 0 <= i < j < |Kept(encodes)| ==> Kept(encodes)[i] < Kept(encodes)[j]
    ensures forall i :: 0 <= i < |Kept(encodes)| ==> i <= Kept(encodes)[i]
  {
    if encodes != [] {
      KeptAscend(encodes[..|encodes| - 1]);
    }
  }

  /** No event that encodes is left out. */
  lemma {:induction false} KeptIsComplete(encodes: seq<bool>, i: nat)
    requires i < |encodes|
    ensures i in Kept(encodes) <==> encodes[i]
  {
    var n := |encodes| - 1;
    if i < n {
      KeptIsComplete(encodes[..n], i);
    }
  }

  function Encodes(vs: seq<EventValue>, encode: Encoder): (r: seq<bool>)
    ensures |r| == |vs| && forall i :: 0 <= i < |vs| ==> r[i] == encode(vs[i]).Some?
  {
    seq(|vs|, i requires 0 <= i < |vs| => encode(vs[i]).Some?)
  }

  /** The published inputs are those of the events that encode, in order: each is an event,
      marked as compressed, whose payload is the encoded form of the whole event. */
  lemma {:induction false} PublishedAreKept(vs: seq<EventValue>, encode: Encoder)
    ensures |Published(vs, encode)| == |Kept(Encodes(vs, encode))|
    ensures forall j :: 0 <= j < |Published(vs, encode)| ==>
              && encode(vs[Kept(Encodes(vs, encode))[j]]).Some?
              && Published(vs, encode)[j] ==
                 PublishDataInput("event", true, encode(vs[Kept(Encodes(vs, encode))[j]]).value)
  {
    if vs != [] {
      var n := |vs| - 1;
      PublishedAreKept(vs[..n], encode);
      assert Encodes(vs, encode)[..n] == Encodes(vs[..n], encode);
    }
  }

  predicate AllEncode(encodes: seq<bool>, n: nat)
    requires n <= |encodes|
  {
    forall i :: 0 <= i < n ==> encodes[i]
  }

  /** The k-th published event is the k-th event exactly when none before it, nor it
      itself, was skipped. */
  lemma {:induction false} KeptInPlace(encodes: seq<bool>, k: nat)
    requires k < |Kept(encodes)|
    ensures k < |encodes| && (Kept(encodes)[k] == k <==> AllEncode(encodes, k + 1))
  {
    KeptAscend(encodes);
    var n := |encodes| - 1;
    if k < |Kept(encodes[..n])| {
      KeptInPlace(encodes[..n], k);
    } else {
      KeptAscend(encodes[..n]);
      if AllEncode(encodes, k + 1) {
        if k < n {
          KeptCount(encodes[..n], k + 1);
          assert false;
        }
      } else if k == n {
        KeptCountAll(encodes[..n]);
      }
    }
  }

  lemma {:induction false} KeptCount(encodes: seq<bool>, k: nat)
    requires k <= |encodes| && AllEncode(encodes, k)
    ensures |Kept(encodes)| >= k
  {
    if encodes != [] {
      var n := |encodes| - 1;
      assert AllEncode(encodes[..n], if k <= n then k else n);
      KeptCount(encodes[..n], if k <= n then k else n);
    }
  }

  /** Nothing is skipped exactly when as many events are published as given. */
  lemma {:induction false} KeptCountAll(encodes: seq<bool>)
    ensures |Kept(encodes)| == |encodes| <==> AllEncode(encodes, |encodes|)
  {
    KeptAscend(encodes);
    if encodes != [] {
      var n := |encodes| - 1;
      KeptAscend(encodes[..n]);
      KeptCountAll(encodes[..n]);
      if AllEncode(encodes, |encodes|) {
        assert AllEncode(encodes[..n], n);
      }
      if AllEncode(encodes[..n], n) && encodes[n] {
        forall i | 0 <= i < |encodes| ensures encodes[i] {
          if i < n {
            assert encodes[..n][i];
          }
        }
      }
    }
  }

  /** The events that really failed: those whose published form got a bad result. */
  function ReallyFailed(results: seq<PublishEventResult>, encodes: seq<bool>): (r: seq<nat>)
    requires |results| == |Kept(encodes)|
    ensures |r| == |Failures(results)|
    ensures forall i :: 0 <= i < |r| ==> r[i] == Kept(encodes)[Failures(results)[i]]
  {
    seq(|Failures(results)|, i requires 0 <= i < |Failures(results)| => Kept(encodes)[Failures(results)[i]])
  }

  /** With one result per published event, the reported list names exactly the events
      that failed, in order, if and only if no event was skipped at or before the
      position of a failed result. */
  lemma ReportLinesUp(results: seq<PublishEventResult>, encodes: seq<bool>)
    requires |results| == |Kept(encodes)| <= |encodes|
    ensures Failures(results) == ReallyFailed(results, encodes) <==>
            forall j :: 0 <= j < |results| && !results[j].success ==> AllEncode(encodes, j + 1)
  {
    var fs, rs := Failures(results), ReallyFailed(results, encodes);
    FailuresAscend(results);
    forall j | 0 <= j < |results| && !results[j].success
      ensures Kept(encodes)[j] == j <==> AllEncode(encodes, j + 1)
    {
      KeptInPlace(encodes, j);
    }
    if fs == rs {
      forall j | 0 <= j < |results| && !results[j].success ensures AllEncode(encodes, j + 1) {
        var i :| 0 <= i < |fs| && fs[i] == j;
        assert rs[i] == fs[i];
      }
    }
  }

  /** Two events, the first of which does not encode; the second is sent and rejected. The
      report names the first. */
  lemma SkippedEventShiftsReport(error: string)
    ensures var encodes, results := [false, true], [PublishEventResult(false, error)];
            && |results| == |Kept(encodes)|
            && ReallyFailed(results, encodes) == [1] && Failures(results) == [0]
  {
    var encodes, results := [false, true], [PublishEventResult(false, error)];
    assert encodes[..1] == [false] && [false][..0] == [];
    assert results[..0] == [];
    assert Kept(encodes) == [1] && Failures(results) == [0];
  }

  /** When nothing is skipped, the reported positions obey the sender contract for a
      batch of as many payloads: in range, in order, none twice. */
  lemma ReportMeetsContract<T>(results: seq<PublishEventResult>, batch: seq<T>, errors: seq<EventError>)
    requires |results| <= |batch| && |errors| == |Failures(results)|
    requires forall i :: 0 <= i < |errors| ==> errors[i].index == Failures(results)[i]
    ensures InRange(batch, errors) && Distinct(errors) && ErrorsInOrder(errors) && ReadableInOrder(errors)
  {
    FailuresAscend(results);
  }

  ghost function SentPositions(results: seq<PublishEventResult>, encodes: seq<bool>): (r: set<nat>)
    requires |results| == |Kept(encodes)|
  {
    set j | 0 <= j < |results| && results[j].success :: Kept(encodes)[j]
  }

  ghost function Positions(n: nat): (r: set<nat>)
    ensures forall i: nat :: i in r <==> i < n
    ensures |r| == n
  {
    if n == 0 then {} else Positions(n - 1) + {n - 1}
  }

  /** One event per result: the one sent, or the one reported. */
  ghost function Accounted(results: seq<PublishEventResult>, kept: seq<nat>): (r: set<nat>)
    requires |results| == |kept|
    ensures |r| <= |results|
    ensures forall j :: 0 <= j < |results| ==> (if results[j].success then kept[j] else j) in r
  {
    if results == [] then {}
    else
      var n := |results| - 1;
      Accounted(results[..n], kept[..n]) + {if results[n].success then kept[n] else n}
  }

  /** Exactly the unreported events were published with success. */
  ghost predicate Faithful(results: seq<PublishEventResult>, encodes: seq<bool>)
    requires |results| == |Kept(encodes)|
  {
    forall i :: 0 <= i < |encodes| ==> (i !in Failures(results) <==> i in SentPositions(results, encodes))
  }

  lemma FaithfulWhenAllEncode(results: seq<PublishEventResult>, encodes: seq<bool>)
    requires |results| == |Kept(encodes)| && AllEncode(encodes, |encodes|)
    ensures Faithful(results, encodes)
  {
    EveryPlace(encodes);
    FailuresAscend(results);
    forall i | 0 <= i < |encodes|
      ensures i !in Failures(results) <==> i in SentPositions(results, encodes)
    {
      assert Kept(encodes)[i] == i;
    }
  }

  lemma FaithfulAccountsForAll(results: seq<PublishEventResult>, encodes: seq<bool>)
    requires |results| == |Kept(encodes)| && Faithful(results, encodes)
    ensures Positions(|encodes|) <= Accounted(results, Kept(encodes))
  {
    FailuresAscend(results);
    forall i | i in Positions(|encodes|) ensures i in Accounted(results, Kept(encodes)) {
      if i !in Failures(results) {
        var j :| 0 <= j < |results| && results[j].success && Kept(encodes)[j] == i;
      }
    }
  }

  /** An event that is not reported was published with success, and a reported one was
      not, if and only if every event encodes: an event that is skipped is never
      published and yet nobody hears about it. */
  lemma UnreportedMeansSent(results: seq<PublishEventResult>, encodes: seq<bool>)
    requires |results| == |Kept(encodes)|
    ensures Faithful(results, encodes) <==> AllEncode(encodes, |encodes|)
  {
    if AllEncode(encodes, |encodes|) {
      FaithfulWhenAllEncode(results, encodes);
    }
    if Faithful(results, encodes) {
      FaithfulAccountsForAll(results, encodes);
      Monotone(Positions(|encodes|), Accounted(results, Kept(encodes)));
      KeptAscend(encodes);
      KeptCountAll(encodes);
    }
  }

  lemma EveryPlace(encodes: seq<bool>)
    requires AllEncode(encodes, |encodes|)
    ensures |Kept(encodes)| == |encodes|
    ensures forall i :: 0 <= i < |encodes| ==> Kept(encodes)[i] == i
  {
  }

  lemma {:induction false} Monotone(a: set<nat>, b: set<nat>)
    requires a <= b
    ensures |a| <= |b|
  {
    assert b == a + (b - a);
  }
}
