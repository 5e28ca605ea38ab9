/** Port-mapping leases and their renewal (network/port_mapper.go). Times and durations
    are nanoseconds, as in Go. */
module PortMapping {
  import opened GoInts
  import opened Outcomes

  const MILLISECOND := 1_000_000
  const SECOND := 1_000_000_000
  const MINUTE := 60_000_000_000

  /** The lease asked for, given the refresh interval in milliseconds: 64-bit arithmetic. */
  function MappingTimeout(refreshMillis: int64): (t: int64) {
    Wrap64(Wrap64(refreshMillis * MILLISECOND) + MINUTE)
  }

  /** Whole seconds, truncated, then cut to 32 bits. */
  function LeaseSeconds(timeout: int64): (s: nat)
    ensures s < TWO_32
  {
    TruncDiv(timeout, SECOND) % TWO_32
  }

  /** The granted lease. */
  function Lease(refreshMillis: int64): (d: int) {
    LeaseSeconds(MappingTimeout(refreshMillis)) * SECOND
  }

  /** The seconds asked for are the timeout with its fraction cut off, as long as they fit
      in 32 bits. */
  lemma LeaseIsTruncated(timeout: int64)
    requires 0 <= timeout < 0x1_0000_0000 * SECOND
    ensures LeaseSeconds(timeout) * SECOND <= timeout < (LeaseSeconds(timeout) + 1) * SECOND
  {
  }

  /** The lease outlasts the refresh interval by more than 59 seconds if and only if the
      requested number of seconds fits in 32 bits. */
  lemma LeaseOutlastsInterval(refreshMillis: int64)
    requires refreshMillis >= 0
    ensures Lease(refreshMillis) > refreshMillis * MILLISECOND + 59 * SECOND <==>
            refreshMillis * MILLISECOND + MINUTE < TWO_32 * SECOND
  {
  }

  // ----- the mapper object -----------------------------------------------------------

  datatype Mapping = Mapping(
    description: string, protocol: string, externalPort: nat, forwardToPort: nat, forwardToAddr: string)

  /** What the router keeps per protocol and external port: the rule and when it ends. */
  type Table = map<(string, nat), (Mapping, int)>

  function PortOf(m: Mapping): (k: (string, nat)) {
    (m.protocol, m.externalPort)
  }

  /** One request to the router: when it takes effect, and its error. */
  datatype Rpc = Rpc(at: int, error: Option<string>)

  function Granted(table: Table, m: Mapping, rpc: Rpc, lease: int): (r: Table) {
    if rpc.error.None? then table[PortOf(m) := (m, rpc.at + lease)] else table
  }

  /** A refresh pass: every mapping in order, failures passed over. */
  function Refreshed(table: Table, ms: seq<Mapping>, rpcs: seq<Rpc>, lease: int): (r: Table)
    requires |ms| == |rpcs|
  {
    if ms == [] then table
    else
      var n := |ms| - 1;
      Granted(Refreshed(table, ms[..n], rpcs[..n], lease), ms[n], rpcs[n], lease)
  }

  class Router {
    var table: Table

    method AddPortMapping(m: Mapping, leaseSeconds: nat, rpc: Rpc) returns (err: Option<string>)
      modifies this
      ensures err == rpc.error
      ensures table == Granted(old(table), m, rpc, leaseSeconds * SECOND)
      ensures table == if err.Some? then old(table)
                       else old(table)[(m.protocol, m.externalPort) := (m, rpc.at + leaseSeconds * SECOND)]
    {
      err := rpc.error;
      if err.None? {
        table := table[PortOf(m) := (m, rpc.at + leaseSeconds * SECOND)];
      }
    }
  }

  class PortMapper {
    const router: Router
    const refreshMillis: int64
    const mappingTimeout: int64
    var portMappings: seq<Mapping>

    constructor (router: Router, refreshMillis: int64)
      ensures this.router == router && this.refreshMillis == refreshMillis
      ensures mappingTimeout == MappingTimeout(refreshMillis) && portMappings == []
    {
      this.router := router;
      this.refreshMillis := refreshMillis;
      mappingTimeout := Wrap64(Wrap64(refreshMillis * MILLISECOND) + MINUTE);
      portMappings := [];
    }

    method AddPortMapping(m: Mapping, timeout: int64, rpc: Rpc) returns (err: Option<string>)
      modifies router
      ensures err == rpc.error
      ensures router.table == Granted(old(router.table), m, rpc, LeaseSeconds(timeout) * SECOND)
      ensures err.None? ==>
                && (m.protocol, m.externalPort) in router.table
                && router.table[(m.protocol, m.externalPort)] == (m, rpc.at + LeaseSeconds(timeout) * SECOND)
      ensures forall port | port != (m.protocol, m.externalPort) || err.Some? ::
                && (port in router.table <==> port in old(router.table))
                && (port in router.table ==> router.table[port] == old(router.table)[port])
    {
      err := router.AddPortMapping(m, LeaseSeconds(timeout), rpc);
    }

    /** A mapping joins the list only after the router has accepted it. */
    method AddPersistentPortMapping(m: Mapping, rpc: Rpc) returns (err: Option<string>)
      requires mappingTimeout == MappingTimeout(refreshMillis)
      modifies this`portMappings, router
      ensures err == rpc.error
      ensures router.table == Granted(old(router.table), m, rpc, Lease(refreshMillis))
      ensures portMappings == if err.None? then old(portMappings) + [m] else old(portMappings)
    {
      err := AddPortMapping(m, mappingTimeout, rpc);
      if err.Some? {
        return;
      }
      portMappings := portMappings + [m];
    }

    /** Renews every mapping in list order and returns the interval to the next pass. */
    method RefreshPortMappings(rpcs: seq<Rpc>) returns (next: int64)
      requires mappingTimeout == MappingTimeout(refreshMillis)
      requires |rpcs| == |portMappings|
      modifies router
      ensures router.table == Refreshed(old(router.table), portMappings, rpcs, Lease(refreshMillis))
      ensures next == refreshMillis
    {
      var ms := portMappings;
      ghost var table := router.table;
      for i := 0 to |ms|
        invariant router.table == Refreshed(table, ms[..i], rpcs[..i], Lease(refreshMillis))
      {
        assert ms[..i + 1][..i] == ms[..i] && rpcs[..i + 1][..i] == rpcs[..i];
        var _ := AddPortMapping(ms[i], mappingTimeout, rpcs[i]);
      }
      assert ms[..|ms|] == ms && rpcs[..|ms|] == rpcs;
      next := refreshMillis;
    }
  }

  /** After a pass, a port holds the last listed mapping for it whose request succeeded,
      as it was listed, with the lease of that request. */
  lemma {:induction false} RefreshReaches(table: Table, ms: seq<Mapping>, rpcs: seq<Rpc>, lease: int, k: nat)
    requires |ms| == |rpcs| && k < |ms| && rpcs[k].error.None?
    requires forall j :: k < j < |ms| ==>
               (ms[j].protocol, ms[j].externalPort) != (ms[k].protocol, ms[k].externalPort) || rpcs[j].error.Some?
    ensures var r, port := Refreshed(table, ms, rpcs, lease), (ms[k].protocol, ms[k].externalPort);
            port in r && r[port] == (ms[k], rpcs[k].at + lease)
  {
    var n := |ms| - 1;
    if k < n {
      RefreshReaches(table, ms[..n], rpcs[..n], lease, k);
      assert (ms[n].protocol, ms[n].externalPort) != (ms[k].protocol, ms[k].externalPort) || rpcs[n].error.Some?;
    }
  }

  /** Ports that no mapping of the list uses, and those whose requests all failed, are
      left alone. */
  lemma {:induction false} RefreshSpares(table: Table, ms: seq<Mapping>, rpcs: seq<Rpc>, lease: int,
                                          port: (string, nat))
    requires |ms| == |rpcs|
    requires forall i :: 0 <= i < |ms| ==> (ms[i].protocol, ms[i].externalPort) != port || rpcs[i].error.Some?
    ensures var r := Refreshed(table, ms, rpcs, lease);
            (port in r <==> port in table) && (port in table ==> r[port] == table[port])
  {
    if ms != [] {
      RefreshSpares(table, ms[..|ms| - 1], rpcs[..|ms| - 1], lease, port);
    }
  }

  // ----- timed runs ---------------------------------------------------------------------

  /** The refresh timer: waiting to fire, asking for the lock since `since`, or holding it
      and about to renew mapping number `next`. */
  datatype Phase = Waiting(readyAt: int) | Requested(since: int) | Renewing(since: int, next: nat)

  /** How slow things may be: a pass from firing to its end, the timer beyond its interval,
      and a new mapping from the router's acceptance to its place in the list. */
  datatype Budget = Budget(pass: int, lag: int, adding: int)

  datatype Added = Added(mapping: Mapping, at: int)

  datatype System = System(
    now: int,
    mappings: seq<Mapping>,
    adding: seq<Added>,
    ends: map<(string, nat), int>,
    phase: Phase)

  datatype Step =
    | Elapse(d: nat)
    | Fire
    | Lock
    | Renew
    | RenewFails
    | EndPass
    | Accept(mapping: Mapping)
    | Append(which: nat)

  const START := System(0, [], [], map[], Waiting(0))

  /** Whether the budget allows the clock to show `t`. */
  predicate InTime(b: Budget, s: System, t: int) {
    && (match s.phase
        case Waiting(r) => t <= r + b.lag
        case Requested(since) => t <= since + b.pass
        case Renewing(since, _) => t <= since + b.pass)
    && forall i :: 0 <= i < |s.adding| ==> t <= s.adding[i].at + b.adding
  }

  predicate Enabled(b: Budget, s: System, step: Step) {
    match step
    case Elapse(d) => InTime(b, s, s.now + d)
    case Fire => s.phase.Waiting? && s.now >= s.phase.readyAt
    case Lock => s.phase.Requested?
    case Renew => s.phase.Renewing? && s.phase.next < |s.mappings|
    case RenewFails => s.phase.Renewing? && s.phase.next < |s.mappings|
    case EndPass => s.phase.Renewing? && s.phase.next == |s.mappings|
    case Accept(_) => true
    case Append(k) => !s.phase.Renewing? && k < |s.adding|
  }

  function Next(refreshMillis: int64, s: System, step: Step): (r: System)
    requires step.Lock? ==> s.phase.Requested?
    requires step.Renew? || step.RenewFails? ==> s.phase.Renewing? && s.phase.next < |s.mappings|
    requires step.Append? ==> step.which < |s.adding|
  {
    match step
    case Elapse(d) => s.(now := s.now + d)
    case Fire => s.(phase := Requested(s.now))
    case Lock => s.(phase := Renewing(s.phase.since, 0))
    case Renew =>
      s.(ends := s.ends[PortOf(s.mappings[s.phase.next]) := s.now + Lease(refreshMillis)],
         phase := s.phase.(next := s.phase.next + 1))
    case RenewFails => s.(phase := s.phase.(next := s.phase.next + 1))
    case EndPass => s.(phase := Waiting(s.now + refreshMillis * MILLISECOND))
    case Accept(m) =>
      s.(ends := s.ends[PortOf(m) := s.now + Lease(refreshMillis)], adding := s.adding + [Added(m, s.now)])
    case Append(k) =>
      s.(mappings := s.mappings + [s.adding[k].mapping],
         adding := s.adding[..k] + s.adding[k + 1..])
  }

  /** When each lease of the router's table ends. */
  function EndsOf(table: Table): (ends: map<(string, nat), int>) {
    map k | k in table :: table[k].1
  }

  /** The steps of a timed run do to the leases what the requests of the object do. */
  lemma StepsMatchRequests(refreshMillis: int64, s: System, table: Table, m: Mapping, error: Option<string>)
    requires s.ends == EndsOf(table)
    ensures error.None? ==>
              Next(refreshMillis, s, Accept(m)).ends ==
              EndsOf(Granted(table, m, Rpc(s.now, error), Lease(refreshMillis)))
    ensures s.phase.Renewing? && s.phase.next < |s.mappings| ==>
              Next(refreshMillis, s, if error.None? then Renew else RenewFails).ends ==
              EndsOf(Granted(table, s.mappings[s.phase.next], Rpc(s.now, error), Lease(refreshMillis)))
  {
  }

  /** A run within the budget in which every renewal succeeds. */
  ghost predicate Smooth(refreshMillis: int64, b: Budget, s: System, steps: seq<Step>)
    decreases |steps|
  {
    steps == [] ||
    (Enabled(b, s, steps[0]) && !steps[0].RenewFails? &&
     Smooth(refreshMillis, b, Next(refreshMillis, s, steps[0]), steps[1..]))
  }

  ghost function After(refreshMillis: int64, b: Budget, s: System, steps: seq<Step>): (r: System)
    requires Smooth(refreshMillis, b, s, steps)
    decreases |steps|
  {
    if steps == [] then s else After(refreshMillis, b, Next(refreshMillis, s, steps[0]), steps[1..])
  }

  /** Some lease for the port of `m` ends after time `t`. */
  predicate Beyond(s: System, m: Mapping, t: int) {
    PortOf(m) in s.ends && s.ends[PortOf(m)] >= t
  }

  function Max(a: int, b: int): int {
    if a < b then b else a
  }

  /** How far the lease of a listed mapping is known to reach. */
  function Horizon(refreshMillis: int64, b: Budget, phase: Phase, i: nat): (t: int) {
    var lease := Lease(refreshMillis);
    var behind := refreshMillis * MILLISECOND + Max(b.pass, b.adding);
    match phase
    case Waiting(r) => r - behind + lease
    case Requested(since) => since - b.lag - behind + lease
    case Renewing(since, next) => if i < next then since + lease else since - b.lag - behind + lease
  }

  ghost predicate Inv(refreshMillis: int64, b: Budget, s: System) {
    && InTime(b, s, s.now)
    && (match s.phase
        case Waiting(r) => r - refreshMillis * MILLISECOND <= s.now
        case Requested(since) => since <= s.now
        case Renewing(since, next) => since <= s.now && next <= |s.mappings|)
    && (forall k :: k in s.ends ==> s.ends[k] <= s.now + Lease(refreshMillis))
    && (forall i :: 0 <= i < |s.adding| ==>
          Beyond(s, s.adding[i].mapping, s.adding[i].at + Lease(refreshMillis)))
    && (forall i :: 0 <= i < |s.mappings| ==>
          Beyond(s, s.mappings[i], Horizon(refreshMillis, b, s.phase, i)))
  }

  predicate Sane(refreshMillis: int64, b: Budget) {
    refreshMillis >= 0 && b.pass >= 0 && b.lag >= 0 && b.adding >= 0
  }

  /** Renewing a port never shortens any lease. */
  lemma RenewKeeps(refreshMillis: int64, b: Budget, s: System)
    requires Sane(refreshMillis, b) && Inv(refreshMillis, b, s) && Enabled(b, s, Renew)
    ensures Inv(refreshMillis, b, Next(refreshMillis, s, Renew))
  {
  }

  lemma AcceptKeeps(refreshMillis: int64, b: Budget, s: System, m: Mapping)
    requires Sane(refreshMillis, b) && Inv(refreshMillis, b, s)
    ensures Inv(refreshMillis, b, Next(refreshMillis, s, Accept(m)))
  {
  }

  lemma AppendKeeps(refreshMillis: int64, b: Budget, s: System, k: nat)
    requires Sane(refreshMillis, b) && Inv(refreshMillis, b, s) && Enabled(b, s, Append(k))
    ensures Inv(refreshMillis, b, Next(refreshMillis, s, Append(k)))
  {
  }

  /** Firing, locking and ending a pass move the horizon, not the leases. */
  lemma PhaseKeeps(refreshMillis: int64, b: Budget, s: System, step: Step)
    requires Sane(refreshMillis, b) && Inv(refreshMillis, b, s) && Enabled(b, s, step)
    requires step.Fire? || step.Lock? || step.EndPass? || step.Elapse?
    ensures Inv(refreshMillis, b, Next(refreshMillis, s, step))
  {
  }

  lemma InvKept(refreshMillis: int64, b: Budget, s: System, step: Step)
    requires Sane(refreshMillis, b) && Inv(refreshMillis, b, s)
    requires Enabled(b, s, step) && !step.RenewFails?
    ensures Inv(refreshMillis, b, Next(refreshMillis, s, step))
  {
    match step
    case Renew => RenewKeeps(refreshMillis, b, s);
    case Accept(m) => AcceptKeeps(refreshMillis, b, s, m);
    case Append(k) => AppendKeeps(refreshMillis, b, s, k);
    case _ => PhaseKeeps(refreshMillis, b, s, step);
  }

  lemma {:induction false} InvAlong(refreshMillis: int64, b: Budget, s: System, steps: seq<Step>)
    requires Sane(refreshMillis, b) && Inv(refreshMillis, b, s) && Smooth(refreshMillis, b, s, steps)
    ensures Inv(refreshMillis, b, After(refreshMillis, b, s, steps))
    decreases |steps|
  {
    if steps != [] {
      InvKept(refreshMillis, b, s, steps[0]);
      InvAlong(refreshMillis, b, Next(refreshMillis, s, steps[0]), steps[1..]);
    }
  }

  ghost predicate NoLapse(s: System) {
    && (forall i :: 0 <= i < |s.mappings| ==> Beyond(s, s.mappings[i], s.now + 1))
    && (forall i :: 0 <= i < |s.adding| ==> Beyond(s, s.adding[i].mapping, s.now + 1))
  }

  /** If the interval and the delays together stay below the lease, no lease of a
      persistent mapping runs out in any run: neither of a listed one, nor of one
      accepted by the router but still waiting for the lock. */
  lemma SlackSuffices(refreshMillis: int64, b: Budget, steps: seq<Step>)
    requires Sane(refreshMillis, b) && Smooth(refreshMillis, b, START, steps)
    requires refreshMillis * MILLISECOND + Max(b.pass, b.adding) + b.lag + b.pass < Lease(refreshMillis)
    ensures NoLapse(After(refreshMillis, b, START, steps))
  {
    InvAlong(refreshMillis, b, START, steps);
    var s := After(refreshMillis, b, START, steps);
    forall i | 0 <= i < |s.mappings| ensures Beyond(s, s.mappings[i], s.now + 1) {
      assert Beyond(s, s.mappings[i], Horizon(refreshMillis, b, s.phase, i));
    }
    forall i | 0 <= i < |s.adding| ensures Beyond(s, s.adding[i].mapping, s.now + 1) {
      assert Beyond(s, s.adding[i].mapping, s.adding[i].at + Lease(refreshMillis));
    }
  }

  /** In particular when the delays beyond the interval stay within 59 seconds. */
  lemma LeasesNeverLapse(refreshMillis: int64, b: Budget, steps: seq<Step>)
    requires Sane(refreshMillis, b) && Smooth(refreshMillis, b, START, steps)
    requires refreshMillis * MILLISECOND + MINUTE < TWO_32 * SECOND
    requires Max(b.pass, b.adding) + b.lag + b.pass <= 59 * SECOND
    ensures NoLapse(After(refreshMillis, b, START, steps))
  {
    LeaseOutlastsInterval(refreshMillis);
    SlackSuffices(refreshMillis, b, steps);
  }

  // ----- the bound is exact -------------------------------------------------------------

  lemma {:induction false} SmoothSnoc(refreshMillis: int64, b: Budget, s: System, steps: seq<Step>, step: Step)
    requires Smooth(refreshMillis, b, s, steps) && !step.RenewFails?
    requires Enabled(b, After(refreshMillis, b, s, steps), step)
    ensures Smooth(refreshMillis, b, s, steps + [step])
    ensures After(refreshMillis, b, s, steps + [step]) ==
            Next(refreshMillis, After(refreshMillis, b, s, steps), step)
    decreases |steps|
  {
    if steps == [] {
      assert steps + [step] == [step] && [step][1..] == [];
      assert Smooth(refreshMillis, b, Next(refreshMillis, s, step), []);
    } else {
      SmoothSnoc(refreshMillis, b, Next(refreshMillis, s, steps[0]), steps[1..], step);
      assert (steps + [step])[1..] == steps[1..] + [step];
    }
  }

  const SAMPLE := Mapping("m", "TCP", 48000, 80, "10.0.0.2")

  /** A smooth run from the start that leads to `s`. */
  ghost predicate Reaches(refreshMillis: int64, b: Budget, steps: seq<Step>, s: System) {
    Smooth(refreshMillis, b, START, steps) && After(refreshMillis, b, START, steps) == s
  }

  lemma ReachesNext(refreshMillis: int64, b: Budget, steps: seq<Step>, s: System, step: Step)
    requires Reaches(refreshMillis, b, steps, s) && Enabled(b, s, step) && !step.RenewFails?
    ensures Reaches(refreshMillis, b, steps + [step], Next(refreshMillis, s, step))
  {
    SmoothSnoc(refreshMillis, b, START, steps, step);
  }

  function Interval(refreshMillis: int64): (d: int) {
    refreshMillis * MILLISECOND
  }

  /** The time from one pass to the next when everything is as slow as it may be. */
  function Cycle(refreshMillis: int64, b: Budget): (d: int) {
    Interval(refreshMillis) + b.lag + b.pass
  }

  /** When pass number `k` of the slowest schedule ends. */
  function EndOfPass(refreshMillis: int64, b: Budget, k: nat): (t: int) {
    k * Cycle(refreshMillis, b) + b.lag + b.pass
  }

  /** On the slowest schedule, before the end of pass `k`, with no mapping listed. */
  ghost predicate Slow(refreshMillis: int64, b: Budget, s: System, k: nat) {
    s.mappings == [] &&
    var r := k * Cycle(refreshMillis, b);
    match s.phase
    case Waiting(at) => at == r && s.now <= r + b.lag
    case Requested(_) => false
    case Renewing(since, next) => since == r + b.lag && next == 0 && since <= s.now <= since + b.pass
  }

  /** No mapping being added runs out of time before `t`. */
  predicate Patient(b: Budget, s: System, t: int) {
    forall i :: 0 <= i < |s.adding| ==> t <= s.adding[i].at + b.adding
  }

  /** The pass begins as late as it may. */
  lemma BeginLate(refreshMillis: int64, b: Budget, steps: seq<Step>, s: System, k: nat)
    returns (more: seq<Step>, t: System)
    requires Sane(refreshMillis, b) && Reaches(refreshMillis, b, steps, s) && Slow(refreshMillis, b, s, k)
    requires s.phase.Waiting? && Patient(b, s, k * Cycle(refreshMillis, b) + b.lag)
    ensures Reaches(refreshMillis, b, more, t) && Slow(refreshMillis, b, t, k)
    ensures var at := k * Cycle(refreshMillis, b) + b.lag; t == s.(now := at, phase := Renewing(at, 0))
  {
    var at := k * Cycle(refreshMillis, b) + b.lag;
    ReachesNext(refreshMillis, b, steps, s, Elapse(at - s.now));
    var s1 := s.(now := at);
    ReachesNext(refreshMillis, b, steps + [Elapse(at - s.now)], s1, Fire);
    var s2 := s1.(phase := Requested(at));
    ReachesNext(refreshMillis, b, steps + [Elapse(at - s.now)] + [Fire], s2, Lock);
    more, t := steps + [Elapse(at - s.now)] + [Fire] + [Lock], s2.(phase := Renewing(at, 0));
  }

  /** Any time up to the end of pass `k` is reached on the slowest schedule. */
  lemma WithinPass(refreshMillis: int64, b: Budget, steps: seq<Step>, s: System, k: nat, at: int)
    returns (more: seq<Step>, t: System)
    requires Sane(refreshMillis, b) && Reaches(refreshMillis, b, steps, s) && Slow(refreshMillis, b, s, k)
    requires s.now <= at <= EndOfPass(refreshMillis, b, k) && Patient(b, s, at)
    ensures Reaches(refreshMillis, b, more, t) && Slow(refreshMillis, b, t, k)
    ensures t == s.(now := at, phase := t.phase)
    ensures at >= k * Cycle(refreshMillis, b) + b.lag ==> t.phase.Renewing?
  {
    var begin := k * Cycle(refreshMillis, b) + b.lag;
    more, t := steps, s;
    if s.phase.Waiting? && at >= begin {
      more, t := BeginLate(refreshMillis, b, steps, s, k);
    }
    var d := at - t.now;
    ReachesNext(refreshMillis, b, more, t, Elapse(d));
    more, t := more + [Elapse(d)], t.(now := at);
  }

  /** The end of pass `k` is reached, and the next pass is scheduled. */
  lemma ThroughPass(refreshMillis: int64, b: Budget, steps: seq<Step>, s: System, k: nat)
    returns (more: seq<Step>, t: System)
    requires Sane(refreshMillis, b) && Reaches(refreshMillis, b, steps, s) && Slow(refreshMillis, b, s, k)
    requires Patient(b, s, EndOfPass(refreshMillis, b, k))
    ensures Reaches(refreshMillis, b, more, t) && Slow(refreshMillis, b, t, k + 1)
    ensures t == s.(now := EndOfPass(refreshMillis, b, k), phase := Waiting((k + 1) * Cycle(refreshMillis, b)))
  {
    var end := EndOfPass(refreshMillis, b, k);
    more, t := WithinPass(refreshMillis, b, steps, s, k, end);
    ReachesNext(refreshMillis, b, more, t, EndPass);
    assert (k + 1) * Cycle(refreshMillis, b) == end + Interval(refreshMillis);
    more, t := more + [EndPass], t.(phase := Waiting(end + Interval(refreshMillis)));
  }

  lemma LaterPass(refreshMillis: int64, b: Budget, k: nat, m: nat)
    requires Sane(refreshMillis, b) && k <= m
    ensures EndOfPass(refreshMillis, b, k) <= EndOfPass(refreshMillis, b, m)
  {
  }

  /** Any time up to the end of pass `m` is reached on the slowest schedule. */
  lemma {:induction false} SlowlyTo(refreshMillis: int64, b: Budget, steps: seq<Step>, s: System,
                                     k: nat, m: nat, at: int)
    returns (more: seq<Step>, t: System, j: nat)
    requires Sane(refreshMillis, b) && Reaches(refreshMillis, b, steps, s) && Slow(refreshMillis, b, s, k)
    requires k <= m && s.now <= at <= EndOfPass(refreshMillis, b, m) && Patient(b, s, at)
    ensures Reaches(refreshMillis, b, more, t) && Slow(refreshMillis, b, t, j) && j <= m
    ensures t == s.(now := at, phase := t.phase)
    decreases m - k
  {
    if at <= EndOfPass(refreshMillis, b, k) {
      more, t := WithinPass(refreshMillis, b, steps, s, k, at);
      j := k;
    } else {
      more, t := ThroughPass(refreshMillis, b, steps, s, k);
      more, t, j := SlowlyTo(refreshMillis, b, more, t, k + 1, m, at);
    }
  }

  /** The end of pass `m` is reached on the slowest schedule. */
  lemma {:induction false} SlowlyThrough(refreshMillis: int64, b: Budget, steps: seq<Step>, s: System, k: nat, m: nat)
    returns (more: seq<Step>, t: System)
    requires Sane(refreshMillis, b) && Reaches(refreshMillis, b, steps, s) && Slow(refreshMillis, b, s, k)
    requires k <= m && Patient(b, s, EndOfPass(refreshMillis, b, m))
    ensures Reaches(refreshMillis, b, more, t)
    ensures t == s.(now := EndOfPass(refreshMillis, b, m), phase := Waiting((m + 1) * Cycle(refreshMillis, b)))
    decreases m - k
  {
    LaterPass(refreshMillis, b, k, m);
    more, t := ThroughPass(refreshMillis, b, steps, s, k);
    if k < m {
      more, t := SlowlyThrough(refreshMillis, b, more, t, k + 1, m);
    }
  }

  /** A mapping is accepted so that all its time to be listed is over just when pass `m`
      ends, which has missed it. */
  lemma ListedLate(refreshMillis: int64, b: Budget, m: nat) returns (steps: seq<Step>, s: System)
    requires Sane(refreshMillis, b) && b.adding <= EndOfPass(refreshMillis, b, m)
    ensures Reaches(refreshMillis, b, steps, s)
    ensures var end := EndOfPass(refreshMillis, b, m);
            s == System(end, [SAMPLE], [], map[PortOf(SAMPLE) := end - b.adding + Lease(refreshMillis)],
                        Waiting((m + 1) * Cycle(refreshMillis, b)))
  {
    var end := EndOfPass(refreshMillis, b, m);
    var at := end - b.adding;
    var j: nat;
    assert Reaches(refreshMillis, b, [], START) && Slow(refreshMillis, b, START, 0);
    steps, s, j := SlowlyTo(refreshMillis, b, [], START, 0, m, at);
    ReachesNext(refreshMillis, b, steps, s, Accept(SAMPLE));
    steps, s := steps + [Accept(SAMPLE)], Next(refreshMillis, s, Accept(SAMPLE));
    steps, s := SlowlyThrough(refreshMillis, b, steps, s, j, m);
    ReachesNext(refreshMillis, b, steps, s, Append(0));
    steps, s := steps + [Append(0)], Next(refreshMillis, s, Append(0));
  }

  /** The next pass comes as late, and works as slowly, as the budget allows. */
  lemma SlowNextPass(refreshMillis: int64, b: Budget, before: seq<Step>, s: System)
    returns (steps: seq<Step>)
    requires Sane(refreshMillis, b) && Reaches(refreshMillis, b, before, s)
    requires s.adding == [] && s.phase == Waiting(s.now + Interval(refreshMillis))
    ensures Smooth(refreshMillis, b, START, steps)
    ensures var t := After(refreshMillis, b, START, steps);
            && t.mappings == s.mappings && t.ends == s.ends
            && t.now == s.now + Interval(refreshMillis) + b.lag + b.pass
  {
    var d := Interval(refreshMillis) + b.lag;
    ReachesNext(refreshMillis, b, before, s, Elapse(d));
    var s1 := s.(now := s.now + d);
    ReachesNext(refreshMillis, b, before + [Elapse(d)], s1, Fire);
    var s2 := s1.(phase := Requested(s1.now));
    ReachesNext(refreshMillis, b, before + [Elapse(d)] + [Fire], s2, Elapse(b.pass));
    steps := before + [Elapse(d)] + [Fire] + [Elapse(b.pass)];
  }

  /** One mapping, renewed at time zero by a pass that then takes all the time it may. */
  lemma RenewedEarly(refreshMillis: int64, b: Budget) returns (steps: seq<Step>, s: System)
    requires Sane(refreshMillis, b)
    ensures Reaches(refreshMillis, b, steps, s)
    ensures s == System(b.pass, [SAMPLE], [], map[PortOf(SAMPLE) := Lease(refreshMillis)],
                        Waiting(b.pass + Interval(refreshMillis)))
  {
    var ends := map[PortOf(SAMPLE) := Lease(refreshMillis)];
    var listed := System(0, [SAMPLE], [], ends, Waiting(0));
    assert Reaches(refreshMillis, b, [], START);
    ReachesNext(refreshMillis, b, [], START, Accept(SAMPLE));
    steps, s := [] + [Accept(SAMPLE)], System(0, [], [Added(SAMPLE, 0)], ends, Waiting(0));
    ReachesNext(refreshMillis, b, steps, s, Append(0));
    assert Next(refreshMillis, s, Append(0)) == listed;
    steps := RenewedFrom(refreshMillis, b, steps + [Append(0)], listed);
    s := listed.(now := b.pass, phase := Waiting(b.pass + Interval(refreshMillis)));
  }

  lemma RenewedFrom(refreshMillis: int64, b: Budget, before: seq<Step>, s: System) returns (steps: seq<Step>)
    requires Sane(refreshMillis, b) && Reaches(refreshMillis, b, before, s)
    requires s == System(0, [SAMPLE], [], map[PortOf(SAMPLE) := Lease(refreshMillis)], Waiting(0))
    ensures Reaches(refreshMillis, b, steps,
                    s.(now := b.pass, phase := Waiting(b.pass + Interval(refreshMillis))))
  {
    ReachesNext(refreshMillis, b, before, s, Fire);
    steps := before + [Fire];
    ReachesNext(refreshMillis, b, steps, s.(phase := Requested(0)), Lock);
    steps := steps + [Lock];
    var s1 := s.(phase := Renewing(0, 0));
    ReachesNext(refreshMillis, b, steps, s1, Renew);
    steps := steps + [Renew];
    var s2 := s.(phase := Renewing(0, 1));
    assert Next(refreshMillis, s1, Renew) == s2;
    ReachesNext(refreshMillis, b, steps, s2, Elapse(b.pass));
    steps := steps + [Elapse(b.pass)];
    ReachesNext(refreshMillis, b, steps, s2.(now := b.pass), EndPass);
    steps := steps + [EndPass];
  }

  /** A run in which a lease gets older than any may if the slack is to suffice. */
  lemma SlowestRun(refreshMillis: int64, b: Budget) returns (steps: seq<Step>)
    requires Sane(refreshMillis, b) && Cycle(refreshMillis, b) > 0
    ensures Smooth(refreshMillis, b, START, steps)
    ensures var s := After(refreshMillis, b, START, steps);
            && s.mappings == [SAMPLE] && PortOf(SAMPLE) in s.ends
            && s.now - s.ends[PortOf(SAMPLE)] ==
               Interval(refreshMillis) + Max(b.pass, b.adding) + b.lag + b.pass - Lease(refreshMillis)
  {
    var s: System;
    if b.adding <= b.pass {
      steps, s := RenewedEarly(refreshMillis, b);
    } else {
      var m: nat := b.adding;
      assert m * Cycle(refreshMillis, b) >= m;
      steps, s := ListedLate(refreshMillis, b, m);
      assert (m + 1) * Cycle(refreshMillis, b) == s.now + Interval(refreshMillis);
    }
    steps := SlowNextPass(refreshMillis, b, steps, s);
  }

  // ----- a timer that leaves no time --------------------------------------------------------

  /** With no interval and no delays the clock never moves. */
  ghost predicate Frozen(s: System) {
    && s.now == 0
    && (match s.phase case Waiting(r) => r == 0 case Requested(t) => t == 0 case Renewing(t, _) => t == 0)
    && (forall i :: 0 <= i < |s.mappings| ==> Beyond(s, s.mappings[i], MINUTE))
    && (forall i :: 0 <= i < |s.adding| ==> Beyond(s, s.adding[i].mapping, MINUTE))
  }

  lemma FrozenKept(b: Budget, s: System, step: Step)
    requires b.lag == 0 && b.pass == 0 && Frozen(s) && Enabled(b, s, step) && !step.RenewFails?
    ensures Frozen(Next(0, s, step))
  {
    assert Lease(0) == MINUTE;
  }

  lemma {:induction false} FrozenAlong(b: Budget, s: System, steps: seq<Step>)
    requires b.lag == 0 && b.pass == 0 && Frozen(s) && Smooth(0, b, s, steps)
    ensures Frozen(After(0, b, s, steps))
    decreases |steps|
  {
    if steps != [] {
      FrozenKept(b, s, steps[0]);
      FrozenAlong(b, Next(0, s, steps[0]), steps[1..]);
    }
  }

  /** Leases survive every run if and only if the interval, the lag, a pass, and the longer
      of a pass and the time to list a mapping together stay below the lease; or the timer,
      without interval, lag and duration, keeps time from passing at all. */
  lemma SlackIsExact(refreshMillis: int64, b: Budget)
    requires Sane(refreshMillis, b)
    ensures (forall steps :: Smooth(refreshMillis, b, START, steps) ==>
               NoLapse(After(refreshMillis, b, START, steps)))
            <==> Cycle(refreshMillis, b) == 0 ||
                 Interval(refreshMillis) + Max(b.pass, b.adding) + b.lag + b.pass < Lease(refreshMillis)
  {
    if Cycle(refreshMillis, b) == 0 {
      forall steps | Smooth(refreshMillis, b, START, steps)
        ensures NoLapse(After(refreshMillis, b, START, steps))
      {
        FrozenAlong(b, START, steps);
      }
    } else if Interval(refreshMillis) + Max(b.pass, b.adding) + b.lag + b.pass < Lease(refreshMillis) {
      forall steps | Smooth(refreshMillis, b, START, steps)
        ensures NoLapse(After(refreshMillis, b, START, steps))
      {
        SlackSuffices(refreshMillis, b, steps);
      }
    } else {
      var steps := SlowestRun(refreshMillis, b);
      var s := After(refreshMillis, b, START, steps);
      assert !Beyond(s, s.mappings[0], s.now + 1);
      assert !NoLapse(s);
    }
  }

  /** For an interval of about 136 years the router is asked for a lease of zero seconds. */
  lemma LongIntervalAsksForZeroSeconds()
    ensures LeaseSeconds(MappingTimeout(4_294_967_236_000)) == 0
  {
  }
}
