/** The authenticated session of mycsnode/api_client.go: the key exchange, the record it
    fills in under a mutex, and the timer that renews it. Times are nanoseconds; the code
    reads its clock in whole milliseconds. */
module AuthSession {
  import opened GoInts
  import opened Outcomes

  const MILLISECOND := 1_000_000

  /** Key material is opaque; only where it comes from matters. */
  datatype Crypt = Crypt(secret: string)

  datatype RespKey = RespKey(nodeECDHKey: string, nonce: int64, timeoutAt: int64, refName: string)

  datatype PostError = PostError(err: string, message: string)

  /** The outcomes of all the library and network calls of one exchange, in their order.
      The nonce is the clock reading put into the request. */
  datatype Exchange = Exchange(
    nonce: int64,
    ecdhKey: Result<string, string>,
    request: Result<string, string>,
    post: Result<string, PostError>,
    response: Result<RespKey, string>,
    secret: Result<string, string>,
    crypt: Result<Crypt, string>)

  /** The fields guarded by the key refresh mutex. */
  datatype Session = Session(
    isAuthenticated: bool,
    crypt: Option<Crypt>,
    keyTimeoutAt: int64,
    authIDKey: string)

  const NO_SESSION := Session(false, None, 0, "")

  const INVALID_RESPONSE := "invalid auth response"

  /** The first thing that goes wrong in an exchange. */
  function Failure(refName: string, x: Exchange): (e: Option<string>) {
    if x.ecdhKey.Err? then Some(x.ecdhKey.error)
    else if x.request.Err? then Some(x.request.error)
    else if x.post.Err? then
      Some(if |x.post.error.message| > 0 then x.post.error.message else x.post.error.err)
    else if x.response.Err? then Some(x.response.error)
    else if x.response.value.refName != refName || x.response.value.nonce != x.nonce then Some(INVALID_RESPONSE)
    else if x.secret.Err? then Some(x.secret.error)
    else if x.crypt.Err? then Some(x.crypt.error)
    else None
  }

  /** Every call of the exchange succeeds, and the response answers this very request. */
  predicate AllSucceed(refName: string, x: Exchange) {
    && x.ecdhKey.Ok? && x.request.Ok? && x.post.Ok? && x.response.Ok? && x.secret.Ok? && x.crypt.Ok?
    && x.response.value.refName == refName && x.response.value.nonce == x.nonce
  }

  /** An exchange fails with the error of the first step that goes wrong; a failed request
      with the server's message, when there is one. */
  lemma FirstFailure(refName: string, x: Exchange)
    ensures Failure(refName, x).None? <==> AllSucceed(refName, x)
    ensures x.ecdhKey.Err? ==> Failure(refName, x) == Some(x.ecdhKey.error)
    ensures x.ecdhKey.Ok? ==>
              && (x.request.Err? ==> Failure(refName, x) == Some(x.request.error))
              && (x.request.Ok? && x.post.Err? && x.post.error.message != "" ==>
                    Failure(refName, x) == Some(x.post.error.message))
              && (x.request.Ok? && x.post.Err? && x.post.error.message == "" ==>
                    Failure(refName, x) == Some(x.post.error.err))
    ensures x.ecdhKey.Ok? && x.request.Ok? && x.post.Ok? && x.response.Err? ==>
              Failure(refName, x) == Some(x.response.error)
    ensures x.ecdhKey.Ok? && x.request.Ok? && x.post.Ok? && x.response.Ok? ==>
              var answers := x.response.value.refName == refName && x.response.value.nonce == x.nonce;
              && (!answers ==> Failure(refName, x) == Some("invalid auth response"))
              && (answers && x.secret.Err? ==> Failure(refName, x) == Some(x.secret.error))
              && (answers && x.secret.Ok? && x.crypt.Err? ==> Failure(refName, x) == Some(x.crypt.error))
  {
  }

  /** What a failed exchange leaves behind: only a cipher that cannot be built replaces the
      old one, and expiry and ID key always stay. */
  lemma FailureLeaves(refName: string, a: Session, x: Exchange)
    requires !AllSucceed(refName, x)
    ensures var r := AfterExchange(refName, a, x);
            && !r.isAuthenticated && r.keyTimeoutAt == a.keyTimeoutAt && r.authIDKey == a.authIDKey
            && r.crypt == if x.crypt.Err? && AllSucceed(refName, x.(crypt := Ok(Crypt("")))) then None else a.crypt
  {
  }

  /** The session that exactly this exchange establishes. */
  predicate Establishes(refName: string, x: Exchange, a: Session) {
    && AllSucceed(refName, x)
    && a == Session(true, Some(x.crypt.value), x.response.value.timeoutAt, x.post.value)
  }

  /** The record after an exchange. A failure to build the cipher still overwrites the old
      one; every other failure leaves all but the flag as it was. */
  function AfterExchange(refName: string, a: Session, x: Exchange): (r: Session)
    ensures Failure(refName, x).None? <==> Establishes(refName, x, r)
    ensures Failure(refName, x).Some? ==> !r.isAuthenticated
  {
    var e := Failure(refName, x);
    if e.None? then Session(true, Some(x.crypt.value), x.response.value.timeoutAt, x.post.value)
    else if ReachesCipher(refName, x) then a.(isAuthenticated := false, crypt := None)
    else a.(isAuthenticated := false)
  }

  predicate ReachesCipher(refName: string, x: Exchange) {
    && x.ecdhKey.Ok? && x.request.Ok? && x.post.Ok? && x.response.Ok? && x.secret.Ok?
    && x.response.value.refName == refName && x.response.value.nonce == x.nonce
  }

  function Millis(now: nat): (ms: nat) {
    now / MILLISECOND
  }

  predicate Authenticated(a: Session, now: nat) {
    a.isAuthenticated && Millis(now) < a.keyTimeoutAt
  }

  class ApiClient {
    const refName: string
    var isAuthenticated: bool
    var crypt: Option<Crypt>
    var keyTimeoutAt: int64
    var authIDKey: string

    constructor (refName: string)
      ensures this.refName == refName && Record() == NO_SESSION
    {
      this.refName := refName;
      isAuthenticated, crypt, keyTimeoutAt, authIDKey := false, None, 0, "";
    }

    ghost function Record(): (a: Session)
      reads this
    {
      Session(isAuthenticated, crypt, keyTimeoutAt, authIDKey)
    }

    method Authenticate(x: Exchange) returns (ok: bool, err: Option<string>)
      modifies this
      ensures Record() == AfterExchange(refName, old(Record()), x)
      ensures err == Failure(refName, x) && ok == err.None?
      ensures ok <==> AllSucceed(refName, x)
    {
      isAuthenticated := false;
      if x.ecdhKey.Err? {
        return false, Some(x.ecdhKey.error);
      }
      if x.request.Err? {
        return false, Some(x.request.error);
      }
      if x.post.Err? {
        if |x.post.error.message| > 0 {
          return false, Some(x.post.error.message);
        } else {
          return false, Some(x.post.error.err);
        }
      }
      if x.response.Err? {
        return false, Some(x.response.error);
      }
      var resp := x.response.value;
      if resp.refName != refName || resp.nonce != x.nonce {
        return false, Some(INVALID_RESPONSE);
      }
      if x.secret.Err? {
        return false, Some(x.secret.error);
      }
      crypt := if x.crypt.Ok? then Some(x.crypt.value) else None;
      if x.crypt.Err? {
        return false, Some(x.crypt.error);
      }
      keyTimeoutAt := resp.timeoutAt;
      authIDKey := x.post.value;
      isAuthenticated := true;
      return true, None;
    }

    method Reset()
      modifies this`isAuthenticated
      ensures Record() == old(Record()).(isAuthenticated := false)
    {
      isAuthenticated := false;
    }

    method IsAuthenticated(now: nat) returns (r: bool)
      ensures r == Authenticated(Record(), now)
    {
      r := isAuthenticated && now / MILLISECOND < keyTimeoutAt;
    }

    /** Authenticates, and says in how many milliseconds to do so again. */
    method AuthCallback(x: Exchange, now: nat, retryMillis: int64) returns (delay: int64)
      modifies this
      ensures Record() == AfterExchange(refName, old(Record()), x)
      ensures delay == if Failure(refName, x).Some? then retryMillis else RenewalDelay(Record(), now)
    {
      var ok, err := Authenticate(x);
      if !ok {
        return retryMillis;
      }
      WrapAdd(keyTimeoutAt - now / MILLISECOND, -50);
      return Wrap64(Wrap64(keyTimeoutAt - now / MILLISECOND) - 50);
    }
  }

  /** Fifty milliseconds before the key expires, counted from the clock reading, in 64-bit
      arithmetic. */
  function RenewalDelay(a: Session, now: nat): (ms: int64) {
    Wrap64(a.keyTimeoutAt - Millis(now) - 50)
  }

  // ----- runs ------------------------------------------------------------------------

  /** The renewal timer: due at `at`, inside an exchange (which holds the mutex), or back
      from one and about to read the clock. */
  datatype Timer = Due(at: int) | Exchanging(x: Exchange) | Returning(ok: bool)

  datatype System = System(now: nat, session: Session, timer: Timer, started: seq<Exchange>)

  datatype Step =
    | Elapse(d: nat)
    | Begin(x: Exchange)
    | Finish
    | Schedule
    | Reset

  const START := System(0, NO_SESSION, Due(0), [])

  /** Everything but the passing of time and the exchange itself waits for the mutex. */
  predicate Enabled(s: System, step: Step) {
    match step
    case Elapse(_) => true
    case Begin(_) => s.timer.Due? && s.now >= s.timer.at
    case Finish => s.timer.Exchanging?
    case Schedule => s.timer.Returning?
    case Reset => !s.timer.Exchanging?
  }

  function Next(refName: string, retryMillis: int64, s: System, step: Step): (r: System)
    requires Enabled(s, step)
  {
    match step
    case Elapse(d) => s.(now := s.now + d)
    case Begin(x) =>
      s.(session := s.session.(isAuthenticated := false), timer := Exchanging(x), started := s.started + [x])
    case Finish =>
      s.(session := AfterExchange(refName, s.session, s.timer.x),
         timer := Returning(Failure(refName, s.timer.x).None?))
    case Schedule =>
      var delay := if s.timer.ok then RenewalDelay(s.session, s.now) else retryMillis;
      s.(timer := Due(s.now + delay * MILLISECOND))
    case Reset => s.(session := s.session.(isAuthenticated := false))
  }

  ghost predicate Legal(refName: string, retryMillis: int64, s: System, steps: seq<Step>)
    decreases |steps|
  {
    steps == [] ||
    (Enabled(s, steps[0]) && Legal(refName, retryMillis, Next(refName, retryMillis, s, steps[0]), steps[1..]))
  }

  ghost function After(refName: string, retryMillis: int64, s: System, steps: seq<Step>): (r: System)
    requires Legal(refName, retryMillis, s, steps)
    decreases |steps|
  {
    if steps == [] then s
    else After(refName, retryMillis, Next(refName, retryMillis, s, steps[0]), steps[1..])
  }

  // ----- one exchange, the latest ---------------------------------------------------------

  /** A set flag means that the record is, as a whole, what the latest exchange made. */
  ghost predicate FromLatest(refName: string, s: System) {
    && (s.timer.Exchanging? ==>
          s.started != [] && s.timer.x == s.started[|s.started| - 1] && !s.session.isAuthenticated)
    && (s.session.isAuthenticated ==>
          s.started != [] && Establishes(refName, s.started[|s.started| - 1], s.session))
  }

  lemma {:induction false} FromLatestAlong(refName: string, retryMillis: int64, s: System, steps: seq<Step>)
    requires FromLatest(refName, s) && Legal(refName, retryMillis, s, steps)
    ensures FromLatest(refName, After(refName, retryMillis, s, steps))
    decreases |steps|
  {
    if steps != [] {
      FromLatestAlong(refName, retryMillis, Next(refName, retryMillis, s, steps[0]), steps[1..]);
    }
  }

  /** In every run of exchanges, failing anywhere or not, and resets: whenever the flag is
      set, cipher, expiry and ID key come from one exchange, its nonce and name matched,
      and no later exchange has been started. */
  lemma SessionIsFromLatestExchange(refName: string, retryMillis: int64, steps: seq<Step>)
    requires Legal(refName, retryMillis, START, steps)
    ensures var s := After(refName, retryMillis, START, steps);
            s.session.isAuthenticated ==>
              s.started != [] && Establishes(refName, s.started[|s.started| - 1], s.session)
  {
    FromLatestAlong(refName, retryMillis, START, steps);
  }

  // ----- no gap between sessions ----------------------------------------------------------

  /** The assumptions of an undisturbed run, about the state a step leads to: exchanges
      succeed, the timer is at most `lag` late, and a key still lives for 50 milliseconds
      when the callback reads the clock. */
  ghost predicate Undisturbed(refName: string, lag: nat, s: System) {
    match s.timer
    case Due(at) => s.now <= at + lag
    case Exchanging(x) => Failure(refName, x).None?
    case Returning(ok) => ok && Millis(s.now) + 50 <= s.session.keyTimeoutAt
  }

  ghost predicate Smooth(refName: string, retryMillis: int64, lag: nat, s: System, steps: seq<Step>)
    decreases |steps|
  {
    steps == [] ||
    (&& Enabled(s, steps[0]) && !steps[0].Reset?
     && var t := Next(refName, retryMillis, s, steps[0]);
     && Undisturbed(refName, lag, t) && Smooth(refName, retryMillis, lag, t, steps[1..]))
  }

  ghost function SmoothAfter(refName: string, retryMillis: int64, lag: nat, s: System, steps: seq<Step>)
    : (r: System)
    requires Smooth(refName, retryMillis, lag, s, steps)
    decreases |steps|
  {
    if steps == [] then s
    else SmoothAfter(refName, retryMillis, lag, Next(refName, retryMillis, s, steps[0]), steps[1..])
  }

  /** Once an exchange has begun, the session is valid whenever the mutex is free, and the
      timer is due early enough to keep it so. */
  ghost predicate Live(refName: string, lag: nat, s: System) {
    Undisturbed(refName, lag, s) &&
    (s.started != [] && !s.timer.Exchanging? ==>
       && s.session.isAuthenticated
       && Millis(s.now) < s.session.keyTimeoutAt
       && (s.timer.Due? ==> s.timer.at + lag < s.session.keyTimeoutAt * MILLISECOND))
  }

  const SAFE_LAG := 49 * MILLISECOND

  lemma LiveKept(refName: string, retryMillis: int64, lag: nat, s: System, step: Step)
    requires lag <= SAFE_LAG && Live(refName, lag, s) && Enabled(s, step) && !step.Reset?
    requires Undisturbed(refName, lag, Next(refName, retryMillis, s, step))
    requires s.timer.Exchanging? ==> s.started != []
    ensures Live(refName, lag, Next(refName, retryMillis, s, step))
  {
  }

  lemma {:induction false} LiveAlong(refName: string, retryMillis: int64, lag: nat, s: System, steps: seq<Step>)
    requires lag <= SAFE_LAG && Live(refName, lag, s) && Smooth(refName, retryMillis, lag, s, steps)
    requires s.timer.Exchanging? || s.timer.Returning? ==> s.started != []
    ensures Live(refName, lag, SmoothAfter(refName, retryMillis, lag, s, steps))
    decreases |steps|
  {
    if steps != [] {
      LiveKept(refName, retryMillis, lag, s, steps[0]);
      LiveAlong(refName, retryMillis, lag, Next(refName, retryMillis, s, steps[0]), steps[1..]);
    }
  }

  /** An observer, who needs the mutex, finds the session valid. */
  ghost predicate NoGap(s: System) {
    s.started != [] && !s.timer.Exchanging? ==> Authenticated(s.session, s.now)
  }

  /** In every undisturbed run with a lag of at most 49 milliseconds, nobody who gets hold
      of the mutex after the first exchange has begun ever finds the session invalid,
      however long exchanges take. */
  lemma SessionHasNoGaps(refName: string, retryMillis: int64, lag: nat, steps: seq<Step>)
    requires lag <= SAFE_LAG && Smooth(refName, retryMillis, lag, START, steps)
    ensures NoGap(SmoothAfter(refName, retryMillis, lag, START, steps))
  {
    LiveAlong(refName, retryMillis, lag, START, steps);
  }

  // ----- the lag bound is exact --------------------------------------------------------------

  lemma {:induction false} SmoothSnoc(refName: string, retryMillis: int64, lag: nat, s: System,
                                      steps: seq<Step>, step: Step)
    requires Smooth(refName, retryMillis, lag, s, steps) && !step.Reset?
    requires Enabled(SmoothAfter(refName, retryMillis, lag, s, steps), step)
    requires Undisturbed(refName, lag,
                         Next(refName, retryMillis, SmoothAfter(refName, retryMillis, lag, s, steps), step))
    ensures Smooth(refName, retryMillis, lag, s, steps + [step])
    ensures SmoothAfter(refName, retryMillis, lag, s, steps + [step]) ==
            Next(refName, retryMillis, SmoothAfter(refName, retryMillis, lag, s, steps), step)
    decreases |steps|
  {
    if steps == [] {
      assert steps + [step] == [step] && [step][1..] == [];
      assert Smooth(refName, retryMillis, lag, Next(refName, retryMillis, s, step), []);
    } else {
      SmoothSnoc(refName, retryMillis, lag, Next(refName, retryMillis, s, steps[0]), steps[1..], step);
      assert (steps + [step])[1..] == steps[1..] + [step];
    }
  }

  function Sample(refName: string): (x: Exchange)
    ensures Failure(refName, x).None? && x.response.value.timeoutAt == 100
  {
    Exchange(0, Ok(""), Ok(""), Ok("id"), Ok(RespKey("", 0, 100, refName)), Ok(""), Ok(Crypt("")))
  }

  /** A key good until 100 ms, with the clock read just before the first millisecond is
      over, is renewed so late that an observer gets in first. */
  lemma LateRenewal(refName: string, retryMillis: int64, lag: nat) returns (steps: seq<Step>)
    requires lag > SAFE_LAG
    ensures Smooth(refName, retryMillis, lag, START, steps)
    ensures !NoGap(SmoothAfter(refName, retryMillis, lag, START, steps))
  {
    var x := Sample(refName);
    steps := [];
    assert Smooth(refName, retryMillis, lag, START, steps);
    SmoothSnoc(refName, retryMillis, lag, START, steps, Begin(x));
    steps := steps + [Begin(x)];
    SmoothSnoc(refName, retryMillis, lag, START, steps, Finish);
    steps := steps + [Finish];
    SmoothSnoc(refName, retryMillis, lag, START, steps, Elapse(999_999));
    steps := steps + [Elapse(999_999)];
    SmoothSnoc(refName, retryMillis, lag, START, steps, Schedule);
    steps := steps + [Schedule];
    var s := SmoothAfter(refName, retryMillis, lag, START, steps);
    assert s.timer == Due(50_999_999);
    SmoothSnoc(refName, retryMillis, lag, START, steps, Elapse(50 * MILLISECOND + SAFE_LAG + 1));
    steps := steps + [Elapse(50 * MILLISECOND + SAFE_LAG + 1)];
  }

  /** Undisturbed runs are free of gaps if and only if the lag is at most 49 milliseconds:
      of the 50 that the callback allows, the truncated clock reading eats up to one. */
  lemma LagBoundIsExact(refName: string, retryMillis: int64, lag: nat)
    ensures (forall steps :: Smooth(refName, retryMillis, lag, START, steps) ==>
               NoGap(SmoothAfter(refName, retryMillis, lag, START, steps)))
            <==> lag <= SAFE_LAG
  {
    if lag <= SAFE_LAG {
      forall steps | Smooth(refName, retryMillis, lag, START, steps)
        ensures NoGap(SmoothAfter(refName, retryMillis, lag, START, steps))
      {
        SessionHasNoGaps(refName, retryMillis, lag, steps);
      }
    } else {
      var steps := LateRenewal(refName, retryMillis, lag);
    }
  }
}
