/** A monitor counter (monitors/counter.go): what each operation does to its
    state, and the object whose methods carry those operations out. */
module Counters {
  import opened GoInts
  import opened Outcomes

  /** The fields guarded by one counter's lock. */
  datatype CounterState = CounterState(
    cumulative: bool,
    ignoreZeroSnapshots: bool,
    incBy: int64,
    value: int64,
    cumulativeValue: int64)

  datatype Update = Set(reading: int64) | SetInc(increment: int64) | Inc | Add(amount: int64)

  function Fresh(cumulative: bool, ignoreZeroSnapshots: bool): (c: CounterState) {
    CounterState(cumulative, ignoreZeroSnapshots, 1, 0, 0)
  }

  function Get(c: CounterState): (v: int64) {
    Wrap64(c.value + c.cumulativeValue)
  }

  /** Whether collecting yields a snapshot; its value is then `c.value`. */
  predicate Emits(c: CounterState) {
    !c.ignoreZeroSnapshots || c.value != 0
  }

  function Emitted(c: CounterState): (v: int64) {
    if Emits(c) then c.value else 0
  }

  function AfterCollect(c: CounterState): (r: CounterState) {
    if Emits(c) && c.cumulative
    then c.(cumulativeValue := Wrap64(c.cumulativeValue + c.value), value := 0)
    else c
  }

  function AfterUpdate(c: CounterState, u: Update): (r: CounterState) {
    match u
    case Set(v) => c.(value := if c.cumulative then Wrap64(v - c.cumulativeValue) else v)
    case SetInc(n) => c.(incBy := n)
    case Inc => c.(value := Wrap64(c.value + c.incBy))
    case Add(v) => c.(value := Wrap64(c.value + v))
  }

  /** A gauge keeps nothing in `cumulativeValue`. */
  predicate Sound(c: CounterState) {
    c.cumulative || c.cumulativeValue == 0
  }

  /** Collecting never moves what `Get` returns. */
  lemma CollectKeepsGet(c: CounterState)
    ensures Get(AfterCollect(c)) == Get(c)
  {
  }

  /** `Get` reads what was last set, whatever has been collected before. */
  lemma GetAfterSet(c: CounterState, v: int64)
    requires Sound(c)
    ensures Get(AfterUpdate(c, Set(v))) == v
  {
    if c.cumulative {
      WrapAdd(v - c.cumulativeValue, c.cumulativeValue);
    }
  }

  /** `Get` moves by what is added. */
  lemma GetAfterAdd(c: CounterState, v: int64)
    ensures Get(AfterUpdate(c, Add(v))) == Wrap64(Get(c) + v)
    ensures v == c.incBy ==> AfterUpdate(c, Inc) == AfterUpdate(c, Add(v))
  {
    WrapSwap(c.value, v, c.cumulativeValue);
  }

  /** `SetInc` decides how far the next `Inc` moves `Get`, and moves nothing itself. */
  lemma IncMovesByIncrement(c: CounterState, n: int64)
    ensures Get(AfterUpdate(c, SetInc(n))) == Get(c)
    ensures Get(AfterUpdate(AfterUpdate(c, SetInc(n)), Inc)) == Wrap64(Get(c) + n)
  {
    GetAfterAdd(AfterUpdate(c, SetInc(n)), n);
  }

  /** One collection hands over exactly what it removes if and only if the counter
      is cumulative or holds zero: a non-zero gauge is reported and kept. */
  lemma CollectConserves(c: CounterState)
    ensures AfterCollect(c).value + Emitted(c) == c.value <==> c.cumulative || c.value == 0
  {
  }

  /** The counter object. Each method is one critical section of `counterLock`. */
  class Counter {
    const name: string
    const cumulative: bool
    const ignoreZeroSnapshots: bool
    var incBy: int64
    var value: int64
    var cumulativeValue: int64

    constructor (name: string, cumulative: bool, ignoreZeroSnapshots: bool)
      ensures this.name == name
      ensures State() == Fresh(cumulative, ignoreZeroSnapshots)
    {
      this.name := name;
      this.cumulative := cumulative;
      this.ignoreZeroSnapshots := ignoreZeroSnapshots;
      incBy, value, cumulativeValue := 1, 0, 0;
    }

    function State(): (c: CounterState)
      reads this
    {
      CounterState(cumulative, ignoreZeroSnapshots, incBy, value, cumulativeValue)
    }

    method Collect() returns (snapshot: Option<int64>)
      modifies this
      ensures State() == AfterCollect(old(State()))
      ensures snapshot == if old(Emits(State())) then Some(old(value)) else None
    {
      if !ignoreZeroSnapshots || value != 0 {
        snapshot := Some(value);
        if cumulative {
          cumulativeValue := Wrap64(cumulativeValue + value);
          value := 0;
        }
      } else {
        snapshot := None;
      }
    }

    method GetValue() returns (v: int64)
      ensures v == Get(State())
    {
      v := Wrap64(value + cumulativeValue);
    }

    method SetIncrement(n: int64)
      modifies this`incBy
      ensures State() == AfterUpdate(old(State()), SetInc(n))
    {
      incBy := n;
    }

    method SetValue(v: int64)
      modifies this`value
      ensures State() == AfterUpdate(old(State()), Set(v))
    {
      if cumulative {
        value := Wrap64(v - cumulativeValue);
      } else {
        value := v;
      }
    }

    method Increment()
      modifies this`value
      ensures State() == AfterUpdate(old(State()), Inc)
    {
      value := Wrap64(value + incBy);
    }

    method AddValue(v: int64)
      modifies this`value
      ensures State() == AfterUpdate(old(State()), Add(v))
    {
      value := Wrap64(value + v);
    }
  }
}
