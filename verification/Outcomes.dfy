/** What processing one item can produce, and the serial run every ordered stage must reproduce. */
module Outcomes {

  datatype Option<+T> = None | Some(value: T)

  /** `Canceled` is the context's own error; every other failure is the user function's. */
  datatype Error = Canceled | UserError(id: nat)

  /**
   * The result of handling one item after retries: values to send on (one for Map, any number for
   * FlatMap, none for ForEach), nothing because the handler dropped the item, or a halting error.
   */
  datatype Outcome<+O> = Emit(values: seq<O>) | Skip | Fail(error: Error)

  /** What a stage hands downstream, and the error it returns (None when it ends normally). */
  datatype RunResult<+O> = RunResult(out: seq<O>, err: Option<Error>)

  /** The serial loop started at item `i`: handle items in order and stop at the first halting error. */
  function SerialFrom<O>(os: seq<Outcome<O>>, i: nat): RunResult<O>
    requires i <= |os|
    decreases |os| - i
  {
    if i == |os| then RunResult([], None)
    else match os[i]
      case Skip => SerialFrom(os, i + 1)
      case Emit(vs) => Prepend(vs, SerialFrom(os, i + 1))
      case Fail(e) => RunResult([], Some(e))
  }

  function Serial<O>(os: seq<Outcome<O>>): RunResult<O> {
    SerialFrom(os, 0)
  }

  function Prepend<O>(vs: seq<O>, r: RunResult<O>): RunResult<O> {
    RunResult(vs + r.out, r.err)
  }

  /** How many values items `i` onwards can still produce. */
  function ValuesFrom<O>(os: seq<Outcome<O>>, i: nat): nat
    requires i <= |os|
    decreases |os| - i
  {
    if i == |os| then 0
    else (if os[i].Emit? then |os[i].values| else 0) + ValuesFrom(os, i + 1)
  }

  /** The values of the first `n` items, when none of them fails. */
  function ValuesBefore<O>(os: seq<Outcome<O>>, n: nat): seq<O>
    requires n <= |os|
  {
    if n == 0 then []
    else ValuesBefore(os, n - 1) + (if os[n - 1].Emit? then os[n - 1].values else [])
  }

  /**
   * The closed form of the serial loop: with no failing item it emits everything and ends normally;
   * otherwise it emits exactly the values before the lowest failing index and returns that error.
   */
  lemma {:induction false} SerialStopsAtFirstFailure<O>(os: seq<Outcome<O>>, p: nat)
    requires p <= |os|
    requires forall i :: 0 <= i < p ==> !os[i].Fail?
    requires p == |os| || os[p].Fail?
    ensures Serial(os) ==
            RunResult(ValuesBefore(os, p), if p == |os| then None else Some(os[p].error))
  {
    var k := p;
    while k > 0
      invariant 0 <= k <= p
      invariant Prepend(ValuesBefore(os, k), SerialFrom(os, k)) ==
                RunResult(ValuesBefore(os, p), if p == |os| then None else Some(os[p].error))
    {
      var r := SerialFrom(os, k);
      k := k - 1;
      if os[k].Emit? {
        assert ValuesBefore(os, k) + (os[k].values + r.out) == ValuesBefore(os, k + 1) + r.out;
      } else {
        assert ValuesBefore(os, k) + [] == ValuesBefore(os, k + 1);
      }
    }
  }
}
