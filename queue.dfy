/** The serial promise queue `Promise.map(objects, iteratee)` of index.js.

    A step is the iteratee applied to one element.  It is a function of the element,
    its index and everything the earlier steps did (`effects`): this is how the model
    says that a step starts only after the previous one has settled.  A step
    settles with the effects it produced and either its result or a rejection. */
module Queue {
  import opened Js

  datatype Settled<E, R> = Settled(effects: seq<E>, outcome: Result<R>)

  type Step<!T, !E, R> = (T, nat, seq<E>) -> Settled<E, R>

  /** The queue from element `k` on, with the effects and results gathered so far. */
  function SerialFrom<T, E, R>(objects: seq<T>, step: Step<T, E, R>, k: nat, effects: seq<E>, results: seq<R>): Settled<E, seq<R>>
    requires k <= |objects|
    decreases |objects| - k
  {
    if k == |objects| then Settled(effects, Ok(results))
    else
      var s := step(objects[k], k, effects);
      match s.outcome
      case Err(m) => Settled(effects + s.effects, Err(m))
      case Ok(r) => SerialFrom(objects, step, k + 1, effects + s.effects, results + [r])
  }

  /** `Promise.map(objects, iteratee)` */
  function Serial<T, E, R>(objects: seq<T>, step: Step<T, E, R>): Settled<E, seq<R>> {
    SerialFrom(objects, step, 0, [], [])
  }

  /** What the first `k` steps did, when none of them rejected. */
  function History<T, E, R>(objects: seq<T>, step: Step<T, E, R>, k: nat): seq<E>
    requires k <= |objects|
    decreases k
  {
    if k == 0 then []
    else
      var h := History(objects, step, k - 1);
      h + step(objects[k - 1], k - 1, h).effects
  }

  /** How step `k` settles after the steps before it. */
  function StepAt<T, E, R>(objects: seq<T>, step: Step<T, E, R>, k: nat): Settled<E, R>
    requires k < |objects|
  {
    step(objects[k], k, History(objects, step, k))
  }

  /** None of the first `n` steps rejected. */
  predicate OkUpTo<T, E, R>(objects: seq<T>, step: Step<T, E, R>, n: nat)
    requires n <= |objects|
  {
    forall i :: 0 <= i < n ==> StepAt(objects, step, i).outcome.Ok?
  }

  /** The queue resolves with one result per element, in order, exactly when no step
      rejects; otherwise it rejects with the message of the first rejecting step, and
      no later step runs. */
  ghost predicate QueueSpec<T, E, R>(objects: seq<T>, step: Step<T, E, R>, s: Settled<E, seq<R>>) {
    (s.outcome.Ok? <==> OkUpTo(objects, step, |objects|)) &&
    (s.outcome.Ok? ==>
      s.effects == History(objects, step, |objects|) &&
      |s.outcome.value| == |objects| &&
      forall i :: 0 <= i < |objects| ==> s.outcome.value[i] == StepAt(objects, step, i).outcome.value) &&
    (s.outcome.Err? ==>
      exists j :: 0 <= j < |objects| && OkUpTo(objects, step, j) &&
        StepAt(objects, step, j).outcome.Err? &&
        s.outcome.msg == StepAt(objects, step, j).outcome.msg &&
        s.effects == History(objects, step, j) + StepAt(objects, step, j).effects)
  }

  lemma {:induction false} SerialFromSpec<T, E, R>(objects: seq<T>, step: Step<T, E, R>, k: nat, effects: seq<E>, results: seq<R>)
    requires k <= |objects|
    requires OkUpTo(objects, step, k)
    requires effects == History(objects, step, k)
    requires |results| == k
    requires forall i :: 0 <= i < k ==> results[i] == StepAt(objects, step, i).outcome.value
    ensures QueueSpec(objects, step, SerialFrom(objects, step, k, effects, results))
    decreases |objects| - k
  {
    var out := SerialFrom(objects, step, k, effects, results);
    if k < |objects| {
      var s := step(objects[k], k, effects);
      assert s == StepAt(objects, step, k);
      if s.outcome.Ok? {
        var results' := results + [s.outcome.value];
        assert OkUpTo(objects, step, k + 1);
        SerialFromSpec(objects, step, k + 1, effects + s.effects, results');
      } else {
        assert out.outcome.Err?;
        assert !OkUpTo(objects, step, |objects|);
      }
    }
  }

  lemma SerialMeetsSpec<T, E, R>(objects: seq<T>, step: Step<T, E, R>)
    ensures QueueSpec(objects, step, Serial(objects, step))
  {
    SerialFromSpec(objects, step, 0, [], []);
  }

  /** The effects of `f` on every element, element after element. */
  function ConcatMap<T, E>(objects: seq<T>, f: T -> seq<E>): seq<E>
    decreases |objects|
  {
    if objects == [] then [] else ConcatMap(objects[..|objects| - 1], f) + f(objects[|objects| - 1])
  }

  /** When what a settled step did depends only on its element, the effects of the
      first `k` steps are those of their elements, in order. */
  lemma {:induction false} HistoryConcat<T, E, R>(objects: seq<T>, step: Step<T, E, R>, f: T -> seq<E>, k: nat)
    requires k <= |objects| && OkUpTo(objects, step, k)
    requires forall i :: 0 <= i < k ==> StepAt(objects, step, i).effects == f(objects[i])
    ensures History(objects, step, k) == ConcatMap(objects[..k], f)
  {
    if k > 0 {
      HistoryConcat(objects, step, f, k - 1);
      assert objects[..k][..k - 1] == objects[..k - 1];
    }
  }

  /** A queue that resolved had no step reject. */
  lemma SerialOk<T, E, R>(objects: seq<T>, step: Step<T, E, R>)
    requires Serial(objects, step).outcome.Ok?
    ensures forall i :: 0 <= i < |objects| ==> StepAt(objects, step, i).outcome.Ok?
  {
    SerialMeetsSpec(objects, step);
  }

  /** A queue that resolved did, in order, what each of its elements' steps did. */
  lemma SerialEffects<T, E, R>(objects: seq<T>, step: Step<T, E, R>, f: T -> seq<E>)
    requires Serial(objects, step).outcome.Ok?
    requires forall i :: 0 <= i < |objects| && StepAt(objects, step, i).outcome.Ok? ==>
      StepAt(objects, step, i).effects == f(objects[i])
    ensures Serial(objects, step).effects == ConcatMap(objects, f)
  {
    SerialMeetsSpec(objects, step);
    HistoryConcat(objects, step, f, |objects|);
    assert objects[..|objects|] == objects;
  }

  /** With nothing to iterate over the queue resolves to [] without running anything. */
  lemma SerialEmpty<T, E, R>(step: Step<T, E, R>)
    ensures Serial([], step) == Settled([], Ok([]))
  {
  }

  /** A queue of one element whose step rejects rejects the same way, with that step's effects. */
  lemma SerialOneFails<T, E, R>(x: T, step: Step<T, E, R>)
    requires step(x, 0, []).outcome.Err?
    ensures Serial([x], step) == Settled(step(x, 0, []).effects, Err(step(x, 0, []).outcome.msg))
  {
    assert [] + step(x, 0, []).effects == step(x, 0, []).effects;
  }

  /** The queue itself: each step is chained onto the previous one and its result is
      pushed onto `results`. */
  method SerialQueue<T, E, R>(objects: seq<T>, step: Step<T, E, R>) returns (s: Settled<E, seq<R>>)
    ensures s == Serial(objects, step)
    ensures QueueSpec(objects, step, s)
  {
    SerialMeetsSpec(objects, step);
    var effects: seq<E> := [];
    var results: seq<R> := [];
    var k := 0;
    while k < |objects|
      invariant k <= |objects|
      invariant SerialFrom(objects, step, k, effects, results) == Serial(objects, step)
    {
      var r := step(objects[k], k, effects);
      effects := effects + r.effects;
      if r.outcome.Err? {
        return Settled(effects, Err(r.outcome.msg));
      }
      results := results + [r.outcome.value];
      k := k + 1;
    }
    s := Settled(effects, Ok(results));
  }
}
