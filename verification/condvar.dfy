/**
 Model of the decision `CV<T>::wait` takes each time it checks its predicate.

 `CV::wait(func, stop)` hands the predicate to
 `std::condition_variable_any::wait(lock, stop_token, pred)`, which section
 [thread.condvarany.intwait] of the C++20 standard defines as

   while the stop token has no stop request:
     if pred() holds, return true
     sleep until notified, woken spuriously, or stop is requested
   return pred()

 Every check runs with the lock held, so one check is a pure function of the
 guarded value and the stop flag. Sleeping, notification and spurious
 wake-ups are not modelled; a whole wait is modelled as the sequence of
 observations made at its successive checks, however they were woken.
 */
module CondVar {
  import opened Wrappers

  /** What one check under the lock decides. */
  datatype Step = Return(value: bool) | Sleep

  /** The state seen by one check: the guarded value and the stop flag. */
  datatype Observation<T> = Observation(value: T, stopRequested: bool)

  /** How a wait ended: at which check, and what it returned. */
  datatype Outcome = Outcome(check: nat, result: bool)

  /**
   One check of the cancellable wait, given the predicate's value on the
   guarded value and the stop flag. The wait ends exactly when the predicate
   holds or stop is requested, and it then reports the predicate's value: a
   stop request alone never reports true, and a true predicate is reported as
   true whatever the stop flag says.
   */
  function Check(pred: bool, stopRequested: bool): (s: Step)
    ensures s.Return? <==> pred || stopRequested
    ensures s.Return? ==> (s.value <==> pred)
  {
    if stopRequested then Return(pred)
    else if pred then Return(true)
    else Sleep
  }

  /** `CV::wait(func, stop)` at one check: the predicate runs on the guarded value. */
  function WaitStep<T>(value: T, pred: T -> bool, stopRequested: bool): (s: Step)
    ensures s.Return? <==> pred(value) || stopRequested
    ensures s.Return? ==> (s.value <==> pred(value))
  {
    Check(pred(value), stopRequested)
  }

  /** The observation lets the wait return: the predicate holds or stop is requested. */
  predicate Wakes<T>(o: Observation<T>, pred: T -> bool)
  {
    pred(o.value) || o.stopRequested
  }

  /**
   A whole cancellable wait over the observations made at its checks. It
   returns at the first check where the predicate holds or stop is requested,
   with the predicate's value at that check, and it is still asleep (`None`)
   exactly when no check so far has seen either.
   */
  function RunWait<T>(obs: seq<Observation<T>>, pred: T -> bool): (r: Option<Outcome>)
    ensures r.None? <==> forall i :: 0 <= i < |obs| ==> !Wakes(obs[i], pred)
    ensures r.Some? ==>
      && r.value.check < |obs|
      && Wakes(obs[r.value.check], pred)
      && (forall i :: 0 <= i < r.value.check ==> !Wakes(obs[i], pred))
      && (r.value.result <==> pred(obs[r.value.check].value))
  {
    if |obs| == 0 then None
    else match WaitStep(obs[0].value, pred, obs[0].stopRequested)
      case Return(b) => Some(Outcome(0, b))
      case Sleep =>
        assert forall i :: 1 <= i < |obs| ==> obs[i] == obs[1..][i - 1];
        match RunWait(obs[1..], pred)
        case None => None
        case Some(o) => Some(Outcome(o.check + 1, o.result))
  }

  /**
   Stop is prompt: once a check observes a stop request, the wait has
   returned by that check, with no notification needed, and it reports
   true only if the predicate held where it returned.
   */
  lemma StopEndsWaitBy<T>(obs: seq<Observation<T>>, pred: T -> bool, k: nat)
    requires k < |obs| && obs[k].stopRequested
    ensures RunWait(obs, pred).Some?
    ensures RunWait(obs, pred).value.check <= k
    ensures RunWait(obs, pred).value.result <==> pred(obs[RunWait(obs, pred).value.check].value)
  {
    assert Wakes(obs[k], pred);
  }

  /**
   The wait without a stop token, `CV::wait(func)`, i.e.
   `condition_variable_any::wait(lock, pred)`: it sleeps until a check finds
   the predicate true. `Some(i)` is the first check where it holds; `None`
   means no check so far has found it.
   */
  function RunPlainWait<T>(values: seq<T>, pred: T -> bool): (r: Option<nat>)
    ensures r.None? <==> forall i :: 0 <= i < |values| ==> !pred(values[i])
    ensures r.Some? ==>
      && r.value < |values|
      && pred(values[r.value])
      && forall i :: 0 <= i < r.value ==> !pred(values[i])
  {
    if |values| == 0 then None
    else if pred(values[0]) then Some(0)
    else
      assert forall i :: 1 <= i < |values| ==> values[i] == values[1..][i - 1];
      match RunPlainWait(values[1..], pred)
      case None => None
      case Some(i) => Some(i + 1)
  }

  /**
   The wait without a stop token is the cancellable wait whose stop flag is
   never set: it returns at the same check, and what it would report there is
   true.
   */
  lemma {:induction false} PlainWaitIsNeverStoppedWait<T>(values: seq<T>, pred: T -> bool)
    ensures
      var obs := seq(|values|, i requires 0 <= i < |values| => Observation(values[i], false));
      match RunPlainWait(values, pred)
      case None => RunWait(obs, pred).None?
      case Some(i) => RunWait(obs, pred) == Some(Outcome(i, true))
  {
    var obs := seq(|values|, i requires 0 <= i < |values| => Observation(values[i], false));
    if |values| > 0 && !pred(values[0]) {
      PlainWaitIsNeverStoppedWait(values[1..], pred);
      var obs' := seq(|values[1..]|, i requires 0 <= i < |values[1..]| => Observation(values[1..][i], false));
      assert obs[1..] == obs';
    }
  }
}
