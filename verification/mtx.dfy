/**
 Model of `Mtx<T>`: a value reachable only through `with_lock`.

 Locking is not modelled: each call runs the callback atomically on the held
 value, so `with_lock` is plain function application. A callback is a pure
 function from the value before the call to the value after it and the
 callback's own result.
 */
module Mtx {

  /** The exclusive (non-const) `with_lock`: the callback may replace the value. */
  function WithLock<T, R>(value: T, f: T -> (T, R)): (T, R)
  {
    f(value)
  }
}
