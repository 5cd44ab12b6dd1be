# Sequential model of `thread_pool_steal.cpp`

The repository is one C++ file of concurrency primitives:

- `Mtx<T>`: a value behind a `std::shared_mutex`, reached only through `with_lock`.
- `CV<T>`: an `Mtx<T>` with a `std::condition_variable_any`, offering predicate waits with and without a `std::stop_token`.
- `SafeQueue<T>`: a `std::queue<T>` inside a `CV`, with `Push`, `Pop` and `WaitForOne`.
- `Awaiter`: a move-only owner of one `std::coroutine_handle<>`.

Locking and blocking are not modelled. `Push` and `Pop` each run their whole callback under the exclusive `with_lock`, so each is one atomic call, and the queue's history is a sequence of such calls in lock order. `WaitForOne` is different. `CV::wait` takes its own `std::unique_lock` on the same mutex and releases it while asleep. Its predicate runs once per check, each time under that lock. This project models what happens inside each critical section: a whole `Push` or `Pop`, or one check of a wait. It also models the ownership state machine of `Awaiter`.

- `mtx.dfy` (module `Mtx`): the exclusive `with_lock` is function application. Its callback returns the new value and a result. The queue uses only this overload.
- `condvar.dfy` (module `CondVar`): one check of `CV::wait(func, stop)` follows section [thread.condvarany.intwait] of the C++20 standard: while no stop is requested, return true if the predicate holds, otherwise sleep; once stop is requested, return the predicate's value. A whole wait is the sequence of states its checks observe. The wait without a token is the same loop with no stop flag.
- `safe_queue.dfy` (module `SafeQueue`): the queue is a `seq<T>`, front first. `Pop` returns an `Option`. `WaitForOne` uses the predicate exactly as written, "the queue is empty". That predicate is the reverse of what the name suggests: the wait ends when the queue becomes empty (or stop is requested), not when an item arrives. `Push` never notifies. The model keeps both as written; `WaitForOneIgnoresPushes` pins down the consequence.
- `awaiter.dfy` (module `CoroutineAwaiter`): an awaiter is `Holds(h)` or `Empty`. Calls into the coroutine runtime (`handle_()` and `handle_.destroy()`) are recorded as `Ran(h, threw)` / `Destroyed(h)` events. A program over named awaiters is a `World`, which also counts every hand-over of a handle to an awaiter. `SingleOwnership` proves three things. No handle is destroyed twice, and none is run or held after being destroyed. Each hand-over is used up exactly once, either by a run that returned or by a destroy, unless an awaiter still holds the handle. So once no awaiter is left, every handle given to an awaiter has been run or destroyed.
- `wrappers.dfy` (module `Wrappers`): `Option`.

`Awaiter` has only a move constructor (`Awaiter(Awaiter&&)`). Because that constructor is user-declared, no move assignment is generated. The destination's `handle_` is therefore always null when the body starts, because of its default member initializer (src/thread_pool_steal.cpp:88). So the body's destroy branch (src/thread_pool_steal.cpp:75-77) never fires. `MoveBody` models the body on any destination; `MoveConstruct` is the constructor as it actually runs.

## Model

| member | source | states |
|---|---|---|
| CondVar.Check | src/thread_pool_steal.cpp:46-51 | one check of the cancellable wait ends it iff the predicate holds or stop is requested; it then reports the predicate, so stop alone never reports true and a true predicate always does |
| CondVar.WaitStep | src/thread_pool_steal.cpp:46-51 | the same decision with the predicate evaluated on the guarded value under the lock |
| CondVar.RunWait | src/thread_pool_steal.cpp:46-51 | a whole cancellable wait returns at the first check that sees the predicate or a stop request, and returns the predicate's value there; it is still asleep iff no check saw either |
| CondVar.StopEndsWaitBy | src/thread_pool_steal.cpp:46-51 | once a check sees a stop request the wait has returned by then, without any notify, and it reports true only if the predicate held where it returned |
| CondVar.RunPlainWait | src/thread_pool_steal.cpp:39-44 | the wait without a token returns at the first check where the predicate holds; it is still asleep iff no check found it true |
| CondVar.PlainWaitIsNeverStoppedWait | src/thread_pool_steal.cpp:39-44 | the wait without a token returns at the first check where the predicate holds, which is where a cancellable wait that is never stopped returns true |
| SafeQueue.Push | src/thread_pool_steal.cpp:94-96 | the queue grows by exactly one, earlier elements keep their places, and the pushed value is last |
| SafeQueue.Pop | src/thread_pool_steal.cpp:98-108 | on an empty queue: no value and the queue is unchanged; otherwise: the front element, and the rest stays in order, one shorter |
| SafeQueue.PushPopConserve | src/thread_pool_steal.cpp:94-108 | push adds exactly the pushed value to the contents; pop removes exactly the value it returns, or nothing |
| SafeQueue.PushThenPop | src/thread_pool_steal.cpp:94-108 | a push does not change what the next pop returns, unless the queue was empty, in which case the pop returns the pushed value |
| SafeQueue.PushAllAppends | src/thread_pool_steal.cpp:94-96 | successive pushes append the values to the back in push order |
| SafeQueue.PopManyTakesFront | src/thread_pool_steal.cpp:98-108 | n successive pops return the first n elements front first, then no value for each extra pop, and leave the rest |
| SafeQueue.FifoRoundTrip | src/thread_pool_steal.cpp:94-108 | pushing xs onto an empty queue and popping one more time than that returns xs in order, then no value, and leaves the queue empty |
| SafeQueue.TwoPushesThreePops | src/thread_pool_steal.cpp:94-108 | `Push(a); Push(b)` on a new queue, then three pops, returns `a`, `b`, no value |
| SafeQueue.WaitForOneCheck | src/thread_pool_steal.cpp:110-112 | one check of `WaitForOne` leaves the queue unchanged and ends the wait iff the queue is empty or stop is requested |
| SafeQueue.WaitForOne | src/thread_pool_steal.cpp:110-112 | `WaitForOne` returns at the first check that sees an empty queue or a stop request; it is still asleep iff no check saw either |
| SafeQueue.WaitForOneIgnoresPushes | src/thread_pool_steal.cpp:94-112 | without a stop request, a `WaitForOne` that starts on a non-empty queue sleeps through any number of pushes; on an empty queue it returns at its first check |
| CoroutineAwaiter.FromHandle | src/thread_pool_steal.cpp:57-67 | the default awaiter and one built from a null handle are empty; one built from a handle holds exactly that handle |
| CoroutineAwaiter.Destroy | src/thread_pool_steal.cpp:60-64 | the destructor destroys a handle iff it holds one, and destroys only that one |
| CoroutineAwaiter.Resume | src/thread_pool_steal.cpp:82-85 | requires a held handle; runs it exactly once; leaves the awaiter empty when the call returns, and still holding the handle when an exception escapes the call |
| CoroutineAwaiter.MoveBody | src/thread_pool_steal.cpp:70-80 | a self-move changes nothing; otherwise the destination's own handle (if any) is destroyed, the destination takes the source's handle, and the source is left empty |
| CoroutineAwaiter.MoveConstruct | src/thread_pool_steal.cpp:70-88 | as a constructor, the move transfers the handle, leaves the source empty and destroys nothing |
| CoroutineAwaiter.Step | src/thread_pool_steal.cpp:57-89 | each operation makes at most one runtime call and only appends it to the log; only constructing from a handle adds a hand-over, exactly one, of that handle |
| CoroutineAwaiter.Run | src/thread_pool_steal.cpp:57-89 | a whole program only appends to the log, with at most one runtime call per operation |
| CoroutineAwaiter.StepPreservesSound | src/thread_pool_steal.cpp:57-89 | construct, move, resume (returning or throwing) and destroy each preserve the invariant: at most one awaiter holds a handle, none holds a destroyed handle, nothing is run or destroyed after being destroyed, and each hand-over of a handle is still held or was used up exactly once by a returning run or a destroy |
| CoroutineAwaiter.RunPreservesSound | src/thread_pool_steal.cpp:57-89 | a whole well-formed program keeps that invariant |
| CoroutineAwaiter.SingleOwnership | src/thread_pool_steal.cpp:57-89 | starting from no awaiters: no handle is destroyed twice or run after being destroyed; no two awaiters hold the same handle and none holds a destroyed one; the number of hand-overs of each handle equals its returning runs plus destroys plus whether an awaiter holds it; once all awaiters are gone, hand-overs equal uses exactly |
| CoroutineAwaiter.ResumeThenDrop | src/thread_pool_steal.cpp:60-85 | resuming and then dropping an awaiter runs its handle once and never destroys it |
| CoroutineAwaiter.ThrowingResumeThenDrop | src/thread_pool_steal.cpp:60-85 | when an exception escapes `handle_()`, the null assignment is skipped, so the later destructor destroys the handle that was run |
| CoroutineAwaiter.RewrapAfterResume | src/thread_pool_steal.cpp:60-85 | a handle that one awaiter resumed and released can be wrapped by a new awaiter and resumed again; two hand-overs, two runs, and neither drop destroys it |
| CoroutineAwaiter.MoveThenDropBoth | src/thread_pool_steal.cpp:60-80 | after a move, dropping both awaiters destroys the handle exactly once |

## Left out

- Locking: `std::shared_mutex`, `lock_guard`, `shared_lock` and the shared-vs-exclusive distinction (src/thread_pool_steal.cpp:17-26). These are real concurrency, so each call is treated as atomic.
- The const `with_lock` overload (src/thread_pool_steal.cpp:22-26). No queue operation calls it, and apart from the lock mode it is the same function application as the exclusive overload.
- `notify_one` / `notify_all` (src/thread_pool_steal.cpp:36-37) and actual blocking in `condition_variable_any`. Wake-ups, spurious wake-ups and lost notifications are not sequential behaviour. A wait is modelled only by the states its checks observe.
- `Push` never notifies, so a waiter is woken only spuriously or by a stop request. This is a fact about thread wake-ups, not about the sequential state, so it is only noted here.
- `std::stop_token` is a plain boolean observed at each check. Its thread safety and the stop callback that wakes the waiter are not modelled.
- What `handle_()` and `handle_.destroy()` actually do inside the coroutine runtime. These are foreign calls, recorded only as events.
- Whether a coroutine frame is ever freed after a run. `resume()` runs the handle and then lets go of it without destroying it (src/thread_pool_steal.cpp:83-84). A coroutine that suspends again is then owned by no awaiter. Whether its frame is freed depends on the coroutine itself and the runtime. The model only promises that every hand-over was used up by a run or a destroy.
- Ill-formed awaiter programs: `Step` rejects some programs. It rejects giving an awaiter a handle that another awaiter currently holds, since both would later destroy it. It rejects giving an awaiter a handle that has already been destroyed, since that handle is dangling. It rejects resuming an empty awaiter, which is undefined behaviour in the code. It rejects naming an awaiter that does not exist. The code checks none of these. A handle that was resumed and released may be wrapped again.
- The value `CV::wait(func, stop)` returns is discarded by `WaitForOne`, which returns `void`. The model computes it but `WaitForOneCheck` only reports whether the wait is over.
- `main` (src/thread_pool_steal.cpp:118-127) and the unused `fmt` include.
