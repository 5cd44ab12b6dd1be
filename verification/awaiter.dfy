/**
 Model of `Awaiter`: a move-only owner of at most one coroutine handle.

 The awaiter's only state is `handle_`, null or a handle, so an awaiter
 either holds a handle or is empty. Calling a handle (`handle_()`) and
 destroying it (`handle_.destroy()`) are calls into the coroutine runtime;
 their effect is not modelled, only the fact that they happened, recorded as
 events in call order.
 */
module CoroutineAwaiter {
  import opened Wrappers

  /** The identity of a coroutine frame. */
  type Handle = nat

  datatype Awaiter = Holds(h: Handle) | Empty

  /**
   A call the awaiter makes into the coroutine runtime: running a handle
   (`threw` when an exception escaped the call) or destroying it.
   */
  datatype Event = Ran(h: Handle, threw: bool) | Destroyed(h: Handle)

  /**
   `Awaiter()` and `Awaiter(handle)`: the default awaiter and one built from
   a null handle are empty; one built from a handle holds that handle.
   */
  function FromHandle(raw: Option<Handle>): (a: Awaiter)
    ensures a.Holds? <==> raw.Some?
    ensures a.Holds? ==> a.h == raw.value
  {
    match raw
    case None => Empty
    case Some(h) => Holds(h)
  }

  /** `~Awaiter()`: destroys the handle if and only if one is held, and only that one. */
  function Destroy(a: Awaiter): (events: seq<Event>)
    ensures a.Empty? <==> events == []
    ensures a.Holds? ==> events == [Destroyed(a.h)]
  {
    if a.Holds? then [Destroyed(a.h)] else []
  }

  /** The awaiter after a call, and the runtime calls it made. */
  datatype Effect = Effect(awaiter: Awaiter, events: seq<Event>)

  /**
   `resume()`: runs the held handle once. Calling a null handle is undefined
   behaviour, so the awaiter must hold one. If the call returns, the awaiter
   forgets the handle; if an exception escapes it (`threw`), the assignment
   of null is skipped and the awaiter still holds the handle.
   */
  function Resume(a: Awaiter, threw: bool): (r: Effect)
    requires a.Holds?
    ensures !threw ==> r.awaiter.Empty?
    ensures threw ==> r.awaiter == a
    ensures r.events == [Ran(a.h, threw)]
  {
    Effect(if threw then a else Empty, [Ran(a.h, threw)])
  }

  /** Both awaiters after a move, and the runtime calls the move made. */
  datatype Moved = Moved(dst: Awaiter, src: Awaiter, events: seq<Event>)

  /**
   The body of `Awaiter(Awaiter&& rhs)` run on a destination in state `dst`.
   When `rhs` is the object itself (`aliased`) nothing happens. Otherwise
   the destination's own handle, if any, is destroyed, the destination takes
   over the source's handle, and the source is left empty.
   */
  function MoveBody(dst: Awaiter, src: Awaiter, aliased: bool): (r: Moved)
    requires aliased ==> dst == src
    ensures aliased ==> r == Moved(dst, src, [])
    ensures !aliased ==> r.dst == src && r.src.Empty?
    ensures !aliased ==> (r.events == [] <==> dst.Empty?)
    ensures !aliased && dst.Holds? ==> r.events == [Destroyed(dst.h)]
  {
    if aliased then Moved(dst, src, [])
    else Moved(src, Empty, Destroy(dst))
  }

  /**
   `Awaiter(Awaiter&& rhs)` as a constructor: the new awaiter's `handle_` is
   null (its default member initializer) when the body starts, so the
   destination ends up with exactly the source's handle, the source ends up
   empty, and no handle is destroyed.
   */
  function MoveConstruct(src: Awaiter): (r: Moved)
    ensures r.dst == src
    ensures r.src.Empty?
    ensures r.events == []
  {
    MoveBody(FromHandle(None), src, false)
  }

  /**
   A program's awaiters, by name, with the runtime calls made so far and
   every hand-over of a handle to an awaiter (a handle wrapped twice counts
   twice).
   */
  datatype World = World(slots: map<nat, Awaiter>, log: seq<Event>, given: multiset<Handle>)

  /** One operation of a program on its awaiters. */
  datatype Op =
    | Construct(id: nat, raw: Option<Handle>)  // construct awaiter `id`, default or from a handle
    | ResumeCall(id: nat, threw: bool)         // `id.resume()`, possibly throwing
    | MoveInto(dst: nat, src: nat)             // construct awaiter `dst` from `std::move(src)`
    | Drop(id: nat)                            // `id` goes out of scope

  const Init := World(map[], [], multiset{})

  /** The runtime has been asked to destroy `h`. */
  predicate IsDestroyed(log: seq<Event>, h: Handle)
  {
    Destroyed(h) in log
  }

  /**
   One operation, or `None` when the program is ill-formed: naming an awaiter
   that does not exist, constructing one that already does, resuming an
   empty awaiter, or handing an awaiter a handle that another awaiter holds
   or that has been destroyed. A handle that was resumed and released may be
   wrapped again.
   */
  function Step(w: World, op: Op): (r: Option<World>)
    ensures r.Some? ==> w.log <= r.value.log && |r.value.log| <= |w.log| + 1
    ensures r.Some? ==> w.given <= r.value.given && |r.value.given| <= |w.given| + 1
    ensures r.Some? && op.Construct? && op.raw.Some? ==> r.value.given == w.given + multiset{op.raw.value}
    ensures r.Some? && !(op.Construct? && op.raw.Some?) ==> r.value.given == w.given
  {
    match op
    case Construct(id, raw) =>
      if id in w.slots || (raw.Some? && (raw.value in Held(w.slots) || IsDestroyed(w.log, raw.value)))
      then None
      else Some(World(w.slots[id := FromHandle(raw)], w.log,
                      if raw.Some? then w.given + multiset{raw.value} else w.given))
    case ResumeCall(id, threw) =>
      if id !in w.slots || w.slots[id].Empty? then None
      else
        var e := Resume(w.slots[id], threw);
        Some(World(w.slots[id := e.awaiter], w.log + e.events, w.given))
    case MoveInto(dst, src) =>
      if dst in w.slots || src !in w.slots then None
      else
        var m := MoveConstruct(w.slots[src]);
        Some(World(w.slots[src := m.src][dst := m.dst], w.log + m.events, w.given))
    case Drop(id) =>
      if id !in w.slots then None
      else Some(World(w.slots - {id}, w.log + Destroy(w.slots[id]), w.given))
  }

  /**
   A program run from `w`, or `None` if some operation is ill-formed. The
   log of runtime calls only grows, by at most one call per operation.
   */
  function Run(w: World, ops: seq<Op>): (r: Option<World>)
    ensures r.Some? ==> w.log <= r.value.log && |r.value.log| <= |w.log| + |ops|
    decreases |ops|
  {
    if |ops| == 0 then Some(w)
    else match Step(w, ops[0])
      case None => None
      case Some(w') => Run(w', ops[1..])
  }

  /** The handles some awaiter holds. */
  function Held(slots: map<nat, Awaiter>): set<Handle>
  {
    set i | i in slots && slots[i].Holds? :: slots[i].h
  }

  /**
   The event uses up a hand-over of `h`: `h` was run and the call returned
   (so the awaiter let go of it), or `h` was destroyed.
   */
  predicate Consumes(e: Event, h: Handle)
  {
    match e
    case Ran(x, threw) => x == h && !threw
    case Destroyed(x) => x == h
  }

  /** How many events of the log use up a hand-over of `h`. */
  function Uses(log: seq<Event>, h: Handle): nat
    decreases |log|
  {
    if |log| == 0 then 0
    else Uses(log[..|log| - 1], h) + if Consumes(log[|log| - 1], h) then 1 else 0
  }

  /** How many awaiters hold `h`: at most one in a sound world. */
  function HeldCount(slots: map<nat, Awaiter>, h: Handle): nat
  {
    if h in Held(slots) then 1 else 0
  }

  /** No two awaiters hold the same handle. */
  ghost predicate UniquelyHeld(slots: map<nat, Awaiter>)
  {
    forall i, j :: i in slots && j in slots && i != j && slots[i].Holds? && slots[j].Holds? ==>
      slots[i].h != slots[j].h
  }

  /**
   At most one awaiter holds a handle, no awaiter holds a destroyed handle,
   the runtime is never asked to run or destroy a handle after destroying
   it, and each hand-over of a handle is accounted for exactly once: it is
   still held, or it was used up by one returning run or one destroy.
   */
  ghost predicate Sound(w: World)
  {
    && UniquelyHeld(w.slots)
    && (forall i :: i in w.slots && w.slots[i].Holds? ==> !IsDestroyed(w.log, w.slots[i].h))
    && (forall k, l :: 0 <= k < l < |w.log| && w.log[k].Destroyed? ==> w.log[l].h != w.log[k].h)
    && (forall h :: w.given[h] == Uses(w.log, h) + HeldCount(w.slots, h))
  }

  /** What one awaiter contributes to `Held`. */
  function HeldBy(a: Awaiter): set<Handle>
  {
    if a.Holds? then {a.h} else {}
  }

  lemma HeldInsert(slots: map<nat, Awaiter>, id: nat, a: Awaiter)
    requires id !in slots
    ensures Held(slots[id := a]) == Held(slots) + HeldBy(a)
  {
    var m := slots[id := a];
    forall h | h in Held(m)
      ensures h in Held(slots) + HeldBy(a)
    {
      var i :| i in m && m[i].Holds? && m[i].h == h;
      if i != id {
        assert slots[i].h == h;
      }
    }
    forall h | h in Held(slots)
      ensures h in Held(m)
    {
      var i :| i in slots && slots[i].Holds? && slots[i].h == h;
      assert m[i].h == h;
    }
    if a.Holds? {
      assert m[id].h == a.h;
    }
  }

  /** `Held` splits into one awaiter's handle and everybody else's. */
  lemma HeldSplit(slots: map<nat, Awaiter>, id: nat, a: Awaiter)
    ensures Held(slots[id := a]) == Held(slots - {id}) + HeldBy(a)
    ensures id in slots ==> Held(slots) == Held(slots - {id}) + HeldBy(slots[id])
    ensures id !in slots ==> Held(slots) == Held(slots - {id})
    ensures UniquelyHeld(slots) && id in slots && slots[id].Holds? ==>
      slots[id].h !in Held(slots - {id})
  {
    assert slots[id := a] == (slots - {id})[id := a];
    HeldInsert(slots - {id}, id, a);
    if id in slots {
      assert slots == (slots - {id})[id := slots[id]];
      HeldInsert(slots - {id}, id, slots[id]);
    } else {
      assert slots == slots - {id};
    }
  }

  lemma UsesAppend(log: seq<Event>, es: seq<Event>, h: Handle)
    requires |es| <= 1
    ensures Uses(log + es, h) == Uses(log, h) + if |es| == 1 && Consumes(es[0], h) then 1 else 0
  {
    if |es| == 0 {
      assert log + es == log;
    } else {
      assert (log + es)[..|log|] == log;
    }
  }

  /** Constructing an awaiter from a handle nobody holds and nobody destroyed keeps `Sound`. */
  lemma ConstructPreservesSound(w: World, id: nat, raw: Option<Handle>)
    requires Sound(w)
    requires Step(w, Construct(id, raw)).Some?
    ensures Sound(Step(w, Construct(id, raw)).value)
  {
    var w' := Step(w, Construct(id, raw)).value;
    HeldSplit(w.slots, id, FromHandle(raw));
    forall x
      ensures w'.given[x] == Uses(w'.log, x) + HeldCount(w'.slots, x)
    {
      assert w.given[x] == Uses(w.log, x) + HeldCount(w.slots, x);
    }
  }

  /** Resuming, whether the call returns or throws, keeps `Sound`. */
  lemma ResumePreservesSound(w: World, id: nat, threw: bool)
    requires Sound(w)
    requires Step(w, ResumeCall(id, threw)).Some?
    ensures Sound(Step(w, ResumeCall(id, threw)).value)
  {
    var h := w.slots[id].h;
    var w' := Step(w, ResumeCall(id, threw)).value;
    assert w'.log == w.log + [Ran(h, threw)];
    HeldSplit(w.slots, id, Resume(w.slots[id], threw).awaiter);
    forall x
      ensures IsDestroyed(w'.log, x) == IsDestroyed(w.log, x)
    {
    }
    forall x
      ensures w'.given[x] == Uses(w'.log, x) + HeldCount(w'.slots, x)
    {
      assert w.given[x] == Uses(w.log, x) + HeldCount(w.slots, x);
      UsesAppend(w.log, [Ran(h, threw)], x);
    }
  }

  /** Moving an awaiter into a new one keeps `Sound`. */
  lemma MovePreservesSound(w: World, dst: nat, src: nat)
    requires Sound(w)
    requires Step(w, MoveInto(dst, src)).Some?
    ensures Sound(Step(w, MoveInto(dst, src)).value)
  {
    var w' := Step(w, MoveInto(dst, src)).value;
    var a := w.slots[src];
    var mid := w.slots[src := Empty];
    HeldSplit(w.slots, src, Empty);
    HeldSplit(mid, dst, a);
    assert mid - {dst} == mid;
    assert w.log + [] == w.log;
    assert Held(w'.slots) == Held(w.slots);
    forall x
      ensures w'.given[x] == Uses(w'.log, x) + HeldCount(w'.slots, x)
    {
      assert w.given[x] == Uses(w.log, x) + HeldCount(w.slots, x);
    }
  }

  /** Dropping an awaiter keeps `Sound`. */
  lemma DropPreservesSound(w: World, id: nat)
    requires Sound(w)
    requires Step(w, Drop(id)).Some?
    ensures Sound(Step(w, Drop(id)).value)
  {
    var w' := Step(w, Drop(id)).value;
    HeldSplit(w.slots, id, Empty);
    assert w'.slots == (w.slots - {id})[id := Empty] - {id};
    assert Held(w'.slots) == Held(w.slots - {id});
    forall x
      ensures w'.given[x] == Uses(w'.log, x) + HeldCount(w'.slots, x)
    {
      assert w.given[x] == Uses(w.log, x) + HeldCount(w.slots, x);
      UsesAppend(w.log, Destroy(w.slots[id]), x);
    }
    if w.slots[id].Holds? {
      var h := w.slots[id].h;
      assert w'.log == w.log + [Destroyed(h)];
      forall i | i in w'.slots && w'.slots[i].Holds?
        ensures !IsDestroyed(w'.log, w'.slots[i].h)
      {
        assert w'.slots[i] == w.slots[i];
        assert w.slots[i].h != h;
      }
      forall k, l | 0 <= k < l < |w'.log| && w'.log[k].Destroyed?
        ensures w'.log[l].h != w'.log[k].h
      {
        if l == |w.log| {
          assert w.log[k] == w'.log[k];
          assert w'.log[k] in w.log;
        }
      }
    } else {
      assert w.log + [] == w.log;
    }
  }

  /** Every operation of a well-formed program keeps `Sound`. */
  lemma StepPreservesSound(w: World, op: Op)
    requires Sound(w)
    requires Step(w, op).Some?
    ensures Sound(Step(w, op).value)
  {
    match op
    case Construct(id, raw) => ConstructPreservesSound(w, id, raw);
    case ResumeCall(id, threw) => ResumePreservesSound(w, id, threw);
    case MoveInto(dst, src) => MovePreservesSound(w, dst, src);
    case Drop(id) => DropPreservesSound(w, id);
  }

  lemma {:induction false} RunPreservesSound(w: World, ops: seq<Op>)
    requires Sound(w)
    requires Run(w, ops).Some?
    ensures Sound(Run(w, ops).value)
    decreases |ops|
  {
    if |ops| > 0 {
      StepPreservesSound(w, ops[0]);
      RunPreservesSound(Step(w, ops[0]).value, ops[1..]);
    }
  }

  /**
   In any well-formed program: once a handle is destroyed, the runtime is
   never again asked to run or destroy it, so no handle is destroyed twice
   and none is run after being destroyed; no two awaiters hold the same
   handle and none holds a destroyed one; each hand-over of a handle to an
   awaiter is still held or was used up exactly once, by a run that
   returned or by a destroy; so once every awaiter is gone, the handle has
   been used up exactly as often as it was handed over.
   */
  lemma SingleOwnership(ops: seq<Op>)
    requires Run(Init, ops).Some?
    ensures var w := Run(Init, ops).value;
      forall k, l :: 0 <= k < l < |w.log| && w.log[k].Destroyed? ==> w.log[l].h != w.log[k].h
    ensures var w := Run(Init, ops).value;
      && UniquelyHeld(w.slots)
      && forall i :: i in w.slots && w.slots[i].Holds? ==> !IsDestroyed(w.log, w.slots[i].h)
    ensures var w := Run(Init, ops).value;
      forall h :: w.given[h] == Uses(w.log, h) + (if h in Held(w.slots) then 1 else 0)
    ensures var w := Run(Init, ops).value;
      w.slots == map[] ==> forall h :: w.given[h] == Uses(w.log, h)
  {
    assert Held(map[]) == {};
    RunPreservesSound(Init, ops);
    var w := Run(Init, ops).value;
    if w.slots == map[] {
      assert Held(w.slots) == {};
    }
  }

  /** Resuming and then dropping an awaiter runs its handle once and never destroys it. */
  lemma ResumeThenDrop(h: Handle)
    ensures Run(Init, [Construct(0, Some(h)), ResumeCall(0, false), Drop(0)])
         == Some(World(map[], [Ran(h, false)], multiset{h}))
  {
    var w1 := World(map[0 := Holds(h)], [], multiset{h});
    var w2 := World(map[0 := Empty], [Ran(h, false)], multiset{h});
    var w3 := World(map[], [Ran(h, false)], multiset{h});
    assert Held(Init.slots) == {};
    assert Init.slots[0 := FromHandle(Some(h))] == w1.slots;
    assert Init.given + multiset{h} == multiset{h};
    assert Step(Init, Construct(0, Some(h))) == Some(w1);
    assert w1.slots[0 := Empty] == w2.slots;
    assert [] + [Ran(h, false)] == [Ran(h, false)];
    assert Step(w1, ResumeCall(0, false)) == Some(w2);
    assert w2.slots - {0} == w3.slots;
    assert [Ran(h, false)] + [] == [Ran(h, false)];
    assert Step(w2, Drop(0)) == Some(w3);
    var ops := [Construct(0, Some(h)), ResumeCall(0, false), Drop(0)];
    assert ops[1..] == [ResumeCall(0, false), Drop(0)];
    assert ops[1..][1..] == [Drop(0)];
    assert Run(w2, [Drop(0)]) == Some(w3);
    assert Run(w1, ops[1..]) == Some(w3);
  }

  /**
   When an exception escapes the resumed coroutine, the awaiter keeps the
   handle, so dropping it afterwards destroys the handle that was run.
   */
  lemma ThrowingResumeThenDrop(h: Handle)
    ensures Run(Init, [Construct(0, Some(h)), ResumeCall(0, true), Drop(0)])
         == Some(World(map[], [Ran(h, true), Destroyed(h)], multiset{h}))
  {
    var w1 := World(map[0 := Holds(h)], [], multiset{h});
    var w2 := World(map[0 := Holds(h)], [Ran(h, true)], multiset{h});
    var w3 := World(map[], [Ran(h, true), Destroyed(h)], multiset{h});
    assert Held(Init.slots) == {};
    assert Init.slots[0 := FromHandle(Some(h))] == w1.slots;
    assert Init.given + multiset{h} == multiset{h};
    assert Step(Init, Construct(0, Some(h))) == Some(w1);
    assert w1.slots[0 := Holds(h)] == w2.slots;
    assert [] + [Ran(h, true)] == [Ran(h, true)];
    assert Step(w1, ResumeCall(0, true)) == Some(w2);
    assert w2.slots - {0} == w3.slots;
    assert [Ran(h, true)] + [Destroyed(h)] == [Ran(h, true), Destroyed(h)];
    assert Step(w2, Drop(0)) == Some(w3);
    var ops := [Construct(0, Some(h)), ResumeCall(0, true), Drop(0)];
    assert ops[1..] == [ResumeCall(0, true), Drop(0)];
    assert ops[1..][1..] == [Drop(0)];
    assert Run(w2, [Drop(0)]) == Some(w3);
    assert Run(w1, ops[1..]) == Some(w3);
  }

  /** Running two programs in a row is running their concatenation. */
  lemma {:induction false} RunAppend(w: World, ops: seq<Op>, more: seq<Op>)
    requires Run(w, ops).Some?
    ensures Run(w, ops + more) == Run(Run(w, ops).value, more)
    decreases |ops|
  {
    if |ops| == 0 {
      assert ops + more == more;
    } else {
      assert (ops + more)[0] == ops[0];
      assert (ops + more)[1..] == ops[1..] + more;
      RunAppend(Step(w, ops[0]).value, ops[1..], more);
    }
  }

  /**
   A handle resumed and released by one awaiter may be wrapped by a new one
   and resumed again; it was handed over twice and run twice, and neither
   drop destroys it.
   */
  lemma RewrapAfterResume(h: Handle)
    ensures Run(Init, [Construct(0, Some(h)), ResumeCall(0, false), Drop(0),
                       Construct(1, Some(h)), ResumeCall(1, false), Drop(1)])
         == Some(World(map[], [Ran(h, false), Ran(h, false)], multiset{h, h}))
  {
    ResumeThenDrop(h);
    var w3 := World(map[], [Ran(h, false)], multiset{h});
    var w4 := World(map[1 := Holds(h)], [Ran(h, false)], multiset{h, h});
    var w5 := World(map[1 := Empty], [Ran(h, false), Ran(h, false)], multiset{h, h});
    var w6 := World(map[], [Ran(h, false), Ran(h, false)], multiset{h, h});
    assert Held(w3.slots) == {};
    assert !IsDestroyed(w3.log, h);
    assert w3.slots[1 := FromHandle(Some(h))] == w4.slots;
    assert w3.given + multiset{h} == multiset{h, h};
    assert Step(w3, Construct(1, Some(h))) == Some(w4);
    assert w4.slots[1 := Empty] == w5.slots;
    assert [Ran(h, false)] + [Ran(h, false)] == [Ran(h, false), Ran(h, false)];
    assert Step(w4, ResumeCall(1, false)) == Some(w5);
    assert w5.slots - {1} == w6.slots;
    assert w5.log + [] == w6.log;
    assert Step(w5, Drop(1)) == Some(w6);
    var first := [Construct(0, Some(h)), ResumeCall(0, false), Drop(0)];
    var second := [Construct(1, Some(h)), ResumeCall(1, false), Drop(1)];
    assert second[1..] == [ResumeCall(1, false), Drop(1)];
    assert second[1..][1..] == [Drop(1)];
    assert Run(w5, [Drop(1)]) == Some(w6);
    assert Run(w4, second[1..]) == Some(w6);
    assert Run(w3, second) == Some(w6);
    RunAppend(Init, first, second);
    assert first + second == [Construct(0, Some(h)), ResumeCall(0, false), Drop(0),
                              Construct(1, Some(h)), ResumeCall(1, false), Drop(1)];
  }

  /** After a move only the new owner destroys the handle, once. */
  lemma MoveThenDropBoth(h: Handle)
    ensures Run(Init, [Construct(0, Some(h)), MoveInto(1, 0), Drop(0), Drop(1)])
         == Some(World(map[], [Destroyed(h)], multiset{h}))
  {
    var w1 := World(map[0 := Holds(h)], [], multiset{h});
    var w2 := World(map[0 := Empty, 1 := Holds(h)], [], multiset{h});
    var w3 := World(map[1 := Holds(h)], [], multiset{h});
    var w4 := World(map[], [Destroyed(h)], multiset{h});
    assert Held(Init.slots) == {};
    assert Init.slots[0 := FromHandle(Some(h))] == w1.slots;
    assert Init.given + multiset{h} == multiset{h};
    assert Step(Init, Construct(0, Some(h))) == Some(w1);
    assert w1.slots[0 := Empty][1 := Holds(h)] == w2.slots;
    assert w1.log + [] == w2.log;
    assert Step(w1, MoveInto(1, 0)) == Some(w2);
    assert w2.slots - {0} == w3.slots;
    assert Step(w2, Drop(0)) == Some(w3);
    assert w3.slots - {1} == w4.slots;
    assert [] + [Destroyed(h)] == [Destroyed(h)];
    assert Step(w3, Drop(1)) == Some(w4);
    var ops := [Construct(0, Some(h)), MoveInto(1, 0), Drop(0), Drop(1)];
    assert ops[1..] == [MoveInto(1, 0), Drop(0), Drop(1)];
    assert ops[1..][1..] == [Drop(0), Drop(1)];
    assert ops[1..][1..][1..] == [Drop(1)];
    assert Run(w3, [Drop(1)]) == Some(w4);
    assert Run(w2, ops[1..][1..]) == Some(w4);
    assert Run(w1, ops[1..]) == Some(w4);
  }
}
