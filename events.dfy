/**
 * The one-shot urgent event of src/sysim/events.py. An `UrgentEvent` is
 * pending until `succeed` stores its value and puts it on the
 * environment's queue at URGENT priority; a second `succeed` raises
 * `RuntimeError`. The environment is reduced to what `succeed` touches:
 * the current time, the running entry counter and the queue, kept as the
 * sequence of entries in the order they were scheduled.
 */
module Events {
  import opened Base

  /** simpy's two scheduling priorities: URGENT entries run before NORMAL ones at the same time. */
  datatype Priority = Urgent | Normal

  /** An event's `_value`: the PENDING marker, or the value it was triggered with (None by default). */
  datatype Slot = Pending | Value(payload: Option<int>)

  /** One queue entry: `(time, priority, eid, event)`. */
  datatype Entry = Entry(time: int, priority: Priority, eid: nat, event: UrgentEvent)

  /** How many entries of `queue` are for `ev`: none exactly when no entry names it. */
  function Count(queue: seq<Entry>, ev: UrgentEvent): (r: nat)
    ensures r <= |queue|
    ensures r == 0 <==> forall i | 0 <= i < |queue| :: queue[i].event != ev
  {
    if queue == [] then 0 else (if queue[0].event == ev then 1 else 0) + Count(queue[1..], ev)
  }

  /** Scheduling adds one entry for the scheduled event and none for any other. */
  lemma {:induction false} CountAppend(queue: seq<Entry>, x: Entry, ev: UrgentEvent)
    ensures Count(queue + [x], ev) == Count(queue, ev) + (if x.event == ev then 1 else 0)
    decreases |queue|
  {
    if queue == [] {
      assert queue + [x] == [x];
    } else {
      assert (queue + [x])[0] == queue[0] && (queue + [x])[1..] == queue[1..] + [x];
      CountAppend(queue[1..], x, ev);
    }
  }

  /**
   * `succeed(value)` on the value slot: a pending event takes the value, any
   * other raises `RuntimeError` and keeps its slot.
   */
  function Trigger(s: Slot, v: Option<int>): (r: Result<Slot>) {
    if s.Pending? then Ok(Value(v)) else Err(RuntimeError)
  }

  /** `succeed` works exactly when the event is pending, and leaves it holding `v`. */
  lemma TriggerPending(s: Slot, v: Option<int>)
    ensures Trigger(s, v).Ok? <==> s == Pending
    ensures Trigger(s, v).Ok? ==> Trigger(s, v).value == Value(v) && !Trigger(s, v).value.Pending?
  {
  }

  /** A triggered event cannot be triggered again, whatever the value. */
  lemma TriggerOnce(s: Slot, v: Option<int>, w: Option<int>)
    requires Trigger(s, v).Ok?
    ensures Trigger(Trigger(s, v).value, w) == Err(RuntimeError)
  {
  }

  /**
   * `succeed` called with each value of `vs` in turn, ignoring the errors:
   * how many calls succeed, and the slot at the end.
   */
  function Replay(s: Slot, vs: seq<Option<int>>): (Slot, nat)
    decreases |vs|
  {
    if vs == [] then (s, 0)
    else
      match Trigger(s, vs[0])
      case Ok(t) => var (u, n) := Replay(t, vs[1..]); (u, n + 1)
      case Err(_) => var (u, n) := Replay(s, vs[1..]); (u, n)
  }

  /**
   * Over any sequence of `succeed` calls an event succeeds at most once:
   * exactly once if it starts pending and is called at all, never if it
   * starts triggered, and it keeps the first value it was given.
   */
  lemma {:induction false} AtMostOnce(s: Slot, vs: seq<Option<int>>)
    ensures Replay(s, vs).1 == (if s.Pending? && vs != [] then 1 else 0)
    ensures Replay(s, vs).0 == (if s.Pending? && vs != [] then Value(vs[0]) else s)
    decreases |vs|
  {
    if vs != [] {
      match Trigger(s, vs[0])
      case Ok(t) =>
        AtMostOnce(t, vs[1..]);
      case Err(_) =>
        AtMostOnce(s, vs[1..]);
    }
  }

  /** The part of simpy's `Environment` that `succeed` uses. */
  class Environment {
    var now: int
    var eid: nat
    var queue: seq<Entry>

    constructor (start: int)
      ensures now == start && eid == 0 && queue == []
    {
      now := start;
      eid := 0;
      queue := [];
    }

    /** `schedule(event, priority, delay)`: an entry at `now + delay` with the next entry number. */
    method Schedule(event: UrgentEvent, priority: Priority, delay: int)
      modifies this`eid, this`queue
      ensures queue == old(queue) + [Entry(now + delay, priority, old(eid), event)]
      ensures eid == old(eid) + 1
      ensures Count(queue, event) == Count(old(queue), event) + 1
      ensures forall ev: UrgentEvent | ev != event :: Count(queue, ev) == Count(old(queue), ev)
    {
      var x := Entry(now + delay, priority, eid, event);
      forall ev: UrgentEvent {
        CountAppend(queue, x, ev);
      }
      queue := queue + [x];
      eid := eid + 1;
    }
  }

  /** `UrgentEvent`: a simpy event whose success is scheduled as URGENT. */
  class UrgentEvent {
    const env: Environment
    var ok: bool
    var value: Slot

    /**
     * The event is marked successful exactly when it holds a value, and it
     * is on its environment's queue once if so and not at all while pending.
     */
    ghost predicate Valid()
      reads this, env
    {
      && ok == value.Value?
      && Count(env.queue, this) == (if value.Pending? then 0 else 1)
    }

    /** `UrgentEvent(env)`: a pending event, on no queue yet. */
    constructor (environment: Environment)
      ensures env == environment && value == Pending && !ok
      ensures Valid()
    {
      env := environment;
      value := Pending;
      ok := false;
      new;
    }

    /**
     * `succeed(value)`: a pending event becomes successful with `v` and is
     * scheduled once, at URGENT priority and the current time, and the event
     * itself is returned; an event already triggered raises `RuntimeError`
     * and nothing changes.
     */
    method Succeed(v: Option<int>) returns (r: Result<UrgentEvent>)
      requires Valid()
      modifies this`ok, this`value, env`eid, env`queue
      ensures Valid()
      ensures Trigger(old(value), v).Ok? ==> r == Ok(this) && value == Trigger(old(value), v).value && ok
      ensures Trigger(old(value), v).Ok? ==> env.queue == old(env.queue) + [Entry(env.now, Urgent, old(env.eid), this)]
      ensures Trigger(old(value), v).Err? ==> r == Err(Trigger(old(value), v).error)
      ensures Trigger(old(value), v).Err? ==> unchanged(this) && unchanged(env)
      ensures forall ev: UrgentEvent | ev != this :: Count(env.queue, ev) == Count(old(env.queue), ev)
    {
      if value != Pending {
        return Err(RuntimeError);
      }
      ok := true;
      value := Value(v);
      env.Schedule(this, Urgent, 0);
      r := Ok(this);
    }
  }
}
