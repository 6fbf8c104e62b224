/**
 * The signal engine of src/sysim/signal.py as one mutable network: every
 * Signal and Port object is an id into `cells` (its values, events, pending
 * commit and name) and into `sinks`/`sources` (its connection lists). The
 * urgent queue of the environment and the logger are the `urgent` and `trace`
 * fields; the current tick is `now`.
 */
module Signals {
  import opened Base
  import opened SignalSpec

  /**
   * Every signal has exactly one commit process pending while its action slot
   * is set and none otherwise: processes started and finished differ by
   * exactly that.
   */
  ghost predicate CommitsOK(cells: seq<Cell>, started: multiset<Sig>, finished: multiset<Sig>) {
    && (forall t | t in started :: t < |cells|)
    && (forall t | t in finished :: t < |cells|)
    && forall t | 0 <= t < |cells| :: started[t] == finished[t] + (if cells[t].action.Some? then 1 else 0)
  }

  /** No commit is due before `now`. */
  ghost predicate NoneOverdue(cells: seq<Cell>, now: int) {
    forall t | 0 <= t < |cells| && cells[t].action.Some? :: cells[t].action.value >= now
  }

  /** A write that keeps every event slot and pending commit keeps the invariants. */
  lemma Rewritten(cells: seq<Cell>, written: seq<Cell>, urgent: seq<EventId>, started: multiset<Sig>,
                  finished: multiset<Sig>, now: int)
    requires EventsOK(cells, urgent) && CommitsOK(cells, started, finished) && NoneOverdue(cells, now)
    requires |written| == |cells|
    requires forall t | 0 <= t < |cells| :: SameEvents(cells[t], written[t]) && written[t].action == cells[t].action
    ensures EventsOK(written, urgent) && CommitsOK(written, started, finished) && NoneOverdue(written, now)
  {
    EventsKept(cells, written, urgent);
  }

  /**
   * Scheduling or re-timing the commit of `s` keeps the invariants, and
   * starts a new commit process exactly when none was pending.
   */
  lemma Reschedule(cells: seq<Cell>, urgent: seq<EventId>, started: multiset<Sig>,
                   finished: multiset<Sig>, now: int, s: Sig, due: int)
    requires EventsOK(cells, urgent) && CommitsOK(cells, started, finished) && NoneOverdue(cells, now)
    requires s < |cells| && due >= now
    ensures var r := cells[s := cells[s].(action := Some(due))];
            && EventsOK(r, urgent) && NoneOverdue(r, now)
            && CommitsOK(r, started + if cells[s].action.None? then multiset{s} else multiset{}, finished)
  {
    var r := cells[s := cells[s].(action := Some(due))];
    EventsKept(cells, r, urgent);
  }

  class Network {
    var cells: seq<Cell>
    var sinks: Graph
    var sources: Graph
    var now: int
    var urgent: seq<EventId>
    var trace: seq<(Sig, Value)>
    /** Commit processes scheduled and commit processes completed, per signal. */
    ghost var started: multiset<Sig>
    ghost var finished: multiset<Sig>

    ghost predicate Valid()
      reads this
    {
      && |cells| == |sinks|
      && Mirror(Wiring(sinks, sources))
      && EventsOK(cells, urgent)
      && CommitsOK(cells, started, finished)
      && NoneOverdue(cells, now)
    }

    function Wires(): Wiring
      reads this
    {
      Wiring(sinks, sources)
    }

    constructor ()
      ensures Valid()
      ensures cells == [] && now == 0 && urgent == [] && trace == []
    {
      cells := [];
      sinks := [];
      sources := [];
      now := 0;
      urgent := [];
      trace := [];
      started := multiset{};
      finished := multiset{};
    }

    /** `Signal(...)` / `Port(direction, ...)`: a new signal with no connections. */
    method NewSignal(kind: Kind, initial: Option<Value>) returns (s: Sig)
      requires Valid()
      modifies this
      ensures Valid()
      ensures s == old(|cells|)
      ensures cells == old(cells) + [NewCell(kind, initial)]
      ensures sinks == old(sinks) + [[]] && sources == old(sources) + [[]]
      ensures now == old(now) && urgent == old(urgent) && trace == old(trace)
      ensures started == old(started) && finished == old(finished)
    {
      s := |cells|;
      cells := cells + [NewCell(kind, initial)];
      sinks := sinks + [[]];
      sources := sources + [[]];
      forall t, e | 0 <= t < |cells| ensures SlotOK(cells, urgent, t, e) {
        if t < s {
          assert SlotOK(old(cells), urgent, t, e);
        }
      }
    }

    /**
     * `connect`: a value that is not a signal, or a signal already among the
     * sinks, raises ValueError and changes nothing; otherwise the edge
     * `a -> other` is added to both lists.
     */
    method Connect(a: Sig, other: Operand) returns (r: Outcome)
      requires Valid() && a < |cells| && (other.SignalRef? ==> other.id < |cells|)
      modifies this`sinks, this`sources
      ensures Valid()
      ensures r == if other.Literal? || other.id in old(sinks[a]) then Fail(ValueError) else Pass
      ensures Wires() == if r.Pass? then Link(old(Wires()), a, other.id) else old(Wires())
    {
      if other.Literal? {
        return Fail(ValueError);
      }
      var b := other.id;
      if b in sinks[a] {
        return Fail(ValueError);
      }
      LinkKeepsMirror(Wires(), a, b);
      sinks := sinks[a := sinks[a] + [b]];
      sources := sources[b := sources[b] + [a]];
      r := Pass;
    }

    /**
     * `disconnect`: a signal that is not a sink raises ValueError; a value
     * that is not a signal fails already while the error message is built
     * (it has no `name`), with AttributeError. Otherwise one edge `a -> other`
     * is removed from both lists.
     */
    method Disconnect(a: Sig, other: Operand) returns (r: Outcome)
      requires Valid() && a < |cells| && (other.SignalRef? ==> other.id < |cells|)
      modifies this`sinks, this`sources
      ensures Valid()
      ensures r == if other.Literal? then Fail(AttributeError)
                   else if other.id !in old(sinks[a]) then Fail(ValueError)
                   else Pass
      ensures Wires() == if r.Pass? then Unlink(old(Wires()), a, other.id) else old(Wires())
    {
      if other.Literal? {
        return Fail(AttributeError);
      }
      var b := other.id;
      if b !in sinks[a] {
        return Fail(ValueError);
      }
      UnlinkKeepsMirror(Wires(), a, b);
      // the mirror guarantees that the second `remove` finds its element
      assert a in sources[b];
      sinks := sinks[a := RemoveFirst(sinks[a], b)];
      sources := sources[b := RemoveFirst(sources[b], a)];
      r := Pass;
    }

    /**
     * `Port.bind`: orient the edge by the port's direction, without checking
     * for duplicates; a port without a direction binds nothing. A value that
     * is not a signal has no sink or source list: binding it to a directed
     * port raises AttributeError.
     */
    method Bind(p: Sig, other: Operand) returns (r: Outcome)
      requires Valid() && p < |cells| && cells[p].kind.Port? && (other.SignalRef? ==> other.id < |cells|)
      modifies this`sinks, this`sources
      ensures Valid()
      ensures (r, Wires()) == BindStep(old(Wires()), cells[p].kind.direction, p, other)
    {
      var dir := cells[p].kind.direction;
      if dir.None? {
        return Pass;
      }
      if other.Literal? {
        return Fail(AttributeError);
      }
      var o := other.id;
      BindAddsEdges(Wires(), p, o, dir.value);
      match dir.value {
        case Input =>
          sinks := sinks[o := sinks[o] + [p]];
          sources := sources[p := sources[p] + [o]];
        case Output =>
          sinks := sinks[p := sinks[p] + [o]];
          sources := sources[o := sources[o] + [p]];
        case InOut =>
          sinks := sinks[o := sinks[o] + [p]];
          sources := sources[p := sources[p] + [o]];
          sinks := sinks[p := sinks[p] + [o]];
          sources := sources[o := sources[o] + [p]];
      }
      r := Pass;
    }

    /**
     * `_update_next_value` (with `w` a pending value) and `_update_last_value`
     * (with `w` a seed): write into `s`, then recurse into every sink except
     * the immediate predecessor `pred`, in list order.
     */
    method Push(s: Sig, pred: Sig, w: Write, ghost depth: nat)
      requires |cells| == |sinks| && Closed(sinks) && s < |sinks|
      requires Finite(sinks, s, pred, SkipPredecessor, depth)
      modifies this`cells
      ensures cells == ApplyAll(old(cells), Walk(sinks, s, pred, SkipPredecessor, depth), w)
      decreases depth
    {
      ghost var target := ApplyAll(cells, Walk(sinks, s, pred, SkipPredecessor, depth), w);
      WalkStart(sinks, s, pred, SkipPredecessor, depth);
      cells := cells[s := Apply(cells[s], w)];
      var i := 0;
      while i < |sinks[s]|
        invariant 0 <= i <= |sinks[s]| && |cells| == |sinks|
        invariant Within(sinks[s][i..], |sinks|)
        invariant SinksFinite(sinks, sinks[s][i..], s, pred, SkipPredecessor, depth)
        invariant ApplyAll(cells, WalkSinks(sinks, sinks[s][i..], s, pred, SkipPredecessor, depth), w) == target
      {
        var t := sinks[s][i];
        WalkSinksAt(sinks, sinks[s], i, s, pred, SkipPredecessor, depth);
        if t != pred {
          ApplyAllAppend(cells, Walk(sinks, t, s, SkipPredecessor, depth - 1),
                         WalkSinks(sinks, sinks[s][i + 1..], s, pred, SkipPredecessor, depth), w);
          Push(t, s, w, depth - 1);
        }
        i := i + 1;
      }
    }

    /** `_update_state`: shift next -> value -> last, stamping the tick when the value changes. */
    method UpdateState(s: Sig)
      requires s < |cells|
      modifies this`cells
      ensures cells == old(cells)[s := StateStep(old(cells)[s], now)]
    {
      var c := cells[s];
      var changed := if c.value != c.next then now else c.lastChange;
      cells := cells[s := c.(last := c.value, value := c.next, next := None, lastChange := changed)];
    }

    /**
     * `_update_events`: trigger each registered slot whose transition just
     * happened, rising, falling and change in that order, and empty it.
     */
    method UpdateEvents(s: Sig)
      requires s < |cells|
      modifies this`cells, this`urgent
      ensures cells == old(cells)[s := Cleared(old(cells)[s])]
      ensures urgent == old(urgent) + Fired(old(cells)[s])
    {
      var c := cells[s];
      if c.last.Some? && c.value.Some? {
        if c.rising.Some? && !Truthy(c.last.value) && Truthy(c.value.value) {
          urgent := urgent + [c.rising.value];
          c := c.(rising := None);
        }
        if c.falling.Some? && Truthy(c.last.value) && !Truthy(c.value.value) {
          urgent := urgent + [c.falling.value];
          c := c.(falling := None);
        }
      }
      if c.last != c.value && c.change.Some? {
        urgent := urgent + [c.change.value];
        c := c.(change := None);
      }
      cells := cells[s := c];
    }

    /** `_update_log`: report a present value that differs from the last one. */
    method UpdateLog(s: Sig)
      requires s < |cells|
      modifies this`trace
      ensures trace == old(trace) + Logged(s, cells[s])
    {
      var c := cells[s];
      if c.value.Some? && c.last != c.value {
        trace := trace + [(s, c.value.value)];
      }
    }

    /** The first three steps of `_update_internals`: state, events, log of `s` alone. */
    method CommitOne(s: Sig)
      requires s < |cells|
      modifies this`cells, this`urgent, this`trace
      ensures World(cells, urgent, trace) == CommitCell(old(World(cells, urgent, trace)), s, now)
    {
      UpdateState(s);
      UpdateEvents(s);
      UpdateLog(s);
    }

    /**
     * `_update_internals(origin)`: commit `s`, then recurse into every sink
     * except the origin of the commit, which is passed down unchanged.
     */
    method UpdateInternals(s: Sig, origin: Sig, ghost depth: nat)
      requires |cells| == |sinks| && Closed(sinks) && s < |sinks|
      requires Finite(sinks, s, origin, SkipOrigin, depth)
      modifies this`cells, this`urgent, this`trace
      ensures World(cells, urgent, trace) == CommitAll(old(World(cells, urgent, trace)), Walk(sinks, s, origin, SkipOrigin, depth), now)
      decreases depth, 2
    {
      WalkStart(sinks, s, origin, SkipOrigin, depth);
      CommitAllCons(World(cells, urgent, trace), s, WalkSinks(sinks, sinks[s][0..], s, origin, SkipOrigin, depth), now);
      CommitOne(s);
      UpdateSinks(s, origin, depth);
    }

    /** The loop of `_update_internals` over the sinks of `s`, skipping the origin. */
    method UpdateSinks(s: Sig, origin: Sig, ghost depth: nat)
      requires |cells| == |sinks| && Closed(sinks) && s < |sinks|
      requires SinksFinite(sinks, sinks[s][0..], s, origin, SkipOrigin, depth)
      modifies this`cells, this`urgent, this`trace
      ensures World(cells, urgent, trace)
              == CommitAll(old(World(cells, urgent, trace)), WalkSinks(sinks, sinks[s][0..], s, origin, SkipOrigin, depth), now)
      decreases depth, 1
    {
      ghost var target := CommitAll(World(cells, urgent, trace), WalkSinks(sinks, sinks[s][0..], s, origin, SkipOrigin, depth), now);
      var i := 0;
      while i < |sinks[s]|
        invariant 0 <= i <= |sinks[s]| && |cells| == |sinks|
        invariant SinksFinite(sinks, sinks[s][i..], s, origin, SkipOrigin, depth)
        invariant CommitAll(World(cells, urgent, trace), WalkSinks(sinks, sinks[s][i..], s, origin, SkipOrigin, depth), now) == target
      {
        UpdateSink(s, i, origin, depth);
        i := i + 1;
      }
    }

    /** One round of that loop: the `i`-th sink of `s`, unless it is the origin. */
    method UpdateSink(s: Sig, i: nat, origin: Sig, ghost depth: nat)
      requires |cells| == |sinks| && Closed(sinks) && s < |sinks| && i < |sinks[s]|
      requires SinksFinite(sinks, sinks[s][i..], s, origin, SkipOrigin, depth)
      modifies this`cells, this`urgent, this`trace
      ensures |cells| == |sinks| && SinksFinite(sinks, sinks[s][i + 1..], s, origin, SkipOrigin, depth)
      ensures CommitAll(World(cells, urgent, trace), WalkSinks(sinks, sinks[s][i + 1..], s, origin, SkipOrigin, depth), now)
              == CommitAll(old(World(cells, urgent, trace)), WalkSinks(sinks, sinks[s][i..], s, origin, SkipOrigin, depth), now)
      decreases depth, 0
    {
      var t := sinks[s][i];
      WalkSinksAt(sinks, sinks[s], i, s, origin, SkipOrigin, depth);
      if t != origin {
        ghost var w := World(cells, urgent, trace);
        ghost var target := CommitAll(w, WalkSinks(sinks, sinks[s][i..], s, origin, SkipOrigin, depth), now);
        UpdateInternals(t, origin, depth - 1);
        CommitAllResume(w, World(cells, urgent, trace), Walk(sinks, t, origin, SkipOrigin, depth - 1),
                        WalkSinks(sinks, sinks[s][i + 1..], s, origin, SkipOrigin, depth), now, target);
      }
    }

    /**
     * The scheduling half of `assign`: re-time the pending commit of `s` if
     * there is one, or schedule exactly one new commit if there is none.
     */
    method Schedule(s: Sig, delay: Option<int>)
      requires Valid() && s < |cells|
      modifies this`cells, this`started
      ensures Valid()
      ensures cells == old(cells)[s := old(cells[s]).(action := Some(Due(now, delay)))]
      ensures started == old(started) + if old(cells[s].action).None? then multiset{s} else multiset{}
    {
      DueBounds(now, delay);
      Reschedule(cells, urgent, started, finished, now, s, Due(now, delay));
      // a running commit process is interrupted with the new delay;
      // otherwise a new one is scheduled
      var pending := cells[s].action.Some?;
      cells := cells[s := cells[s].(action := Some(Due(now, delay)))];
      if !pending {
        started := started + multiset{s};
      }
    }

    /**
     * `assign(v, delay)`: push `v` as the pending value from `s` through the
     * graph, then schedule or re-time the commit of `s`. Nothing is
     * committed, no current or last value changes and no event fires.
     */
    method Assign(s: Sig, v: Option<Value>, delay: Option<int>, ghost depth: nat)
      requires Valid() && s < |cells| && Finite(sinks, s, s, SkipPredecessor, depth)
      modifies this`cells, this`started
      ensures Valid()
      ensures var pushed := ApplyAll(old(cells), Walk(sinks, s, s, SkipPredecessor, depth), SetNext(v));
              cells == pushed[s := pushed[s].(action := Some(Due(now, delay)))]
      ensures started == old(started) + if old(cells[s].action).None? then multiset{s} else multiset{}
    {
      ghost var before := cells;
      Push(s, s, SetNext(v), depth);
      ApplyAllKeepsEvents(before, Walk(sinks, s, s, SkipPredecessor, depth), SetNext(v));
      Rewritten(before, cells, urgent, started, finished, now);
      Schedule(s, delay);
    }

    /**
     * `s <<= other`: a signal on the right is connected to drive `s`
     * (`other.connect(s)`, which raises ValueError when `s` already is one of
     * its sinks); any other value is assigned to `s` without delay.
     */
    method Shift(s: Sig, other: Operand, ghost depth: nat) returns (r: Outcome)
      requires Valid() && s < |cells| && (other.SignalRef? ==> other.id < |cells|)
      requires other.Literal? ==> Finite(sinks, s, s, SkipPredecessor, depth)
      modifies this`sinks, this`sources, this`cells, this`started
      ensures Valid()
      ensures r == if other.SignalRef? && s in old(sinks[other.id]) then Fail(ValueError) else Pass
      ensures other.SignalRef? ==>
        && cells == old(cells) && started == old(started)
        && Wires() == if r.Pass? then Link(old(Wires()), other.id, s) else old(Wires())
      ensures other.Literal? ==>
        && Wires() == old(Wires())
        && var pushed := ApplyAll(old(cells), Walk(sinks, s, s, SkipPredecessor, depth), SetNext(other.v));
           && cells == pushed[s := pushed[s].(action := Some(now))]
           && started == old(started) + if old(cells[s].action).None? then multiset{s} else multiset{}
    {
      match other {
        case SignalRef(o) =>
          r := Connect(o, SignalRef(s));
        case Literal(v) =>
          Assign(s, v, None, depth);
          r := Pass;
      }
    }

    /**
     * The commit process of `s` (`_update`) once its wait is over: commit
     * propagation from `s`, skipping `s` itself wherever it is met again,
     * then the action slot is cleared.
     */
    method RunCommit(s: Sig, ghost depth: nat)
      requires Valid() && s < |cells| && cells[s].action == Some(now)
      requires Finite(sinks, s, s, SkipOrigin, depth)
      modifies this`cells, this`urgent, this`trace, this`finished
      ensures Valid()
      ensures var w := CommitAll(old(World(cells, urgent, trace)), Walk(sinks, s, s, SkipOrigin, depth), now);
              && urgent == w.urgent && trace == w.log
              && cells == w.cells[s := w.cells[s].(action := None)]
      ensures finished == old(finished) + multiset{s}
    {
      ghost var w0 := World(cells, urgent, trace);
      ghost var order := Walk(sinks, s, s, SkipOrigin, depth);
      UpdateInternals(s, s, depth);
      CommitAllKeepsActions(w0, order, now);
      CommitAllKeepsEvents(w0, order, now);
      EndCommit(s, w0.cells);
    }

    /**
     * The last step of the commit process: the action slot of `s` is
     * cleared, and the process counts as finished.
     */
    method EndCommit(s: Sig, ghost before: seq<Cell>)
      requires |cells| == |sinks| && Mirror(Wires()) && s < |cells|
      requires EventsOK(cells, urgent) && CommitsOK(before, started, finished) && NoneOverdue(before, now)
      requires |before| == |cells| && before[s].action.Some?
      requires forall t | 0 <= t < |cells| :: cells[t].action == before[t].action
      modifies this`cells, this`finished
      ensures Valid()
      ensures cells == old(cells)[s := old(cells[s]).(action := None)]
      ensures finished == old(finished) + multiset{s}
    {
      ghost var committed := cells;
      cells := cells[s := cells[s].(action := None)];
      finished := finished + multiset{s};
      EventsKept(committed, cells, urgent);
    }

    /** `propagate_initial_value`: seed the initial value, if any, from `s` through the graph. */
    method PropagateInitialValue(s: Sig, ghost depth: nat)
      requires Valid() && s < |cells| && Finite(sinks, s, s, SkipPredecessor, depth)
      modifies this`cells
      ensures Valid()
      ensures cells == if old(cells[s].initial).Some?
                       then ApplyAll(old(cells), Walk(sinks, s, s, SkipPredecessor, depth), Seed(old(cells[s].initial).value))
                       else old(cells)
    {
      if cells[s].initial.Some? {
        ghost var before := cells;
        Push(s, s, Seed(cells[s].initial.value), depth);
        ApplyAllCells(before, Walk(sinks, s, s, SkipPredecessor, depth), Seed(before[s].initial.value));
        EventsKept(before, cells, urgent);
      }
    }

    /** `initialize(path)`: name and scope from the path, each only when still unset. */
    method InitializeName(s: Sig, path: string)
      requires Valid() && s < |cells|
      modifies this`cells
      ensures Valid()
      ensures cells == old(cells)[s := Named(old(cells[s]), path)]
    {
      ghost var before := cells;
      var c := cells[s];
      var parts := SplitDots(path);
      if c.name.None? {
        c := c.(name := Some(parts[|parts| - 1]));
      }
      if c.scope.None? {
        c := c.(scope := Some(JoinDots(parts[..|parts| - 1])));
      }
      cells := cells[s := c];
      EventsKept(before, cells, urgent);
    }

    /**
     * `rising_edge`, `falling_edge`, `event`: the event in slot `e`,
     * created (pending, never seen before) when the slot is empty.
     */
    method EdgeEvent(s: Sig, e: Edge) returns (x: EventId)
      requires Valid() && s < |cells|
      modifies this`cells
      ensures Valid()
      ensures cells[s].Slot(e) == Some(x) && x !in urgent
      ensures old(cells[s].Slot(e)).Some? ==> x == old(cells[s].Slot(e)).value && cells == old(cells)
      ensures old(cells[s].Slot(e)).None? ==>
        && x == EventId(s, e, old(cells[s].serial))
        && cells == old(cells)[s := old(cells[s]).WithSlot(e, Some(x)).(serial := old(cells[s].serial) + 1)]
    {
      var c := cells[s];
      assert SlotOK(cells, urgent, s, e);
      if c.Slot(e).Some? {
        return c.Slot(e).value;
      }
      x := EventId(s, e, c.serial);
      RegisterKeepsEvents(cells, urgent, s, e);
      cells := cells[s := c.WithSlot(e, Some(x)).(serial := c.serial + 1)];
    }

    /**
     * `stable(interval)`: whether the value has not changed for more than
     * `interval` ticks; a signal stable for a non-negative interval did not
     * change in the current tick.
     */
    function Stable(s: Sig, interval: int): (r: bool)
      reads this
      requires s < |cells|
      ensures r <==> StableAt(cells[s], now, interval)
      ensures r && interval >= 0 ==> cells[s].lastChange < now
    {
      StableAt(cells[s], now, interval)
    }

    /**
     * `next_value`: the pending value if there is one, else a copy of the
     * current value; it is None only when both are.
     */
    function NextValue(s: Sig): (r: Option<Value>)
      reads this
      requires s < |cells|
      ensures r == NextValueOf(cells[s])
      ensures cells[s].next.Some? ==> r == cells[s].next
      ensures r.None? <==> cells[s].next.None? && cells[s].value.None?
    {
      NextValueOf(cells[s])
    }

    /**
     * The scheduler moves time forward to `t`; it cannot pass a tick at which
     * a commit is still due.
     */
    method Advance(t: int)
      requires Valid() && now <= t
      requires forall x | 0 <= x < |cells| && cells[x].action.Some? :: t <= cells[x].action.value
      modifies this`now
      ensures Valid() && now == t
    {
      now := t;
    }
  }
}
