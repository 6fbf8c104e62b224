/**
 * Module initialisation as the simulator runs it (src/sysim/module.py):
 * `initialize` walks the module tree, binds ports and names signals in the
 * signal network, and schedules processes; `propagate_initial_values`
 * seeds initial values, submodules first. Each method is proved against
 * its specification function in `Elaborate`.
 */
module Modules {
  import opened Base
  import opened SignalSpec
  import opened Hierarchy
  import opened Elaborate
  import opened Signals

  /**
   * The state initialisation changes: the signal network, the names given
   * to modules (each module's `_name`, in the order they were set) and the
   * processes handed to the scheduler.
   */
  class Elaboration {
    const net: Network
    var named: seq<string>
    var runs: multiset<Run>

    function State(): Elab
      reads this, net
    {
      Elab(net.cells, net.Wires(), named, runs)
    }

    constructor (network: Network)
      ensures net == network && named == [] && runs == multiset{}
    {
      net := network;
      named := [];
      runs := multiset{};
    }

    /** `initialize(name)`. */
    method Initialize(m: Module, name: string) returns (r: Outcome)
      requires net.Valid() && ModuleOK(m, |net.cells|)
      modifies this`named, this`runs, net`cells, net`sinks, net`sources
      ensures net.Valid()
      ensures (r, State()) == InitModule(old(State()), m, name)
      decreases m, 2
    {
      ghost var e1 := State().(named := named + [name]);
      named := named + [name];
      assert State() == e1;
      r := InitializePortBindings(m);
      if r.Fail? {
        return;
      }
      ghost var e2 := State();
      r := InitializeAttrs(name, m.attrs, Modules);
      if r.Fail? {
        return;
      }
      ghost var e3 := State();
      r := InitializeAttrs(name, m.attrs, Signals);
      if r.Fail? {
        return;
      }
      ghost var e4 := State();
      ScheduleProcesses(name, Processes(m.cls));
      assert State() == e4.(runs := e4.runs + RunsOf(name, Processes(m.cls)));
    }

    /** `for proc in self.processes: schedule(...)`: one run of each process, in set order. */
    method ScheduleProcesses(name: string, procs: set<string>)
      modifies this`runs
      ensures runs == old(runs) + RunsOf(name, procs)
    {
      var left := procs;
      while left != {}
        invariant runs + RunsOf(name, left) == old(runs) + RunsOf(name, procs)
        decreases left
      {
        var p :| p in left;
        assert RunsOf(name, left) == RunsOf(name, left - {p}) + multiset{Run(name, p)};
        runs := runs + multiset{Run(name, p)};
        left := left - {p};
      }
    }

    /** `_initialize_port_bindings`. */
    method InitializePortBindings(m: Module) returns (r: Outcome)
      requires net.Valid() && ModuleOK(m, |net.cells|)
      modifies net`sinks, net`sources
      ensures net.Valid()
      ensures (r, State()) == BindAll(old(State()), m, m.kwargs)
    {
      ghost var target := BindAll(State(), m, m.kwargs);
      r := Pass;
      var i := 0;
      while i < |m.kwargs|
        invariant i <= |m.kwargs| && net.Valid() && r == Pass
        invariant BindAll(State(), m, m.kwargs[i..]) == target
      {
        assert m.kwargs[i..][0] == m.kwargs[i] && m.kwargs[i..][1..] == m.kwargs[i + 1..];
        ghost var before := State();
        r := BindOne(m, m.kwargs[i]);
        assert (r, State()) == BindKeyword(before, m, m.kwargs[i]);
        if r.Fail? {
          return;
        }
        i := i + 1;
      }
    }

    /** One keyword argument of the constructor: the attribute it names, bound by kind. */
    method BindOne(m: Module, b: Binding) returns (r: Outcome)
      requires net.Valid() && ModuleOK(m, |net.cells|) && ArgOK(b.arg, |net.cells|)
      modifies net`sinks, net`sources
      ensures net.Valid()
      ensures (r, State()) == BindKeyword(old(State()), m, b)
    {
      LookupOK(m, b.key, |net.cells|);
      var port := Lookup(m, b.key);
      if port.None? {
        return Fail(KeyError);
      }
      match port.value
      case ListItem(ports) =>
        match b.arg {
          case Many(vs) =>
            r := BindZip(ports, vs);
          case One(v) =>
            if |ports| == 1 {
              r := BindZip(ports, [v]);
            } else {
              r := Fail(ValueError);
            }
        }
      case SignalItem(p) =>
        if net.cells[p].kind.Port? {
          r := net.Bind(p, AsOperand(b.arg));
        } else {
          r := Fail(ValueError);
        }
      case _ =>
        r := Fail(ValueError);
    }

    /** `for this, that in zip(port, value): this.bind(that)`. */
    method BindZip(ports: seq<Item>, values: seq<Operand>) returns (r: Outcome)
      requires net.Valid()
      requires forall i | 0 <= i < |ports| :: ItemOK(ports[i], |net.cells|)
      requires forall i | 0 <= i < |values| :: OperandOK(values[i], |net.cells|)
      modifies net`sinks, net`sources
      ensures net.Valid()
      ensures (r, State()) == BindPairs(old(State()), ports, values)
    {
      ghost var target := BindPairs(State(), ports, values);
      r := Pass;
      var i := 0;
      while i < |ports| && i < |values|
        invariant i <= |ports| && i <= |values| && net.Valid() && r == Pass
        invariant BindPairs(State(), ports[i..], values[i..]) == target
      {
        PairsStep(State(), ports, values, i);
        r := BindElement(ports[i], values[i]);
        if r.Fail? {
          return;
        }
        i := i + 1;
      }
    }

    /** `this.bind(that)` on one element of a list port: only a port has `bind`. */
    method BindElement(x: Item, other: Operand) returns (r: Outcome)
      requires net.Valid() && ItemOK(x, |net.cells|) && OperandOK(other, |net.cells|)
      modifies net`sinks, net`sources
      ensures net.Valid()
      ensures (r, State()) == BindTo(old(State()), x, other)
    {
      if x.SignalItem? && net.cells[x.id].kind.Port? {
        r := net.Bind(x.id, other);
      } else {
        r := Fail(AttributeError);
      }
    }

    /** A loop of `initialize` over `__dict__`, calling `_initialize_recursive` on each attribute. */
    method InitializeAttrs(name: string, attrs: seq<Entry>, want: Want) returns (r: Outcome)
      requires net.Valid() && EntriesOK(attrs, |net.cells|)
      modifies this`named, this`runs, net`cells, net`sinks, net`sources
      ensures net.Valid()
      ensures (r, State()) == InitAttrs(old(State()), name, attrs, want)
      decreases attrs, 0
    {
      ghost var target := InitAttrs(State(), name, attrs, want);
      ghost var n := |net.cells|;
      r := Pass;
      var i := 0;
      while i < |attrs|
        invariant i <= |attrs| && net.Valid() && |net.cells| == n && r == Pass
        invariant InitAttrs(State(), name, attrs[i..], want) == target
      {
        assert attrs[i..][0] == attrs[i] && attrs[i..][1..] == attrs[i + 1..];
        ghost var before := State();
        r := InitializeRecursive(name, attrs[i].key, attrs[i].value, want);
        assert (r, State()) == InitItem(before, name, attrs[i].key, attrs[i].value, want);
        if r.Fail? {
          return;
        }
        i := i + 1;
      }
    }

    /** `_initialize_recursive(path, x, want)` in the module named `name`. */
    method InitializeRecursive(name: string, path: string, x: Item, want: Want) returns (r: Outcome)
      requires net.Valid() && ItemOK(x, |net.cells|)
      modifies this`named, this`runs, net`cells, net`sinks, net`sources
      ensures net.Valid()
      ensures (r, State()) == InitItem(old(State()), name, path, x, want)
      decreases x, 1
    {
      r := Pass;
      if Private(path) {
        return;
      }
      if Wanted(x, want) {
        match x
        case SignalItem(s) =>
          net.InitializeName(s, name + "." + path);
        case ModuleItem(m) =>
          r := Initialize(m, name + "." + path);
      } else {
        match x
        case ListItem(items) =>
          r := InitializeElements(name, path, items, want);
        case DictItem(entries) =>
          r := InitializeEntries(name, path, entries, want);
        case _ =>
      }
    }

    /** The list branch of `_initialize_recursive`: element `i` under the path `path(i)`. */
    method InitializeElements(name: string, path: string, items: seq<Item>, want: Want) returns (r: Outcome)
      requires net.Valid() && forall i | 0 <= i < |items| :: ItemOK(items[i], |net.cells|)
      modifies this`named, this`runs, net`cells, net`sinks, net`sources
      ensures net.Valid()
      ensures (r, State()) == InitElements(old(State()), name, path, items, 0, want)
      decreases items, 0
    {
      ghost var target := InitElements(State(), name, path, items, 0, want);
      ghost var n := |net.cells|;
      r := Pass;
      var i := 0;
      while i < |items|
        invariant i <= |items| && net.Valid() && |net.cells| == n && r == Pass
        invariant InitElements(State(), name, path, items, i, want) == target
      {
        ghost var before := State();
        r := InitializeRecursive(name, ElementPath(path, i), items[i], want);
        ElementsStep(before, name, path, items, i, want);
        if r.Fail? {
          return;
        }
        i := i + 1;
      }
    }

    /** The dict branch of `_initialize_recursive`: entry `k` under the path `path.k`. */
    method InitializeEntries(name: string, path: string, entries: seq<Entry>, want: Want) returns (r: Outcome)
      requires net.Valid() && EntriesOK(entries, |net.cells|)
      modifies this`named, this`runs, net`cells, net`sinks, net`sources
      ensures net.Valid()
      ensures (r, State()) == InitEntries(old(State()), name, path, entries, want)
      decreases entries, 0
    {
      ghost var target := InitEntries(State(), name, path, entries, want);
      ghost var n := |net.cells|;
      r := Pass;
      var i := 0;
      while i < |entries|
        invariant i <= |entries| && net.Valid() && |net.cells| == n && r == Pass
        invariant InitEntries(State(), name, path, entries[i..], want) == target
      {
        assert entries[i..][0] == entries[i] && entries[i..][1..] == entries[i + 1..];
        ghost var before := State();
        r := InitializeRecursive(name, EntryPath(path, entries[i].key), entries[i].value, want);
        assert (r, State()) == InitItem(before, name, EntryPath(path, entries[i].key), entries[i].value, want);
        if r.Fail? {
          return;
        }
        i := i + 1;
      }
    }

    /** `propagate_initial_values`: the submodules first, then the module's own signals. */
    method PropagateInitialValues(m: Module, ghost depth: nat)
      requires net.Valid() && Seedable(net.sinks, InitialOrder(m), depth)
      modifies net`cells
      ensures net.Valid()
      ensures net.cells == SeedAll(old(net.cells), net.sinks, InitialOrder(m), depth)
      decreases Height(ModuleItem(m)), 1
    {
      InstancesBelow(m);
      InstancesOrder(m);
      ghost var h := Height(ModuleItem(m));
      ghost var children := ChildOrders(Instances(m));
      SeedableAppend(net.sinks, children, SignalsOf(m), depth);
      SeedAllAppend(net.cells, net.sinks, children, SignalsOf(m), depth);
      PropagateSubmodules(Instances(m), h, depth);
      PropagateSignals(SignalsOf(m), depth);
    }

    /** `for instance in self.instances: instance.propagate_initial_values()`. */
    method PropagateSubmodules(ms: seq<Module>, ghost h: nat, ghost depth: nat)
      requires forall i | 0 <= i < |ms| :: Height(ModuleItem(ms[i])) < h
      requires net.Valid() && Seedable(net.sinks, ChildOrders(ms), depth)
      modifies net`cells
      ensures net.Valid()
      ensures net.cells == SeedAll(old(net.cells), net.sinks, ChildOrders(ms), depth)
      decreases h, 0
    {
      ghost var target := SeedAll(net.cells, net.sinks, ChildOrders(ms), depth);
      var i := 0;
      while i < |ms|
        invariant i <= |ms| && net.Valid()
        invariant Seedable(net.sinks, ChildOrders(ms[i..]), depth)
        invariant SeedAll(net.cells, net.sinks, ChildOrders(ms[i..]), depth) == target
      {
        SeedStep(net.cells, net.sinks, ms, i, depth);
        PropagateInitialValues(ms[i], depth);
        i := i + 1;
      }
      assert ms[i..] == [];
    }

    /** `for signal in self.signals: signal.propagate_initial_value()`. */
    method PropagateSignals(signals: seq<Sig>, ghost depth: nat)
      requires net.Valid() && Seedable(net.sinks, signals, depth)
      modifies net`cells
      ensures net.Valid()
      ensures net.cells == SeedAll(old(net.cells), net.sinks, signals, depth)
    {
      ghost var target := SeedAll(net.cells, net.sinks, signals, depth);
      var j := 0;
      while j < |signals|
        invariant j <= |signals| && net.Valid()
        invariant Seedable(net.sinks, signals[j..], depth)
        invariant SeedAll(net.cells, net.sinks, signals[j..], depth) == target
      {
        assert signals[j..][0] == signals[j] && signals[j..][1..] == signals[j + 1..];
        SeedableAppend(net.sinks, [signals[j]], signals[j + 1..], depth);
        net.PropagateInitialValue(signals[j], depth);
        j := j + 1;
      }
    }
  }
}
