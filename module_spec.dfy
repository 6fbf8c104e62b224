/**
 * Pure specification of the module hierarchy (src/sysim/module.py). A module
 * instance is a value: its class, its attributes in `__dict__` order and the
 * keyword arguments it was built with. Attributes hold signals (ids of the
 * signal network), submodules, lists, dicts, or anything else. The
 * reflection of the source (`__dict__`, `getattr`, the metaclass) becomes
 * plain lookups in these values.
 */
module Hierarchy {
  import opened Base
  import opened SignalSpec

  /** A value held by a module attribute, a list element or a dict entry. */
  datatype Item =
    | SignalItem(id: Sig)          // a Signal or a Port
    | ModuleItem(m: Module)        // a submodule instance
    | ListItem(items: seq<Item>)
    | DictItem(entries: seq<Entry>)
    | OtherItem                    // any other Python value

  /** One attribute of a module, or one entry of a dict, in insertion order. */
  datatype Entry = Entry(key: string, value: Item)

  /** A keyword argument to the module constructor: a single value, or a list of them. */
  datatype Arg = One(v: Operand) | Many(vs: seq<Operand>)

  datatype Binding = Binding(key: string, arg: Arg)

  /**
   * A module class: the names of the methods its own body tags with
   * `@process`, the names of all other attributes its body defines (methods,
   * properties, class variables), and its base class, if that is a module
   * class too.
   */
  datatype ModuleClass = ModuleClass(tagged: set<string>, members: set<string>, base: Option<ModuleClass>)

  /** A module instance: its class, its attributes and its keyword arguments. */
  datatype Module = Module(cls: ModuleClass, attrs: seq<Entry>, kwargs: seq<Binding>)

  /** What `_gather` and `_initialize_recursive` look for: `Module` or `Signal`. */
  datatype Want = Modules | Signals

  predicate Wanted(x: Item, want: Want) {
    match want
    case Modules => x.ModuleItem?
    case Signals => x.SignalItem?
  }

  /** `name.startswith('_')`. */
  predicate Private(name: string) {
    |name| > 0 && name[0] == '_'
  }

  // ---------------------------------------------------------------------------
  // Processes
  // ---------------------------------------------------------------------------

  /** `processes`: the tagged names of the class united with those of its base classes. */
  function Processes(cls: ModuleClass): set<string>
    decreases cls
  {
    cls.tagged + if cls.base.Some? then Processes(cls.base.value) else {}
  }

  /** The class followed by its base classes. */
  function Ancestry(cls: ModuleClass): (r: seq<ModuleClass>)
    ensures |r| >= 1 && r[0] == cls
    decreases cls
  {
    [cls] + if cls.base.Some? then Ancestry(cls.base.value) else []
  }

  /** A name is a process of a class exactly when some class of its ancestry tags it. */
  lemma {:induction false} ProcessesOfAncestry(cls: ModuleClass, p: string)
    ensures p in Processes(cls) <==> exists i | 0 <= i < |Ancestry(cls)| :: p in Ancestry(cls)[i].tagged
    decreases cls
  {
    if p in Processes(cls) {
      var i := TaggingAncestor(cls, p);
    }
    if exists i | 0 <= i < |Ancestry(cls)| :: p in Ancestry(cls)[i].tagged {
      var i :| 0 <= i < |Ancestry(cls)| && p in Ancestry(cls)[i].tagged;
      AncestorTags(cls, p, i);
    }
  }

  /** A process of a class is tagged by one of its ancestors. */
  lemma {:induction false} TaggingAncestor(cls: ModuleClass, p: string) returns (i: nat)
    requires p in Processes(cls)
    ensures i < |Ancestry(cls)| && p in Ancestry(cls)[i].tagged
    decreases cls
  {
    if p in cls.tagged {
      i := 0;
    } else {
      var j := TaggingAncestor(cls.base.value, p);
      assert Ancestry(cls) == [cls] + Ancestry(cls.base.value);
      i := j + 1;
    }
  }

  /** Every name an ancestor tags is a process of the class. */
  lemma {:induction false} AncestorTags(cls: ModuleClass, p: string, i: nat)
    requires i < |Ancestry(cls)| && p in Ancestry(cls)[i].tagged
    ensures p in Processes(cls)
    decreases cls
  {
    if i > 0 {
      assert Ancestry(cls) == [cls] + Ancestry(cls.base.value);
      AncestorTags(cls.base.value, p, i - 1);
    }
  }

  /** A subclass keeps every process of its base class. */
  lemma InheritsProcesses(cls: ModuleClass)
    requires cls.base.Some?
    ensures Processes(cls.base.value) <= Processes(cls)
    ensures Processes(cls) == cls.tagged + Processes(cls.base.value)
  {
  }

  /** Attribute names a class and its base classes define. */
  function Members(cls: ModuleClass): set<string>
    decreases cls
  {
    cls.tagged + cls.members + if cls.base.Some? then Members(cls.base.value) else {}
  }

  // ---------------------------------------------------------------------------
  // Collecting
  // ---------------------------------------------------------------------------

  /**
   * `_gather`: the wanted items in encounter order, lists walked in order and
   * dicts in key order, dict keys starting with '_' skipped. A wanted item is
   * taken as it is and not looked into.
   */
  function Gather(x: Item, want: Want): seq<Item>
    decreases x, 1
  {
    match x
    case ListItem(items) => GatherList(items, want)
    case DictItem(entries) => GatherDict(entries, want)
    case _ => if Wanted(x, want) then [x] else []
  }

  function GatherList(items: seq<Item>, want: Want): seq<Item>
    decreases items, 0
  {
    if items == [] then [] else Gather(items[0], want) + GatherList(items[1..], want)
  }

  function GatherDict(entries: seq<Entry>, want: Want): seq<Item>
    decreases entries, 0
  {
    if entries == [] then []
    else (if Private(entries[0].key) then [] else Gather(entries[0].value, want)) + GatherDict(entries[1..], want)
  }

  /**
   * The reference order of `_gather`: every item that is not a list or a
   * dict, reached through lists and through dict entries with public keys.
   */
  function Leaves(x: Item): seq<Item>
    decreases x, 1
  {
    match x
    case ListItem(items) => LeavesOf(items)
    case DictItem(entries) => LeavesOfEntries(entries)
    case _ => [x]
  }

  function LeavesOf(items: seq<Item>): seq<Item>
    decreases items, 0
  {
    if items == [] then [] else Leaves(items[0]) + LeavesOf(items[1..])
  }

  function LeavesOfEntries(entries: seq<Entry>): seq<Item>
    decreases entries, 0
  {
    if entries == [] then []
    else (if Private(entries[0].key) then [] else Leaves(entries[0].value)) + LeavesOfEntries(entries[1..])
  }

  /** The wanted elements of `xs`, in order. */
  function Filter(xs: seq<Item>, want: Want): (r: seq<Item>)
    ensures forall i | 0 <= i < |r| :: Wanted(r[i], want)
    ensures |r| <= |xs|
  {
    if xs == [] then [] else (if Wanted(xs[0], want) then [xs[0]] else []) + Filter(xs[1..], want)
  }

  lemma {:induction false} FilterAppend(a: seq<Item>, b: seq<Item>, want: Want)
    ensures Filter(a + b, want) == Filter(a, want) + Filter(b, want)
  {
    if a != [] {
      assert (a + b)[0] == a[0] && (a + b)[1..] == a[1..] + b;
      FilterAppend(a[1..], b, want);
    } else {
      assert a + b == b;
    }
  }

  /** Leaves are never lists or dicts. */
  lemma {:induction false} LeavesAreLeaves(x: Item)
    ensures forall i | 0 <= i < |Leaves(x)| :: !Leaves(x)[i].ListItem? && !Leaves(x)[i].DictItem?
    decreases x, 1
  {
    match x
    case ListItem(items) => LeavesOfAreLeaves(items);
    case DictItem(entries) => LeavesOfEntriesAreLeaves(entries);
    case _ =>
  }

  lemma {:induction false} LeavesOfAreLeaves(items: seq<Item>)
    ensures forall i | 0 <= i < |LeavesOf(items)| :: !LeavesOf(items)[i].ListItem? && !LeavesOf(items)[i].DictItem?
    decreases items, 0
  {
    if items != [] {
      LeavesAreLeaves(items[0]);
      LeavesOfAreLeaves(items[1..]);
    }
  }

  lemma {:induction false} LeavesOfEntriesAreLeaves(entries: seq<Entry>)
    ensures forall i | 0 <= i < |LeavesOfEntries(entries)| ::
      !LeavesOfEntries(entries)[i].ListItem? && !LeavesOfEntries(entries)[i].DictItem?
    decreases entries, 0
  {
    if entries != [] {
      if !Private(entries[0].key) {
        LeavesAreLeaves(entries[0].value);
      }
      LeavesOfEntriesAreLeaves(entries[1..]);
    }
  }

  /**
   * `_gather` returns exactly the wanted leaves, in encounter order: nothing
   * wanted is missed, nothing else is returned, and nothing inside a
   * returned item (a submodule's own signals, say) is.
   */
  lemma {:induction false} GatherIsFilter(x: Item, want: Want)
    ensures Gather(x, want) == Filter(Leaves(x), want)
    decreases x, 1
  {
    match x
    case ListItem(items) => GatherListIsFilter(items, want);
    case DictItem(entries) => GatherDictIsFilter(entries, want);
    case _ =>
      assert [x][1..] == [];
  }

  lemma {:induction false} GatherListIsFilter(items: seq<Item>, want: Want)
    ensures GatherList(items, want) == Filter(LeavesOf(items), want)
    decreases items, 0
  {
    if items != [] {
      GatherIsFilter(items[0], want);
      GatherListIsFilter(items[1..], want);
      FilterAppend(Leaves(items[0]), LeavesOf(items[1..]), want);
    }
  }

  lemma {:induction false} GatherDictIsFilter(entries: seq<Entry>, want: Want)
    ensures GatherDict(entries, want) == Filter(LeavesOfEntries(entries), want)
    decreases entries, 0
  {
    if entries != [] {
      var head := if Private(entries[0].key) then [] else Leaves(entries[0].value);
      if !Private(entries[0].key) {
        GatherIsFilter(entries[0].value, want);
      }
      GatherDictIsFilter(entries[1..], want);
      FilterAppend(head, LeavesOfEntries(entries[1..]), want);
    }
  }

  /** `instances`: the module's own submodules, possibly inside lists and dicts. */
  function Instances(m: Module): (r: seq<Module>)
  {
    var found := GatherDict(m.attrs, Modules);
    GatherDictIsFilter(m.attrs, Modules);
    seq(|found|, i requires 0 <= i < |found| => found[i].m)
  }

  /** `signals`: the module's own signals and ports, possibly inside lists and dicts. */
  function SignalsOf(m: Module): (r: seq<Sig>)
  {
    var found := GatherDict(m.attrs, Signals);
    GatherDictIsFilter(m.attrs, Signals);
    seq(|found|, i requires 0 <= i < |found| => found[i].id)
  }

  /**
   * A module's `signals` are the signals among its leaves and its
   * `instances` the submodules among them; a signal held by a submodule is
   * not one of the module's signals.
   */
  lemma OwnChildren(m: Module)
    ensures |SignalsOf(m)| == |Filter(LeavesOfEntries(m.attrs), Signals)|
    ensures forall i | 0 <= i < |SignalsOf(m)| :: Filter(LeavesOfEntries(m.attrs), Signals)[i] == SignalItem(SignalsOf(m)[i])
    ensures |Instances(m)| == |Filter(LeavesOfEntries(m.attrs), Modules)|
    ensures forall i | 0 <= i < |Instances(m)| :: Filter(LeavesOfEntries(m.attrs), Modules)[i] == ModuleItem(Instances(m)[i])
  {
    GatherDictIsFilter(m.attrs, Signals);
    GatherDictIsFilter(m.attrs, Modules);
  }

  /** A signal that is only held by a submodule is not among the module's signals. */
  lemma NestedSignalHidden(inner: Module, s: Sig, cls: ModuleClass)
    requires inner.attrs == [Entry("x", SignalItem(s))]
    ensures SignalsOf(Module(cls, [Entry("sub", ModuleItem(inner))], [])) == []
    ensures Instances(Module(cls, [Entry("sub", ModuleItem(inner))], [])) == [inner]
    ensures SignalsOf(inner) == [s]
  {
    var outer := [Entry("sub", ModuleItem(inner))];
    assert outer[1..] == [] && inner.attrs[1..] == [];
    assert !Private("sub") && !Private("x");
    assert GatherDict(outer, Signals) == Gather(ModuleItem(inner), Signals) + GatherDict([], Signals) == [];
    assert GatherDict(outer, Modules) == [ModuleItem(inner)];
    assert GatherDict(inner.attrs, Signals) == [SignalItem(s)];
  }

  // ---------------------------------------------------------------------------
  // Paths
  // ---------------------------------------------------------------------------

  function Digit(n: nat): char
    requires n < 10
  {
    "0123456789"[n]
  }

  /** `str(n)` for a list index. */
  function Decimal(n: nat): (r: string)
    ensures |r| >= 1 && '.' !in r
    decreases n
  {
    if n < 10 then [Digit(n)] else Decimal(n / 10) + [Digit(n % 10)]
  }

  /** The path of list element `i` under `name`: `name(i)`. */
  function ElementPath(name: string, i: nat): string {
    name + "(" + Decimal(i) + ")"
  }

  /** The path of dict entry `k` under `name`: `name.k`. */
  function EntryPath(name: string, k: string): string {
    name + "." + k
  }

  /** A module, signal or port reached by `_initialize_recursive`, with its path. */
  datatype Target = Target(path: string, item: Item)

  /**
   * `_initialize_recursive(name, value, data_type)`: the wanted objects it
   * initialises, in order, each with its path relative to the module. A
   * private name stops the walk; a wanted object is not looked into; lists
   * and dicts are walked with extended paths. Unlike `_gather`, only the
   * attribute name (the start of the path) is checked for a leading '_'.
   */
  function Targets(name: string, x: Item, want: Want): (r: seq<Target>)
    ensures forall i | 0 <= i < |r| :: Wanted(r[i].item, want)
    decreases x, 2
  {
    if Private(name) then []
    else if Wanted(x, want) then [Target(name, x)]
    else match x
      case ListItem(items) => ElementTargets(name, items, 0, want)
      case DictItem(entries) => EntryTargets(name, entries, want)
      case _ => []
  }

  function ElementTargets(name: string, items: seq<Item>, from: nat, want: Want): (r: seq<Target>)
    ensures forall i | 0 <= i < |r| :: Wanted(r[i].item, want)
    decreases items, 1, |items| - from
  {
    if from >= |items| then []
    else Targets(ElementPath(name, from), items[from], want) + ElementTargets(name, items, from + 1, want)
  }

  function EntryTargets(name: string, entries: seq<Entry>, want: Want): (r: seq<Target>)
    ensures forall i | 0 <= i < |r| :: Wanted(r[i].item, want)
    decreases entries, 0
  {
    if entries == [] then []
    else Targets(EntryPath(name, entries[0].key), entries[0].value, want) + EntryTargets(name, entries[1..], want)
  }

  /** The targets of all attributes of a module, in `__dict__` order. */
  function AttrTargets(attrs: seq<Entry>, want: Want): (r: seq<Target>)
    ensures forall i | 0 <= i < |r| :: Wanted(r[i].item, want)
    decreases attrs
  {
    if attrs == [] then [] else Targets(attrs[0].key, attrs[0].value, want) + AttrTargets(attrs[1..], want)
  }

  function Items(ts: seq<Target>): seq<Item> {
    if ts == [] then [] else [ts[0].item] + Items(ts[1..])
  }

  lemma {:induction false} ItemsAppend(a: seq<Target>, b: seq<Target>)
    ensures Items(a + b) == Items(a) + Items(b)
  {
    if a != [] {
      assert (a + b)[0] == a[0] && (a + b)[1..] == a[1..] + b;
      ItemsAppend(a[1..], b);
    } else {
      assert a + b == b;
    }
  }

  /** No dict inside `x` has a key that starts with '_'. */
  predicate NoPrivateKeys(x: Item)
    decreases x, 1
  {
    match x
    case ListItem(items) => forall i | 0 <= i < |items| :: NoPrivateKeys(items[i])
    case DictItem(entries) => forall i | 0 <= i < |entries| :: !Private(entries[i].key) && NoPrivateKeys(entries[i].value)
    case _ => true
  }

  /**
   * Away from private dict keys, `_initialize_recursive` reaches exactly the
   * objects `_gather` returns, in the same order: every module and signal
   * that `instances` and `signals` list is named, and nothing else is.
   */
  lemma {:induction false} TargetsMatchGather(name: string, x: Item, want: Want)
    requires !Private(name) && NoPrivateKeys(x)
    ensures Items(Targets(name, x, want)) == Gather(x, want)
    decreases x, 2
  {
    if Wanted(x, want) {
      assert Gather(x, want) == [x];
    } else {
      match x
      case ListItem(items) =>
        ElementTargetsMatch(name, items, 0, want);
        assert items[0..] == items;
      case DictItem(entries) => EntryTargetsMatch(name, entries, want);
      case _ =>
    }
  }

  lemma {:induction false} ElementTargetsMatch(name: string, items: seq<Item>, from: nat, want: Want)
    requires from <= |items| && forall i | 0 <= i < |items| :: NoPrivateKeys(items[i])
    requires !Private(name)
    ensures Items(ElementTargets(name, items, from, want)) == GatherList(items[from..], want)
    decreases items, 1, |items| - from
  {
    if from < |items| {
      assert !Private(ElementPath(name, from));
      TargetsMatchGather(ElementPath(name, from), items[from], want);
      ElementTargetsMatch(name, items, from + 1, want);
      ItemsAppend(Targets(ElementPath(name, from), items[from], want), ElementTargets(name, items, from + 1, want));
      assert items[from..][0] == items[from] && items[from..][1..] == items[from + 1..];
    }
  }

  lemma {:induction false} EntryTargetsMatch(name: string, entries: seq<Entry>, want: Want)
    requires forall i | 0 <= i < |entries| :: !Private(entries[i].key) && NoPrivateKeys(entries[i].value)
    requires !Private(name)
    ensures Items(EntryTargets(name, entries, want)) == GatherDict(entries, want)
    decreases entries, 0
  {
    if entries != [] {
      assert !Private(EntryPath(name, entries[0].key));
      TargetsMatchGather(EntryPath(name, entries[0].key), entries[0].value, want);
      EntryTargetsMatch(name, entries[1..], want);
      ItemsAppend(Targets(EntryPath(name, entries[0].key), entries[0].value, want), EntryTargets(name, entries[1..], want));
    }
  }

  /**
   * A dict entry with a private key is initialised (its path starts with the
   * public attribute name) but not gathered: such a signal gets a name, but
   * `signals` does not list it, so its initial value is never propagated.
   */
  lemma PrivateEntryNamedNotGathered(s: Sig)
    ensures Targets("d", DictItem([Entry("_x", SignalItem(s))]), Signals) == [Target("d._x", SignalItem(s))]
    ensures Gather(DictItem([Entry("_x", SignalItem(s))]), Signals) == []
  {
    var entries := [Entry("_x", SignalItem(s))];
    assert entries[1..] == [];
    assert EntryPath("d", "_x") == "d._x";
    assert !Private("d") && !Private("d._x") && Private("_x");
    assert EntryTargets("d", entries, Signals) == Targets("d._x", SignalItem(s), Signals) + EntryTargets("d", [], Signals);
    assert GatherDict(entries, Signals) == [] + GatherDict([], Signals);
  }

  /** Every path `_initialize_recursive` builds extends the name it started from. */
  lemma {:induction false} PathsExtendName(name: string, x: Item, want: Want)
    ensures forall i | 0 <= i < |Targets(name, x, want)| :: name <= Targets(name, x, want)[i].path
    decreases x, 2
  {
    if !Private(name) && !Wanted(x, want) {
      match x
      case ListItem(items) => ElementPathsExtend(name, items, 0, want);
      case DictItem(entries) => EntryPathsExtend(name, entries, want);
      case _ =>
    }
  }

  lemma {:induction false} ElementPathsExtend(name: string, items: seq<Item>, from: nat, want: Want)
    ensures forall i | 0 <= i < |ElementTargets(name, items, from, want)| :: name <= ElementTargets(name, items, from, want)[i].path
    decreases items, 1, |items| - from
  {
    if from < |items| {
      var p := ElementPath(name, from);
      PathsExtendName(p, items[from], want);
      ElementPathsExtend(name, items, from + 1, want);
      var a: seq<Target> := Targets(p, items[from], want);
      var b := ElementTargets(name, items, from + 1, want);
      forall i | 0 <= i < |a + b| ensures name <= (a + b)[i].path {
        if i < |a| {
          assert name <= p <= a[i].path;
        } else {
          assert (a + b)[i] == b[i - |a|];
        }
      }
    }
  }

  lemma {:induction false} EntryPathsExtend(name: string, entries: seq<Entry>, want: Want)
    ensures forall i | 0 <= i < |EntryTargets(name, entries, want)| :: name <= EntryTargets(name, entries, want)[i].path
    decreases entries, 0
  {
    if entries != [] {
      var p := EntryPath(name, entries[0].key);
      PathsExtendName(p, entries[0].value, want);
      EntryPathsExtend(name, entries[1..], want);
      var a: seq<Target> := Targets(p, entries[0].value, want);
      var b := EntryTargets(name, entries[1..], want);
      forall i | 0 <= i < |a + b| ensures name <= (a + b)[i].path {
        if i < |a| {
          assert name <= p <= a[i].path;
        } else {
          assert (a + b)[i] == b[i - |a|];
        }
      }
    }
  }

  /**
   * A signal found at list index `i` under attribute `a` of module `mod`
   * is named `a(i)` within scope `mod`.
   */
  lemma ElementName(mod: string, a: string, i: nat)
    requires '.' !in a
    ensures NameOf(mod + "." + ElementPath(a, i)) == ElementPath(a, i)
    ensures ScopeOf(mod + "." + ElementPath(a, i)) == mod
  {
    DottedPath(mod, ElementPath(a, i));
  }
}
