/**
 * Value-level model of the registry kept by the `Hooks` class
 * (plugins/woocommerce/src/Hooks.php): its three process-wide tables, the
 * invariant that ties the reference counts to the registered hookings, the
 * table updates each operation performs, and the specification of one
 * dispatch pass over a key's list.
 */
module HookState {
  import opened Strings

  /** Identity of a PHP object. */
  type Instance = nat

  /** The first slot of a hooking. */
  datatype Target =
    | Obj(instance: Instance)   // an object that is not callable
    | Factory(closure: nat)     // a callable, compared by identity (it returns the instance to use)
    | ClassName(name: string)   // resolved lazily through the cache, the container or the legacy proxy
    | None                      // null: a static-call init callable after it has run

  /** One entry `[target, method, priority, accepted_args, id]` of a key's list. */
  datatype Hooking = Hooking(target: Target, methodName: string, priority: int, acceptedArgs: int, id: string)

  /** `$active_hookings`: key to the ordered list of hookings under that key. */
  type Hookings = map<string, seq<Hooking>>

  /** The three tables: `$active_hookings`, `$class_instances`, `$hookings_count_by_class`. */
  datatype Tables = Tables(hookings: Hookings, instances: map<string, Instance>, counts: map<string, nat>)

  /** The array key `"{hook_name}__{priority}__{accepted_args}"`. */
  function HookKey(hookName: string, priority: int, acceptedArgs: int): string
  {
    hookName + "__" + IntToString(priority) + "__" + IntToString(acceptedArgs)
  }

  /** A method written as `Class::method` is called statically, without an instance. */
  predicate IsStatic(methodName: string)
  {
    Contains(methodName, "::")
  }

  /** The list under `key`, empty when the key is absent. */
  function ListAt(m: Hookings, key: string): seq<Hooking>
  {
    if key in m then m[key] else []
  }

  /** `$hookings_count_by_class[$c] ?? 0`. */
  function Refcount(counts: map<string, nat>, c: string): nat
  {
    if c in counts then counts[c] else 0
  }

  /** `$hookings_count_by_class[$c] = ($hookings_count_by_class[$c] ?? 0) + 1`. */
  function Inc(counts: map<string, nat>, c: string): map<string, nat>
  {
    counts[c := Refcount(counts, c) + 1]
  }

  // ---------------------------------------------------------------------
  // Views of the hookings table
  // ---------------------------------------------------------------------

  /** Which hookings a set of ids is taken over. */
  datatype Selector = AllHookings | RefersTo(className: string) | Callables

  predicate Selects(s: Selector, t: Target)
  {
    match s
    case AllHookings => true
    case RefersTo(c) => t == ClassName(c)
    case Callables => t.Factory?
  }

  /** Ids of the live hookings that `s` selects. */
  ghost function IdsOf(m: Hookings, s: Selector): set<string>
  {
    set k, i | k in m && 0 <= i < |m[k]| && Selects(s, m[k][i].target) :: m[k][i].id
  }

  /** Ids of all live hookings. */
  ghost function Ids(m: Hookings): set<string>
  {
    IdsOf(m, AllHookings)
  }

  /** Ids of the live hookings whose target is the class name `c`. */
  ghost function RefIds(m: Hookings, c: string): set<string>
  {
    IdsOf(m, RefersTo(c))
  }

  /** No two live hookings share an id (ids are 128 random bits in the source). */
  ghost predicate UniqueIds(m: Hookings)
  {
    forall k1, i1, k2, i2 |
      k1 in m && 0 <= i1 < |m[k1]| && k2 in m && 0 <= i2 < |m[k2]| && m[k1][i1].id == m[k2][i2].id
      :: k1 == k2 && i1 == i2
  }

  /** A list that becomes empty has its key unset. */
  ghost predicate NoEmptyLists(m: Hookings)
  {
    forall k | k in m :: m[k] != []
  }

  /** A null target only arises from running a static-call init callable. */
  ghost predicate NullOnlyStatic(m: Hookings)
  {
    forall k | k in m :: NullOnlyStaticIn(m[k])
  }

  ghost predicate NullOnlyStaticIn(entries: seq<Hooking>)
  {
    forall j | 0 <= j < |entries| :: entries[j].target.None? ==> IsStatic(entries[j].methodName)
  }

  /**
   * The bookkeeping invariant of the registry: the count stored for a class
   * name is the number of live hookings targeting that name, no zero count is
   * stored, and only counted classes have a cached instance.
   */
  ghost predicate Consistent(t: Tables)
  {
    && UniqueIds(t.hookings)
    && NoEmptyLists(t.hookings)
    && NullOnlyStatic(t.hookings)
    && (forall c :: Refcount(t.counts, c) == |RefIds(t.hookings, c)|)
    && (forall c | c in t.counts :: t.counts[c] > 0)
    && t.instances.Keys <= t.counts.Keys
  }

  // ---------------------------------------------------------------------
  // Table updates
  // ---------------------------------------------------------------------

  /** register_hook_core: append the hooking to its key's list and count a class-name target. */
  function Register(t: Tables, key: string, h: Hooking): Tables
  {
    Tables(t.hookings[key := ListAt(t.hookings, key) + [h]],
           t.instances,
           if h.target.ClassName? then Inc(t.counts, h.target.name) else t.counts)
  }

  /** Unset entry `i` of the list under `k`, and the key itself when its list becomes empty. */
  function RemoveEntry(m: Hookings, k: string, i: nat): Hookings
    requires k in m && i < |m[k]|
  {
    var rest := m[k][..i] + m[k][i + 1..];
    if rest == [] then m - {k} else m[k := rest]
  }

  /**
   * remove_hook_core: remove the entry; for a class-name target decrement its
   * count, or at the last reference evict both the cached instance and the count.
   */
  function RemoveCore(t: Tables, k: string, i: nat): Tables
    requires k in t.hookings && i < |t.hookings[k]|
  {
    var m := RemoveEntry(t.hookings, k, i);
    match t.hookings[k][i].target
    case ClassName(c) =>
      if Refcount(t.counts, c) > 1 then Tables(m, t.instances, t.counts[c := t.counts[c] - 1])
      else Tables(m, t.instances - {c}, t.counts - {c})
    case _ => Tables(m, t.instances, t.counts)
  }

  /** The in-place write `$hook_instance[0] = ...` on entry `i` of the list under `k`. */
  function SetTarget(m: Hookings, k: string, i: nat, target: Target): Hookings
    requires k in m && i < |m[k]|
  {
    m[k := m[k][i := m[k][i].(target := target)]]
  }

  /** The position of the live hooking with id `id`. */
  ghost function Locate(m: Hookings, id: string): (p: (string, nat))
    requires id in Ids(m)
    ensures p.0 in m && p.1 < |m[p.0]| && m[p.0][p.1].id == id
  {
    var k, i :| k in m && 0 <= i < |m[k]| && m[k][i].id == id; (k, i)
  }

  // ---------------------------------------------------------------------
  // How the id sets change under the updates
  // ---------------------------------------------------------------------

  lemma IdsOfAppend(m: Hookings, key: string, h: Hooking, s: Selector)
    ensures IdsOf(m[key := ListAt(m, key) + [h]], s)
         == IdsOf(m, s) + (if Selects(s, h.target) then {h.id} else {})
  {
    var l := ListAt(m, key);
    var m' := m[key := l + [h]];
    forall x | x in IdsOf(m', s) ensures x in IdsOf(m, s) + (if Selects(s, h.target) then {h.id} else {}) {
      var k, i :| k in m' && 0 <= i < |m'[k]| && Selects(s, m'[k][i].target) && m'[k][i].id == x;
      if k != key || i < |l| {
        assert m'[k][i] == m[k][i];
      }
    }
    forall x | x in IdsOf(m, s) ensures x in IdsOf(m', s) {
      var k, i :| k in m && 0 <= i < |m[k]| && Selects(s, m[k][i].target) && m[k][i].id == x;
      assert m'[k][i] == m[k][i];
    }
    if Selects(s, h.target) {
      assert m'[key][|l|] == h;
    }
  }

  /** Where an entry of `RemoveEntry(m, k, i)` sits in `m`. */
  lemma RemoveEntryBack(m: Hookings, k: string, i: nat, k1: string, i1: int)
    requires k in m && i < |m[k]|
    requires k1 in RemoveEntry(m, k, i) && 0 <= i1 < |RemoveEntry(m, k, i)[k1]|
    ensures k1 in m && (if k1 == k && i1 >= i then i1 + 1 else i1) < |m[k1]|
    ensures RemoveEntry(m, k, i)[k1][i1] == m[k1][if k1 == k && i1 >= i then i1 + 1 else i1]
  {
  }

  /** Where an entry of `m` other than (k, i) sits in `RemoveEntry(m, k, i)`. */
  lemma RemoveEntryForth(m: Hookings, k: string, i: nat, k1: string, i1: int)
    requires k in m && i < |m[k]| && k1 in m && 0 <= i1 < |m[k1]| && !(k1 == k && i1 == i)
    ensures var j := if k1 == k && i1 > i then i1 - 1 else i1;
            k1 in RemoveEntry(m, k, i) && j < |RemoveEntry(m, k, i)[k1]| && RemoveEntry(m, k, i)[k1][j] == m[k1][i1]
  {
  }

  lemma IdsOfRemove(m: Hookings, k: string, i: nat, s: Selector)
    requires UniqueIds(m) && k in m && i < |m[k]|
    ensures IdsOf(RemoveEntry(m, k, i), s) == IdsOf(m, s) - {m[k][i].id}
  {
    var m' := RemoveEntry(m, k, i);
    var x := m[k][i].id;
    forall y | y in IdsOf(m', s) ensures y in IdsOf(m, s) - {x} {
      var k1, i1 :| k1 in m' && 0 <= i1 < |m'[k1]| && Selects(s, m'[k1][i1].target) && m'[k1][i1].id == y;
      RemoveEntryBack(m, k, i, k1, i1);
      var j := if k1 == k && i1 >= i then i1 + 1 else i1;
      assert m[k1][j].id in IdsOf(m, s);
    }
    forall y | y in IdsOf(m, s) - {x} ensures y in IdsOf(m', s) {
      var k1, i1 :| k1 in m && 0 <= i1 < |m[k1]| && Selects(s, m[k1][i1].target) && m[k1][i1].id == y;
      RemoveEntryForth(m, k, i, k1, i1);
      var j := if k1 == k && i1 > i then i1 - 1 else i1;
      assert m'[k1][j].id in IdsOf(m', s);
    }
  }

  lemma IdsOfSetTarget(m: Hookings, k: string, i: nat, target: Target, s: Selector)
    requires UniqueIds(m) && k in m && i < |m[k]|
    ensures IdsOf(SetTarget(m, k, i, target), s)
         == (IdsOf(m, s) - {m[k][i].id}) + (if Selects(s, target) then {m[k][i].id} else {})
  {
    var m': Hookings := SetTarget(m, k, i, target);
    var x := m[k][i].id;
    forall y | y in IdsOf(m', s)
      ensures y in (IdsOf(m, s) - {x}) + (if Selects(s, target) then {x} else {})
    {
      var k1, i1 :| k1 in m' && 0 <= i1 < |m'[k1]| && Selects(s, m'[k1][i1].target) && m'[k1][i1].id == y;
      if k1 != k || i1 != i {
        assert m'[k1][i1] == m[k1][i1];
      }
    }
    forall y | y in IdsOf(m, s) - {x} ensures y in IdsOf(m', s) {
      var k1, i1 :| k1 in m && 0 <= i1 < |m[k1]| && Selects(s, m[k1][i1].target) && m[k1][i1].id == y;
      assert m'[k1][i1] == m[k1][i1];
    }
    if Selects(s, target) {
      assert m'[k][i].id == x && m'[k][i].target == target;
    }
  }

  /** With unique ids, a live hooking's id is selected exactly when its target is. */
  lemma IdSelectedIff(m: Hookings, k: string, i: nat, s: Selector)
    requires UniqueIds(m) && k in m && i < |m[k]|
    ensures m[k][i].id in IdsOf(m, s) <==> Selects(s, m[k][i].target)
  {
    if m[k][i].id in IdsOf(m, s) {
      var k1, i1 :| k1 in m && 0 <= i1 < |m[k1]| && Selects(s, m[k1][i1].target) && m[k1][i1].id == m[k][i].id;
    }
  }

  lemma UniqueAfterAppend(m: Hookings, key: string, h: Hooking)
    requires UniqueIds(m) && h.id !in Ids(m)
    ensures UniqueIds(m[key := ListAt(m, key) + [h]])
  {
    var l := ListAt(m, key);
    var m' := m[key := l + [h]];
    forall k, i | k in m' && 0 <= i < |m'[k]| && !(k == key && i == |l|)
      ensures m'[k][i] == m[k][i]
    {
    }
    forall k, i | k in m && 0 <= i < |m[k]| ensures m[k][i].id != h.id {
      assert m[k][i].id in Ids(m);
    }
  }

  lemma UniqueAfterRemove(m: Hookings, k: string, i: nat)
    requires UniqueIds(m) && k in m && i < |m[k]|
    ensures UniqueIds(RemoveEntry(m, k, i))
  {
    var m' := RemoveEntry(m, k, i);
    forall k1: string, i1: int | k1 in m' && 0 <= i1 < |m'[k1]|
      ensures m'[k1][i1] == m[k1][if k1 == k && i1 >= i then i1 + 1 else i1]
    {
    }
  }

  lemma UniqueAfterSetTarget(m: Hookings, k: string, i: nat, target: Target)
    requires UniqueIds(m) && k in m && i < |m[k]|
    ensures UniqueIds(SetTarget(m, k, i, target))
  {
    var m': Hookings := SetTarget(m, k, i, target);
    forall k1: string, i1: int | k1 in m' && 0 <= i1 < |m'[k1]|
      ensures m'[k1][i1].id == m[k1][i1].id
    {
    }
  }

  // ---------------------------------------------------------------------
  // Every update keeps the bookkeeping invariant
  // ---------------------------------------------------------------------

  lemma RefIdsWithinIds(m: Hookings, c: string)
    ensures RefIds(m, c) <= Ids(m)
  {
    forall x | x in RefIds(m, c) ensures x in Ids(m) {
      var k, i :| k in m && 0 <= i < |m[k]| && m[k][i].target == ClassName(c) && m[k][i].id == x;
    }
  }

  lemma RegisterRefcountOf(t: Tables, key: string, h: Hooking, c: string)
    requires Refcount(t.counts, c) == |RefIds(t.hookings, c)|
    requires h.id !in Ids(t.hookings)
    ensures Refcount(Register(t, key, h).counts, c) == |RefIds(Register(t, key, h).hookings, c)|
  {
    IdsOfAppend(t.hookings, key, h, RefersTo(c));
    RefIdsWithinIds(t.hookings, c);
  }

  /**
   * Registering a hooking with a fresh id keeps the tables consistent and adds
   * exactly that id; a class-name target raises its class's count by one.
   */
  lemma RegisterKeepsConsistent(t: Tables, key: string, h: Hooking)
    requires Consistent(t)
    requires h.id !in Ids(t.hookings)
    requires h.target.None? ==> IsStatic(h.methodName)
    ensures Consistent(Register(t, key, h))
    ensures Ids(Register(t, key, h).hookings) == Ids(t.hookings) + {h.id}
    ensures forall c :: Refcount(Register(t, key, h).counts, c)
                       == Refcount(t.counts, c) + (if h.target == ClassName(c) then 1 else 0)
  {
    var t' := Register(t, key, h);
    var m: Hookings := t.hookings;
    var l := ListAt(m, key);
    UniqueAfterAppend(m, key, h);
    IdsOfAppend(m, key, h, AllHookings);
    forall k, i | k in t'.hookings && 0 <= i < |t'.hookings[k]| && !(k == key && i == |l|)
      ensures t'.hookings[k][i] == m[k][i]
    {
    }
    forall c ensures Refcount(t'.counts, c) == |RefIds(t'.hookings, c)| {
      RegisterRefcountOf(t, key, h, c);
    }
  }

  lemma RemoveRefcountOf(t: Tables, k: string, i: nat, c: string)
    requires UniqueIds(t.hookings) && k in t.hookings && i < |t.hookings[k]|
    requires Refcount(t.counts, c) == |RefIds(t.hookings, c)|
    ensures Refcount(RemoveCore(t, k, i).counts, c) == |RefIds(RemoveCore(t, k, i).hookings, c)|
  {
    var m: Hookings := t.hookings;
    var h: Hooking := m[k][i];
    IdsOfRemove(m, k, i, RefersTo(c));
    IdSelectedIff(m, k, i, RefersTo(c));
    if h.target == ClassName(c) {
      assert |RefIds(m, c) - {h.id}| == |RefIds(m, c)| - 1;
    } else {
      assert RefIds(m, c) - {h.id} == RefIds(m, c);
    }
  }

  /** Unsetting an entry keeps the lists well formed and drops exactly its id, from every selection. */
  lemma RemoveEntryKeepsShape(m: Hookings, k: string, i: nat)
    requires UniqueIds(m) && NoEmptyLists(m) && NullOnlyStatic(m) && k in m && i < |m[k]|
    ensures UniqueIds(RemoveEntry(m, k, i)) && NoEmptyLists(RemoveEntry(m, k, i)) && NullOnlyStatic(RemoveEntry(m, k, i))
    ensures Ids(RemoveEntry(m, k, i)) == Ids(m) - {m[k][i].id}
    ensures forall c :: RefIds(RemoveEntry(m, k, i), c) == RefIds(m, c) - {m[k][i].id}
  {
    var m' := RemoveEntry(m, k, i);
    UniqueAfterRemove(m, k, i);
    IdsOfRemove(m, k, i, AllHookings);
    forall k1 | k1 in m' ensures NullOnlyStaticIn(m'[k1]) {
      forall i1 | 0 <= i1 < |m'[k1]| ensures m'[k1][i1].target.None? ==> IsStatic(m'[k1][i1].methodName) {
        RemoveEntryBack(m, k, i, k1, i1);
      }
    }
    forall c ensures RefIds(m', c) == RefIds(m, c) - {m[k][i].id} {
      IdsOfRemove(m, k, i, RefersTo(c));
    }
  }

  /**
   * Removing the entry at (k, i) keeps the tables consistent and removes exactly
   * its id; the cached instance of a class survives exactly when that class is
   * still referenced.
   */
  lemma RemoveCoreKeepsConsistent(t: Tables, k: string, i: nat)
    requires Consistent(t) && k in t.hookings && i < |t.hookings[k]|
    ensures Consistent(RemoveCore(t, k, i))
    ensures Ids(RemoveCore(t, k, i).hookings) == Ids(t.hookings) - {t.hookings[k][i].id}
    ensures CachedFor(t.instances, RemoveCore(t, k, i).instances, RemoveCore(t, k, i).hookings)
    ensures forall c :: RefIds(RemoveCore(t, k, i).hookings, c) == RefIds(t.hookings, c) - {t.hookings[k][i].id}
  {
    RemoveEntryKeepsShape(t.hookings, k, i);
    RemoveCoreCounts(t, k, i);
  }

  /** The counts and the cache after removing the entry at (k, i). */
  lemma RemoveCoreCounts(t: Tables, k: string, i: nat)
    requires Consistent(t) && k in t.hookings && i < |t.hookings[k]|
    ensures forall c :: Refcount(RemoveCore(t, k, i).counts, c) == |RefIds(RemoveCore(t, k, i).hookings, c)|
    ensures forall c | c in RemoveCore(t, k, i).counts :: RemoveCore(t, k, i).counts[c] > 0
    ensures RemoveCore(t, k, i).instances.Keys <= RemoveCore(t, k, i).counts.Keys
    ensures CachedFor(t.instances, RemoveCore(t, k, i).instances, RemoveCore(t, k, i).hookings)
  {
    var t' := RemoveCore(t, k, i);
    forall c ensures Refcount(t'.counts, c) == |RefIds(t'.hookings, c)| {
      RemoveRefcountOf(t, k, i, c);
    }
    forall c ensures c in t'.instances <==> c in t.instances && RefIds(t'.hookings, c) != {} {
      assert Refcount(t'.counts, c) == |RefIds(t'.hookings, c)|;
    }
  }

  /** Writing back an unchanged target leaves the table as it was. */
  lemma SetSameTarget(m: Hookings, k: string, i: nat)
    requires k in m && i < |m[k]|
    ensures SetTarget(m, k, i, m[k][i].target) == m
  {
    assert m[k][i := m[k][i].(target := m[k][i].target)] == m[k];
  }

  lemma SetTargetRefIds(m: Hookings, k: string, i: nat, target: Target, c: string)
    requires UniqueIds(m) && k in m && i < |m[k]| && m[k][i].target.Factory?
    ensures RefIds(SetTarget(m, k, i, target), c)
         == RefIds(m, c) + (if target == ClassName(c) then {m[k][i].id} else {})
    ensures m[k][i].id !in RefIds(m, c)
  {
    IdsOfSetTarget(m, k, i, target, RefersTo(c));
    IdSelectedIff(m, k, i, RefersTo(c));
  }

  /** An entry's target is rewritten (ids and the other entries stay as they were). */
  lemma SetTargetKeeps(m: Hookings, k: string, i: nat, target: Target)
    requires UniqueIds(m) && NoEmptyLists(m) && k in m && i < |m[k]|
    ensures UniqueIds(SetTarget(m, k, i, target)) && NoEmptyLists(SetTarget(m, k, i, target))
    ensures Ids(SetTarget(m, k, i, target)) == Ids(m)
    ensures forall k1, i1 | k1 in SetTarget(m, k, i, target) && 0 <= i1 < |SetTarget(m, k, i, target)[k1]|
              :: SetTarget(m, k, i, target)[k1][i1] == if k1 == k && i1 == i then m[k][i].(target := target) else m[k1][i1]
  {
    UniqueAfterSetTarget(m, k, i, target);
    IdsOfSetTarget(m, k, i, target, AllHookings);
    IdSelectedIff(m, k, i, AllHookings);
  }

  /** A static-call init callable that has run is replaced by null; no count changes. */
  lemma NullTargetKeepsConsistent(t: Tables, k: string, i: nat)
    requires Consistent(t) && k in t.hookings && i < |t.hookings[k]|
    requires t.hookings[k][i].target.Factory? && IsStatic(t.hookings[k][i].methodName)
    ensures Consistent(Tables(SetTarget(t.hookings, k, i, None), t.instances, t.counts))
    ensures Ids(SetTarget(t.hookings, k, i, None)) == Ids(t.hookings)
  {
    var m: Hookings := t.hookings;
    SetTargetKeeps(m, k, i, None);
    forall c ensures RefIds(SetTarget(m, k, i, None), c) == RefIds(m, c) {
      SetTargetRefIds(m, k, i, None, c);
    }
  }

  lemma ClassTargetRefcountOf(t: Tables, k: string, i: nat, c: string, c': string)
    requires UniqueIds(t.hookings) && k in t.hookings && i < |t.hookings[k]|
    requires t.hookings[k][i].target.Factory?
    requires Refcount(t.counts, c') == |RefIds(t.hookings, c')|
    ensures Refcount(Inc(t.counts, c), c') == |RefIds(SetTarget(t.hookings, k, i, ClassName(c)), c')|
  {
    SetTargetRefIds(t.hookings, k, i, ClassName(c), c');
  }

  /**
   * A factory that has run is replaced by the class name of the instance it
   * returned; caching that instance and counting the name keeps the tables
   * consistent.
   */
  lemma ClassTargetKeepsConsistent(t: Tables, k: string, i: nat, c: string, obj: Instance)
    requires Consistent(t) && k in t.hookings && i < |t.hookings[k]|
    requires t.hookings[k][i].target.Factory?
    ensures Consistent(Tables(SetTarget(t.hookings, k, i, ClassName(c)), t.instances[c := obj], Inc(t.counts, c)))
    ensures Ids(SetTarget(t.hookings, k, i, ClassName(c))) == Ids(t.hookings)
  {
    var m: Hookings := t.hookings;
    SetTargetKeeps(m, k, i, ClassName(c));
    forall c' ensures Refcount(Inc(t.counts, c), c') == |RefIds(SetTarget(m, k, i, ClassName(c)), c')| {
      ClassTargetRefcountOf(t, k, i, c, c');
    }
  }

  /** One dispatch-time resolution step, written back into the tables, keeps them consistent. */
  lemma ResolveKeepsConsistent(env: Env, t: Tables, k: string, i: nat)
    requires Consistent(t) && k in t.hookings && i < |t.hookings[k]|
    ensures var r := Resolve(env, t.instances, t.counts, t.hookings[k][i]);
            Consistent(Tables(SetTarget(t.hookings, k, i, r.target), r.instances, r.counts))
    ensures var r := Resolve(env, t.instances, t.counts, t.hookings[k][i]);
            Ids(SetTarget(t.hookings, k, i, r.target)) == Ids(t.hookings)
  {
    var m: Hookings := t.hookings;
    var h: Hooking := m[k][i];
    if h.target.Factory? && IsStatic(h.methodName) {
      NullTargetKeepsConsistent(t, k, i);
    } else if h.target.Factory? {
      var obj := env.factory(h.target.closure);
      ClassTargetKeepsConsistent(t, k, i, env.classOf(obj), obj);
    } else {
      SetSameTarget(m, k, i);
      if h.target.ClassName? {
        IdSelectedIff(m, k, i, RefersTo(h.target.name));
        assert Refcount(t.counts, h.target.name) == |RefIds(m, h.target.name)|;
      }
    }
  }

  // ---------------------------------------------------------------------
  // Dispatch (handle_hook)
  // ---------------------------------------------------------------------

  /** An opaque PHP value threaded through a filter chain. */
  datatype Value = Null | Data(payload: int)

  /**
   * What the registry cannot see: what each factory closure returns,
   * get_class, the dependency container, the legacy proxy, and the handler
   * methods themselves.
   */
  datatype Env = Env(
    factory: nat -> Instance,
    classOf: Instance -> string,
    containerHas: string -> bool,
    containerGet: string -> Instance,
    legacyGet: string -> Instance,
    call: (Instance, string, seq<Value>) -> Value,
    callStatic: (string, seq<Value>) -> Value)

  /** How the handler of a hooking is invoked. */
  datatype Receiver = StaticCall | OnObject(obj: Instance)

  /** Outcome of resolving one hooking's target. */
  datatype Resolution = Resolution(
    target: Target,                    // the target written back into the entry
    instances: map<string, Instance>,
    counts: map<string, nat>,
    receiver: Receiver,
    ranSetup: bool,                    // a factory or a static init callable was run
    lookedUp: seq<string>)             // class resolved through the container or legacy proxy

  /**
   * Target resolution in the source's precedence: static marker, then
   * factory, then object, then cached class, then container/legacy lookup.
   */
  function Resolve(env: Env, instances: map<string, Instance>, counts: map<string, nat>, h: Hooking): Resolution
    requires h.target.None? ==> IsStatic(h.methodName)
  {
    if IsStatic(h.methodName) then
      if h.target.Factory? then Resolution(None, instances, counts, StaticCall, true, [])
      else Resolution(h.target, instances, counts, StaticCall, false, [])
    else
      match h.target
      case Factory(f) =>
        var obj := env.factory(f);
        var c := env.classOf(obj);
        Resolution(ClassName(c), instances[c := obj], Inc(counts, c), OnObject(obj), true, [])
      case Obj(obj) =>
        Resolution(h.target, instances, counts, OnObject(obj), false, [])
      case ClassName(c) =>
        if c in instances then Resolution(h.target, instances, counts, OnObject(instances[c]), false, [])
        else
          var obj := if env.containerHas(c) then env.containerGet(c) else env.legacyGet(c);
          Resolution(h.target, instances[c := obj], counts, OnObject(obj), false, [c])
      case None =>
        assert false; Resolution(h.target, instances, counts, StaticCall, false, [])
  }

  /** `$is_static ? $method(...$args) : $instance->$method(...$args)`. */
  function Call(env: Env, h: Hooking, receiver: Receiver, args: seq<Value>): Value
  {
    match receiver
    case StaticCall => env.callStatic(h.methodName, args)
    case OnObject(obj) => env.call(obj, h.methodName, args)
  }

  /** `$args[0] ?? null`. */
  function FirstArg(args: seq<Value>): Value
  {
    if args == [] then Null else args[0]
  }

  /** `if(!empty($args)) $args[0] = $value;`. */
  function Thread(args: seq<Value>, v: Value): seq<Value>
  {
    if args == [] then [] else args[0 := v]
  }

  /** One handler call: whose, with which arguments, and what it returned. */
  datatype Invocation = Invocation(id: string, args: seq<Value>, result: Value)

  /** The state of a dispatch pass after some prefix of the key's list. */
  datatype Pass = Pass(
    targets: seq<Target>,              // rewritten targets of the entries processed so far
    instances: map<string, Instance>,
    counts: map<string, nat>,
    args: seq<Value>,
    value: Value,
    trace: seq<Invocation>,
    setups: seq<string>,               // ids whose factory or init callable was run
    lookups: seq<string>)              // classes resolved through the container or legacy proxy

  /** The state before the first entry, continuing the given logs; the running value is `args[0] ?? null`. */
  function Start(instances: map<string, Instance>, counts: map<string, nat>, args: seq<Value>,
                 trace: seq<Invocation>, setups: seq<string>, lookups: seq<string>): Pass
  {
    Pass([], instances, counts, args, FirstArg(args), trace, setups, lookups)
  }

  /** The body of the dispatch loop for one entry. */
  function Advance(env: Env, p: Pass, h: Hooking): Pass
    requires h.target.None? ==> IsStatic(h.methodName)
  {
    var r := Resolve(env, p.instances, p.counts, h);
    var v := Call(env, h, r.receiver, p.args);
    Pass(p.targets + [r.target], r.instances, r.counts, Thread(p.args, v), v,
         p.trace + [Invocation(h.id, p.args, v)],
         p.setups + (if r.ranSetup then [h.id] else []),
         p.lookups + r.lookedUp)
  }

  /** The dispatch loop run over `entries`, in list order. */
  function Run(env: Env, p: Pass, entries: seq<Hooking>): Pass
    requires NullOnlyStaticIn(entries)
    decreases |entries|
  {
    if entries == [] then p
    else Advance(env, Run(env, p, entries[..|entries| - 1]), entries[|entries| - 1])
  }

  /** The list with the first `|ts|` targets replaced by `ts`. */
  function Retarget(l: seq<Hooking>, ts: seq<Target>): seq<Hooking>
  {
    seq(|l|, j requires 0 <= j < |l| => if j < |ts| then l[j].(target := ts[j]) else l[j])
  }

  /** No element occurs twice. */
  ghost predicate Distinct<T>(s: seq<T>)
  {
    forall i, j | 0 <= i < j < |s| :: s[i] != s[j]
  }

  /** Ids of the entries whose target is a callable, in list order. */
  function FactoryIds(l: seq<Hooking>): seq<string>
    decreases |l|
  {
    if l == [] then []
    else FactoryIds(l[..|l| - 1]) + (if l[|l| - 1].target.Factory? then [l[|l| - 1].id] else [])
  }

  /** One step of a pass: one more invocation, with the running arguments, and one more target. */
  lemma AdvanceStep(env: Env, q: Pass, h: Hooking)
    requires h.target.None? ==> IsStatic(h.methodName)
    ensures var a := Advance(env, q, h);
            && a.trace == q.trace + [Invocation(h.id, q.args, a.value)]
            && a.args == Thread(q.args, a.value)
            && |a.targets| == |q.targets| + 1 && a.targets[..|q.targets|] == q.targets
            && a.setups == q.setups + (if h.target.Factory? then [h.id] else [])
            && q.instances.Keys <= a.instances.Keys
  {
  }

  /** A pass handles the entries in list order, one invocation each, extending the trace before it. */
  lemma {:induction false} RunOrder(env: Env, p: Pass, entries: seq<Hooking>)
    requires NullOnlyStaticIn(entries)
    ensures |Run(env, p, entries).trace| == |p.trace| + |entries|
    ensures Run(env, p, entries).trace[..|p.trace|] == p.trace
    ensures forall j | 0 <= j < |entries| :: Run(env, p, entries).trace[|p.trace| + j].id == entries[j].id
    decreases |entries|
  {
    if entries != [] {
      var e := entries[..|entries| - 1];
      var h := entries[|entries| - 1];
      RunOrder(env, p, e);
      var q := Run(env, p, e);
      AdvanceStep(env, q, h);
      var r := Run(env, p, entries);
      assert r == Advance(env, q, h);
      assert r.trace[..|p.trace|] == q.trace[..|p.trace|];
      forall j | 0 <= j < |entries|
        ensures r.trace[|p.trace| + j].id == entries[j].id
      {
        if j < |e| {
          assert r.trace[|p.trace| + j] == q.trace[|p.trace| + j];
          assert entries[j] == e[j];
        }
      }
    }
  }

  /**
   * A pass writes back one target per entry after those before it; the
   * setups it runs are exactly the entries whose target is a callable, in
   * list order; and it never forgets a cached instance.
   */
  lemma {:induction false} RunSetups(env: Env, p: Pass, entries: seq<Hooking>)
    requires NullOnlyStaticIn(entries)
    ensures |Run(env, p, entries).targets| == |p.targets| + |entries|
    ensures Run(env, p, entries).targets[..|p.targets|] == p.targets
    ensures Run(env, p, entries).setups == p.setups + FactoryIds(entries)
    ensures p.instances.Keys <= Run(env, p, entries).instances.Keys
    decreases |entries|
  {
    if entries != [] {
      var e := entries[..|entries| - 1];
      var h := entries[|entries| - 1];
      RunSetups(env, p, e);
      var q := Run(env, p, e);
      AdvanceStep(env, q, h);
      var r := Run(env, p, entries);
      assert r == Advance(env, q, h);
      assert r.targets[..|p.targets|] == r.targets[..|q.targets|][..|p.targets|];
      assert FactoryIds(entries) == FactoryIds(e) + (if h.target.Factory? then [h.id] else []);
    }
  }

  /**
   * Each invocation of `t` gets the arguments with `args[0]` replaced by the
   * previous handler's result, the first one gets `args`.
   */
  ghost predicate Threaded(args: seq<Value>, t: seq<Invocation>)
  {
    && (|t| > 0 ==> t[0].args == args)
    && forall j | 0 < j < |t| :: t[j].args == Thread(t[j - 1].args, t[j - 1].result)
  }

  /** The arguments handed on after the invocations `t`. */
  function HandedOn(args: seq<Value>, t: seq<Invocation>): seq<Value>
  {
    if t == [] then args else Thread(t[|t| - 1].args, t[|t| - 1].result)
  }

  lemma ThreadedAppend(args: seq<Value>, t: seq<Invocation>, inv: Invocation)
    requires Threaded(args, t) && inv.args == HandedOn(args, t)
    ensures Threaded(args, t + [inv])
  {
    var u := t + [inv];
    forall j | 0 < j < |u|
      ensures u[j].args == Thread(u[j - 1].args, u[j - 1].result)
    {
      assert u[j - 1] == t[j - 1];
      if j < |t| {
        assert u[j] == t[j];
      } else {
        assert u[j] == inv;
      }
    }
    assert |t| == 0 ==> u[0] == inv;
    assert |t| > 0 ==> u[0] == t[0];
  }

  /**
   * The running value: each handler receives the arguments with `args[0]`
   * replaced by the previous handler's result (when there are arguments), and
   * the pass ends with the last handler's result and the arguments it hands on.
   */
  lemma {:induction false} RunThreads(env: Env, p: Pass, entries: seq<Hooking>)
    requires NullOnlyStaticIn(entries)
    ensures |Run(env, p, entries).trace| == |p.trace| + |entries|
    ensures Threaded(p.args, Run(env, p, entries).trace[|p.trace|..])
    ensures Run(env, p, entries).args == HandedOn(p.args, Run(env, p, entries).trace[|p.trace|..])
    ensures entries == [] ==> Run(env, p, entries).value == p.value
    ensures entries != [] ==> Run(env, p, entries).value == Run(env, p, entries).trace[|p.trace| + |entries| - 1].result
    decreases |entries|
  {
    RunOrder(env, p, entries);
    if entries != [] {
      var e := entries[..|entries| - 1];
      var h := entries[|entries| - 1];
      RunThreads(env, p, e);
      RunOrder(env, p, e);
      var q := Run(env, p, e);
      AdvanceStep(env, q, h);
      var r := Run(env, p, entries);
      assert r == Advance(env, q, h);
      var tq := q.trace[|p.trace|..];
      var inv := Invocation(h.id, q.args, r.value);
      assert r.trace[|p.trace|..] == tq + [inv];
      ThreadedAppend(p.args, tq, inv);
    }
  }

  /**
   * What a pass writes back into entry `h`: a callable that was run becomes
   * null for a static method and otherwise the class name of the instance it
   * returned, which is cached; every other target stays as it was.
   */
  ghost predicate WrittenBack(env: Env, h: Hooking, t: Target, instances: map<string, Instance>)
  {
    && !t.Factory?
    && (h.target.Factory? && IsStatic(h.methodName) ==> t == None)
    && (h.target.Factory? && !IsStatic(h.methodName) ==>
          t == ClassName(env.classOf(env.factory(h.target.closure))))
    && (!h.target.Factory? ==> t == h.target)
    && (t.ClassName? && !IsStatic(h.methodName) ==> t.name in instances)
  }

  /** One step of the pass: its written-back target, and the cache only grows. */
  lemma AdvanceWritesBack(env: Env, q: Pass, h: Hooking)
    requires h.target.None? ==> IsStatic(h.methodName)
    ensures Advance(env, q, h).targets == q.targets + [Advance(env, q, h).targets[|q.targets|]]
    ensures WrittenBack(env, h, Advance(env, q, h).targets[|q.targets|], Advance(env, q, h).instances)
    ensures q.instances.Keys <= Advance(env, q, h).instances.Keys
  {
  }

  lemma WrittenBackGrows(env: Env, h: Hooking, t: Target, i1: map<string, Instance>, i2: map<string, Instance>)
    requires WrittenBack(env, h, t, i1) && i1.Keys <= i2.Keys
    ensures WrittenBack(env, h, t, i2)
  {
  }

  /**
   * Every target the pass writes back is as `WrittenBack` describes, against
   * the cache at the end of the pass; in particular no callable is left
   * (`SecondPassRunsNoSetup`).
   */
  lemma {:induction false} RunTargets(env: Env, p: Pass, entries: seq<Hooking>)
    requires NullOnlyStaticIn(entries)
    ensures |Run(env, p, entries).targets| == |p.targets| + |entries|
    ensures var ts := Run(env, p, entries).targets[|p.targets|..];
            forall j | 0 <= j < |entries| :: WrittenBack(env, entries[j], ts[j], Run(env, p, entries).instances)
    decreases |entries|
  {
    RunSetups(env, p, entries);
    if entries != [] {
      var e := entries[..|entries| - 1];
      RunTargets(env, p, e);
      RunSetups(env, p, e);
      var q := Run(env, p, e);
      var r := Run(env, p, entries);
      var h := entries[|entries| - 1];
      AdvanceWritesBack(env, q, h);
      var ts := r.targets[|p.targets|..];
      assert ts == q.targets[|p.targets|..] + [r.targets[|q.targets|]];
      forall j | 0 <= j < |e|
        ensures WrittenBack(env, entries[j], ts[j], r.instances)
      {
        assert entries[j] == e[j];
        WrittenBackGrows(env, e[j], q.targets[|p.targets|..][j], q.instances, r.instances);
      }
    }
  }

  /** A list without callable targets has no setup to run. */
  lemma {:induction false} NoFactoryIds(l: seq<Hooking>)
    requires forall j | 0 <= j < |l| :: !l[j].target.Factory?
    ensures FactoryIds(l) == []
    decreases |l|
  {
    if l != [] {
      NoFactoryIds(l[..|l| - 1]);
    }
  }

  /**
   * A factory runs at most once per registration: after a pass has written its
   * targets back, the list holds no callable, so a later pass over it runs no
   * setup at all.
   */
  lemma SecondPassRunsNoSetup(env: Env, p: Pass, q: Pass, l: seq<Hooking>)
    requires NullOnlyStaticIn(l) && p.targets == []
    ensures var l' := Retarget(l, Run(env, p, l).targets);
            && NullOnlyStaticIn(l')
            && FactoryIds(l') == []
            && Run(env, q, l').setups == q.setups
  {
    RunTargets(env, p, l);
    var ts := Run(env, p, l).targets;
    assert ts[|p.targets|..] == ts;
    var l' := Retarget(l, ts);
    forall j | 0 <= j < |l'|
      ensures !l'[j].target.Factory?
      ensures l'[j].target.None? ==> IsStatic(l'[j].methodName)
    {
      assert WrittenBack(env, l[j], ts[j], Run(env, p, l).instances);
      assert l'[j] == l[j].(target := ts[j]);
    }
    NoFactoryIds(l');
    RunSetups(env, q, l');
  }

  /**
   * The container or the legacy proxy is consulted only for a class that is
   * not cached at that moment, and the instance it yields is cached, so within
   * one pass a class is looked up at most once.
   */
  lemma {:induction false} RunLookups(env: Env, p: Pass, entries: seq<Hooking>)
    requires NullOnlyStaticIn(entries)
    ensures |p.lookups| <= |Run(env, p, entries).lookups|
    ensures Run(env, p, entries).lookups[..|p.lookups|] == p.lookups
    ensures forall j | |p.lookups| <= j < |Run(env, p, entries).lookups| ::
              Run(env, p, entries).lookups[j] !in p.instances
              && Run(env, p, entries).lookups[j] in Run(env, p, entries).instances
    ensures Distinct(Run(env, p, entries).lookups[|p.lookups|..])
    decreases |entries|
  {
    if entries != [] {
      var e := entries[..|entries| - 1];
      RunLookups(env, p, e);
      RunSetups(env, p, e);
      var q := Run(env, p, e);
      var r := Run(env, p, entries);
      var h := entries[|entries| - 1];
      if !IsStatic(h.methodName) && h.target.ClassName? && h.target.name !in q.instances {
        var c := h.target.name;
        assert r.lookups == q.lookups + [c];
        forall j | |p.lookups| <= j < |q.lookups| ensures q.lookups[j] != c {
        }
      } else {
        assert r.lookups == q.lookups;
      }
    }
  }

  /** Writing the next target back extends the rewritten prefix by one entry. */
  lemma RetargetStep(m: Hookings, key: string, l: seq<Hooking>, ts: seq<Target>, t: Target)
    requires |ts| < |l|
    ensures SetTarget(m[key := Retarget(l, ts)], key, |ts|, t) == m[key := Retarget(l, ts + [t])]
  {
    assert Retarget(l, ts)[|ts| := Retarget(l, ts)[|ts|].(target := t)] == Retarget(l, ts + [t]);
  }

  /** The pass over one more entry is one more step. */
  lemma RunStep(env: Env, p: Pass, l: seq<Hooking>, i: nat)
    requires NullOnlyStaticIn(l) && i < |l|
    ensures NullOnlyStaticIn(l[..i]) && NullOnlyStaticIn(l[..i + 1])
    ensures Run(env, p, l[..i + 1]) == Advance(env, Run(env, p, l[..i]), l[i])
  {
    assert l[..i + 1][..i] == l[..i];
  }

  /** With unique ids, the live hooking carrying `m[k][i].id` is the one at (k, i). */
  lemma LocateUnique(m: Hookings, k: string, i: nat)
    requires UniqueIds(m) && k in m && i < |m[k]|
    ensures m[k][i].id in Ids(m)
    ensures Locate(m, m[k][i].id) == (k, i)
  {
    assert m[k][i].id in Ids(m);
  }

  /** Removing one more element of `b` from it adds exactly one to what `a` has lost. */
  lemma LoseOneMore<T>(a: set<T>, b: set<T>, x: T)
    requires b <= a && x in b
    ensures |a - (b - {x})| == |a - b| + 1
  {
    assert a - (b - {x}) == (a - b) + {x};
  }

  /** `cached` keeps exactly the instances of `from` whose class `m` still references, unchanged. */
  ghost predicate CachedFor(from: map<string, Instance>, cached: map<string, Instance>, m: Hookings)
  {
    && (forall c :: c in cached <==> c in from && RefIds(m, c) != {})
    && (forall c | c in cached :: cached[c] == from[c])
  }

  /** Two rounds of dropping unreferenced instances, the second over fewer references, are one round. */
  lemma CachedChain(i0: map<string, Instance>, i1: map<string, Instance>, i2: map<string, Instance>, m1: Hookings, m2: Hookings)
    requires CachedFor(i0, i1, m1) && CachedFor(i1, i2, m2)
    requires forall c :: RefIds(m2, c) <= RefIds(m1, c)
    ensures CachedFor(i0, i2, m2)
  {
    forall c ensures c in i2 <==> c in i0 && RefIds(m2, c) != {} {
      assert RefIds(m2, c) <= RefIds(m1, c);
    }
  }

  /** Losses along a chain of shrinking sets add up. */
  lemma LossesAdd<T>(a: set<T>, b: set<T>, c: set<T>)
    requires c <= b <= a
    ensures |a - c| == |a - b| + |b - c|
  {
    assert a - c == (a - b) + (b - c);
    assert (a - b) * (b - c) == {};
  }

  /** Removing the head of the suffix `l[j..]` stored under `key` leaves the next suffix, or no key. */
  lemma RemoveHead(m: Hookings, key: string, l: seq<Hooking>, j: nat)
    requires j < |l|
    ensures RemoveEntry(m[key := l[j..]], key, 0) == if j + 1 == |l| then m - {key} else m[key := l[j + 1..]]
  {
    assert l[j..][..0] + l[j..][1..] == l[j + 1..];
    assert m[key := l[j..]] - {key} == m - {key};
  }

  // ---------------------------------------------------------------------
  // Removal by id (remove_filter_by_id) and its repetition (remove_all_hooks)
  // ---------------------------------------------------------------------

  /** remove_filter_by_id on the tables: remove the live hooking with that id, if any. */
  ghost function RemoveById(t: Tables, id: string): Tables
  {
    if id in Ids(t.hookings) then RemoveCore(t, Locate(t.hookings, id).0, Locate(t.hookings, id).1) else t
  }

  /** Removing by id, once for each id of `ids`, in order. */
  ghost function RemoveEach(t: Tables, ids: seq<string>): Tables
    decreases |ids|
  {
    if ids == [] then t else RemoveById(RemoveEach(t, ids[..|ids| - 1]), ids[|ids| - 1])
  }

  /** The ids of a list, in order. */
  function IdList(l: seq<Hooking>): (r: seq<string>)
    ensures |r| == |l| && forall j | 0 <= j < |l| :: r[j] == l[j].id
  {
    seq(|l|, j requires 0 <= j < |l| => l[j].id)
  }

  /**
   * Removing by id keeps the tables consistent, removes exactly that id (and
   * nothing when it is not live), and keeps a cached instance exactly for the
   * classes still referenced.
   */
  lemma RemoveByIdKeepsConsistent(t: Tables, id: string)
    requires Consistent(t)
    ensures Consistent(RemoveById(t, id))
    ensures Ids(RemoveById(t, id).hookings) == Ids(t.hookings) - {id}
    ensures id !in Ids(t.hookings) ==> RemoveById(t, id) == t
    ensures RemoveById(t, id).hookings.Keys <= t.hookings.Keys
    ensures CachedFor(t.instances, RemoveById(t, id).instances, RemoveById(t, id).hookings)
    ensures forall c :: RefIds(RemoveById(t, id).hookings, c) <= RefIds(t.hookings, c)
  {
    if id in Ids(t.hookings) {
      var p := Locate(t.hookings, id);
      RemoveCoreKeepsConsistent(t, p.0, p.1);
    }
  }

  /**
   * Removing by id any sequence of ids keeps the tables consistent, only ever
   * shrinks them, and keeps a cached instance exactly for the classes still
   * referenced.
   */
  lemma {:induction false} RemoveEachKeepsConsistent(t: Tables, ids: seq<string>)
    requires Consistent(t)
    ensures var r := RemoveEach(t, ids);
            && Consistent(r)
            && Ids(r.hookings) <= Ids(t.hookings)
            && r.hookings.Keys <= t.hookings.Keys
            && CachedFor(t.instances, r.instances, r.hookings)
            && (forall c :: RefIds(r.hookings, c) <= RefIds(t.hookings, c))
    decreases |ids|
  {
    if ids != [] {
      var q := RemoveEach(t, ids[..|ids| - 1]);
      RemoveEachKeepsConsistent(t, ids[..|ids| - 1]);
      RemoveByIdKeepsConsistent(q, ids[|ids| - 1]);
      CachedChain(t.instances, q.instances, RemoveEach(t, ids).instances, q.hookings, RemoveEach(t, ids).hookings);
    }
  }

  /**
   * One step of removing a list from its head: from tables where the first
   * `j` hookings of `l` (the list under `key` in `m`) are gone and `j` ids
   * were lost, removing the next id leaves one hooking fewer and one more id lost.
   */
  lemma RemoveHeadById(q: Tables, m: Hookings, key: string, l: seq<Hooking>, j: nat)
    requires Consistent(q) && j < |l| && q.hookings == m[key := l[j..]]
    requires Ids(q.hookings) <= Ids(m) && |Ids(m) - Ids(q.hookings)| == j
    ensures Consistent(RemoveById(q, l[j].id))
    ensures RemoveById(q, l[j].id).hookings == if j + 1 == |l| then m - {key} else m[key := l[j + 1..]]
    ensures Ids(RemoveById(q, l[j].id).hookings) <= Ids(m)
    ensures |Ids(m) - Ids(RemoveById(q, l[j].id).hookings)| == j + 1
  {
    assert q.hookings[key][0] == l[j];
    LocateUnique(q.hookings, key, 0);
    assert RemoveById(q, l[j].id) == RemoveCore(q, key, 0);
    RemoveHead(m, key, l, j);
    RemoveEntryKeepsShape(q.hookings, key, 0);
    RemoveCoreCounts(q, key, 0);
    LoseOneMore(Ids(m), Ids(q.hookings), l[j].id);
  }

  /**
   * `r` is what removing by id the first `j` hookings of the list under `key`
   * should leave of `t`: consistent tables holding the rest of that list (or
   * no key once all are gone), exactly `j` ids fewer.
   */
  ghost predicate PrefixRemoved(t: Tables, key: string, j: nat, r: Tables)
    requires key in t.hookings && j <= |t.hookings[key]|
  {
    && Consistent(r)
    && r.hookings == (if j == |t.hookings[key]| then t.hookings - {key} else t.hookings[key := t.hookings[key][j..]])
    && Ids(r.hookings) <= Ids(t.hookings)
    && |Ids(t.hookings) - Ids(r.hookings)| == j
  }

  /** Removing by id the first `j` hookings of the list under `key`, as it was at the start. */
  lemma {:induction false} RemoveListPrefix(t: Tables, key: string, j: nat)
    requires Consistent(t) && key in t.hookings && j <= |t.hookings[key]|
    ensures PrefixRemoved(t, key, j, RemoveEach(t, IdList(t.hookings[key])[..j]))
    decreases j
  {
    if j == 0 {
      RemoveNoPrefix(t, key);
    } else {
      RemoveListPrefix(t, key, j - 1);
      RemovePrefixStep(t, key, j);
    }
  }

  /** Removing no ids leaves the tables as they are. */
  lemma RemoveNoPrefix(t: Tables, key: string)
    requires Consistent(t) && key in t.hookings
    ensures PrefixRemoved(t, key, 0, RemoveEach(t, IdList(t.hookings[key])[..0]))
  {
    assert IdList(t.hookings[key])[..0] == [];
    assert t.hookings[key][0..] == t.hookings[key];
    assert t.hookings[key := t.hookings[key]] == t.hookings;
  }

  /** One more id removed from the head of the list under `key`. */
  lemma RemovePrefixStep(t: Tables, key: string, j: nat)
    requires Consistent(t) && key in t.hookings && 0 < j <= |t.hookings[key]|
    requires PrefixRemoved(t, key, j - 1, RemoveEach(t, IdList(t.hookings[key])[..j - 1]))
    ensures PrefixRemoved(t, key, j, RemoveEach(t, IdList(t.hookings[key])[..j]))
  {
    var l := t.hookings[key];
    var ids := IdList(l);
    RemoveEachSnoc(t, ids, j);
    RemoveHeadById(RemoveEach(t, ids[..j - 1]), t.hookings, key, l, j - 1);
  }

  /** Removing by id the first `j` ids is removing the first `j - 1` and then the `j`-th. */
  lemma RemoveEachSnoc(t: Tables, ids: seq<string>, j: nat)
    requires 0 < j <= |ids|
    ensures RemoveEach(t, ids[..j]) == RemoveById(RemoveEach(t, ids[..j - 1]), ids[j - 1])
  {
    assert ids[..j][..j - 1] == ids[..j - 1];
  }
}
