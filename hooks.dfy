/**
 * The `Automattic\WooCommerce\Hooks` registry (plugins/woocommerce/src/Hooks.php).
 *
 * The source keeps three static arrays and mutates them in place; here one
 * `Hooks` object stands for that process-wide state. Every method is proved
 * against the value-level tables of module `HookState`, and every method
 * re-establishes `Valid()`, the bookkeeping invariant.
 *
 * What the registry cannot see is explicit: hooking ids are supplied by the
 * caller (the source draws 128 random bits), the WordPress event bus is the
 * ghost multiset `subscriptions`, and factories, `get_class`, the container,
 * the legacy proxy and the handlers are the uninterpreted functions of an `Env`.
 */
module WooCommerce {
  import opened Strings
  import opened HookState

  /** One `add_filter` call on the WordPress event bus. */
  datatype Subscription = Subscription(hookName: string, priority: int, acceptedArgs: int)

  /** Outcome of `register_filter`: the new hooking id, or the exception it throws. */
  datatype Registration = Registered(id: string) | InvalidArgument(message: string)

  const InvalidTargetMessage: string :=
    "$target must be either an object, a callable that returns an instance of an object, or a class name."

  /** An optional element of a PHP array literal. */
  datatype Opt<T> = Present(value: T) | Absent

  function OrDefault(o: Opt<int>, d: int): int
  {
    if o.Present? then o.value else d
  }

  /** A row `[hook, method, priority?, accepted_args?]` of `$built_in_hookings`. */
  datatype BuiltIn = BuiltIn(hookName: string, methodName: string, priority: Opt<int>, acceptedArgs: Opt<int>)

  const DataRegeneratorClass: string := "Automattic\\WooCommerce\\Internal\\ProductAttributesLookup\\DataRegenerator"

  /** The hookings `init` registers, all of them targeting `DataRegeneratorClass`. */
  const BuiltInHookings: seq<BuiltIn> := [
    BuiltIn("woocommerce_debug_tools", "add_initiate_regeneration_entry_to_tools_array", Present(999), Absent),
    BuiltIn("woocommerce_run_product_attribute_lookup_regeneration_callback", "run_regeneration_step_callback", Absent, Absent),
    BuiltIn("woocommerce_installed", "run_woocommerce_installed_callback", Absent, Absent)
  ]

  /** The hooking a built-in row becomes, with the defaults 10 and 1 filled in. */
  function BuiltInHooking(b: BuiltIn, id: string): Hooking
  {
    Hooking(ClassName(DataRegeneratorClass), b.methodName, OrDefault(b.priority, 10), OrDefault(b.acceptedArgs, 1), id)
  }

  function BuiltInKey(b: BuiltIn): string
  {
    HookKey(b.hookName, OrDefault(b.priority, 10), OrDefault(b.acceptedArgs, 1))
  }

  /** The bus subscription a built-in row asks for. */
  function BuiltInSubscription(b: BuiltIn): Subscription
  {
    Subscription(b.hookName, OrDefault(b.priority, 10), OrDefault(b.acceptedArgs, 1))
  }

  /** The keys of the first `n` built-in rows. */
  ghost function BuiltInKeySet(n: nat): set<string>
    requires n <= |BuiltInHookings|
  {
    if n == 0 then {} else BuiltInKeySet(n - 1) + {BuiltInKey(BuiltInHookings[n - 1])}
  }

  /** The subscriptions the first `n` built-in rows add to a registry holding `m`: one per key `m` lacks. */
  ghost function NewBuiltInSubscriptions(m: Hookings, n: nat): multiset<Subscription>
    requires n <= |BuiltInHookings|
    decreases n
  {
    if n == 0 then multiset{}
    else NewBuiltInSubscriptions(m, n - 1)
         + if BuiltInKey(BuiltInHookings[n - 1]) in m then multiset{} else multiset{BuiltInSubscription(BuiltInHookings[n - 1])}
  }

  /** On a registry with no hookings, init subscribes once for each of the three built-in rows. */
  lemma InitSubscriptionsFromEmpty()
    ensures NewBuiltInSubscriptions(map[], |BuiltInHookings|)
            == multiset{BuiltInSubscription(BuiltInHookings[0]), BuiltInSubscription(BuiltInHookings[1]),
                        BuiltInSubscription(BuiltInHookings[2])}
  {
    assert NewBuiltInSubscriptions(map[], 1) == multiset{BuiltInSubscription(BuiltInHookings[0])};
  }

  /**
   * The bus bookkeeping after init has registered the first `j` built-in rows
   * into a registry that held `m0`, subscribed `s0` and knew the keys `k0`.
   */
  ghost predicate InitProgress(m0: Hookings, s0: multiset<Subscription>, k0: set<string>, j: nat,
                               m: Hookings, subs: multiset<Subscription>, keys: set<string>)
    requires j <= |BuiltInHookings|
  {
    && m.Keys == m0.Keys + BuiltInKeySet(j)
    && subs == s0 + NewBuiltInSubscriptions(m0, j)
    && keys == k0 + BuiltInKeySet(j)
  }

  /**
   * Registering row `j` keeps the bookkeeping: its key is new exactly when
   * `m0` lacked it, since the built-in keys are distinct.
   */
  lemma InitProgressStep(m0: Hookings, s0: multiset<Subscription>, k0: set<string>, j: nat,
                         m: Hookings, subs: multiset<Subscription>, keys: set<string>,
                         m': Hookings, subs': multiset<Subscription>, keys': set<string>)
    requires j < |BuiltInHookings|
    requires InitProgress(m0, s0, k0, j, m, subs, keys)
    requires m'.Keys == m.Keys + {BuiltInKey(BuiltInHookings[j])}
    requires subs' == subs + if BuiltInKey(BuiltInHookings[j]) in m then multiset{} else multiset{BuiltInSubscription(BuiltInHookings[j])}
    requires keys' == keys + {BuiltInKey(BuiltInHookings[j])}
    ensures InitProgress(m0, s0, k0, j + 1, m', subs', keys')
  {
    FreshBuiltInKey(j);
  }

  /** A built-in row's key is not among the keys of the rows before it. */
  lemma FreshBuiltInKey(j: nat)
    requires j < |BuiltInHookings|
    ensures BuiltInKey(BuiltInHookings[j]) !in BuiltInKeySet(j)
  {
    BuiltInKeysDistinct();
    if j == 1 {
      assert BuiltInKeySet(1) == {BuiltInKey(BuiltInHookings[0])};
    } else if j == 2 {
      assert BuiltInKeySet(2) == {BuiltInKey(BuiltInHookings[0]), BuiltInKey(BuiltInHookings[1])};
    }
  }

  /** The tables after registering the first |ids| built-in rows with those ids. */
  function RegisterBuiltIns(t: Tables, ids: seq<string>): Tables
    requires |ids| <= |BuiltInHookings|
    decreases |ids|
  {
    if ids == [] then t
    else
      var n := |ids| - 1;
      Register(RegisterBuiltIns(t, ids[..n]), BuiltInKey(BuiltInHookings[n]), BuiltInHooking(BuiltInHookings[n], ids[n]))
  }

  /** Registering one more built-in row extends the registered prefix by one. */
  lemma RegisterBuiltInsStep(t: Tables, ids: seq<string>, j: nat)
    requires j < |ids| <= |BuiltInHookings|
    ensures RegisterBuiltIns(t, ids[..j + 1])
            == Register(RegisterBuiltIns(t, ids[..j]), BuiltInKey(BuiltInHookings[j]), BuiltInHooking(BuiltInHookings[j], ids[j]))
  {
    assert ids[..j + 1][..j] == ids[..j];
  }

  /** Three hookings of one class under three distinct new keys. */
  lemma RegisterThreeOfOneClass(k0: string, k1: string, k2: string, h0: Hooking, h1: Hooking, h2: Hooking, c: string)
    requires k0 != k1 && k0 != k2 && k1 != k2
    requires h0.target == ClassName(c) && h1.target == ClassName(c) && h2.target == ClassName(c)
    ensures Register(Register(Register(Tables(map[], map[], map[]), k0, h0), k1, h1), k2, h2)
            == Tables(map[k0 := [h0], k1 := [h1], k2 := [h2]], map[], map[c := 3])
  {
    assert [] + [h0] == [h0] && [] + [h1] == [h1] && [] + [h2] == [h2];
    var e1 := Register(Tables(map[], map[], map[]), k0, h0);
    assert e1 == Tables(map[k0 := [h0]], map[], map[c := 1]);
    var e2 := Register(e1, k1, h1);
    assert ListAt(e1.hookings, k1) == [];
    assert e2 == Tables(map[k0 := [h0], k1 := [h1]], map[], map[c := 2]);
    assert ListAt(e2.hookings, k2) == [];
  }

  /** The array keys of the three built-in rows, with their defaults filled in. */
  lemma BuiltInKeys()
    ensures BuiltInKey(BuiltInHookings[0]) == BuiltInHookings[0].hookName + "__999__1"
    ensures BuiltInKey(BuiltInHookings[1]) == BuiltInHookings[1].hookName + "__10__1"
    ensures BuiltInKey(BuiltInHookings[2]) == BuiltInHookings[2].hookName + "__10__1"
  {
    KeysOfDefaults(BuiltInHookings[0].hookName);
    KeysOfDefaults(BuiltInHookings[1].hookName);
    KeysOfDefaults(BuiltInHookings[2].hookName);
  }

  /** The keys for priority 999 or the default 10, with the default argument count 1. */
  lemma KeysOfDefaults(name: string)
    ensures HookKey(name, 999, 1) == name + "__999__1"
    ensures HookKey(name, 10, 1) == name + "__10__1"
  {
    assert NatToString(99) == "99";
    assert IntToString(999) == "999" && IntToString(10) == "10" && IntToString(1) == "1";
    assert name + "__" + "999" + "__" + "1" == name + "__999__1";
    assert name + "__" + "10" + "__" + "1" == name + "__10__1";
  }

  /** The three built-in rows land under three different keys. */
  lemma BuiltInKeysDistinct()
    ensures BuiltInKey(BuiltInHookings[0]) != BuiltInKey(BuiltInHookings[1])
    ensures BuiltInKey(BuiltInHookings[0]) != BuiltInKey(BuiltInHookings[2])
    ensures BuiltInKey(BuiltInHookings[1]) != BuiltInKey(BuiltInHookings[2])
  {
    BuiltInKeys();
    assert |BuiltInHookings[0].hookName| == 23;
    assert |BuiltInHookings[1].hookName| == 62;
    assert |BuiltInHookings[2].hookName| == 21;
  }

  /**
   * From an empty registry, `init` leaves one hooking under each of the three
   * built-in keys, no cached instance, and three references to the
   * DataRegenerator class.
   */
  lemma InitFromEmpty(ids: seq<string>)
    requires |ids| == |BuiltInHookings|
    ensures var r := RegisterBuiltIns(Tables(map[], map[], map[]), ids);
            && r.hookings == map[BuiltInKey(BuiltInHookings[0]) := [BuiltInHooking(BuiltInHookings[0], ids[0])],
                                 BuiltInKey(BuiltInHookings[1]) := [BuiltInHooking(BuiltInHookings[1], ids[1])],
                                 BuiltInKey(BuiltInHookings[2]) := [BuiltInHooking(BuiltInHookings[2], ids[2])]]
            && r.instances == map[]
            && r.counts == map[DataRegeneratorClass := 3]
  {
    var e := Tables(map[], map[], map[]);
    BuiltInKeysDistinct();
    assert ids[..0] == [];
    RegisterBuiltInsStep(e, ids, 0);
    RegisterBuiltInsStep(e, ids, 1);
    RegisterBuiltInsStep(e, ids, 2);
    RegisterThreeOfOneClass(BuiltInKey(BuiltInHookings[0]), BuiltInKey(BuiltInHookings[1]), BuiltInKey(BuiltInHookings[2]),
                            BuiltInHooking(BuiltInHookings[0], ids[0]), BuiltInHooking(BuiltInHookings[1], ids[1]),
                            BuiltInHooking(BuiltInHookings[2], ids[2]), DataRegeneratorClass);
    assert ids[..3] == ids;
  }

  /** Entry `h` matches `remove_filter`'s arguments under strict comparison. */
  predicate Matches(h: Hooking, target: Target, methodName: string, priority: int, acceptedArgs: int)
  {
    h.target == target && h.methodName == methodName && h.priority == priority && h.acceptedArgs == acceptedArgs
  }

  /** Index of the first matching entry of `l`, or |l| when none matches. */
  function FirstMatch(l: seq<Hooking>, target: Target, methodName: string, priority: int, acceptedArgs: int): (r: nat)
    ensures r <= |l|
    ensures r < |l| ==> Matches(l[r], target, methodName, priority, acceptedArgs)
    ensures forall j | 0 <= j < r :: !Matches(l[j], target, methodName, priority, acceptedArgs)
    decreases |l|
  {
    if l == [] then 0
    else if Matches(l[0], target, methodName, priority, acceptedArgs) then 0
    else 1 + FirstMatch(l[1..], target, methodName, priority, acceptedArgs)
  }

  /** Keys `remove_all_hooks(hookName)` selects: those starting with `hookName + "__"`. */
  predicate KeyOf(hookName: string, key: string)
  {
    hookName + "__" <= key
  }

  /**
   * What remove_all_hooks leaves of `m` while the matching keys in `pending`
   * are still to be emptied: every key not under `hookName`, and the pending ones.
   */
  function Surviving(m: Hookings, hookName: string, pending: set<string>): (r: Hookings)
    ensures forall k :: k in r <==> k in m && (!KeyOf(hookName, k) || k in pending)
    ensures forall k | k in r :: r[k] == m[k]
  {
    map k | k in m && (!KeyOf(hookName, k) || k in pending) :: m[k]
  }

  /** With every matching key still pending, nothing has gone yet. */
  lemma SurvivingAll(m: Hookings, hookName: string)
    ensures Surviving(m, hookName, set k | k in m && KeyOf(hookName, k)) == m
  {
  }

  /** Emptying one pending key removes exactly that key. */
  lemma SurvivingDrop(m: Hookings, hookName: string, pending: set<string>, key: string)
    requires key in pending && KeyOf(hookName, key)
    ensures Surviving(m, hookName, pending) - {key} == Surviving(m, hookName, pending - {key})
  {
  }

  class Hooks {
    /** `$active_hookings`. */
    var activeHookings: Hookings
    /** `$class_instances`. */
    var classInstances: map<string, Instance>
    /** `$hookings_count_by_class`. */
    var hookingsCountByClass: map<string, nat>

    /** Subscriptions made on the event bus; the registry never withdraws one. */
    ghost var subscriptions: multiset<Subscription>
    /** The keys of those subscriptions. */
    ghost var subscribedKeys: set<string>
    /** Ids of the hookings whose factory or static init callable has been run, in order. */
    ghost var setups: seq<string>
    /** Every handler call made by dispatch, in order. */
    ghost var invocations: seq<Invocation>
    /** Classes resolved through the container or the legacy proxy, in order. */
    ghost var lookups: seq<string>

    function State(): Tables
      reads this
    {
      Tables(activeHookings, classInstances, hookingsCountByClass)
    }

    /** The tables are consistent and every live key has a bus subscription. */
    ghost predicate Valid()
      reads this
    {
      && Consistent(State())
      && activeHookings.Keys <= subscribedKeys
    }

    twostate predicate RegistryLogsUnchanged()
      reads this
    {
      && subscriptions == old(subscriptions)
      && subscribedKeys == old(subscribedKeys)
      && setups == old(setups)
      && invocations == old(invocations)
      && lookups == old(lookups)
    }

    /** The registry before anything is registered. */
    constructor ()
      ensures Valid()
      ensures activeHookings == map[] && classInstances == map[] && hookingsCountByClass == map[]
      ensures subscriptions == multiset{} && subscribedKeys == {}
      ensures setups == [] && invocations == [] && lookups == []
    {
      activeHookings := map[];
      classInstances := map[];
      hookingsCountByClass := map[];
      subscriptions := multiset{};
      subscribedKeys := {};
      setups := [];
      invocations := [];
      lookups := [];
    }

    /** increase_hookings_count_for_class: `count ?? 0` plus one. */
    method IncreaseHookingsCountForClass(className: string)
      modifies this
      ensures hookingsCountByClass == Inc(old(hookingsCountByClass), className)
      ensures Refcount(hookingsCountByClass, className) == Refcount(old(hookingsCountByClass), className) + 1
      ensures activeHookings == old(activeHookings) && classInstances == old(classInstances)
      ensures RegistryLogsUnchanged()
    {
      var count := if className in hookingsCountByClass then hookingsCountByClass[className] else 0;
      hookingsCountByClass := hookingsCountByClass[className := count + 1];
    }

    /**
     * register_hook_core: subscribe on the bus when the key is new, count a
     * class-name target, and append the hooking with the fresh id `id`.
     */
    method RegisterHookCore(hookName: string, target: Target, methodName: string, priority: int, acceptedArgs: int, id: string)
      returns (hookingId: string)
      requires Valid()
      requires !target.None?
      requires id !in Ids(activeHookings)
      modifies this
      ensures Valid()
      ensures hookingId == id
      ensures var key := HookKey(hookName, priority, acceptedArgs);
              activeHookings == old(activeHookings)[key := old(ListAt(activeHookings, key)) + [Hooking(target, methodName, priority, acceptedArgs, id)]]
      ensures State() == Register(old(State()), HookKey(hookName, priority, acceptedArgs), Hooking(target, methodName, priority, acceptedArgs, id))
      ensures Ids(activeHookings) == old(Ids(activeHookings)) + {id}
      ensures classInstances == old(classInstances)
      ensures forall c :: Refcount(hookingsCountByClass, c)
                         == Refcount(old(hookingsCountByClass), c) + (if target == ClassName(c) then 1 else 0)
      ensures subscriptions == old(subscriptions)
                + if HookKey(hookName, priority, acceptedArgs) in old(activeHookings) then multiset{}
                  else multiset{Subscription(hookName, priority, acceptedArgs)}
      ensures subscribedKeys == old(subscribedKeys) + {HookKey(hookName, priority, acceptedArgs)}
      ensures setups == old(setups) && invocations == old(invocations) && lookups == old(lookups)
    {
      var key := HookKey(hookName, priority, acceptedArgs);
      if key !in activeHookings {
        subscriptions := subscriptions + multiset{Subscription(hookName, priority, acceptedArgs)};
      }
      subscribedKeys := subscribedKeys + {key};
      if target.ClassName? {
        IncreaseHookingsCountForClass(target.name);
      }
      var h := Hooking(target, methodName, priority, acceptedArgs, id);
      var list := if key in activeHookings then activeHookings[key] else [];
      activeHookings := activeHookings[key := list + [h]];
      hookingId := id;
      RegisterKeepsConsistent(old(State()), key, h);
    }

    /**
     * init's registration loop: register every built-in row, in order, for
     * the class named by its group, with priority 10 and one argument where
     * the row gives none; `ids` are the fresh ids the registrations draw.
     */
    method Init(ids: seq<string>)
      requires Valid()
      requires |ids| == |BuiltInHookings| && Distinct(ids)
      requires forall j | 0 <= j < |ids| :: ids[j] !in Ids(activeHookings)
      modifies this
      ensures Valid()
      ensures State() == RegisterBuiltIns(old(State()), ids)
      ensures subscriptions == old(subscriptions) + NewBuiltInSubscriptions(old(activeHookings), |ids|)
      ensures subscribedKeys == old(subscribedKeys) + BuiltInKeySet(|ids|)
      ensures setups == old(setups) && invocations == old(invocations) && lookups == old(lookups)
    {
      var rows := BuiltInHookings;
      var j := 0;
      assert ids[..0] == [];
      while j < |rows|
        invariant 0 <= j <= |rows|
        invariant Valid()
        invariant State() == RegisterBuiltIns(old(State()), ids[..j])
        invariant forall j' | j <= j' < |ids| :: ids[j'] !in Ids(activeHookings)
        invariant InitProgress(old(activeHookings), old(subscriptions), old(subscribedKeys), j,
                               activeHookings, subscriptions, subscribedKeys)
        invariant setups == old(setups) && invocations == old(invocations) && lookups == old(lookups)
      {
        ghost var (m, subs, keys) := (activeHookings, subscriptions, subscribedKeys);
        RegisterBuiltIn(j, ids[j]);
        InitProgressStep(old(activeHookings), old(subscriptions), old(subscribedKeys), j,
                         m, subs, keys, activeHookings, subscriptions, subscribedKeys);
        RegisterBuiltInsStep(old(State()), ids, j);
        j := j + 1;
      }
      assert ids[..|ids|] == ids;
    }

    /** One iteration of init's loop: register built-in row `j` for its class. */
    method RegisterBuiltIn(j: nat, id: string)
      requires Valid()
      requires j < |BuiltInHookings| && id !in Ids(activeHookings)
      modifies this
      ensures Valid()
      ensures State() == Register(old(State()), BuiltInKey(BuiltInHookings[j]), BuiltInHooking(BuiltInHookings[j], id))
      ensures Ids(activeHookings) == old(Ids(activeHookings)) + {id}
      ensures activeHookings.Keys == old(activeHookings).Keys + {BuiltInKey(BuiltInHookings[j])}
      ensures subscriptions == old(subscriptions)
                + if BuiltInKey(BuiltInHookings[j]) in old(activeHookings) then multiset{}
                  else multiset{BuiltInSubscription(BuiltInHookings[j])}
      ensures subscribedKeys == old(subscribedKeys) + {BuiltInKey(BuiltInHookings[j])}
      ensures setups == old(setups) && invocations == old(invocations) && lookups == old(lookups)
    {
      var b := BuiltInHookings[j];
      var _ := RegisterHookCore(b.hookName, ClassName(DataRegeneratorClass), b.methodName, OrDefault(b.priority, 10), OrDefault(b.acceptedArgs, 1), id);
    }

    /**
     * register_filter (and its alias register_action): a null (or otherwise
     * unusable) target is rejected with InvalidArgumentException and nothing
     * changes; anything else is registered as by `RegisterHookCore`.
     */
    method RegisterFilter(hookName: string, target: Target, methodName: string, priority: int, acceptedArgs: int, id: string)
      returns (r: Registration)
      requires Valid()
      requires id !in Ids(activeHookings)
      modifies this
      ensures Valid()
      ensures target.None? ==> r == InvalidArgument(InvalidTargetMessage) && State() == old(State()) && RegistryLogsUnchanged()
      ensures !target.None? ==> r == Registered(id)
      ensures !target.None? ==>
                State() == Register(old(State()), HookKey(hookName, priority, acceptedArgs), Hooking(target, methodName, priority, acceptedArgs, id))
      ensures !target.None? ==>
                subscriptions == old(subscriptions)
                + if HookKey(hookName, priority, acceptedArgs) in old(activeHookings) then multiset{}
                  else multiset{Subscription(hookName, priority, acceptedArgs)}
      ensures !target.None? ==>
                && subscribedKeys == old(subscribedKeys) + {HookKey(hookName, priority, acceptedArgs)}
                && setups == old(setups) && invocations == old(invocations) && lookups == old(lookups)
    {
      if target.None? {
        return InvalidArgument(InvalidTargetMessage);
      }
      var hookingId := RegisterHookCore(hookName, target, methodName, priority, acceptedArgs, id);
      r := Registered(hookingId);
    }

    /**
     * remove_hook_core: unset the entry and, when its list becomes empty, the
     * key; for a class-name target decrement its count or, at the last
     * reference, drop both its cached instance and its count.
     */
    method RemoveHookCore(key: string, infoKey: nat)
      requires Valid()
      requires key in activeHookings && infoKey < |activeHookings[key]|
      modifies this
      ensures Valid()
      ensures State() == RemoveCore(old(State()), key, infoKey)
      ensures RegistryLogsUnchanged()
    {
      var target := activeHookings[key][infoKey].target;
      var rest := activeHookings[key][..infoKey] + activeHookings[key][infoKey + 1..];
      if rest == [] {
        activeHookings := activeHookings - {key};
      } else {
        activeHookings := activeHookings[key := rest];
      }
      RemoveCoreKeepsConsistent(old(State()), key, infoKey);
      if !target.ClassName? {
        return;
      }
      ReleaseClass(target.name);
    }

    /**
     * The class-name half of remove_hook_core: decrement the count of
     * `className`, or at its last reference drop both its cached instance
     * and its count.
     */
    method ReleaseClass(className: string)
      modifies this
      ensures activeHookings == old(activeHookings)
      ensures Refcount(old(hookingsCountByClass), className) > 1 ==>
                hookingsCountByClass == old(hookingsCountByClass)[className := old(hookingsCountByClass)[className] - 1]
                && classInstances == old(classInstances)
      ensures Refcount(old(hookingsCountByClass), className) <= 1 ==>
                hookingsCountByClass == old(hookingsCountByClass) - {className}
                && classInstances == old(classInstances) - {className}
      ensures RegistryLogsUnchanged()
    {
      var count := if className in hookingsCountByClass then hookingsCountByClass[className] else 0;
      if count > 1 {
        hookingsCountByClass := hookingsCountByClass[className := hookingsCountByClass[className] - 1];
      } else {
        classInstances := classInstances - {className};
        hookingsCountByClass := hookingsCountByClass - {className};
      }
    }

    /**
     * remove_filter_by_id (and its alias remove_action_by_id): remove the
     * hooking with id `hookId` if there is one, otherwise change nothing.
     */
    method RemoveFilterById(hookId: string) returns (removed: bool)
      requires Valid()
      modifies this
      ensures Valid()
      ensures removed <==> hookId in old(Ids(activeHookings))
      ensures State() == RemoveById(old(State()), hookId)
      ensures RegistryLogsUnchanged()
    {
      var keys := activeHookings.Keys;
      while keys != {}
        invariant keys <= activeHookings.Keys
        invariant forall k | k in activeHookings && k !in keys :: forall j | 0 <= j < |activeHookings[k]| :: activeHookings[k][j].id != hookId
        invariant Valid() && State() == old(State()) && RegistryLogsUnchanged()
        decreases keys
      {
        var key :| key in keys;
        var list := activeHookings[key];
        var j := 0;
        while j < |list|
          invariant 0 <= j <= |list|
          invariant forall j' | 0 <= j' < j :: list[j'].id != hookId
          invariant Valid() && State() == old(State()) && RegistryLogsUnchanged()
        {
          if list[j].id == hookId {
            LocateUnique(activeHookings, key, j);
            RemoveHookCore(key, j);
            return true;
          }
          j := j + 1;
        }
        keys := keys - {key};
      }
      return false;
    }

    /**
     * remove_filter (and its alias remove_action): remove the first entry
     * under the key whose target, method, priority and argument count are
     * identical to the arguments; false, with nothing changed, when the key
     * is absent or nothing matches.
     */
    method RemoveFilter(hookName: string, target: Target, methodName: string, priority: int, acceptedArgs: int)
      returns (removed: bool)
      requires Valid()
      modifies this
      ensures Valid()
      ensures var key := HookKey(hookName, priority, acceptedArgs);
              removed <==> key in old(activeHookings)
                           && FirstMatch(old(activeHookings)[key], target, methodName, priority, acceptedArgs) < |old(activeHookings)[key]|
      ensures removed ==>
                var key := HookKey(hookName, priority, acceptedArgs);
                State() == RemoveCore(old(State()), key, FirstMatch(old(activeHookings)[key], target, methodName, priority, acceptedArgs))
      ensures !removed ==> State() == old(State())
      ensures RegistryLogsUnchanged()
    {
      var key := HookKey(hookName, priority, acceptedArgs);
      if key !in activeHookings {
        return false;
      }
      var list := activeHookings[key];
      var j := 0;
      while j < |list|
        invariant 0 <= j <= |list|
        invariant forall j' | 0 <= j' < j :: !Matches(list[j'], target, methodName, priority, acceptedArgs)
        invariant Valid() && State() == old(State()) && RegistryLogsUnchanged()
      {
        if list[j].target == target && list[j].methodName == methodName && list[j].priority == priority && list[j].acceptedArgs == acceptedArgs {
          RemoveHookCore(key, j);
          return true;
        }
        j := j + 1;
      }
      return false;
    }

    /**
     * remove_all_hooks: remove every hooking under every key that starts with
     * `hookName + "__"`, one id at a time, and count them; other keys are
     * untouched and cached instances survive exactly for classes still
     * referenced.
     */
    method RemoveAllHooks(hookName: string) returns (removed: nat)
      requires Valid()
      modifies this
      ensures Valid()
      ensures activeHookings == Surviving(old(activeHookings), hookName, {})
      ensures Ids(activeHookings) <= old(Ids(activeHookings))
      ensures removed == |old(Ids(activeHookings)) - Ids(activeHookings)|
      ensures CachedFor(old(classInstances), classInstances, activeHookings)
      ensures RegistryLogsUnchanged()
    {
      removed := 0;
      var keys := set k | k in activeHookings && KeyOf(hookName, k);
      ghost var m0 := activeHookings;
      ghost var i0 := classInstances;
      SurvivingAll(m0, hookName);
      while keys != {}
        invariant Valid()
        invariant activeHookings == Surviving(m0, hookName, keys)
        invariant forall k | k in keys :: k in m0 && KeyOf(hookName, k)
        invariant Ids(activeHookings) <= Ids(m0)
        invariant removed == |Ids(m0) - Ids(activeHookings)|
        invariant CachedFor(i0, classInstances, activeHookings)
        invariant RegistryLogsUnchanged()
        decreases keys
      {
        var key :| key in keys;
        ghost var cur := activeHookings;
        ghost var curCached := classInstances;
        var count := RemoveHookingsUnder(key);
        CachedChain(i0, curCached, classInstances, cur, activeHookings);
        LossesAdd(Ids(m0), Ids(cur), Ids(activeHookings));
        SurvivingDrop(m0, hookName, keys, key);
        removed := removed + count;
        keys := keys - {key};
      }
    }

    /**
     * The inner loop of remove_all_hooks: remove, by id, each hooking of the
     * list under `key` as it was when the loop started, counting each one.
     */
    method RemoveHookingsUnder(key: string) returns (count: nat)
      requires Valid() && key in activeHookings
      modifies this
      ensures Valid()
      ensures State() == RemoveEach(old(State()), IdList(old(activeHookings[key])))
      ensures activeHookings == old(activeHookings) - {key}
      ensures count == |old(activeHookings[key])|
      ensures Ids(activeHookings) <= old(Ids(activeHookings))
      ensures count == |old(Ids(activeHookings)) - Ids(activeHookings)|
      ensures CachedFor(old(classInstances), classInstances, activeHookings)
      ensures forall c :: RefIds(activeHookings, c) <= old(RefIds(activeHookings, c))
      ensures RegistryLogsUnchanged()
    {
      ghost var t0 := State();
      var list := activeHookings[key];
      ghost var ids := IdList(list);
      count := 0;
      var j := 0;
      assert ids[..0] == [];
      while j < |list|
        invariant Valid()
        invariant 0 <= j <= |list| && count == j
        invariant State() == RemoveEach(t0, ids[..j])
        invariant RegistryLogsUnchanged()
      {
        ghost var q := State();
        var _ := RemoveFilterById(list[j].id);
        assert ids[..j + 1][..j] == ids[..j];
        count := count + 1;
        j := j + 1;
      }
      assert ids[..|list|] == ids;
      RemoveListPrefix(t0, key, |list|);
      RemoveEachKeepsConsistent(t0, ids);
    }

    /**
     * The body of handle_hook's loop for entry `i` of the list under `key`, up
     * to the handler call: resolve the target in the source's precedence and
     * write the resolved target back into the entry.
     */
    method ResolveEntry(env: Env, key: string, i: nat) returns (receiver: Receiver)
      requires Valid()
      requires key in activeHookings && i < |activeHookings[key]|
      modifies this
      ensures Valid()
      ensures var h := old(activeHookings[key][i]);
              var r := Resolve(env, old(classInstances), old(hookingsCountByClass), h);
              && activeHookings == SetTarget(old(activeHookings), key, i, r.target)
              && classInstances == r.instances
              && hookingsCountByClass == r.counts
              && receiver == r.receiver
              && setups == old(setups) + (if r.ranSetup then [h.id] else [])
              && lookups == old(lookups) + r.lookedUp
      ensures subscriptions == old(subscriptions) && subscribedKeys == old(subscribedKeys) && invocations == old(invocations)
    {
      var h := activeHookings[key][i];
      var target := h.target;
      var isStatic := IsStatic(h.methodName);
      if isStatic {
        if target.Factory? {
          // the init callable runs; its result is discarded
          setups := setups + [h.id];
          target := None;
        }
        receiver := StaticCall;
      } else if target.Factory? {
        var instance := env.factory(target.closure);
        var className := env.classOf(instance);
        classInstances := classInstances[className := instance];
        target := ClassName(className);
        IncreaseHookingsCountForClass(className);
        setups := setups + [h.id];
        receiver := OnObject(instance);
      } else if target.Obj? {
        receiver := OnObject(target.instance);
      } else if target.name in classInstances {
        receiver := OnObject(classInstances[target.name]);
      } else {
        var className := target.name;
        var instance := if env.containerHas(className) then env.containerGet(className) else env.legacyGet(className);
        classInstances := classInstances[className := instance];
        lookups := lookups + [className];
        receiver := OnObject(instance);
      }
      activeHookings := SetTarget(activeHookings, key, i, target);
      ResolveKeepsConsistent(env, old(State()), key, i);
    }

    /**
     * handle_hook: on an absent key return `args[0]` (or null) and change
     * nothing; otherwise run the key's entries in list order as the pure pass
     * `Run` describes, threading each result through `args[0]`, and extend
     * the logs of handler calls, setups and lookups by that pass.
     */
    method HandleHook(env: Env, hookName: string, priority: int, acceptedArgs: int, args: seq<Value>)
      returns (value: Value)
      requires Valid()
      modifies this
      ensures Valid()
      ensures HookKey(hookName, priority, acceptedArgs) !in old(activeHookings) ==>
                value == FirstArg(args) && State() == old(State()) && RegistryLogsUnchanged()
      ensures HookKey(hookName, priority, acceptedArgs) in old(activeHookings) ==>
                var l := old(activeHookings)[HookKey(hookName, priority, acceptedArgs)];
                NullOnlyStaticIn(l) &&
                var r := Run(env, Start(old(classInstances), old(hookingsCountByClass), args,
                                        old(invocations), old(setups), old(lookups)), l);
                && value == r.value
                && activeHookings == old(activeHookings)[HookKey(hookName, priority, acceptedArgs) := Retarget(l, r.targets)]
                && classInstances == r.instances
                && hookingsCountByClass == r.counts
                && invocations == r.trace
                && setups == r.setups
                && lookups == r.lookups
      ensures subscriptions == old(subscriptions) && subscribedKeys == old(subscribedKeys)
    {
      var key := HookKey(hookName, priority, acceptedArgs);
      if key !in activeHookings {
        // all hookings of this name, priority and argument count were removed
        return FirstArg(args);
      }
      value := RunHookings(env, key, args);
    }

    /** One iteration of handle_hook's loop: resolve entry `i`, call its handler, thread the result. */
    method DispatchEntry(env: Env, key: string, i: nat, current: seq<Value>, ghost q: Pass)
      returns (value: Value, next: seq<Value>)
      requires Valid()
      requires key in activeHookings && i < |activeHookings[key]|
      requires q.instances == classInstances && q.counts == hookingsCountByClass && q.args == current
      requires q.trace == invocations && q.setups == setups && q.lookups == lookups
      modifies this
      ensures Valid()
      ensures var q' := Advance(env, q, old(activeHookings[key][i]));
              && activeHookings == SetTarget(old(activeHookings), key, i, q'.targets[|q.targets|])
              && classInstances == q'.instances
              && hookingsCountByClass == q'.counts
              && value == q'.value
              && next == q'.args
              && invocations == q'.trace
              && setups == q'.setups
              && lookups == q'.lookups
      ensures subscriptions == old(subscriptions) && subscribedKeys == old(subscribedKeys)
    {
      var h := activeHookings[key][i];
      var receiver := ResolveEntry(env, key, i);
      value := Call(env, h, receiver, current);
      invocations := invocations + [Invocation(h.id, current, value)];
      next := Thread(current, value);
    }

    /** The loop of handle_hook over the list under a live `key`. */
    method RunHookings(env: Env, key: string, args: seq<Value>) returns (value: Value)
      requires Valid() && key in activeHookings
      modifies this
      ensures Valid()
      ensures var l := old(activeHookings)[key];
              NullOnlyStaticIn(l) &&
              var r := Run(env, Start(old(classInstances), old(hookingsCountByClass), args,
                                      old(invocations), old(setups), old(lookups)), l);
              && value == r.value
              && activeHookings == old(activeHookings)[key := Retarget(l, r.targets)]
              && classInstances == r.instances
              && hookingsCountByClass == r.counts
              && invocations == r.trace
              && setups == r.setups
              && lookups == r.lookups
      ensures subscriptions == old(subscriptions) && subscribedKeys == old(subscribedKeys)
    {
      value := FirstArg(args);
      var list := activeHookings[key];
      ghost var m0 := activeHookings;
      ghost var p0 := Start(classInstances, hookingsCountByClass, args, invocations, setups, lookups);
      ghost var q := p0;
      var current := args;
      var i := 0;
      assert Retarget(list, []) == list;
      while i < |list|
        invariant 0 <= i <= |list|
        invariant Valid()
        invariant NullOnlyStaticIn(list)
        invariant q == Run(env, p0, list[..i])
        invariant |q.targets| == i
        invariant activeHookings == m0[key := Retarget(list, q.targets)]
        invariant classInstances == q.instances && hookingsCountByClass == q.counts
        invariant current == q.args && value == q.value
        invariant invocations == q.trace && setups == q.setups && lookups == q.lookups
        invariant subscriptions == old(subscriptions) && subscribedKeys == old(subscribedKeys)
      {
        var h := list[i];
        ghost var q' := Advance(env, q, h);
        RetargetStep(m0, key, list, q.targets, q'.targets[i]);
        RunStep(env, p0, list, i);
        value, current := DispatchEntry(env, key, i, current, q);
        q := q';
        i := i + 1;
      }
      assert list[..|list|] == list;
    }
  }
}
