# WooCommerce hook registry and remote logger, modelled in Dafny

This project models two pieces of the WooCommerce plugin.

**The hook registry** (`Automattic\WooCommerce\Hooks`). Callers register a
handler for a WordPress filter or action: a target, a method name, a priority
and an accepted-argument count. The registry keeps three process-wide tables:

- `active_hookings`: the registrations, grouped under the key
  `"{hook}__{priority}__{args}"` in registration order;
- `class_instances`: class instances it has created lazily;
- `hookings_count_by_class`: how many live registrations name each class.

The registry subscribes one forwarding closure to the WordPress event bus each
time a key becomes present in `active_hookings`. When the bus fires, `handle_hook` resolves each registration's receiver. In
order, a receiver is:

- a static call;
- a factory that is run once and written back;
- an object;
- a cached class instance;
- an instance taken from the dependency container (or the legacy proxy).

It then calls the registrations in order and threads each result into the
first argument of the next. Removal works by id, by value match or by hook
name. It keeps the per-class reference counts and evicts cached instances whose
count reaches zero.

The class `WooCommerce.Hooks` (`hooks.dfy`) has those three tables as `map`
fields. Its methods update them in place. Each method's contract ties the new
state to a value-level function in module `HookState` (`hook_state.dfy`):

- `Register`, `RemoveCore`, `RemoveById` and `RemoveEach` for changes to the tables;
- `Resolve`, `Advance` and `Run` for one dispatch pass.

The lemmas there prove the invariant `Consistent`:

- hooking ids are unique;
- no key holds an empty list;
- a target is null only on an entry whose method is static (a static callable that has already run);
- each class count equals the number of live registrations naming that class;
- every cached instance has a count.

Ghost fields record the event-bus subscriptions, the factory runs, the
container lookups and the invocation trace of a dispatch.

**The remote logger** (`WC_Remote_Logger`), in module `RemoteLogging`
(`remote_logger.dfy`). Module `Strings` (`strings.dfy`) holds the integer
rendering and first-index helpers that both modules use. The model covers:

- the gate that decides whether remote logging is allowed;
- the throttle, which allows at most 10 posts per 300-second window, kept as a
  transient list of timestamps;
- path scrubbing of messages and backtraces;
- the construction of the log payload;
- the control flow of `log`.

Scrubbing follows the PCRE pattern `/\/.*(\/woocommerce.*|\/wp-.*)/i`. Without
the `s` flag `.` does not match a newline, so the replacement works line by
line. Its semantics are proved against a declarative notion of a match:

- the leftmost slash is where the match starts;
- the last `/woocommerce` or `/wp-` marker is where the greedy group starts.

The class `RemoteLogging.RemoteLogger` keeps the timestamp transient as a field.
Ghost fields hold the posts sent, the local info messages and the
`_doing_it_wrong` notices.

## Model

| member | source | states |
|---|---|---|
| WooCommerce.Hooks.constructor | plugins/woocommerce/src/Hooks.php:40-53 | all three registry tables start empty, with no bus subscriptions and empty dispatch logs |
| WooCommerce.Hooks.IncreaseHookingsCountForClass | plugins/woocommerce/src/Hooks.php:218-221 | the class's count rises by one (a missing class starts from 0); the other tables are unchanged |
| WooCommerce.Hooks.RegisterHookCore | plugins/woocommerce/src/Hooks.php:80-93 | the new hooking is appended to its key's list; the returned id is the fresh id; a class target's count rises by one and every other count stays; a bus subscription is added only when the key had no list; the invariant is kept |
| WooCommerce.Hooks.RegisterFilter | plugins/woocommerce/src/Hooks.php:72-78 | a target that is neither a string nor callable nor an object is refused with the invalid-argument message and changes nothing; any other target is registered exactly as by the core, its key joins the subscribed keys, and no factory runs, handler call or container lookup happens |
| WooCommerce.Hooks.Init | plugins/woocommerce/src/Hooks.php:55-66 | the registry becomes the old state with the three built-in data-regenerator hookings registered in order; one bus subscription is added for each built-in key that had no list before, and the built-in keys join the subscribed keys; the invariant is kept |
| WooCommerce.Hooks.RegisterBuiltIn | plugins/woocommerce/src/Hooks.php:60-65 | one built-in row is registered under its default-filled key with the data-regenerator class as target; its id joins the live ids; a subscription is added exactly when the key was absent; no factory runs, handler call or container lookup happens |
| WooCommerce.InitSubscriptionsFromEmpty | plugins/woocommerce/src/Hooks.php:55-66 | from an empty registry, init subscribes exactly the three built-in rows, each with its priority and arity filled in by the defaults |
| WooCommerce.InitFromEmpty | plugins/woocommerce/src/Hooks.php:18-24 | from an empty registry, init yields exactly three single-entry lists under the three built-in keys, no cached instances, and a count of 3 for the data-regenerator class |
| WooCommerce.BuiltInKeys | plugins/woocommerce/src/Hooks.php:18-24 | the built-in keys are the hook names with `__999__1`, `__10__1` and `__10__1`, the defaults the built-ins omit |
| WooCommerce.BuiltInKeysDistinct | plugins/woocommerce/src/Hooks.php:18-24 | the three built-in hookings go under three different keys |
| WooCommerce.KeysOfDefaults | plugins/woocommerce/src/Hooks.php:80-81 | the key for the default priority and arity is rendered with the decimal numbers in the fixed format |
| WooCommerce.Hooks.RemoveHookCore | plugins/woocommerce/src/Hooks.php:137-155 | the state becomes `RemoveCore` of the old state: the entry is unset, the key is dropped when its list empties, and a class target's count falls by one or is removed together with its cached instance; the invariant is kept |
| WooCommerce.Hooks.ReleaseClass | plugins/woocommerce/src/Hooks.php:143-154 | a count above 1 is decremented and the cache is kept; otherwise the count entry and the cached instance are both removed |
| HookState.RemoveCoreKeepsConsistent | plugins/woocommerce/src/Hooks.php:137-155 | removing one entry keeps the invariant, removes exactly its id from the live ids and from each class's referring ids, and keeps a class's cached instance exactly while the class is still referred to |
| HookState.RemoveEntryKeepsShape | plugins/woocommerce/src/Hooks.php:138-141 | unsetting one entry keeps the ids unique and the lists non-empty, and removes exactly that entry's id |
| HookState.RemoveCoreCounts | plugins/woocommerce/src/Hooks.php:143-154 | after removal every class count still equals its number of referring hookings and stays positive, and cached instances survive exactly for the classes still referred to |
| WooCommerce.Hooks.RemoveFilterById | plugins/woocommerce/src/Hooks.php:99-112 | the result is true exactly when the id was live; the state becomes `RemoveById` of the old state; nothing else changes |
| HookState.RemoveByIdKeepsConsistent | plugins/woocommerce/src/Hooks.php:99-112 | removal by id keeps the invariant and removes exactly that id; an unknown id leaves the state unchanged; no key appears and no class gains a referrer |
| WooCommerce.FirstMatch | plugins/woocommerce/src/Hooks.php:124-131 | the index is the first entry of the list whose target, method, priority and arity all equal the given ones, or the list's length when none does |
| WooCommerce.Hooks.RemoveFilter | plugins/woocommerce/src/Hooks.php:118-135 | the result is true exactly when the key exists and some entry matches; then the first matching entry is removed as by the core; otherwise the state is unchanged |
| WooCommerce.Hooks.RemoveAllHooks | plugins/woocommerce/src/Hooks.php:157-167 | every key starting with the hook name and `__` is gone and all other keys keep their lists; the returned number is the count of hooking ids removed; cached instances survive exactly for the classes still referred to; the invariant is kept |
| WooCommerce.Hooks.RemoveHookingsUnder | plugins/woocommerce/src/Hooks.php:161-164 | removing every hooking under one key by id drops exactly that key, returns its list's length, loses exactly that many ids, and never raises a class's referrers |
| HookState.RemoveEachKeepsConsistent | plugins/woocommerce/src/Hooks.php:161-164 | removing any sequence of ids keeps the invariant and never adds ids, keys or class referrers |
| HookState.RemoveListPrefix | plugins/woocommerce/src/Hooks.php:161-164 | removing the first j ids of one key's list by id leaves the registry with that list's suffix (or without the key when j is the whole list) and with exactly j fewer ids |
| HookState.CachedChain | plugins/woocommerce/src/Hooks.php:150-153 | two successive evictions, each keeping an instance exactly while its class is referred to, compose into one such eviction |
| HookState.RegisterKeepsConsistent | plugins/woocommerce/src/Hooks.php:80-93 | registering a fresh id keeps the invariant, adds exactly that id, and raises exactly the target class's count by one |
| WooCommerce.Hooks.ResolveEntry | plugins/woocommerce/src/Hooks.php:184-207 | the entry's receiver, its written-back target, the cache and the counts become those of `Resolve`: static call; factory run once and its result stored by kind; object; cached instance; container lookup cached |
| HookState.ResolveKeepsConsistent | plugins/woocommerce/src/Hooks.php:184-207 | resolving one entry keeps the invariant and the set of live ids |
| WooCommerce.Hooks.DispatchEntry | plugins/woocommerce/src/Hooks.php:183-212 | one loop step resolves and calls one entry; the state, returned value and next argument list are one `Advance` step of the dispatch pass |
| WooCommerce.Hooks.RunHookings | plugins/woocommerce/src/Hooks.php:179-213 | the loop over a key's list leaves the registry, logs and returned value exactly as `Run` over the list's snapshot |
| WooCommerce.Hooks.HandleHook | plugins/woocommerce/src/Hooks.php:169-216 | a missing key returns the first argument and changes nothing; otherwise the result is `Run` over the list from the current tables, with targets written back into the list |
| HookState.RunOrder | plugins/woocommerce/src/Hooks.php:179-212 | the handlers are invoked once each, in registration order |
| HookState.RunThreads | plugins/woocommerce/src/Hooks.php:209-212 | every invocation gets the previous result as its first argument (the first gets the caller's arguments); the returned value is the last result, or the first argument when the list is empty |
| HookState.RunSetups | plugins/woocommerce/src/Hooks.php:186-195 | exactly the factory entries run their factory, once each and in order; no cached instance is lost |
| HookState.RunTargets | plugins/woocommerce/src/Hooks.php:186-195 | each entry's stored target is what resolution wrote back: the factory's result, kept as-is, a class name or a static marker |
| HookState.NoFactoryIds | plugins/woocommerce/src/Hooks.php:190-195 | a list with no callable target has no factory entries to run |
| HookState.SecondPassRunsNoSetup | plugins/woocommerce/src/Hooks.php:186-196 | after one dispatch pass writes its targets back, no callable target is left and a null target still sits only on a static entry, so a second pass over the list runs no factory at all |
| HookState.RunLookups | plugins/woocommerce/src/Hooks.php:199-205 | the container is asked only for classes not cached beforehand, each at most once, and each answer is then cached |
| Strings.NatToStringInjective | plugins/woocommerce/includes/class-wc-remote-logger.php:166-172 | two list positions render to the same decimal key only when they are equal, so renumbered list elements never collide |
| Strings.FirstIndexOfSpec | plugins/woocommerce/includes/class-wc-remote-logger.php:328-331 | no character before the first index equals the searched one |
| RemoteLogging.LastMarkerSpec | plugins/woocommerce/includes/class-wc-remote-logger.php:328-331 | the found position is a `/woocommerce` or `/wp-` marker (ASCII case-insensitive) with no marker after it, and none means no marker in the range |
| RemoteLogging.SanitizeLineMatch | plugins/woocommerce/includes/class-wc-remote-logger.php:328-331 | for the leftmost match and its greedy group, one line becomes the text before the first slash, then `**`, then the group |
| RemoteLogging.SanitizeLineNoMatch | plugins/woocommerce/includes/class-wc-remote-logger.php:328-331 | a line without any match is left unchanged |
| RemoteLogging.SanitizeLineChanges | plugins/woocommerce/includes/class-wc-remote-logger.php:328-331 | a line changes exactly when the pattern matches it |
| RemoteLogging.SanitizeLineIdempotent | plugins/woocommerce/includes/class-wc-remote-logger.php:328-331 | scrubbing a scrubbed line changes nothing |
| RemoteLogging.SanitizeIdempotent | plugins/woocommerce/includes/class-wc-remote-logger.php:328-331 | scrubbing a scrubbed multi-line text changes nothing |
| RemoteLogging.SanitizeLineKeepsPlainPrefix | plugins/woocommerce/includes/class-wc-remote-logger.php:328-331 | text without a slash in front of a line is kept verbatim and the rest is scrubbed as on its own |
| RemoteLogging.SanitizePluginPath | plugins/woocommerce/tests/php/includes/class-wc-remote-logger.php:217-221 | any absolute path ending in `/woocommerce/file.php` is scrubbed to `**/woocommerce/file.php` |
| RemoteLogging.SanitizeContentPath | plugins/woocommerce/tests/php/includes/class-wc-remote-logger.php:210-215 | any absolute path ending in `/wp-content/file.php` is scrubbed to `**/wp-content/file.php` |
| RemoteLogging.SanitizeMessage | plugins/woocommerce/tests/php/includes/class-wc-remote-logger.php:185-196 | in an error message, the plain text before the path is kept and the path is scrubbed down from its last marker |
| RemoteLogging.Recent | plugins/woocommerce/includes/class-wc-remote-logger.php:296-298 | the kept timestamps are no more than the input and all lie in the window |
| RemoteLogging.RecentCount | plugins/woocommerce/includes/class-wc-remote-logger.php:296-300 | the kept timestamps are as many as the positions whose timestamp lies in the window |
| RemoteLogging.RecentContents | plugins/woocommerce/includes/class-wc-remote-logger.php:296-298 | every timestamp in the window is kept with its multiplicity and every other is dropped |
| RemoteLogging.RecentAppend | plugins/woocommerce/includes/class-wc-remote-logger.php:296-298 | filtering distributes over concatenation, so order is preserved |
| RemoteLogging.RecentLater | plugins/woocommerce/includes/class-wc-remote-logger.php:289-309 | filtering at one time and again at a later time equals filtering once at the later time |
| RemoteLogging.ThrottlesIff | plugins/woocommerce/includes/class-wc-remote-logger.php:296-306 | logging is throttled exactly when at least 10 stored timestamps fall in the last 300 seconds |
| RemoteLogging.HundredRecentPostsThrottle | plugins/woocommerce/tests/php/includes/class-wc-remote-logger.php:251-275 | one hundred timestamps one second apart, ending now, throttle logging |
| RemoteLogging.RemoteLogger.ShouldThrottleLogging | plugins/woocommerce/includes/class-wc-remote-logger.php:289-309 | the answer is the throttle predicate on the stored timestamps, and the transient keeps only the timestamps in the window |
| RemoteLogging.RemoteLogger.RecordLogTimestamp | plugins/woocommerce/includes/class-wc-remote-logger.php:278-282 | the current time is appended to the stored timestamps |
| RemoteLogging.SentPostsStayCounted | plugins/woocommerce/includes/class-wc-remote-logger.php:66-119 | a post recorded after the throttle check at `now` is counted, after the earlier posts still in the window, by any later check whose window still contains it |
| RemoteLogging.IsVariantAssignmentAllowed | plugins/woocommerce/includes/class-wc-remote-logger.php:225-228 | allowed exactly when the stored assignment is absent (read as 0) or at most 12 |
| RemoteLogging.IsRemoteLoggingAllowed | plugins/woocommerce/includes/class-wc-remote-logger.php:191-209 | allowed exactly when the feature flag is on, tracking is opted in, the variant assignment is allowed and the installed version is at least the latest known one |
| RemoteLogging.AllowedWhenAllConditionsHold | plugins/woocommerce/tests/php/includes/class-wc-remote-logger.php:47-78 | with every condition met, logging is allowed |
| RemoteLogging.EachConditionIsNeeded | plugins/woocommerce/tests/php/includes/class-wc-remote-logger.php:83-178 | a disabled flag, opting out, a missing latest version or a variant assignment of 15 each forbid logging |
| RemoteLogging.SanitizeTrace | plugins/woocommerce/includes/class-wc-remote-logger.php:339-352 | a backtrace is accepted exactly when it is a string or an array; any other value makes `array_map` raise its type error |
| RemoteLogging.TraceFramesScrubbed | plugins/woocommerce/includes/class-wc-remote-logger.php:339-350 | a backtrace given as a list of frames keeps its length, and each frame's `file` entry is scrubbed |
| RemoteLogging.FormattedLogFields | plugins/woocommerce/includes/class-wc-remote-logger.php:131-179 | formatting succeeds exactly when the caller's extra is absent, null or an array (a list or a keyed array) and a present non-empty backtrace is a string or an array; the payload carries the core feature name, the level, the scrubbed message, the host and the merged extra |
| RemoteLogging.ExtraHasDefaults | plugins/woocommerce/includes/class-wc-remote-logger.php:166-176 | the merged extra always holds `wc_version` and `store_id` |
| RemoteLogging.ExtraPrecedence | plugins/woocommerce/includes/class-wc-remote-logger.php:166-176 | a key is in the merged extra exactly when it is a default, in the caller's extra, or a leftover context key; leftover context beats the caller's extra, which beats the defaults |
| RemoteLogging.MovedKeysLeaveExtra | plugins/woocommerce/includes/class-wc-remote-logger.php:142-176 | `extra`, and a non-empty `backtrace` or `tags`, reach the merged extra only through the caller's own extra |
| RemoteLogging.EmptyKeysStay | plugins/woocommerce/includes/class-wc-remote-logger.php:142-155 | an empty `backtrace` or `tags` is not lifted into the payload and stays in extra unchanged |
| RemoteLogging.TraceIsScrubbed | plugins/woocommerce/tests/php/includes/class-wc-remote-logger.php:207-222 | a non-empty string backtrace becomes the payload's trace, scrubbed |
| RemoteLogging.ListExtraRenumbered | plugins/woocommerce/includes/class-wc-remote-logger.php:166-172 | a caller's extra that is a list is accepted, and its j-th element appears in the merged extra under the key `j` whenever no leftover context key of that name overrides it |
| RemoteLogging.EmptyListExtra | plugins/woocommerce/includes/class-wc-remote-logger.php:166-172 | an empty list as extra contributes nothing: the merged extra is the one with no extra given |
| RemoteLogging.GivenExtraShowsUp | plugins/woocommerce/tests/php/includes/class-wc-remote-logger.php:228-243 | the caller's extra keys appear in the merged extra with their values |
| RemoteLogging.RemoteLogger.GetFormattedLog | plugins/woocommerce/includes/class-wc-remote-logger.php:131-179 | the step-by-step construction returns exactly the payload (or the type error) that `FormattedLog` describes |
| RemoteLogging.RemoteLogger.Log | plugins/woocommerce/includes/class-wc-remote-logger.php:66-119 | a disallowed call does nothing; a throttled call writes the info message and prunes the transient; otherwise an invalid level adds a notice, a null filtered message stops, a formatting error propagates without recording, and a formatted payload is posted and its time recorded |

## Behaviour of the code worth noting

- Re-subscription. `register_hook_core` tests only whether the key is present
  in `active_hookings` (Hooks.php:82-84). `remove_hook_core` unsets a key whose
  list has emptied (Hooks.php:139-141). So registering again under that key
  subscribes a second closure to the bus, and `RegisterHookCore` states exactly
  that.
- Prefix matching. `remove_all_hooks` removes every key that starts with
  `{hook}__` (Hooks.php:159). So `remove_all_hooks('x')` also removes a hook
  named `x__y`. `RemoveAllHooks` states this rule.
- Empty entries. `get_formatted_log` lifts `backtrace` and `tags` out of the
  context only when they are non-empty (class-wc-remote-logger.php:139-147).
  An empty one ends up in `extra` (`EmptyKeysStay`). The caller's own `extra`
  array can also carry keys named `backtrace`, `tags` or `extra`
  (class-wc-remote-logger.php:166-172). These are the only two ways such keys
  reach `extra` (`MovedKeysLeaveExtra`).

## Left out

- `register_action`, `remove_action` and `remove_action_by_id` are one-line
  forwards to the filter versions, so they are not modelled separately.
- The WordPress event bus, `add_filter`, is modelled only as a ghost multiset of
  subscriptions. The bus calling back into `handle_hook` appears as a direct
  call.
- `random_bytes` is not modelled. The fresh hooking id is a parameter, and the
  caller must supply an id that is not live.
- Init's lookups of the container and the legacy proxy, and
  `mark_static_method_as_accessible`, are not modelled. Container membership and
  the instances it yields are the `Env` parameter.
- PHP's `is_callable`, `is_object` and `is_string` tests are reduced to the
  `Target` datatype. A string target is a class name and never a callable, so
  the model leaves out a callable function-name string. In the source, such a
  string is counted under its own name when it is registered (Hooks.php:84-86).
  At dispatch it is then replaced by the product's class name (Hooks.php:190-196)
  or nulled when the method is static (Hooks.php:185-189). Its own count is then
  never released, so the reference-count clause of `Consistent` fails in the
  source for that kind of target.
- HandleHook: for a missing key, `handle_hook` takes `&self::$active_hookings[$key]`
  by reference (Hooks.php:173). PHP then creates a null slot under that key.
  The model leaves the tables unchanged. Every later `isset` test and `foreach`
  treats the null slot as absent, so only PHP warnings could tell the two apart.
- RegisterFilter: `register_filter` and `register_hook_core` default the
  priority to 10 and the argument count to 1 (Hooks.php:72, 80). `RegisterFilter`
  and `RegisterHookCore` take both explicitly; `Init` fills them in from those
  defaults.
- The class of a factory's product (`get_class`) and a handler's return value
  are functions in `Env`. Calls from a handler back into the registry are not
  modelled, for example a handler that removes a hooking during dispatch. A
  handler is a pure function of its arguments.
- PHP array holes after `unset` are not modelled: a list closes up and is
  re-indexed. Positions never leave the registry, so this is not observable.
- Remote logger, `json_encode` and `wp_safe_remote_post`: a sent payload is
  recorded in the ghost `posted` sequence. The request body is not built.
- Remote logger, transients: the throttle transient is a field. Its expiry
  after 300 seconds and its storage backend are not modelled.
- Remote logger, the clock: `time()` is a parameter. `log` reads it twice, once
  in the throttle check and once when recording.
- `fetch_latest_woocommerce_version`, the `plugins_api` call and its
  version cache are not modelled. The latest version is an optional input to
  the gate.
- `version_compare` is the `atLeast` parameter.
- `WC_Log_Levels::is_valid_level` is the `validLevel` parameter.
- The `woocommerce_remote_logger_log_message` filter's result is the `filtered`
  parameter.
- Translation and `sprintf` of the invalid-level notice are reduced to a fixed
  text plus the level.
- FormattedLogFields: contexts and keyed arrays are maps from strings. `array_merge`
  renumbers every integer key, and PHP turns a key written as a decimal numeral
  into an integer key. So in the source a keyed `extra` or context entry under a
  numeral key such as `"5"` is renumbered. The model keeps it under its own
  name. A list `extra` is renumbered as in the source. Numeric blog-id strings
  are not modelled: only a numeric `blog_id` that is positive is kept.
- SanitizeTrace: an array backtrace is returned as the array of scrubbed
  frames, not as its `json_encode` string (class-wc-remote-logger.php:351).
  Each frame is scrubbed as `preg_replace` does with an array subject. A keyed
  frame has each entry's string form scrubbed, and a nested array becomes
  `Array`.
- PHP versions that do not throw for `array_map` or `array_merge` on a
  non-array are not modelled. The thrown type error is the `Err` result, and
  `log` turns it into the `Raised` outcome.
- The constructor assigns the default logger to a local variable, so
  `local_logger` stays null when no logger is passed. The catch block also uses
  the undefined `$local_logger` and `$body`. The model sends the throttle
  message to the ghost `infos` log. Raised errors escape the `catch
  (Exception)` block (a type error is not an `Exception`), so the block is
  never entered.
- SanitizePluginPath, SanitizeContentPath and SanitizeMessage: these are
  stated for any absolute path prefix without a newline, which is more general
  than the literal paths of the tests.
- Sanitize: case-insensitive matching covers ASCII letters only.
- Site data is the `Site` input: the host of `home_url()`, `WC()->version`,
  and the `WC_Tracks` blog details (absent when that class does not exist).
