# systemd_mon core, modelled in Dafny

systemd_mon is a daemon that watches systemd units over D-Bus and notifies
people when a monitored unit changes state. This project models the part of it
that decides *which* units are monitored and keeps that list up to date:

- **The opt-in policy** of `DBusManager`:
  - `service?` and `monitored_service?`: a `.service` unit is monitored when
    some `Environment` pair, lower-cased and split on `=`, reads
    `monitor_dbus=yes|1|true`.
  - `discover_units` and `fetch_unit`.
- **The debouncer** of `DBusManager`:
  - The `UnitNew`/`UnitRemoved` handlers of `watch_for_new_units` fill the
    `systemd_events` queue.
  - One wake-up of `new_unit_adder` drains that queue into the insertion-ordered
    `tentative_units` hash.
  - It then pushes `add`/`remove` decisions onto the unit queue for every entry
    settled for more than 5 seconds, and prunes those entries.
- **The registry** of `Monitor`:
  - `register_unit` and `register_units`.
  - The add/remove step of the monitor adder thread.
  - `startup_check!`, the discovery pass of `start`, and the `add_notifier`,
    `on_change` and `on_each_state_change` setters.

Files:

| file | contents |
|---|---|
| `wrappers.dfy` | `Option` and `Result` |
| `bus.dfy` | What the daemon asks of systemd, as a snapshot value. The unit list, `GetUnit` and the `Environment` read are each allowed to fail. Also holds the error kinds and `fetch_unit`. |
| `sequences.dfy` | Distinctness and the subsequence order, with their lemmas |
| `policy.dfy` | `service?`, Ruby's `String#downcase` (ASCII) and `String#split`, `monitored_service?` and `discover_units` |
| `tentative.dfy` | The `tentative_units` table as a value, and the drain, settle scan and prune as functions, with the lemmas about one whole pass |
| `dbus_manager.dfy` | `class DBusManager`: the event queue, the table and the unit queue as fields, and the methods that update them in place. Each method is proved against the functions of `tentative.dfy`. |
| `monitor.dfy` | `class Monitor`: the unit list, notifiers, callbacks and the started flag as fields, plus the value-level functions and lemmas they are proved against |

Two behaviours of the code are easy to miss:

- **D-Bus failures in `monitored_service?` are not rescued.** They propagate
  (`Err(DBusError(name))`), so one wake-up of the adder ends where the failure
  happens. The queue is already drained, the decisions pushed before the failure
  stay queued, and nothing is pruned. The model does not "fail closed".
- **`register_unit` appends unconditionally.** Adding a unit twice registers it
  twice (`Registry.AddTwiceRegistersTwice`). It is not idempotent.

## Model

| member | source | states |
|---|---|---|
| Bus.FetchUnit | lib/systemd_mon/dbus_manager.rb:109-114 | Succeeds exactly when `GetUnit` resolves the name, giving a unit with that name and path. Otherwise it fails with `UnknownUnitError` for that name. |
| Policy.ServiceOfSuffixed | lib/systemd_mon/dbus_manager.rb:23-25 | Every name that ends in `.service` is a service. |
| Policy.ServiceIsSuffixed | lib/systemd_mon/dbus_manager.rb:23-25 | Every service name is its stem followed by `.service`. |
| Policy.Lower | lib/systemd_mon/dbus_manager.rb:45 | Lower-casing keeps the length. It maps each character on its own: ASCII capitals become small letters and everything else is kept. |
| Policy.PairOptsInRawFields | lib/systemd_mon/dbus_manager.rb:45-47 | Ruby's dropping of trailing empty fields never changes the verdict. A pair opts in exactly when its raw first field is `monitor_dbus` and its second is yes, 1 or true. |
| Policy.RawFieldsGiveFlag | lib/systemd_mon/dbus_manager.rb:45-47 | If the split fields say `monitor_dbus` and a truthy value, the lowered text is `monitor_dbus=` followed by that value, and then either the end or a further `=`. |
| Policy.FlagGivesRawFields | lib/systemd_mon/dbus_manager.rb:45-47 | The converse: such a text splits into the key and exactly that value. |
| Policy.PairOptsInIffFlagSet | lib/systemd_mon/dbus_manager.rb:44-49 | For every pair, the split-based test holds if and only if the lowered text carries `monitor_dbus=yes`, `=1` or `=true`, ended by the end of the text or by `=`. |
| Policy.FlagInAnyCaseOptsIn | lib/systemd_mon/dbus_manager.rb:45-47 | A pair whose lowering is `monitor_dbus=` plus a truthy value opts in, whatever its letter case (`MONITOR_DBUS=TRUE`, `Monitor_Dbus=Yes`). |
| Policy.OtherValueDoesNotOptIn | lib/systemd_mon/dbus_manager.rb:46-47 | `monitor_dbus=` followed by any other `=`-free value, such as `no` or `false`, does not opt in, in any case. |
| Policy.BareKeyDoesNotOptIn | lib/systemd_mon/dbus_manager.rb:45-47 | A pair without any `=` never opts in: its second field is nil. |
| Policy.MonitoredServiceVerdict | lib/systemd_mon/dbus_manager.rb:34-54 | A non-service is `false` without asking the bus. A service is monitored if and only if its unit resolves, its Environment reads and some pair opts in. The check fails, with `DBusError` for that name, if and only if one of the two lookups fails. |
| Policy.NonServiceIgnoresBus | lib/systemd_mon/dbus_manager.rb:35-53 | For a non-service, the verdict is `false` on every bus. |
| Policy.DiscoverUnits | lib/systemd_mon/dbus_manager.rb:27-32 | Succeeds if and only if every listed name's check succeeds. Then it yields exactly the monitored names (membership in both directions), in list order. Otherwise it fails with the error of the first failing name, all earlier checks having succeeded. |
| Policy.DiscoverUnitsCounts | lib/systemd_mon/dbus_manager.rb:28-31 | `select` keeps every occurrence: each monitored name appears in the result exactly as often as it is listed, and any other name never. |
| Tentative.Record | lib/systemd_mon/dbus_manager.rb:78-87 | One dequeued event keeps the table well formed. Existing keys keep their places, and the table's names grow by exactly the event's name. |
| Tentative.Drain | lib/systemd_mon/dbus_manager.rb:75-88 | Draining keeps the table well formed, keeps every old name and key position, and holds an entry for every event's name. |
| Tentative.DrainEntry | lib/systemd_mon/dbus_manager.rb:75-88 | Coalescing: after the drain, a name has an entry exactly when it had one or some event names it. The last event gives `last_seen` and `last_change`. The path is the existing entry's path, or that of the first event for a fresh name. |
| Tentative.DecideVerdict | lib/systemd_mon/dbus_manager.rb:92-99 | A settled `new` entry becomes an add exactly when the policy says yes, and fails exactly when the policy fails. A settled `removed` entry always becomes a remove. A decision concerns the entry's own name. |
| Tentative.ScanStaysInKeys | lib/systemd_mon/dbus_manager.rb:90-103 | Every decision and every pruned name comes from the walked keys. |
| Tentative.ScanFailureSticks | lib/systemd_mon/dbus_manager.rb:90-103 | Once the scan has failed on a prefix of the keys, the remaining keys change nothing. |
| Tentative.ScanDecides | lib/systemd_mon/dbus_manager.rb:90-103 | A completed scan adds a name if and only if it is settled, last changed `new` and monitored. It removes a name if and only if it is settled and last changed `removed`. It prunes exactly the settled names. |
| Tentative.ScanOneDecisionPerName | lib/systemd_mon/dbus_manager.rb:90-103 | Over distinct keys, no name is decided twice. |
| Tentative.ScanInKeyOrder | lib/systemd_mon/dbus_manager.rb:90-103 | Decisions come out in the hash's key order. |
| Tentative.RemoveKey | lib/systemd_mon/dbus_manager.rb:105 | Removing a key keeps exactly the other keys, keeps them distinct, and keeps their order. |
| Tentative.DeleteAllLeavesOthers | lib/systemd_mon/dbus_manager.rb:105 | Pruning leaves a well-formed table holding exactly the entries not pruned, with their values unchanged and their keys in order. |
| Tentative.PassKeepsUnsettled | lib/systemd_mon/dbus_manager.rb:73-105 | A completed pass keeps exactly the unsettled entries, unchanged. |
| Tentative.PassLastChangeWins | lib/systemd_mon/dbus_manager.rb:75-105 | For a name the queue mentions, the add, the remove and the entry's survival are decided by the last event about it alone, and by the policy for an add. |
| Tentative.PassDecidesOncePerName | lib/systemd_mon/dbus_manager.rb:73-103 | One pass pushes at most one decision per name, in the order names entered the hash. |
| Tentative.ScanAddsOnlyNew | lib/systemd_mon/dbus_manager.rb:90-103 | Whether or not the scan completes, an add is pushed only for a walked name whose entry last changed to `new`. |
| Tentative.FlapNeverAdds | lib/systemd_mon/dbus_manager.rb:75-101 | For any queue whose last event about a name is a removal, the pass pushes no add for that name, even when it is cut short by a failure on another name. |
| Tentative.NewThenRemovedNeverAdds | lib/systemd_mon/dbus_manager.rb:75-101 | A unit that appears and then disappears before the pass is never added. |
| Tentative.SettledServiceIsAdded | lib/systemd_mon/dbus_manager.rb:90-105 | A monitored service that appeared at time 0 is added by the pass at time 6, and the table is empty afterwards. |
| Manager.DBusManager.constructor | lib/systemd_mon/dbus_manager.rb:10-11 | Starts with an empty event queue, an empty table and nothing pushed. |
| Manager.DBusManager.OnUnitNew | lib/systemd_mon/dbus_manager.rb:57-59 | Enqueues `[name, new, now, path]` at the back and changes nothing else. |
| Manager.DBusManager.OnUnitRemoved | lib/systemd_mon/dbus_manager.rb:60-62 | Enqueues `[name, removed, now, path]` at the back and changes nothing else. |
| Manager.DBusManager.Tick | lib/systemd_mon/dbus_manager.rb:73-105 | One wake-up empties the event queue and keeps the table well formed. The unit queue grows by exactly the scan's decisions. The failure is the scan's failure. The table becomes the drained table minus the settled names, or stays the drained table when the scan failed. |
| Manager.DBusManager.DrainEvents | lib/systemd_mon/dbus_manager.rb:75-88 | The dequeue loop empties the queue and leaves the table equal to `Drain` of the old table and queue. |
| Manager.DBusManager.SettleScan | lib/systemd_mon/dbus_manager.rb:90-103 | The `each_pair` loop pushes exactly the scan's decisions and reports its failure. When the scan completes, it returns exactly the names to prune. |
| Manager.DBusManager.PushDecision | lib/systemd_mon/dbus_manager.rb:92-99 | One settled entry: the verdict is `Decide`'s, and what is pushed is that verdict's decision, or nothing on failure. |
| Manager.DBusManager.PruneSettled | lib/systemd_mon/dbus_manager.rb:105 | The delete loop leaves `DeleteAll` of the old table, well formed. |
| Registry.Flatten | lib/systemd_mon/monitor.rb:30 | A flat argument list flattens to its names, one for one and in order. |
| Registry.FlattenAppend | lib/systemd_mon/monitor.rb:30 | Flattening distributes over concatenation, so the arguments' order is kept. |
| Registry.FlattenMembers | lib/systemd_mon/monitor.rb:30 | A name is in the flattened list if and only if some argument mentions it, at any depth of nesting. |
| Registry.FetchAllAllOrNothing | lib/systemd_mon/monitor.rb:30-32 | Fetching a list succeeds exactly when every name resolves, giving their units in order. Otherwise it reports the first name that does not resolve. |
| Registry.FindUnit | lib/systemd_mon/monitor.rb:109 | Finds the index of the first unit with the name, or none exactly when no unit has it. |
| Registry.RemoveAbsentIsNoOp | lib/systemd_mon/monitor.rb:108-112 | Removing a name no unit has changes nothing. |
| Registry.RemovePresentTakesOne | lib/systemd_mon/monitor.rb:109-111 | Removing a present name deletes exactly the first unit with it. The length drops by one, and the multiset loses exactly that unit. Units with other names keep their counts. |
| Registry.AddTwiceRegistersTwice | lib/systemd_mon/monitor.rb:24-27 | Two adds of a resolvable unit append it twice, and its count rises by two. |
| Registry.FailedAddChangesNothing | lib/systemd_mon/monitor.rb:24-27 | An add of an unknown unit raises `UnknownUnitError` and leaves the units as they were. |
| Registry.DiscoveryPass | lib/systemd_mon/monitor.rb:56-60 | The pass registers at most one unit per listed name. |
| Registry.DiscoveryPassRegistersDiscovered | lib/systemd_mon/monitor.rb:56-60 | A completed pass registers exactly what `discover_units` yields, in its order. Each registered unit is what `fetch_unit` returns for its name. |
| Registry.DiscoveryPassFailure | lib/systemd_mon/monitor.rb:56-60 | A pass that raises stopped at the first name whose check failed, with that error, every earlier check having succeeded. The units it already registered are exactly what `discover_units` yields for the names before that one. |
| Registry.Monitor.constructor | lib/systemd_mon/monitor.rb:10-17 | No units and no notifiers. The change callback is the built-in one, and there is no every-state callback. Not started. |
| Registry.Monitor.AddNotifier | lib/systemd_mon/monitor.rb:19-22 | Appends the notifier and returns the monitor itself. |
| Registry.Monitor.OnChange | lib/systemd_mon/monitor.rb:36-39 | Replaces the change callback, nil included, and returns the monitor itself. |
| Registry.Monitor.OnEachStateChange | lib/systemd_mon/monitor.rb:41-44 | Replaces the every-state-change callback and returns the monitor itself. |
| Registry.Monitor.RegisterUnit | lib/systemd_mon/monitor.rb:24-27 | A resolvable name appends its unit, already registered or not, and returns the monitor. An unknown name raises `UnknownUnitError` and leaves the units unchanged. |
| Registry.Monitor.RegisterUnits | lib/systemd_mon/monitor.rb:29-34 | All or nothing: if every flattened name resolves, all their units are appended in order. Otherwise the first unknown name's error is raised and no unit is appended. |
| Registry.Monitor.Step | lib/systemd_mon/monitor.rb:102-113 | One dequeued decision does to the units, and raises, exactly what `Apply` says: an add registers, and a remove deletes the first unit with the name, if any. |
| Registry.Monitor.StartupCheck | lib/systemd_mon/monitor.rb:73-78 | Succeeds, returning the monitor, if and only if a notifier is registered. Otherwise it raises `MonitorError`. |
| Registry.Monitor.Start | lib/systemd_mon/monitor.rb:46-60 | Without notifiers it raises `MonitorError` and changes nothing. Otherwise it marks the monitor started. If `ListUnits` fails, it raises without registering anything. If not, it appends the discovery pass's units in order and raises what the pass raised. |

## Left out

- D-Bus plumbing is not part of this model: connecting to the system bus, the
  `Subscribe` probe of `DBusManager#initialize`, introspection, `runner` and the
  `DBusUnit` proxy objects. The bus is a snapshot value (`Bus.Bus`), so its
  answers do not change during one operation.
- The threads, `sleep 5`, the endless `loop`s and the blocking `Queue#deq` are
  left out. One wake-up of `new_unit_adder` is `Manager.DBusManager.Tick`. One
  iteration of the monitor adder thread is `Registry.Monitor.Step`, which is
  given the dequeued decision. The interleaving of the two threads through
  `unit_q` is not modelled.
- Once the error is returned, the model stops. It does not model what follows:
  with `Thread.abort_on_exception` set, an exception escaping a worker thread
  aborts the process.
- The wall clock is not modelled. Timestamps are integer seconds passed in by
  the caller, and Ruby's fractional `Time` differences are not represented.
- Manager.DBusManager.Tick: one `now` is used for the whole scan, whereas the
  source reads `Time.now` again for each entry.
- Registry.Monitor.Start: `fetch_unit` after a positive `monitored_service?`
  cannot fail on a snapshot bus. So the pass never raises `UnknownUnitError`
  there, which a unit unloaded between the two calls could cause in the source.
- Registry.DiscoveryPass: for the same reason, it records no `UnknownUnitError`.
- Policy.Lower: `String#downcase` is modelled for ASCII letters only. Full
  Unicode case mapping is left out.
- Logging, the hostname, `at_exit` and the notification centre's
  `notify_start!`/`notify_stop!` messages are left out. Of `notify_start!`,
  only the `started` flag remains.
- `register_listener!` on each discovered unit, `CallbackManager`, the state
  queue and `unit_change_callback` are not part of this model. A callback is an
  opaque value (`Registry.Callback`).
- Registry.Monitor.Step: `units.delete(runit)` removes every element equal to
  `runit`. Each `fetch_unit` makes a fresh `DBusUnit` compared by identity, so
  this is modelled as removing the one unit that `find` returned.
