/**
 * DBusManager's mutable side: the systemd_events queue fed by the UnitNew and
 * UnitRemoved signal handlers, the tentative_units hash, and one wake-up of
 * the new_unit_adder loop that turns settled entries into add/remove
 * decisions on the unit queue.
 */
module Manager {
  import opened Wrappers
  import opened Bus
  import opened Policy
  import opened Tentative

  class DBusManager {
    /** systemd_events: raw signals not yet dequeued, oldest first. */
    var events: seq<RawEvent>
    /** tentative_units, in insertion order. */
    var tentative: Table
    /** unit_q as this producer has filled it, oldest first. */
    var unitQueue: seq<Decision>

    ghost predicate Valid()
      reads this
    {
      WellFormed(tentative)
    }

    constructor ()
      ensures Valid()
      ensures events == [] && tentative == EmptyTable && unitQueue == []
    {
      events := [];
      tentative := EmptyTable;
      unitQueue := [];
    }

    /** The UnitNew handler of watch_for_new_units: enqueue [name, 'new', now, path]. */
    method OnUnitNew(name: string, path: ObjectPath, now: int)
      requires Valid()
      modifies this
      ensures Valid()
      ensures events == old(events) + [RawEvent(name, New, now, path)]
      ensures tentative == old(tentative) && unitQueue == old(unitQueue)
    {
      events := events + [RawEvent(name, New, now, path)];
    }

    /** The UnitRemoved handler of watch_for_new_units: enqueue [name, 'removed', now, path]. */
    method OnUnitRemoved(name: string, path: ObjectPath, now: int)
      requires Valid()
      modifies this
      ensures Valid()
      ensures events == old(events) + [RawEvent(name, Removed, now, path)]
      ensures tentative == old(tentative) && unitQueue == old(unitQueue)
    {
      events := events + [RawEvent(name, Removed, now, path)];
    }

    /**
     * One wake-up of new_unit_adder at time `now`: drain the event queue into
     * the table, push a decision for each settled entry in key order, then
     * delete the settled entries. A D-Bus failure inside monitored_service?
     * is not rescued: it ends the pass where it happens, with the queue
     * drained, the decisions pushed so far kept and nothing deleted.
     */
    method Tick(now: int, bus: Bus) returns (failure: Option<Error>)
      requires Valid()
      modifies this
      ensures Valid()
      ensures events == []
      ensures var drained := Drain(old(tentative), old(events));
              var scan := Scan(drained, drained.keys, now, bus);
              failure == scan.failure &&
              unitQueue == old(unitQueue) + scan.decisions &&
              tentative == (if failure.None? then DeleteAll(drained, scan.pruned) else drained)
    {
      DrainEvents();
      var pruned;
      pruned, failure := SettleScan(now, bus);
      if failure.None? {
        PruneSettled(pruned);
      }
    }

    /** `while not systemd_events.empty?`: dequeue every event into tentative_units. */
    method DrainEvents()
      requires Valid()
      modifies this`events, this`tentative
      ensures Valid()
      ensures events == [] && tentative == Drain(old(tentative), old(events))
    {
      while events != []
        invariant WellFormed(tentative)
        invariant Drain(tentative, events) == Drain(old(tentative), old(events))
        decreases |events|
      {
        var ev := events[0];
        events := events[1..];
        if ev.name in tentative.entries {
          var cache := tentative.entries[ev.name];
          tentative := Table(tentative.keys,
            tentative.entries[ev.name := cache.(lastSeen := ev.ts, lastChange := ev.change)]);
        } else {
          tentative := Table(tentative.keys + [ev.name],
            tentative.entries[ev.name := Entry(ev.ts, ev.change, ev.path)]);
        }
      }
    }

    /**
     * `tentative_units.each_pair`: push a decision for every settled entry and
     * collect its name for pruning; the first D-Bus failure ends the walk.
     */
    method SettleScan(now: int, bus: Bus) returns (pruned: seq<string>, failure: Option<Error>)
      requires Valid()
      modifies this`unitQueue
      ensures var scan := Scan(tentative, tentative.keys, now, bus);
              failure == scan.failure &&
              unitQueue == old(unitQueue) + scan.decisions &&
              (failure.None? ==> pruned == scan.pruned)
    {
      var table := tentative;
      var keys := table.keys;
      pruned := [];
      ghost var pushed: seq<Decision> := [];
      var i := 0;
      while i < |keys|
        invariant 0 <= i <= |keys|
        invariant Scan(table, keys[..i], now, bus) == ScanResult(pushed, pruned, None)
        invariant unitQueue == old(unitQueue) + pushed
        invariant tentative == table
      {
        var name := keys[i];
        var cache := table.entries[name];
        if now - cache.lastSeen > SettleSeconds {
          ScanDecidesNext(table, keys, i, now, bus);
          var verdict := PushDecision(name, cache, bus);
          if verdict.Err? {
            failure := Some(verdict.error);
            ScanFailureSticks(table, keys, i + 1, now, bus);
            assert keys[..|keys|] == keys;
            return;
          }
          pushed := pushed + OptionSeq(verdict.value);
          pruned := pruned + [name];
        } else {
          ScanSkips(table, keys, i, now, bus);
        }
        i := i + 1;
      }
      assert keys[..|keys|] == keys;
      failure := None;
    }

    /**
     * The body of the scan for one settled entry: a 'new' entry is pushed as
     * ['add', name] when monitored_service? holds, anything else as
     * ['remove', name]. Returns what was pushed, or the D-Bus failure.
     */
    method PushDecision(name: string, cache: Entry, bus: Bus) returns (verdict: Result<Option<Decision>, Error>)
      modifies this`unitQueue
      ensures verdict == Decide(bus, name, cache)
      ensures unitQueue == old(unitQueue) + (if verdict.Ok? then OptionSeq(verdict.value) else [])
    {
      match cache.lastChange {
        case New =>
          var monitored := MonitoredService(bus, name);
          if monitored.Err? {
            return Err(monitored.error);
          }
          if monitored.value {
            unitQueue := unitQueue + [Add(name)];
            verdict := Ok(Some(Add(name)));
          } else {
            verdict := Ok(None);
          }
        case Removed =>
          unitQueue := unitQueue + [Remove(name)];
          verdict := Ok(Some(Remove(name)));
      }
    }

    /** `pruned_units.each { |u| tentative_units.delete(u) }` */
    method PruneSettled(pruned: seq<string>)
      requires Valid()
      modifies this`tentative
      ensures Valid()
      ensures tentative == DeleteAll(old(tentative), pruned)
    {
      var j := 0;
      while j < |pruned|
        invariant 0 <= j <= |pruned|
        invariant DeleteAll(tentative, pruned[j..]) == DeleteAll(old(tentative), pruned)
      {
        assert pruned[j..] == [pruned[j]] + pruned[j + 1..];
        tentative := Delete(tentative, pruned[j]);
        j := j + 1;
      }
      DeleteAllLeavesOthers(old(tentative), pruned);
    }
  }
}
