/**
 * The specification side of DBusManager's debouncer: raw UnitNew/UnitRemoved
 * events, the `tentative_units` hash (an insertion-ordered map, as Ruby's Hash
 * is), and what one pass of `new_unit_adder` does to them: drain, settle scan
 * and prune.
 */
module Tentative {
  import opened Wrappers
  import opened Bus
  import opened Policy
  import opened Sequences

  /** The settle delay: an entry is settled once more than this many seconds passed since it was last seen. */
  const SettleSeconds: int := 5

  /** The change recorded by a signal: 'new' for UnitNew, 'removed' for UnitRemoved. */
  datatype Change = New | Removed

  /** One element of the systemd_events queue: [name, change, timestamp, object path]. */
  datatype RawEvent = RawEvent(name: string, change: Change, ts: int, path: ObjectPath)

  /** The value stored for a name in tentative_units: last_seen, last_change and path. */
  datatype Entry = Entry(lastSeen: int, lastChange: Change, path: ObjectPath)

  /** An element pushed onto unit_q: ['add', name] or ['remove', name]. */
  datatype Decision = Add(name: string) | Remove(name: string)

  /** A Ruby Hash from unit name to entry: the entries and their keys in insertion order. */
  datatype Table = Table(keys: seq<string>, entries: map<string, Entry>)

  const EmptyTable: Table := Table([], map[])

  /** Every key is listed exactly once, and only keys are listed. */
  ghost predicate WellFormed(t: Table) {
    Distinct(t.keys) && forall n :: n in t.entries <==> n in t.keys
  }

  // ---------------------------------------------------------------------
  // Drain

  /** One dequeued event: a known name gets last_seen and last_change overwritten, a new name is inserted. */
  function Record(t: Table, e: RawEvent): (r: Table)
    ensures WellFormed(t) ==> WellFormed(r) && t.keys <= r.keys
    ensures r.entries.Keys == t.entries.Keys + {e.name}
  {
    if e.name in t.entries then
      Table(t.keys, t.entries[e.name := t.entries[e.name].(lastSeen := e.ts, lastChange := e.change)])
    else
      Table(t.keys + [e.name], t.entries[e.name := Entry(e.ts, e.change, e.path)])
  }

  /**
   * The whole queue, dequeued front first. It keeps the table well formed; the
   * keys already there keep their places and new names go after them.
   */
  function Drain(t: Table, evs: seq<RawEvent>): (r: Table)
    ensures WellFormed(t) ==> WellFormed(r) && t.keys <= r.keys
    ensures t.entries.Keys <= r.entries.Keys
    ensures forall i :: 0 <= i < |evs| ==> evs[i].name in r.entries
    decreases |evs|
  {
    if evs == [] then t else Drain(Record(t, evs[0]), evs[1..])
  }

  /** The last event in `evs` about `name`, if any. */
  function LastEvent(evs: seq<RawEvent>, name: string): (r: Option<RawEvent>)
    ensures r.None? <==> forall i :: 0 <= i < |evs| ==> evs[i].name != name
    ensures r.Some? ==> exists i :: 0 <= i < |evs| && evs[i] == r.value && r.value.name == name &&
                                  forall j :: i < j < |evs| ==> evs[j].name != name
  {
    if evs == [] then None
    else
      match LastEvent(evs[1..], name)
      case Some(e) => Some(e)
      case None => if evs[0].name == name then Some(evs[0]) else None
  }

  /** The first event in `evs` about `name`, if any. */
  function FirstEvent(evs: seq<RawEvent>, name: string): (r: Option<RawEvent>)
    ensures r.None? <==> forall i :: 0 <= i < |evs| ==> evs[i].name != name
    ensures r.Some? ==> exists i :: 0 <= i < |evs| && evs[i] == r.value && r.value.name == name &&
                                  forall j :: 0 <= j < i ==> evs[j].name != name
  {
    if evs == [] then None
    else if evs[0].name == name then Some(evs[0])
    else FirstEvent(evs[1..], name)
  }

  /**
   * What the drain leaves for a name: nothing new when no event names it;
   * otherwise the last event's timestamp and change, with the path of the
   * entry already there or, for a fresh name, of the first event about it.
   */
  function Drained(t: Table, evs: seq<RawEvent>, name: string): Option<Entry> {
    match LastEvent(evs, name)
    case None => if name in t.entries then Some(t.entries[name]) else None
    case Some(last) =>
      var path := if name in t.entries then t.entries[name].path else FirstEvent(evs, name).value.path;
      Some(Entry(last.ts, last.change, path))
  }

  /** The drain coalesces: one entry per name, last seen and last change from the latest event, path from the first. */
  lemma {:induction false} DrainEntry(t: Table, evs: seq<RawEvent>, name: string)
    ensures name in Drain(t, evs).entries <==> Drained(t, evs, name).Some?
    ensures name in Drain(t, evs).entries ==> Drain(t, evs).entries[name] == Drained(t, evs, name).value
    decreases |evs|
  {
    if evs != [] {
      var t' := Record(t, evs[0]);
      DrainEntry(t', evs[1..], name);
      assert evs[1..] == evs[1..];
      if FirstEvent(evs, name).Some? && evs[0].name != name {
        assert FirstEvent(evs, name) == FirstEvent(evs[1..], name);
      }
    }
  }

  // ---------------------------------------------------------------------
  // Settle scan

  /** `Time.now - cache[:last_seen] > 5`: strictly more than the settle delay. */
  predicate Settled(e: Entry, now: int) {
    now - e.lastSeen > SettleSeconds
  }

  /** The decision for one settled entry: 'new' asks the policy, anything else removes. */
  function Decide(bus: Bus, name: string, e: Entry): Result<Option<Decision>, Error> {
    match e.lastChange
    case New =>
      (match MonitoredService(bus, name)
       case Err(err) => Err(err)
       case Ok(monitored) => Ok(if monitored then Some(Add(name)) else None))
    case Removed => Ok(Some(Remove(name)))
  }

  /**
   * A settled 'new' is added exactly when the policy says yes and fails exactly
   * when the policy fails; a settled 'removed' is always removed; a decision is
   * about the entry's own name.
   */
  lemma DecideVerdict(bus: Bus, name: string, e: Entry)
    ensures Decide(bus, name, e).Err? <==> e.lastChange == New && MonitoredService(bus, name).Err?
    ensures Decide(bus, name, e) == Ok(Some(Add(name))) <==>
              e.lastChange == New && MonitoredService(bus, name) == Ok(true)
    ensures Decide(bus, name, e) == Ok(Some(Remove(name))) <==> e.lastChange == Removed
    ensures Decide(bus, name, e).Ok? && Decide(bus, name, e).value.Some? ==>
              Decide(bus, name, e).value.value.name == name
  {
  }

  /** What the scan produced: the decisions pushed, the names to prune, and the D-Bus failure that cut it short. */
  datatype ScanResult = ScanResult(decisions: seq<Decision>, pruned: seq<string>, failure: Option<Error>)

  function OptionSeq<T>(o: Option<T>): seq<T> {
    match o
    case None => []
    case Some(x) => [x]
  }

  /** The scan over the keys `ks`, in order; the first failure stops it with what it had pushed so far. */
  function Scan(t: Table, ks: seq<string>, now: int, bus: Bus): ScanResult
    requires forall k :: k in ks ==> k in t.entries
    decreases |ks|
  {
    if ks == [] then ScanResult([], [], None)
    else
      var r := Scan(t, ks[..|ks| - 1], now, bus);
      var k := ks[|ks| - 1];
      if r.failure.Some? || !Settled(t.entries[k], now) then r
      else
        match Decide(bus, k, t.entries[k])
        case Err(err) => r.(failure := Some(err))
        case Ok(d) => ScanResult(r.decisions + OptionSeq(d), r.pruned + [k], None)
  }

  /** One more key, not settled: the scan is as before. */
  lemma ScanSkips(t: Table, ks: seq<string>, i: nat, now: int, bus: Bus)
    requires forall k :: k in ks ==> k in t.entries
    requires i < |ks| && !Settled(t.entries[ks[i]], now)
    ensures Scan(t, ks[..i + 1], now, bus) == Scan(t, ks[..i], now, bus)
  {
    assert ks[..i + 1][..i] == ks[..i];
  }

  /** One more key, settled, on a scan that has not failed: its verdict is appended, or its failure recorded. */
  lemma ScanDecidesNext(t: Table, ks: seq<string>, i: nat, now: int, bus: Bus)
    requires forall k :: k in ks ==> k in t.entries
    requires i < |ks| && Settled(t.entries[ks[i]], now)
    requires Scan(t, ks[..i], now, bus).failure.None?
    ensures var r := Scan(t, ks[..i], now, bus);
            var v := Decide(bus, ks[i], t.entries[ks[i]]);
            Scan(t, ks[..i + 1], now, bus) ==
              if v.Ok? then ScanResult(r.decisions + OptionSeq(v.value), r.pruned + [ks[i]], None)
              else r.(failure := Some(v.error))
  {
    assert ks[..i + 1][..i] == ks[..i];
  }

  /** Every decision and every pruned name of a scan comes from the keys it walked. */
  lemma {:induction false} ScanStaysInKeys(t: Table, ks: seq<string>, now: int, bus: Bus)
    requires forall k :: k in ks ==> k in t.entries
    ensures forall d :: d in Scan(t, ks, now, bus).decisions ==> d.name in ks
    ensures forall n :: n in Scan(t, ks, now, bus).pruned ==> n in ks
    decreases |ks|
  {
    if ks != [] {
      var init := ks[..|ks| - 1];
      var k := ks[|ks| - 1];
      assert ks == init + [k];
      ScanStaysInKeys(t, init, now, bus);
      DecideVerdict(bus, k, t.entries[k]);
    }
  }

  /** Once the scan has failed on a prefix, the rest of the keys are not looked at. */
  lemma {:induction false} ScanFailureSticks(t: Table, ks: seq<string>, m: nat, now: int, bus: Bus)
    requires forall k :: k in ks ==> k in t.entries
    requires m <= |ks|
    requires Scan(t, ks[..m], now, bus).failure.Some?
    ensures Scan(t, ks, now, bus) == Scan(t, ks[..m], now, bus)
    decreases |ks|
  {
    if m < |ks| {
      assert ks[..|ks| - 1][..m] == ks[..m];
      ScanFailureSticks(t, ks[..|ks| - 1], m, now, bus);
    } else {
      assert ks[..m] == ks;
    }
  }

  /**
   * A scan that completes decides each listed name by its entry alone: add for a
   * settled 'new' that passes the policy, remove for a settled 'removed', and it
   * prunes exactly the settled names.
   */
  lemma {:induction false} ScanDecides(t: Table, ks: seq<string>, now: int, bus: Bus, n: string)
    requires forall k :: k in ks ==> k in t.entries
    requires Scan(t, ks, now, bus).failure.None?
    ensures Add(n) in Scan(t, ks, now, bus).decisions <==>
              n in ks && Settled(t.entries[n], now) && t.entries[n].lastChange == New &&
              MonitoredService(bus, n) == Ok(true)
    ensures Remove(n) in Scan(t, ks, now, bus).decisions <==>
              n in ks && Settled(t.entries[n], now) && t.entries[n].lastChange == Removed
    ensures n in Scan(t, ks, now, bus).pruned <==> n in ks && Settled(t.entries[n], now)
    decreases |ks|
  {
    if ks != [] {
      var init := ks[..|ks| - 1];
      var k := ks[|ks| - 1];
      assert ks == init + [k];
      ScanDecides(t, init, now, bus, n);
      var r := Scan(t, init, now, bus);
      var e := t.entries[k];
      var v := Decide(bus, k, e);
      DecideVerdict(bus, k, e);
      if !Settled(e, now) {
        assert Scan(t, ks, now, bus) == r;
      } else {
        assert v.Ok? && Scan(t, ks, now, bus) == ScanResult(r.decisions + OptionSeq(v.value), r.pruned + [k], None);
      }
    }
  }

  /** The names of a run of decisions. */
  function DecisionNames(ds: seq<Decision>): (r: seq<string>)
    ensures |r| == |ds| && forall i :: 0 <= i < |ds| ==> r[i] == ds[i].name
  {
    if ds == [] then [] else [ds[0].name] + DecisionNames(ds[1..])
  }

  /** Over distinct keys, the scan decides each name at most once. */
  lemma {:induction false} ScanOneDecisionPerName(t: Table, ks: seq<string>, now: int, bus: Bus)
    requires forall k :: k in ks ==> k in t.entries
    requires Distinct(ks)
    ensures Distinct(DecisionNames(Scan(t, ks, now, bus).decisions))
    decreases |ks|
  {
    if ks != [] {
      var init := ks[..|ks| - 1];
      var k := ks[|ks| - 1];
      ScanOneDecisionPerName(t, init, now, bus);
      ScanStaysInKeys(t, init, now, bus);
      DecideVerdict(bus, k, t.entries[k]);
      var r := Scan(t, init, now, bus);
      assert k !in init;
      var ds := Scan(t, ks, now, bus).decisions;
      forall i, j | 0 <= i < j < |ds| ensures ds[i].name != ds[j].name {
        if j >= |r.decisions| {
          assert ds[i] in r.decisions;
        }
      }
    }
  }

  // ---------------------------------------------------------------------
  // Order

  /** The scan emits its decisions in the order of the keys it walks. */
  lemma {:induction false} ScanInKeyOrder(t: Table, ks: seq<string>, now: int, bus: Bus)
    requires forall k :: k in ks ==> k in t.entries
    ensures IsSubsequence(DecisionNames(Scan(t, ks, now, bus).decisions), ks)
    decreases |ks|
  {
    if ks != [] {
      var init := ks[..|ks| - 1];
      var k := ks[|ks| - 1];
      assert ks == init + [k];
      ScanInKeyOrder(t, init, now, bus);
      var before := DecisionNames(Scan(t, init, now, bus).decisions);
      var after := DecisionNames(Scan(t, ks, now, bus).decisions);
      if after == before {
        SubsequenceExtendRight(before, init, k);
      } else {
        assert after == before + [k];
        SubsequenceExtendBoth(before, init, k);
      }
    }
  }

  // ---------------------------------------------------------------------
  // Prune

  /** The keys without `k`, the others in their order. */
  function RemoveKey(ks: seq<string>, k: string): (r: seq<string>)
    ensures forall n :: n in r <==> n in ks && n != k
    ensures Distinct(ks) ==> Distinct(r)
    ensures IsSubsequence(r, ks)
  {
    if ks == [] then []
    else if ks[0] == k then
      var r := RemoveKey(ks[1..], k);
      SubsequenceExtendLeft(r, ks[1..], ks[0]);
      assert [ks[0]] + ks[1..] == ks;
      r
    else
      assert Distinct(ks) ==> ks[0] !in ks[1..] && Distinct(ks[1..]);
      [ks[0]] + RemoveKey(ks[1..], k)
  }

  /** Hash#delete: the entry and its key go. */
  function Delete(t: Table, k: string): Table {
    Table(RemoveKey(t.keys, k), t.entries - {k})
  }

  /** `pruned_units.each { |u| tentative_units.delete(u) }` */
  function DeleteAll(t: Table, ks: seq<string>): Table
    decreases |ks|
  {
    if ks == [] then t else DeleteAll(Delete(t, ks[0]), ks[1..])
  }

  /** Deleting a list of names leaves exactly the other entries, unchanged and well formed. */
  lemma {:induction false} DeleteAllLeavesOthers(t: Table, ks: seq<string>)
    requires WellFormed(t)
    ensures WellFormed(DeleteAll(t, ks))
    ensures forall n :: n in DeleteAll(t, ks).entries <==> n in t.entries && n !in ks
    ensures forall n :: n in DeleteAll(t, ks).entries ==> DeleteAll(t, ks).entries[n] == t.entries[n]
    ensures IsSubsequence(DeleteAll(t, ks).keys, t.keys)
    decreases |ks|
  {
    if ks != [] {
      DeleteAllLeavesOthers(Delete(t, ks[0]), ks[1..]);
      SubsequenceTransitive(DeleteAll(t, ks).keys, Delete(t, ks[0]).keys, t.keys);
    } else {
      SubsequenceReflexive(t.keys);
    }
  }

  // ---------------------------------------------------------------------
  // One whole pass: drain, scan over the drained keys, prune

  /** A pass that completes keeps exactly the unsettled entries, each unchanged, and no settled one. */
  lemma PassKeepsUnsettled(t: Table, evs: seq<RawEvent>, now: int, bus: Bus, n: string)
    requires WellFormed(t)
    requires var d := Drain(t, evs); Scan(d, d.keys, now, bus).failure.None?
    ensures var d := Drain(t, evs);
            var after := DeleteAll(d, Scan(d, d.keys, now, bus).pruned);
            WellFormed(after) &&
            (n in after.entries <==> n in d.entries && !Settled(d.entries[n], now)) &&
            (n in after.entries ==> after.entries[n] == d.entries[n])
  {
    var d := Drain(t, evs);
    DeleteAllLeavesOthers(d, Scan(d, d.keys, now, bus).pruned);
    ScanDecides(d, d.keys, now, bus, n);
  }

  /**
   * Last change wins: for a name the queue mentions, whether the pass adds or
   * removes it, and whether its entry survives, depends only on the last
   * event about it (and, for an add, on the policy).
   */
  lemma PassLastChangeWins(t: Table, evs: seq<RawEvent>, now: int, bus: Bus, n: string)
    requires WellFormed(t)
    requires LastEvent(evs, n).Some?
    requires var d := Drain(t, evs); Scan(d, d.keys, now, bus).failure.None?
    ensures var last := LastEvent(evs, n).value;
            var d := Drain(t, evs);
            var scan := Scan(d, d.keys, now, bus);
            var after := DeleteAll(d, scan.pruned);
            (Add(n) in scan.decisions <==>
               now - last.ts > SettleSeconds && last.change == New && MonitoredService(bus, n) == Ok(true)) &&
            (Remove(n) in scan.decisions <==> now - last.ts > SettleSeconds && last.change == Removed) &&
            (n in after.entries <==> now - last.ts <= SettleSeconds)
  {
    var d := Drain(t, evs);
    DrainEntry(t, evs, n);
    ScanDecides(d, d.keys, now, bus, n);
    PassKeepsUnsettled(t, evs, now, bus, n);
  }

  /** A pass pushes at most one decision per name, in the order the names were first seen. */
  lemma PassDecidesOncePerName(t: Table, evs: seq<RawEvent>, now: int, bus: Bus)
    requires WellFormed(t)
    ensures var d := Drain(t, evs);
            var names := DecisionNames(Scan(d, d.keys, now, bus).decisions);
            Distinct(names) && IsSubsequence(names, d.keys)
  {
    var d := Drain(t, evs);
    ScanOneDecisionPerName(d, d.keys, now, bus);
    ScanInKeyOrder(d, d.keys, now, bus);
  }

  /** Whether or not the scan completes, an add is only ever pushed for a walked name whose entry last changed to 'new'. */
  lemma {:induction false} ScanAddsOnlyNew(t: Table, ks: seq<string>, now: int, bus: Bus, n: string)
    requires forall k :: k in ks ==> k in t.entries
    ensures Add(n) in Scan(t, ks, now, bus).decisions ==> n in ks && t.entries[n].lastChange == New
    decreases |ks|
  {
    if ks != [] {
      var init := ks[..|ks| - 1];
      var k := ks[|ks| - 1];
      assert ks == init + [k];
      ScanAddsOnlyNew(t, init, now, bus, n);
      DecideVerdict(bus, k, t.entries[k]);
    }
  }

  /**
   * A unit that appears and then disappears before the pass is never added:
   * whenever the last queued event about a name is a removal, the pass pushes
   * no add for it, even if it is cut short by a failure on another name.
   */
  lemma FlapNeverAdds(t: Table, evs: seq<RawEvent>, now: int, bus: Bus, n: string)
    requires WellFormed(t)
    requires LastEvent(evs, n).Some? && LastEvent(evs, n).value.change == Removed
    ensures var d := Drain(t, evs); Add(n) !in Scan(d, d.keys, now, bus).decisions
  {
    var d := Drain(t, evs);
    DrainEntry(t, evs, n);
    ScanAddsOnlyNew(d, d.keys, now, bus, n);
  }

  /** The two-event flap itself: UnitNew then UnitRemoved. */
  lemma NewThenRemovedNeverAdds(t: Table, now: int, bus: Bus, n: string, t0: int, t1: int, p: ObjectPath, q: ObjectPath)
    requires WellFormed(t)
    ensures var d := Drain(t, [RawEvent(n, New, t0, p), RawEvent(n, Removed, t1, q)]);
            Add(n) !in Scan(d, d.keys, now, bus).decisions
  {
    var evs := [RawEvent(n, New, t0, p), RawEvent(n, Removed, t1, q)];
    assert LastEvent(evs[1..], n) == Some(evs[1]);
    FlapNeverAdds(t, evs, now, bus, n);
  }

  /** Pruning the only name of a one-entry table empties it. */
  lemma PruneOnly(n: string, e: Entry)
    ensures DeleteAll(Table([n], map[n := e]), [n]).entries == map[]
  {
    var t := Table([n], map[n := e]);
    assert [n][1..] == [];
    assert DeleteAll(t, [n]) == DeleteAll(Delete(t, n), []);
    assert Delete(t, n).entries == map[];
  }

  /** Draining a single UnitNew into an empty table gives that one entry. */
  lemma DrainFresh(n: string, p: ObjectPath)
    ensures Drain(EmptyTable, [RawEvent(n, New, 0, p)]) == Table([n], map[n := Entry(0, New, p)])
  {
    var ev := RawEvent(n, New, 0, p);
    assert [ev][1..] == [];
    assert Drain(EmptyTable, [ev]) == Drain(Record(EmptyTable, ev), []);
  }

  /**
   * A service that appeared at time 0 and opts in is added by the pass at time 6,
   * six seconds being more than the settle delay, and its entry is gone afterwards.
   */
  lemma SettledServiceIsAdded(bus: Bus, n: string, p: ObjectPath)
    requires MonitoredService(bus, n) == Ok(true)
    ensures var d := Drain(EmptyTable, [RawEvent(n, New, 0, p)]);
            var scan := Scan(d, d.keys, 6, bus);
            scan == ScanResult([Add(n)], [n], None) && DeleteAll(d, scan.pruned).entries == map[]
  {
    var d := Table([n], map[n := Entry(0, New, p)]);
    DrainFresh(n, p);
    assert d.keys[..0] == [] && d.keys[..1] == d.keys;
    assert Scan(d, d.keys[..0], 6, bus) == ScanResult([], [], None);
    ScanDecidesNext(d, d.keys, 0, 6, bus);
    DecideVerdict(bus, n, d.entries[n]);
    assert Decide(bus, n, d.entries[n]) == Ok(Some(Add(n)));
    assert Scan(d, d.keys, 6, bus) == ScanResult([Add(n)], [n], None);
    assert [n][1..] == [];
    PruneOnly(n, d.entries[n]);
  }
}
