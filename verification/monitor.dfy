/**
 * Monitor: the registry of monitored units and the start-up sequence. The
 * `units` list is changed in place by register_unit, register_units, the
 * discovery pass of start and the add/remove step of the monitor adder
 * thread; the callbacks and notifiers are fields its setters overwrite.
 */
module Registry {
  import opened Wrappers
  import opened Bus
  import opened Policy
  import opened Tentative

  /** An argument of register_units: a unit name, or an array of them to be flattened. */
  datatype NameArg = Name(name: string) | Nested(items: seq<NameArg>)

  /** Array#flatten over the argument list: every name, depth first, in order. */
  function Flatten(args: seq<NameArg>): (names: seq<string>)
    ensures (forall i :: 0 <= i < |args| ==> args[i].Name?) ==>
              |names| == |args| && forall i :: 0 <= i < |args| ==> names[i] == args[i].name
    decreases args
  {
    if args == [] then []
    else
      var head := match args[0]
        case Name(n) => [n]
        case Nested(items) => Flatten(items);
      head + Flatten(args[1..])
  }

  /** The argument mentions the name, directly or at any depth of nesting. */
  predicate Mentions(a: NameArg, n: string)
    decreases a
  {
    match a
    case Name(m) => m == n
    case Nested(items) => exists j :: 0 <= j < |items| && Mentions(items[j], n)
  }

  /** Flattening distributes over concatenation of the argument lists: order is kept. */
  lemma {:induction false} FlattenAppend(a: seq<NameArg>, b: seq<NameArg>)
    ensures Flatten(a + b) == Flatten(a) + Flatten(b)
    decreases |a|
  {
    if a != [] {
      var ab := a + b;
      assert ab[0] == a[0] && ab[1..] == a[1..] + b;
      var head := match a[0]
        case Name(n) => [n]
        case Nested(items) => Flatten(items);
      assert Flatten(ab) == head + Flatten(a[1..] + b);
      FlattenAppend(a[1..], b);
      assert Flatten(a) == head + Flatten(a[1..]);
    } else {
      assert a + b == b;
    }
  }

  /** The flattened list holds exactly the names mentioned at any depth. */
  lemma {:induction false} FlattenMembers(args: seq<NameArg>, n: string)
    ensures n in Flatten(args) <==> exists i :: 0 <= i < |args| && Mentions(args[i], n)
    decreases args
  {
    if args != [] {
      FlattenMembers(args[1..], n);
      var head := match args[0]
        case Name(m) => [m]
        case Nested(items) => Flatten(items);
      assert Flatten(args) == head + Flatten(args[1..]);
      if args[0].Nested? {
        FlattenMembers(args[0].items, n);
      }
      if exists i :: 0 <= i < |args| && Mentions(args[i], n) {
        var i :| 0 <= i < |args| && Mentions(args[i], n);
        if i > 0 {
          assert args[1..][i - 1] == args[i];
        }
      }
      if n in Flatten(args[1..]) {
        var i :| 0 <= i < |args[1..]| && Mentions(args[1..][i], n);
        assert args[i + 1] == args[1..][i];
      }
    }
  }

  /**
   * `unit_names.map { |n| dbus_manager.fetch_unit(n) }`: every name fetched, in
   * order; the first unknown name raises and nothing is returned.
   */
  function FetchAll(bus: Bus, names: seq<string>): Result<seq<Unit>, Error>
  {
    if names == [] then Ok([])
    else
      match FetchUnit(bus, names[0])
      case Err(e) => Err(e)
      case Ok(u) =>
        match FetchAll(bus, names[1..])
        case Err(e) => Err(e)
        case Ok(rest) => Ok([u] + rest)
  }

  /**
   * All or nothing: the fetch succeeds exactly when every name resolves, giving
   * their units in order; otherwise it reports the first name that does not.
   */
  lemma {:induction false} FetchAllAllOrNothing(bus: Bus, names: seq<string>)
    ensures FetchAll(bus, names).Ok? <==> forall k :: 0 <= k < |names| ==> bus.getUnit(names[k]).Some?
    ensures FetchAll(bus, names).Ok? ==>
              |FetchAll(bus, names).value| == |names| &&
              forall k :: 0 <= k < |names| ==> FetchAll(bus, names).value[k] == FetchUnit(bus, names[k]).value
    ensures FetchAll(bus, names).Err? ==>
              exists k :: 0 <= k < |names| && bus.getUnit(names[k]).None? &&
                          FetchAll(bus, names).error == UnknownUnitError(names[k]) &&
                          forall j :: 0 <= j < k ==> bus.getUnit(names[j]).Some?
    decreases |names|
  {
    if names != [] {
      FetchAllAllOrNothing(bus, names[1..]);
      var r := FetchAll(bus, names);
      if r.Err? && bus.getUnit(names[0]).Some? {
        var k :| 0 <= k < |names[1..]| && bus.getUnit(names[1..][k]).None? &&
                 FetchAll(bus, names[1..]).error == UnknownUnitError(names[1..][k]) &&
                 forall j :: 0 <= j < k ==> bus.getUnit(names[1..][j]).Some?;
        assert bus.getUnit(names[k + 1]).None?;
      }
    }
  }

  /** `units.find { |u| u.name == name }`, as the index of the first unit with that name. */
  function FindUnit(units: seq<Unit>, name: string): (r: Option<nat>)
    ensures r.None? <==> forall k :: 0 <= k < |units| ==> units[k].name != name
    ensures r.Some? ==> r.value < |units| && units[r.value].name == name &&
                        forall k :: 0 <= k < r.value ==> units[k].name != name
  {
    if units == [] then None
    else if units[0].name == name then Some(0)
    else match FindUnit(units[1..], name)
      case None => None
      case Some(k) => Some(k + 1)
  }

  /** What the remove step leaves: the first unit with that name deleted, if there is one. */
  function RemoveFirst(units: seq<Unit>, name: string): seq<Unit> {
    match FindUnit(units, name)
    case None => units
    case Some(k) => units[..k] + units[k + 1..]
  }

  /** What one step of the monitor adder thread does to the units: (new units, error raised). */
  function Apply(bus: Bus, units: seq<Unit>, d: Decision): (seq<Unit>, Option<Error>) {
    match d
    case Add(name) =>
      (match FetchUnit(bus, name)
       case Ok(u) => (units + [u], None)
       case Err(e) => (units, Some(e)))
    case Remove(name) => (RemoveFirst(units, name), None)
  }

  /** Removing a name no unit has changes nothing. */
  lemma RemoveAbsentIsNoOp(units: seq<Unit>, name: string)
    requires forall k :: 0 <= k < |units| ==> units[k].name != name
    ensures RemoveFirst(units, name) == units
  {
  }

  /**
   * Removing a name some unit has takes out exactly one unit, the first with
   * that name; every unit with another name keeps its count.
   */
  lemma RemovePresentTakesOne(units: seq<Unit>, name: string, k: nat)
    requires k < |units| && units[k].name == name
    requires forall j :: 0 <= j < k ==> units[j].name != name
    ensures RemoveFirst(units, name) == units[..k] + units[k + 1..]
    ensures |RemoveFirst(units, name)| == |units| - 1
    ensures multiset(RemoveFirst(units, name)) == multiset(units) - multiset{units[k]}
    ensures forall u: Unit :: u.name != name ==> multiset(RemoveFirst(units, name))[u] == multiset(units)[u]
  {
    assert units == units[..k] + [units[k]] + units[k + 1..];
  }

  /** Adding is not idempotent: two adds of a known unit register it twice. */
  lemma AddTwiceRegistersTwice(bus: Bus, units: seq<Unit>, name: string)
    requires bus.getUnit(name).Some?
    ensures var once := Apply(bus, units, Add(name)).0;
            var twice := Apply(bus, once, Add(name)).0;
            var u := Unit(name, bus.getUnit(name).value);
            twice == units + [u, u] && multiset(twice)[u] == multiset(units)[u] + 2
  {
    var u := Unit(name, bus.getUnit(name).value);
    assert units + [u] + [u] == units + [u, u];
  }

  /** An add whose fetch fails leaves the units as they were. */
  lemma FailedAddChangesNothing(bus: Bus, units: seq<Unit>, name: string)
    requires bus.getUnit(name).None?
    ensures Apply(bus, units, Add(name)) == (units, Some(UnknownUnitError(name)))
  {
  }

  /**
   * The discovery pass of start: for each listed name in order, ask the
   * policy and, when it holds, fetch the unit and register it. A D-Bus failure
   * or an unknown unit raises and ends the pass: (units registered, error).
   */
  function DiscoveryPass(bus: Bus, names: seq<string>): (r: (seq<Unit>, Option<Error>))
    ensures |r.0| <= |names|
  {
    if names == [] then ([], None)
    else
      match MonitoredService(bus, names[0])
      case Err(e) => ([], Some(e))
      case Ok(monitored) =>
        if !monitored then DiscoveryPass(bus, names[1..])
        else
          var rest := DiscoveryPass(bus, names[1..]);
          ([FetchUnit(bus, names[0]).value] + rest.0, rest.1)
  }

  function UnitNames(units: seq<Unit>): (r: seq<string>)
    ensures |r| == |units| && forall k :: 0 <= k < |units| ==> r[k] == units[k].name
  {
    if units == [] then [] else [units[0].name] + UnitNames(units[1..])
  }

  /**
   * A discovery pass that completes registers exactly the units discover_units
   * yields, in its order, each as fetch_unit returns it.
   */
  lemma {:induction false} DiscoveryPassRegistersDiscovered(bus: Bus, names: seq<string>)
    requires DiscoveryPass(bus, names).1.None?
    ensures DiscoverUnits(bus, names) == Ok(UnitNames(DiscoveryPass(bus, names).0))
    ensures forall u :: u in DiscoveryPass(bus, names).0 ==> FetchUnit(bus, u.name) == Ok(u)
  {
    if names != [] {
      DiscoveryPassRegistersDiscovered(bus, names[1..]);
      var rest := DiscoveryPass(bus, names[1..]).0;
      if MonitoredService(bus, names[0]) == Ok(true) {
        var u := FetchUnit(bus, names[0]).value;
        assert DiscoveryPass(bus, names).0 == [u] + rest;
        assert UnitNames([u] + rest) == [u.name] + UnitNames(rest);
      }
    }
  }

  /** discover_units over a prefix that starts with a successfully checked name. */
  lemma DiscoverPrefixStep(bus: Bus, names: seq<string>, k: nat)
    requires 0 < k <= |names| && MonitoredService(bus, names[0]).Ok?
    ensures DiscoverUnits(bus, names[..k]) ==
              match DiscoverUnits(bus, names[1..][..k - 1])
              case Err(e) => Err(e)
              case Ok(rest) => Ok(if MonitoredService(bus, names[0]).value then [names[0]] + rest else rest)
  {
    assert names[..k][0] == names[0] && names[..k][1..] == names[1..][..k - 1];
  }

  /** The failure of a pass that raises partway, with the witness of the one after its first name. */
  lemma DiscoveryPassFailureStep(bus: Bus, names: seq<string>, k': nat)
    requires |names| > 0 && MonitoredService(bus, names[0]).Ok?
    requires var rest := DiscoveryPass(bus, names[1..]);
             rest.1.Some? && k' < |names| - 1 &&
             MonitoredService(bus, names[1..][k']) == Err(rest.1.value) &&
             (forall j :: 0 <= j < k' ==> MonitoredService(bus, names[1..][j]).Ok?) &&
             DiscoverUnits(bus, names[1..][..k']) == Ok(UnitNames(rest.0))
    ensures var pass := DiscoveryPass(bus, names);
            pass.1.Some? &&
            MonitoredService(bus, names[k' + 1]) == Err(pass.1.value) &&
            (forall j :: 0 <= j < k' + 1 ==> MonitoredService(bus, names[j]).Ok?) &&
            DiscoverUnits(bus, names[..k' + 1]) == Ok(UnitNames(pass.0))
  {
    var rest := DiscoveryPass(bus, names[1..]);
    DiscoverPrefixStep(bus, names, k' + 1);
    forall j | 0 <= j < k' + 1 ensures MonitoredService(bus, names[j]).Ok? {
      if j > 0 { assert names[j] == names[1..][j - 1]; }
    }
    if MonitoredService(bus, names[0]).value {
      var u := FetchUnit(bus, names[0]).value;
      assert UnitNames([u] + rest.0) == [u.name] + UnitNames(rest.0);
    }
  }

  /**
   * A discovery pass that raises has stopped at the first name whose check
   * failed, with that check's error, after registering exactly the units
   * discover_units yields for the names before it.
   */
  lemma {:induction false} DiscoveryPassFailure(bus: Bus, names: seq<string>)
    requires DiscoveryPass(bus, names).1.Some?
    ensures exists k :: 0 <= k < |names| &&
              MonitoredService(bus, names[k]) == Err(DiscoveryPass(bus, names).1.value) &&
              (forall j :: 0 <= j < k ==> MonitoredService(bus, names[j]).Ok?) &&
              DiscoverUnits(bus, names[..k]) == Ok(UnitNames(DiscoveryPass(bus, names).0))
  {
    if MonitoredService(bus, names[0]).Err? {
      assert names[..0] == [];
    } else {
      var tail := names[1..];
      var rest := DiscoveryPass(bus, tail);
      DiscoveryPassFailure(bus, tail);
      var k' :| 0 <= k' < |tail| &&
                MonitoredService(bus, tail[k']) == Err(rest.1.value) &&
                (forall j :: 0 <= j < k' ==> MonitoredService(bus, tail[j]).Ok?) &&
                DiscoverUnits(bus, tail[..k']) == Ok(UnitNames(rest.0));
      DiscoveryPassFailureStep(bus, names, k');
    }
  }

  /** The callback stored by on_change / on_each_state_change: the built-in one or a user block. */
  datatype Callback = UnitChangeCallback | Block(id: nat)

  /** A notifier handed to add_notifier; the notifier classes are not part of this model. */
  datatype Notifier = Notifier(id: nat)

  class Monitor {
    var units: seq<Unit>
    /** The notification centre's notifiers, in registration order. */
    var notifiers: seq<Notifier>
    var changeCallback: Option<Callback>
    var eachStateChangeCallback: Option<Callback>
    /** notify_start! has been sent (and notify_stop! armed for exit). */
    var started: bool

    constructor ()
      ensures units == [] && notifiers == []
      ensures changeCallback == Some(UnitChangeCallback) && eachStateChangeCallback == None
      ensures !started
    {
      units := [];
      notifiers := [];
      changeCallback := Some(UnitChangeCallback);
      eachStateChangeCallback := None;
      started := false;
    }

    /** add_notifier: hand the notifier to the notification centre; returns the monitor. */
    method AddNotifier(n: Notifier) returns (self: Monitor)
      modifies this`notifiers
      ensures notifiers == old(notifiers) + [n] && self == this
    {
      notifiers := notifiers + [n];
      self := this;
    }

    /** on_change: replace the change callback (nil when no block is given); returns the monitor. */
    method OnChange(callback: Option<Callback>) returns (self: Monitor)
      modifies this`changeCallback
      ensures changeCallback == callback && self == this
    {
      changeCallback := callback;
      self := this;
    }

    /** on_each_state_change: replace the every-state-change callback; returns the monitor. */
    method OnEachStateChange(callback: Option<Callback>) returns (self: Monitor)
      modifies this`eachStateChangeCallback
      ensures eachStateChangeCallback == callback && self == this
    {
      eachStateChangeCallback := callback;
      self := this;
    }

    /** register_unit: append the fetched unit, unconditionally; an unknown unit raises. */
    method RegisterUnit(bus: Bus, name: string) returns (r: Result<Monitor, Error>)
      modifies this`units
      ensures bus.getUnit(name).Some? ==>
                r == Ok(this) && units == old(units) + [Unit(name, bus.getUnit(name).value)]
      ensures bus.getUnit(name).None? ==>
                r == Err(UnknownUnitError(name)) && units == old(units)
    {
      var fetched := FetchUnit(bus, name);
      if fetched.Err? {
        return Err(fetched.error);
      }
      units := units + [fetched.value];
      r := Ok(this);
    }

    /**
     * register_units: fetch every name of the flattened arguments, then append
     * them all; the map runs before the concat, so an unknown unit leaves the
     * list untouched.
     */
    method RegisterUnits(bus: Bus, args: seq<NameArg>) returns (r: Result<Monitor, Error>)
      modifies this`units
      ensures var fetched := FetchAll(bus, Flatten(args));
              (fetched.Ok? ==> r == Ok(this) && units == old(units) + fetched.value) &&
              (fetched.Err? ==> r == Err(fetched.error) && units == old(units))
    {
      var names := Flatten(args);
      var fetched: seq<Unit> := [];
      var i := 0;
      assert names[i..] == names;
      assert FetchAll(bus, names).Ok? ==> fetched + FetchAll(bus, names).value == FetchAll(bus, names).value;
      while i < |names|
        invariant 0 <= i <= |names|
        invariant FetchAll(bus, names[i..]).Ok? ==>
                    FetchAll(bus, names) == Ok(fetched + FetchAll(bus, names[i..]).value)
        invariant FetchAll(bus, names[i..]).Err? ==> FetchAll(bus, names) == FetchAll(bus, names[i..])
        invariant units == old(units)
      {
        assert names[i..][1..] == names[i + 1..] && names[i..][0] == names[i];
        var unit := FetchUnit(bus, names[i]);
        if unit.Err? {
          return Err(unit.error);
        }
        var rest := FetchAll(bus, names[i + 1..]);
        assert rest.Ok? ==> fetched + ([unit.value] + rest.value) == (fetched + [unit.value]) + rest.value;
        fetched := fetched + [unit.value];
        i := i + 1;
      }
      units := units + fetched;
      r := Ok(this);
    }

    /**
     * One iteration of the monitor adder thread for a dequeued decision: add
     * delegates to register_unit; remove deletes the first unit with that name
     * and does nothing when there is none.
     */
    method Step(bus: Bus, d: Decision) returns (failure: Option<Error>)
      modifies this`units
      ensures (units, failure) == Apply(bus, old(units), d)
    {
      match d {
        case Add(name) =>
          var r := RegisterUnit(bus, name);
          failure := if r.Err? then Some(r.error) else None;
        case Remove(name) =>
          var found := FindUnit(units, name);
          if found.Some? {
            var k := found.value;
            units := units[..k] + units[k + 1..];
          }
          failure := None;
      }
    }

    /** startup_check!: at least one notifier must be registered. */
    method StartupCheck() returns (r: Result<Monitor, Error>)
      ensures r.Ok? <==> |notifiers| > 0
      ensures r.Ok? ==> r.value == this
      ensures r.Err? ==> r.error == MonitorError
    {
      if |notifiers| == 0 {
        return Err(MonitorError);
      }
      r := Ok(this);
    }

    /**
     * start, up to the point where the worker threads are spawned: refuse to
     * start without a notifier and change nothing; otherwise send notify_start!,
     * list the units (a failing ListUnits raises before anything is registered)
     * and register every discovered monitored unit, in discovery order.
     */
    method Start(bus: Bus) returns (failure: Option<Error>)
      modifies this`units, this`started
      ensures |notifiers| == 0 ==>
                failure == Some(MonitorError) && units == old(units) && started == old(started)
      ensures |notifiers| > 0 && bus.listed.None? ==>
                started && failure == Some(ListUnitsError) && units == old(units)
      ensures |notifiers| > 0 && bus.listed.Some? ==>
                var pass := DiscoveryPass(bus, bus.listed.value);
                started && units == old(units) + pass.0 && failure == pass.1
    {
      var check := StartupCheck();
      if check.Err? {
        return Some(check.error);
      }
      started := true;
      if bus.listed.None? {
        return Some(ListUnitsError);
      }
      var names := bus.listed.value;
      var i := 0;
      while i < |names|
        invariant 0 <= i <= |names|
        invariant old(units) + DiscoveryPass(bus, names).0 == units + DiscoveryPass(bus, names[i..]).0
        invariant DiscoveryPass(bus, names).1 == DiscoveryPass(bus, names[i..]).1
        invariant started
      {
        assert names[i..][1..] == names[i + 1..] && names[i..][0] == names[i];
        var name := names[i];
        var monitored := MonitoredService(bus, name);
        if monitored.Err? {
          assert units + [] == units;
          return Some(monitored.error);
        }
        if monitored.value {
          var unit := FetchUnit(bus, name).value;
          units := units + [unit];
        }
        i := i + 1;
      }
      failure := None;
    }
  }
}
