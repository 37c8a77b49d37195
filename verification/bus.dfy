/**
 * The parts of systemd's D-Bus manager interface that the daemon consults,
 * as a snapshot value. The daemon never owns this state: it only asks
 * questions of it, and every question may fail with a D-Bus error.
 */
module Bus {
  import opened Wrappers

  /** An object path on the system bus, such as /org/freedesktop/systemd1/unit/a_2eservice. */
  type ObjectPath = string

  /**
   * What the daemon can learn from systemd:
   *  - `listed`: the unit names `ListUnits` returns, in its order, or None when
 *    that call fails with a D-Bus error;
   *  - `getUnit`: `GetUnit(name)`, the object path of a loaded unit, or None when
   *    the call fails with a D-Bus error (unknown or unloaded unit);
   *  - `environment`: the `Environment` property of the service object at a path,
   *    or None when introspection or the property read fails.
   */
  datatype Bus = Bus(
    listed: Option<seq<string>>,
    getUnit: string -> Option<ObjectPath>,
    environment: ObjectPath -> Option<seq<string>>)

  /** The errors the core can raise. */
  datatype Error =
    | DBusError(unitName: string)       // a D-Bus call about this unit failed and was not rescued
    | UnknownUnitError(unitName: string) // fetch_unit's rescue of a D-Bus error
    | ListUnitsError                     // the ListUnits call itself failed
    | MonitorError                       // start without any notifier

  /** A fetched unit: DBusUnit.new(name, path, proxy object); the proxy is determined by the path. */
  datatype Unit = Unit(name: string, path: ObjectPath)

  /**
   * fetch_unit: look the unit up and wrap it, mapping the D-Bus failure of the
   * lookup to UnknownUnitError for that name.
   */
  function FetchUnit(bus: Bus, name: string): (r: Result<Unit, Error>)
    ensures r.Ok? <==> bus.getUnit(name).Some?
    ensures r.Ok? ==> r.value.name == name && r.value.path == bus.getUnit(name).value
    ensures r.Err? ==> r.error == UnknownUnitError(name)
  {
    match bus.getUnit(name)
    case Some(path) => Ok(Unit(name, path))
    case None => Err(UnknownUnitError(name))
  }
}
