/**
 * The opt-in policy of DBusManager: which units the daemon monitors.
 * A unit is monitored when it is a service and its Environment carries
 * MONITOR_DBUS set to yes, 1 or true, in any letter case.
 */
module Policy {
  import opened Wrappers
  import opened Bus
  import opened Sequences

  const ServiceSuffix: string := ".service"
  const FlagKey: string := "monitor_dbus"

  /** The values that switch monitoring on, after lower-casing. */
  predicate Truthy(v: string) {
    v == "yes" || v == "1" || v == "true"
  }

  // ---------------------------------------------------------------------
  // service?

  /** service?: the unit name ends with ".service" (Ruby end_with?). */
  predicate IsService(name: string) {
    |name| >= |ServiceSuffix| && name[|name| - |ServiceSuffix|..] == ServiceSuffix
  }

  /** Every name built as some base followed by ".service" is a service... */
  lemma ServiceOfSuffixed(base: string)
    ensures IsService(base + ServiceSuffix)
  {
    assert (base + ServiceSuffix)[|base|..] == ServiceSuffix;
  }

  /** ...and every service name is so built, from the part before the suffix. */
  lemma ServiceIsSuffixed(name: string)
    requires IsService(name)
    ensures name == name[..|name| - |ServiceSuffix|] + ServiceSuffix
  {
  }

  // ---------------------------------------------------------------------
  // String#downcase (ASCII letters only)

  function LowerChar(c: char): char {
    if 'A' <= c <= 'Z' then (c as int - 'A' as int + 'a' as int) as char else c
  }

  /** Lower-case every ASCII capital; every other character is kept. */
  function Lower(s: string): (r: string)
    ensures |r| == |s|
    ensures forall i :: 0 <= i < |s| ==> r[i] == LowerChar(s[i])
  {
    if s == [] then [] else [LowerChar(s[0])] + Lower(s[1..])
  }

  // ---------------------------------------------------------------------
  // String#split with a one-character separator

  /** The index of the first `c` in `s`, or |s| when there is none. */
  function IndexOf(s: string, c: char): (i: nat)
    ensures i <= |s|
    ensures i < |s| ==> s[i] == c
    ensures forall j :: 0 <= j < i ==> s[j] != c
  {
    if s == [] then 0 else if s[0] == c then 0 else 1 + IndexOf(s[1..], c)
  }

  /** All the fields between separators, empty ones included. */
  function SplitAll(s: string, c: char): (fields: seq<string>)
    decreases |s|
  {
    var i := IndexOf(s, c);
    if i == |s| then [s] else [s[..i]] + SplitAll(s[i + 1..], c)
  }

  /** Ruby's split drops the trailing empty fields. */
  function DropTrailingEmpty(fields: seq<string>): (r: seq<string>)
  {
    if fields == [] then []
    else if fields[|fields| - 1] == "" then DropTrailingEmpty(fields[..|fields| - 1])
    else fields
  }

  /** String#split(c) for a one-character separator c other than a space (which Ruby splits awk-style). */
  function RubySplit(s: string, c: char): seq<string> {
    DropTrailingEmpty(SplitAll(s, c))
  }

  /** Dropping trailing empty fields keeps every field it does not drop... */
  lemma {:induction false} DropTrailingEmptyKeeps(fields: seq<string>, k: nat)
    requires k < |DropTrailingEmpty(fields)|
    ensures k < |fields| && DropTrailingEmpty(fields)[k] == fields[k]
  {
    if fields != [] && fields[|fields| - 1] == "" {
      DropTrailingEmptyKeeps(fields[..|fields| - 1], k);
    }
  }

  /** ...and never drops a non-empty field. */
  lemma {:induction false} DropTrailingEmptyReaches(fields: seq<string>, k: nat)
    requires k < |fields| && fields[k] != ""
    ensures k < |DropTrailingEmpty(fields)|
  {
    if fields[|fields| - 1] == "" {
      DropTrailingEmptyReaches(fields[..|fields| - 1], k);
    }
  }

  // ---------------------------------------------------------------------
  // One environment pair: `var, val = pair.downcase.split('=')`

  function FirstField(fields: seq<string>): Option<string> {
    if |fields| >= 1 then Some(fields[0]) else None
  }

  function SecondField(fields: seq<string>): Option<string> {
    if |fields| >= 2 then Some(fields[1]) else None
  }

  /** The pair switches monitoring on: `var == 'monitor_dbus' and ['yes','1','true'].include? val`. */
  predicate PairOptsIn(pair: string) {
    var fields := RubySplit(Lower(pair), '=');
    FirstField(fields) == Some(FlagKey) && SecondField(fields).Some? && Truthy(SecondField(fields).value)
  }

  /**
   * Reference reading of the same rule, on the lower-cased text itself: it is
   * "monitor_dbus=" followed by the value, and then either nothing or a further '='.
   */
  predicate FlagSetTo(lowered: string, v: string) {
    lowered == FlagKey + "=" + v || FlagKey + "=" + v + "=" <= lowered
  }

  predicate FlagSet(lowered: string) {
    FlagSetTo(lowered, "yes") || FlagSetTo(lowered, "1") || FlagSetTo(lowered, "true")
  }

  /** In terms of the raw fields: trailing-empty dropping does not matter for this test. */
  lemma PairOptsInRawFields(pair: string)
    ensures var raw := SplitAll(Lower(pair), '=');
            PairOptsIn(pair) <==> |raw| >= 2 && raw[0] == FlagKey && Truthy(raw[1])
  {
    var raw := SplitAll(Lower(pair), '=');
    var fields := DropTrailingEmpty(raw);
    if PairOptsIn(pair) {
      DropTrailingEmptyKeeps(raw, 0);
      DropTrailingEmptyKeeps(raw, 1);
    }
    if |raw| >= 2 && raw[0] == FlagKey && Truthy(raw[1]) {
      DropTrailingEmptyReaches(raw, 1);
      DropTrailingEmptyKeeps(raw, 0);
      DropTrailingEmptyKeeps(raw, 1);
    }
  }

  /** When `s` is a run without `c` and then either the end or a `c`, that run is the first field. */
  lemma IndexOfAfterRun(s: string, c: char, run: string)
    requires run <= s && c !in run
    requires |s| == |run| || s[|run|] == c
    ensures IndexOf(s, c) == |run|
  {
  }

  /** The first field runs up to the first separator; the others are the split of what follows it. */
  lemma SplitAllUnfold(s: string, c: char)
    ensures SplitAll(s, c)[0] == s[..IndexOf(s, c)]
    ensures IndexOf(s, c) < |s| ==> SplitAll(s, c)[1..] == SplitAll(s[IndexOf(s, c) + 1..], c)
    ensures IndexOf(s, c) == |s| ==> |SplitAll(s, c)| == 1
  {
  }

  /** Splitting and joining agree: the first two fields and the separators between them rebuild a prefix of the text. */
  lemma JoinOfFields(l: string)
    requires |SplitAll(l, '=')| >= 2
    ensures var raw := SplitAll(l, '=');
            l == raw[0] + "=" + raw[1] || raw[0] + "=" + raw[1] + "=" <= l
  {
    var raw := SplitAll(l, '=');
    var i := IndexOf(l, '=');
    SplitAllUnfold(l, '=');
    var t := l[i + 1..];
    var j := IndexOf(t, '=');
    SplitAllUnfold(t, '=');
    var key, v := raw[0], raw[1];
    assert key == l[..i] && v == t[..j];
    JoinAt(l, i, j);
  }

  /** A text cut at a separator `i`, and its rest cut at `j`. */
  lemma JoinAt(l: string, i: nat, j: nat)
    requires i < |l| && l[i] == '=' && j <= |l| - i - 1
    requires j < |l| - i - 1 ==> l[i + 1 + j] == '='
    ensures var t := l[i + 1..];
            l == l[..i] + "=" + t[..j] || l[..i] + "=" + t[..j] + "=" <= l
  {
    var t := l[i + 1..];
    if j == |t| {
      assert l == l[..i] + "=" + t[..j];
    } else {
      assert l[..i] + "=" + t[..j] + "=" == l[..i + 1 + j + 1];
    }
  }

  /** The first two raw fields of a lowered pair, read back as its text. */
  lemma RawFieldsGiveFlag(l: string)
    requires var raw := SplitAll(l, '=');
             |raw| >= 2 && raw[0] == FlagKey && Truthy(raw[1])
    ensures FlagSet(l)
  {
    JoinOfFields(l);
    assert FlagSetTo(l, SplitAll(l, '=')[1]);
  }

  /** A key without '=', then '=', then a value without '=', then the end or another '=': the first two fields. */
  lemma FieldsOfJoin(l: string, key: string, v: string)
    requires '=' !in key && '=' !in v
    requires key + "=" + v <= l
    requires |l| == |key| + 1 + |v| || l[|key| + 1 + |v|] == '='
    ensures var raw := SplitAll(l, '=');
            |raw| >= 2 && raw[0] == key && raw[1] == v
  {
    assert l[..|key|] == key;
    IndexOfAfterRun(l, '=', key);
    var t := l[|key| + 1..];
    assert v <= t;
    IndexOfAfterRun(t, '=', v);
  }

  /** The text of a flagged pair, split: the key and then the value. */
  lemma FlagGivesRawFields(l: string, v: string)
    requires '=' !in v && FlagSetTo(l, v)
    ensures var raw := SplitAll(l, '=');
            |raw| >= 2 && raw[0] == FlagKey && raw[1] == v
  {
    assert '=' !in FlagKey;
    FieldsOfJoin(l, FlagKey, v);
  }

  /** The split-based rule and the reference reading agree on every pair. */
  lemma PairOptsInIffFlagSet(pair: string)
    ensures PairOptsIn(pair) <==> FlagSet(Lower(pair))
  {
    var l := Lower(pair);
    PairOptsInRawFields(pair);
    if PairOptsIn(pair) {
      RawFieldsGiveFlag(l);
    }
    assert '=' !in "yes" && '=' !in "1" && '=' !in "true";
    if FlagSetTo(l, "yes") {
      FlagGivesRawFields(l, "yes");
    } else if FlagSetTo(l, "1") {
      FlagGivesRawFields(l, "1");
    } else if FlagSetTo(l, "true") {
      FlagGivesRawFields(l, "true");
    }
  }

  /** The flag qualifies in any letter case: MONITOR_DBUS=TRUE, Monitor_Dbus=Yes, ... */
  lemma FlagInAnyCaseOptsIn(pair: string, v: string)
    requires Truthy(v) && Lower(pair) == FlagKey + "=" + v
    ensures PairOptsIn(pair)
  {
    PairOptsInIffFlagSet(pair);
  }

  /** A value outside yes/1/true, such as no or false, does not qualify in any letter case. */
  lemma OtherValueDoesNotOptIn(pair: string, v: string)
    requires !Truthy(v) && '=' !in v && Lower(pair) == FlagKey + "=" + v
    ensures !PairOptsIn(pair)
  {
    assert '=' !in FlagKey;
    FieldsOfJoin(Lower(pair), FlagKey, v);
    PairOptsInRawFields(pair);
  }

  /** A pair without any '=', such as a bare MONITOR_DBUS, never qualifies. */
  lemma BareKeyDoesNotOptIn(pair: string)
    requires '=' !in pair
    ensures !PairOptsIn(pair)
  {
    var l := Lower(pair);
    assert '=' !in l by {
      forall i | 0 <= i < |l| ensures l[i] != '=' {
        assert pair[i] != '=';
      }
    }
    assert SplitAll(l, '=') == [l];
    PairOptsInRawFields(pair);
  }

  // ---------------------------------------------------------------------
  // monitored_service? and discover_units

  /** Some pair of the Environment list switches monitoring on (the early-return `each`). */
  predicate OptedIn(env: seq<string>) {
    exists k :: 0 <= k < |env| && PairOptsIn(env[k])
  }

  /**
   * monitored_service?: false for a non-service without asking the bus; for a
   * service, GetUnit and the Environment read, whose D-Bus failures are not
   * rescued and so surface as DBusError.
   */
  function MonitoredService(bus: Bus, name: string): Result<bool, Error> {
    if !IsService(name) then Ok(false)
    else match bus.getUnit(name)
      case None => Err(DBusError(name))
      case Some(path) =>
        match bus.environment(path)
        case None => Err(DBusError(name))
        case Some(env) => Ok(OptedIn(env))
  }

  /**
   * The verdict in full: a service is monitored exactly when its unit resolves,
   * its Environment reads and some pair opts in; it fails exactly when one of
   * the two lookups fails.
   */
  lemma MonitoredServiceVerdict(bus: Bus, name: string)
    ensures !IsService(name) ==> MonitoredService(bus, name) == Ok(false)
    ensures MonitoredService(bus, name) == Ok(true) <==>
              IsService(name) && bus.getUnit(name).Some? &&
              bus.environment(bus.getUnit(name).value).Some? &&
              OptedIn(bus.environment(bus.getUnit(name).value).value)
    ensures MonitoredService(bus, name).Err? <==>
              IsService(name) &&
              (bus.getUnit(name).None? || bus.environment(bus.getUnit(name).value).None?)
    ensures MonitoredService(bus, name).Err? ==> MonitoredService(bus, name).error == DBusError(name)
  {
  }

  /** The verdict for a non-service does not depend on the bus at all. */
  lemma NonServiceIgnoresBus(b1: Bus, b2: Bus, name: string)
    requires !IsService(name)
    ensures MonitoredService(b1, name) == MonitoredService(b2, name) == Ok(false)
  {
  }

  /**
   * discover_units over a list of unit names: the names that pass
   * monitored_service?, in list order; the first D-Bus failure aborts the whole pass.
   */
  function DiscoverUnits(bus: Bus, names: seq<string>): (r: Result<seq<string>, Error>)
    ensures r.Ok? <==> forall k :: 0 <= k < |names| ==> MonitoredService(bus, names[k]).Ok?
    ensures r.Ok? ==> forall n :: n in r.value <==> n in names && MonitoredService(bus, n) == Ok(true)
    ensures r.Ok? ==> IsSubsequence(r.value, names)
    ensures r.Err? ==> exists k :: 0 <= k < |names| && MonitoredService(bus, names[k]) == Err(r.error) &&
                                 forall j :: 0 <= j < k ==> MonitoredService(bus, names[j]).Ok?
  {
    if names == [] then Ok([])
    else
      match MonitoredService(bus, names[0])
      case Err(e) => Err(e)
      case Ok(monitored) =>
        match DiscoverUnits(bus, names[1..])
        case Err(e) => Err(e)
        case Ok(rest) => Ok(if monitored then [names[0]] + rest else rest)
  }

  /** `select` keeps every occurrence: each monitored name appears as often as it is listed, others never. */
  lemma {:induction false} DiscoverUnitsCounts(bus: Bus, names: seq<string>)
    requires DiscoverUnits(bus, names).Ok?
    ensures forall n :: multiset(DiscoverUnits(bus, names).value)[n] ==
                          if MonitoredService(bus, n) == Ok(true) then multiset(names)[n] else 0
  {
    if names != [] {
      var tail := names[1..];
      DiscoverUnitsCounts(bus, tail);
      var rest := DiscoverUnits(bus, tail).value;
      var head := if MonitoredService(bus, names[0]) == Ok(true) then [names[0]] else [];
      assert DiscoverUnits(bus, names).value == head + rest;
      assert names == [names[0]] + tail;
      assert multiset(names) == multiset{names[0]} + multiset(tail);
      forall n ensures multiset(head + rest)[n] ==
                         if MonitoredService(bus, n) == Ok(true) then multiset(names)[n] else 0 {
        assert multiset(head + rest) == multiset(head) + multiset(rest);
      }
    }
  }
}
