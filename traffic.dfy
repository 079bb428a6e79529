/**
 * `processa_waze`: the traffic normaliser.  It walks the Waze alerts, keeps
 * those published inside the window, and turns each into a flat row with an
 * id, a category, and a neighbourhood and zone found by reverse geocoding.
 */
module Traffic {
  import opened Wrappers
  import opened Text
  import opened Time
  import opened Sequences

  /** An alert's `location` object: `x` is the longitude, `y` the latitude. */
  datatype Location = Location(x: Option<real>, y: Option<real>)

  /** One raw alert; `None` is a key the alert does not carry. */
  datatype Alert = Alert(
    pubMillis: Option<int>,
    street: Option<string>,
    city: Option<string>,
    alertType: Option<string>,
    subtype: Option<string>,
    location: Option<Location>,
    reliability: Option<int>)

  /** The `address` part of a reverse-geocoding answer. */
  type Address = map<string, string>

  /**
   * What the normaliser consults besides the alerts: the category table
   * `TIPO_EVENTO_MAPPING`, the zone table `ZONA_MAPPING`, and the reverse
   * geocoder, which answers with an address or `None` when the lookup
   * fails (no result, a service error, missing coordinates).
   */
  datatype Enrichment = Enrichment(
    categories: map<(string, string), string>,
    zones: map<string, string>,
    reverse: (Option<real>, Option<real>) -> Option<Address>)

  /** One output row (`alerta`), with the `event_date` derived from its time. */
  datatype TrafficRow = TrafficRow(
    id: string,
    eventTime: Instant,
    category: string,
    street: string,
    city: string,
    neighbourhood: Option<string>,
    zone: string,
    latitude: Option<real>,
    longitude: Option<real>,
    reliability: Option<int>,
    eventDate: string)

  /** The data frame: its rows, and whether it has an `event_date` column. */
  datatype Frame = Frame(rows: seq<TrafficRow>, hasEventDate: bool)

  /** `None / 1000` raises and aborts the whole run. */
  datatype Abort = MissingPubMillis

  const OtherZone: string := "Outra zona"

  /** The id `f"{pubMillis}_{street}"`. */
  function AlertId(millis: int, street: string): string {
    IntToText(millis) + "_" + street
  }

  /** `TIPO_EVENTO_MAPPING.get((type, subtype), f"{type}/{subtype}")`. */
  function Category(categories: map<(string, string), string>, alertType: string, subtype: string): string {
    if (alertType, subtype) in categories then categories[(alertType, subtype)]
    else alertType + "/" + subtype
  }

  /** Python truthiness of an optional string. */
  predicate Filled(s: Option<string>) {
    s.Some? && s.value != ""
  }

  function Lookup(address: Address, key: string): Option<string> {
    if key in address then Some(address[key]) else None
  }

  /**
   * `suburb or neighbourhood or quarter`: the first of the three fields
   * that is present and non-empty; when none is, the value of `quarter`
   * as it stands (absent or empty).
   */
  function Neighbourhood(address: Address): Option<string> {
    var suburb := Lookup(address, "suburb");
    var neighbourhood := Lookup(address, "neighbourhood");
    if Filled(suburb) then suburb
    else if Filled(neighbourhood) then neighbourhood
    else Lookup(address, "quarter")
  }

  /** `name.split(',')[0].strip()`: the key looked up in the zone table. */
  function ZoneKey(name: string): (key: string)
    ensures ',' !in key && Strip(key) == key
  {
    var first := Before(name, ',');
    StripSlice(first);
    StripIdempotent(first);
    Strip(first)
  }

  /** `ZONA_MAPPING.get(key, 'Outra zona')`. */
  function ZoneOf(zones: map<string, string>, name: string): string {
    var key := ZoneKey(name);
    if key in zones then zones[key] else OtherZone
  }

  /**
   * Neighbourhood and zone of an alert from the geocoder's answer.  Without
   * an answer both stay at their initial `''`; with one, the zone is looked
   * up only when a neighbourhood was found.
   */
  function Enrich(zones: map<string, string>, answer: Option<Address>): (Option<string>, string) {
    match answer
    case None => (Some(""), "")
    case Some(address) =>
      var name := Neighbourhood(address);
      (name, if Filled(name) then ZoneOf(zones, name.value) else "")
  }

  /** `(latitude, longitude)` as read from the alert's `location`. */
  function Coordinates(a: Alert): (Option<real>, Option<real>) {
    match a.location
    case None => (None, None)
    case Some(loc) => (loc.y, loc.x)
  }

  /** The row built from an alert published at `millis`. */
  function NormaliseAlert(env: Enrichment, a: Alert, millis: int): TrafficRow {
    var street := a.street.GetOr("");
    var (latitude, longitude) := Coordinates(a);
    var (neighbourhood, zone) := Enrich(env.zones, env.reverse(latitude, longitude));
    TrafficRow(
      AlertId(millis, street), FromMillis(millis),
      Category(env.categories, a.alertType.GetOr(""), a.subtype.GetOr("")),
      street, a.city.GetOr(""), neighbourhood, zone,
      latitude, longitude, a.reliability,
      FormatDate(UtcDate(FromMillis(millis))))
  }

  /** One iteration of the loop: the row an alert contributes, if any. */
  function WazeStep(w: Window, env: Enrichment): Alert -> Option<TrafficRow> {
    (a: Alert) =>
      match a.pubMillis
      case None => None
      case Some(millis) =>
        if InWindow(FromMillis(millis), w) then Some(NormaliseAlert(env, a, millis)) else None
  }

  predicate AllTimed(alerts: seq<Alert>) {
    forall i :: 0 <= i < |alerts| ==> alerts[i].pubMillis.Some?
  }

  /**
   * What `processa_waze` returns: the run aborts as soon as an alert has no
   * `pubMillis`; otherwise the rows of the alerts inside the window, and
   * the `event_date` column exists only when there is at least one row.
   */
  function WazeFrame(alerts: seq<Alert>, w: Window, env: Enrichment): Result<Frame, Abort> {
    if AllTimed(alerts) then
      var rows := FilterMap(alerts, WazeStep(w, env));
      Success(Frame(rows, rows != []))
    else Failure(MissingPubMillis)
  }

  /** The three outcomes of one iteration. */
  lemma {:induction false} WazeStepCases(w: Window, env: Enrichment, a: Alert)
    ensures a.pubMillis.None? ==> WazeStep(w, env)(a) == None
    ensures a.pubMillis.Some? && !InWindow(FromMillis(a.pubMillis.value), w) ==> WazeStep(w, env)(a) == None
    ensures a.pubMillis.Some? && InWindow(FromMillis(a.pubMillis.value), w) ==>
      WazeStep(w, env)(a) == Some(NormaliseAlert(env, a, a.pubMillis.value))
  {
  }

  // ---------------------------------------------------------------------
  // Properties

  /**
   * When every alert carries `pubMillis` the run completes, and exactly the
   * alerts published inside the window, both bounds included, produce a
   * row: one row each, in input order, so there are never more rows than
   * alerts.
   */
  lemma {:induction false} WazeKeepsWindow(alerts: seq<Alert>, w: Window, env: Enrichment)
    requires AllTimed(alerts)
    ensures WazeFrame(alerts, w, env).Success?
    ensures var rows, idx := WazeFrame(alerts, w, env).value.rows, KeptIndices(alerts, WazeStep(w, env));
      && |rows| == |idx| <= |alerts|
      && StrictlyIncreasing(idx)
      && (forall i :: 0 <= i < |alerts| ==>
            (i in idx <==> InWindow(FromMillis(alerts[i].pubMillis.value), w)))
      && (forall k :: 0 <= k < |idx| ==>
            (idx[k] < |alerts| && rows[k] == NormaliseAlert(env, alerts[idx[k]], alerts[idx[k]].pubMillis.value)))
  {
    var step := WazeStep(w, env);
    FilterMapByIndices(alerts, step);
    forall i | 0 <= i < |alerts|
      ensures i in KeptIndices(alerts, step) <==> InWindow(FromMillis(alerts[i].pubMillis.value), w)
    {
      KeptIff(alerts, step, i);
    }
  }

  /** An alert without `pubMillis` aborts the run wherever it stands, even
      outside the window and even after alerts that were kept. */
  lemma {:induction false} MissingPubMillisAborts(alerts: seq<Alert>, w: Window, env: Enrichment, i: nat)
    requires i < |alerts| && alerts[i].pubMillis.None?
    ensures WazeFrame(alerts, w, env) == Failure(MissingPubMillis)
  {
  }

  /**
   * A failed reverse lookup never drops an alert: an alert inside the
   * window whose coordinates the geocoder cannot resolve still has its row,
   * with neighbourhood and zone left at `''`.
   */
  lemma {:induction false} GeocodeFailureKeepsAlert(alerts: seq<Alert>, w: Window, env: Enrichment, i: nat)
    requires AllTimed(alerts) && i < |alerts|
    requires InWindow(FromMillis(alerts[i].pubMillis.value), w)
    requires var (lat, lon) := Coordinates(alerts[i]); env.reverse(lat, lon).None?
    ensures var rows := WazeFrame(alerts, w, env).value.rows;
      exists k :: 0 <= k < |rows|
        && rows[k].id == AlertId(alerts[i].pubMillis.value, alerts[i].street.GetOr(""))
        && rows[k].neighbourhood == Some("") && rows[k].zone == ""
  {
    WazeKeepsWindow(alerts, w, env);
    var idx := KeptIndices(alerts, WazeStep(w, env));
    var k :| 0 <= k < |idx| && idx[k] == i;
    assert WazeFrame(alerts, w, env).value.rows[k] == NormaliseAlert(env, alerts[i], alerts[i].pubMillis.value);
  }

  /**
   * The id `f"{pubMillis}_{street}"` can be taken apart again: the text
   * before its first `_` is the decimal `pubMillis` and the text after it
   * is the street.  So ids differ whenever times or streets differ, and
   * two alerts with the same time and street share an id.
   */
  lemma {:induction false} AlertIdDecodes(millis: int, street: string)
    ensures var id, n := AlertId(millis, street), |IntToText(millis)|;
      && Before(id, '_') == IntToText(millis)
      && id[n + 1..] == street
  {
    IntToTextChars(millis, '_');
    BeforeJoin(IntToText(millis), '_', street);
  }

  lemma {:induction false} AlertIdInjective(m1: int, s1: string, m2: int, s2: string)
    requires AlertId(m1, s1) == AlertId(m2, s2)
    ensures m1 == m2 && s1 == s2
  {
    AlertIdDecodes(m1, s1);
    AlertIdDecodes(m2, s2);
    IntToTextInjective(m1, m2);
  }

  /**
   * An unmapped `(type, subtype)` pair gives a category from which both
   * parts can be read back (when the type itself has no `/`); a mapped pair
   * gives the table's value whatever it is.
   */
  lemma {:induction false} CategoryFallback(categories: map<(string, string), string>, alertType: string, subtype: string)
    requires (alertType, subtype) !in categories && '/' !in alertType
    ensures var c := Category(categories, alertType, subtype);
      Before(c, '/') == alertType && c[|alertType| + 1..] == subtype
  {
    BeforeJoin(alertType, '/', subtype);
  }

  /**
   * The zone is empty only when no neighbourhood is known or the table
   * itself maps the neighbourhood's key to `''`.  Whenever a neighbourhood
   * is known, the zone is the table's entry for the stripped text before its
   * first comma, or "Outra zona" exactly when the table has no such entry.
   */
  lemma {:induction false} ZoneFollowsNeighbourhood(zones: map<string, string>, answer: Option<Address>)
    ensures var (name, zone) := Enrich(zones, answer);
      && (zone == "" <==> !Filled(name) || (ZoneKey(name.value) in zones && zones[ZoneKey(name.value)] == ""))
      && (Filled(name) ==> zone == if ZoneKey(name.value) in zones then zones[ZoneKey(name.value)] else OtherZone)
      && (answer.None? ==> name == Some(""))
  {
    var (name, zone) := Enrich(zones, answer);
    if Filled(name) && ZoneKey(name.value) in zones {
      assert zone == zones[ZoneKey(name.value)];
    }
  }

  /**
   * Every row's `event_date` is the rendering of a real calendar date, the
   * UTC day on which the alert was published.
   */
  lemma {:induction false} EventDateIsUtcDay(env: Enrichment, a: Alert, millis: int)
    ensures var row, d := NormaliseAlert(env, a, millis), UtcDate(FromMillis(millis));
      && row.eventDate == FormatDate(d)
      && ValidDate(d)
      && DayNumber(d) * MicrosPerDay <= row.eventTime < (DayNumber(d) + 1) * MicrosPerDay
  {
    UtcDateIsCalendarDay(FromMillis(millis));
  }

  /** The worked example: an alert published at 1700000000000 on "Av. X". */
  lemma {:induction false} ExampleId()
    ensures AlertId(1700000000000, "Av. X") == "1700000000000_Av. X"
  {
    ExampleMillisText();
  }

  lemma {:induction false} ExampleMillisText()
    ensures NatToText(1700000000000) == "1700000000000"
  {
    assert NatToText(1) == "1";
    assert NatToText(17) == "17";
    assert NatToText(170) == "170";
    assert NatToText(1700) == "1700";
    assert NatToText(17000) == "17000";
    assert NatToText(170000) == "170000";
    assert NatToText(1700000) == "1700000";
    assert NatToText(17000000) == "17000000";
    assert NatToText(170000000) == "170000000";
    assert NatToText(1700000000) == "1700000000";
    assert NatToText(17000000000) == "17000000000";
    assert NatToText(170000000000) == "170000000000";
  }
}

/** The normaliser itself, the loop of `processa_waze`, proved against `Traffic.WazeFrame`. */
module TrafficNormaliser {
  import opened Wrappers
  import opened Text
  import opened Time
  import opened Sequences
  import opened Traffic

  /** `processa_waze(alerts, start_date, end_date)`. */
  method ProcessWaze(alerts: seq<Alert>, w: Window, env: Enrichment) returns (result: Result<Frame, Abort>)
    ensures result == WazeFrame(alerts, w, env)
  {
    ghost var step := WazeStep(w, env);
    var processed: seq<TrafficRow> := [];
    for i := 0 to |alerts|
      invariant forall j :: 0 <= j < i ==> alerts[j].pubMillis.Some?
      invariant processed == FilterMap(alerts[..i], step)
    {
      var alert := alerts[i];
      if alert.pubMillis.None? {
        MissingPubMillisAborts(alerts, w, env, i);
        return Failure(MissingPubMillis);
      }
      assert forall j :: 0 <= j < i + 1 ==> alerts[j].pubMillis.Some?;
      FilterMapExtend(alerts, i, step);
      WazeStepCases(w, env, alert);
      var millis := alert.pubMillis.value;
      var eventTime := FromMillis(millis);
      if !(w.start <= eventTime <= w.end) {
        continue;
      }
      // the dict `alerta`
      var street := alert.street.GetOr("");
      var id := IntToText(millis) + "_" + street;
      var category := Category(env.categories, alert.alertType.GetOr(""), alert.subtype.GetOr(""));
      var latitude, longitude := None, None;
      if alert.location.Some? {
        latitude, longitude := alert.location.value.y, alert.location.value.x;
      }
      // the geocoding `try` block; a failed lookup keeps both at ''
      var neighbourhood, zone := Some(""), "";
      var answer := env.reverse(latitude, longitude);
      if answer.Some? {
        neighbourhood := Neighbourhood(answer.value);
        if Filled(neighbourhood) {
          zone := ZoneOf(env.zones, neighbourhood.value);
        }
      }
      assert (neighbourhood, zone) == Enrich(env.zones, answer);
      var row := TrafficRow(id, eventTime, category, street, alert.city.GetOr(""),
        neighbourhood, zone, latitude, longitude, alert.reliability,
        FormatDate(UtcDate(eventTime)));
      assert row == NormaliseAlert(env, alert, millis);
      processed := processed + [row];
    }
    assert alerts[..|alerts|] == alerts;
    result := Success(Frame(processed, processed != []));
  }
}
