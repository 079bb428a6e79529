/**
 * `processa_meteorologia`: the weather normaliser.  It walks the station
 * features, skips those without a usable reading time, keeps those read
 * inside the window and turns each into a row of six coerced measurements.
 */
module Weather {
  import opened Wrappers
  import opened Text
  import opened Time
  import opened Sequences
  import opened Values
  import opened Coercion

  /**
   * One feature, with its nested `properties`, `station` and `data` objects
   * flattened: each field is the scalar `dict.get` finds (`Null` when the
   * key or the enclosing object is absent).
   */
  datatype Feature = Feature(
    readAt: Scalar,
    stationId: Scalar,
    stationName: Scalar,
    temperature: Scalar,
    minimum: Scalar,
    maximum: Scalar,
    humidity: Scalar,
    pressure: Scalar,
    wind: Scalar)

  /** One output row (`dados`) with the `event_date` derived from its time. */
  datatype WeatherRow = WeatherRow(
    id: string,
    eventTime: Instant,
    stationName: Scalar,
    temperature: Option<real>,
    minimum: Option<real>,
    maximum: Option<real>,
    humidity: Option<real>,
    pressure: Option<real>,
    wind: Option<real>,
    eventDate: string)

  /**
   * Turns the text of `read_at` into a UTC instant: the date parser,
   * followed by localisation to America/Sao_Paulo when the text carries no
   * offset and conversion to UTC.  `None` stands for every exception the
   * parser or the conversion raises.
   */
  type TimeParser = string -> Option<Instant>

  /**
   * The reading time of a feature, or `None` when the feature is skipped
   * before the window test: `read_at` is falsy, or parsing it fails (a
   * non-string value is refused by the parser as well).
   */
  function ReadTime(f: Feature, parse: TimeParser): (r: Option<Instant>)
    ensures !Truthy(f.readAt) ==> r.None?
    ensures r.Some? ==> f.readAt.Str? && parse(f.readAt.s) == r
    ensures Truthy(f.readAt) && f.readAt.Str? ==> r == parse(f.readAt.s)
  {
    if !Truthy(f.readAt) then None
    else
      match f.readAt
      case Str(s) => parse(s)
      case _ => None
  }

  /** The row built from a feature read at `t`. */
  function NormaliseFeature(f: Feature, t: Instant): WeatherRow {
    WeatherRow(
      ToText(f.stationId), t, f.stationName,
      ConversorDados(f.temperature), ConversorDados(f.minimum), ConversorDados(f.maximum),
      ConversorDados(f.humidity), ConversorDados(f.pressure), ConversorDados(f.wind),
      FormatDate(UtcDate(t)))
  }

  /** One iteration of the loop: the row a feature contributes, if any. */
  function WeatherStep(w: Window, parse: TimeParser): Feature -> Option<WeatherRow> {
    (f: Feature) =>
      match ReadTime(f, parse)
      case None => None
      case Some(t) => if InWindow(t, w) then Some(NormaliseFeature(f, t)) else None
  }

  /**
   * What `processa_meteorologia` returns: the rows of the features read
   * inside the window.  The run never aborts, and the `event_date` column
   * is present even when there are no rows.
   */
  function WeatherFrame(features: seq<Feature>, w: Window, parse: TimeParser): seq<WeatherRow> {
    FilterMap(features, WeatherStep(w, parse))
  }

  /** The three outcomes of one iteration. */
  lemma {:induction false} WeatherStepCases(w: Window, parse: TimeParser, f: Feature)
    ensures ReadTime(f, parse).None? ==> WeatherStep(w, parse)(f) == None
    ensures ReadTime(f, parse).Some? && !InWindow(ReadTime(f, parse).value, w) ==> WeatherStep(w, parse)(f) == None
    ensures ReadTime(f, parse).Some? && InWindow(ReadTime(f, parse).value, w) ==>
      WeatherStep(w, parse)(f) == Some(NormaliseFeature(f, ReadTime(f, parse).value))
  {
  }

  // ---------------------------------------------------------------------
  // Properties

  /**
   * Exactly the features with a reading time inside the window, both bounds
   * included, produce a row: one row each, in input order, so there are
   * never more rows than features.
   */
  lemma {:induction false} WeatherKeepsWindow(features: seq<Feature>, w: Window, parse: TimeParser)
    ensures var rows, idx := WeatherFrame(features, w, parse), KeptIndices(features, WeatherStep(w, parse));
      && |rows| == |idx| <= |features|
      && StrictlyIncreasing(idx)
      && (forall i :: 0 <= i < |features| ==>
            (i in idx <==> ReadTime(features[i], parse).Some? && InWindow(ReadTime(features[i], parse).value, w)))
      && (forall k :: 0 <= k < |idx| ==>
            && idx[k] < |features|
            && ReadTime(features[idx[k]], parse).Some?
            && rows[k] == NormaliseFeature(features[idx[k]], ReadTime(features[idx[k]], parse).value))
  {
    var step := WeatherStep(w, parse);
    FilterMapByIndices(features, step);
    forall i | 0 <= i < |features|
      ensures i in KeptIndices(features, step) <==>
        ReadTime(features[i], parse).Some? && InWindow(ReadTime(features[i], parse).value, w)
    {
      KeptIff(features, step, i);
    }
  }

  /**
   * A feature without a usable `read_at` (absent, falsy, or rejected by the
   * parser) does not stop the batch: the result is the one the batch
   * without that feature would give.
   */
  lemma {:induction false} UnreadableFeatureSkipped(features: seq<Feature>, w: Window, parse: TimeParser, i: nat)
    requires i < |features| && ReadTime(features[i], parse).None?
    ensures WeatherFrame(features, w, parse) == WeatherFrame(features[..i] + features[i + 1..], w, parse)
  {
    var step := WeatherStep(w, parse);
    assert features == features[..i] + [features[i]] + features[i + 1..];
    FilterMapAppend(features[..i] + [features[i]], features[i + 1..], step);
    FilterMapAppend(features[..i], [features[i]], step);
    FilterMapAppend(features[..i], features[i + 1..], step);
    assert FilterMap([features[i]], step) == [] by {
      assert [features[i]][..0] == [];
    }
  }

  /**
   * A kept feature's row: its id is `str()` of the station id (so the text
   * "None" when the station has none), its station name is passed through,
   * a no-data measurement is empty and every other measurement is a
   * non-negative number found in the measurement's text; its `event_date`
   * renders the UTC calendar day of the reading.
   */
  lemma {:induction false} FeatureRowFields(f: Feature, t: Instant)
    ensures var row := NormaliseFeature(f, t);
      && row.id == ToText(f.stationId)
      && (f.stationId.Null? ==> row.id == "None")
      && row.stationName == f.stationName
      && row.eventTime == t
      && (IsNoData(f.temperature) ==> row.temperature.None?)
      && (IsNoData(f.minimum) ==> row.minimum.None?)
      && (IsNoData(f.maximum) ==> row.maximum.None?)
      && (IsNoData(f.humidity) ==> row.humidity.None?)
      && (IsNoData(f.pressure) ==> row.pressure.None?)
      && (IsNoData(f.wind) ==> row.wind.None?)
      && (row.temperature.Some? ==> row.temperature.value >= 0.0)
      && (row.minimum.Some? ==> row.minimum.value >= 0.0)
      && (row.maximum.Some? ==> row.maximum.value >= 0.0)
      && (row.humidity.Some? ==> row.humidity.value >= 0.0)
      && (row.pressure.Some? ==> row.pressure.value >= 0.0)
      && (row.wind.Some? ==> row.wind.value >= 0.0)
      && ValidDate(UtcDate(t))
      && row.eventDate == FormatDate(UtcDate(t))
  {
    UtcDateIsCalendarDay(t);
  }

  /** An integer station id gives the decimal text of that integer, so two
      stations with different integer ids never share a row id. */
  lemma {:induction false} StationIdsDistinct(a: int, b: int, f: Feature, g: Feature, t: Instant, u: Instant)
    requires f.stationId == Int(a) && g.stationId == Int(b) && a != b
    ensures NormaliseFeature(f, t).id != NormaliseFeature(g, u).id
  {
    if IntToText(a) == IntToText(b) {
      IntToTextInjective(a, b);
    }
  }
}

/** The normaliser itself, the loop of `processa_meteorologia`, proved against `Weather.WeatherFrame`. */
module WeatherNormaliser {
  import opened Wrappers
  import opened Time
  import opened Sequences
  import opened Values
  import opened Coercion
  import opened Weather

  /** `processa_meteorologia(features, start_date, end_date)`. */
  method ProcessMeteorologia(features: seq<Feature>, w: Window, parse: TimeParser) returns (rows: seq<WeatherRow>)
    ensures rows == WeatherFrame(features, w, parse)
  {
    ghost var step := WeatherStep(w, parse);
    rows := [];
    for i := 0 to |features|
      invariant rows == FilterMap(features[..i], step)
    {
      var feature := features[i];
      FilterMapExtend(features, i, step);
      WeatherStepCases(w, parse, feature);
      if !Truthy(feature.readAt) {
        continue;
      }
      if !feature.readAt.Str? {
        continue;
      }
      var parsed := parse(feature.readAt.s);
      if parsed.None? {
        continue;
      }
      var eventTime := parsed.value;
      if !(w.start <= eventTime <= w.end) {
        continue;
      }
      // the dict `dados`
      var row := WeatherRow(
        ToText(feature.stationId), eventTime, feature.stationName,
        ConversorDados(feature.temperature), ConversorDados(feature.minimum), ConversorDados(feature.maximum),
        ConversorDados(feature.humidity), ConversorDados(feature.pressure), ConversorDados(feature.wind),
        FormatDate(UtcDate(eventTime)));
      rows := rows + [row];
    }
    assert features[..|features|] == features;
  }
}
