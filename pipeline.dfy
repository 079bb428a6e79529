/**
 * The storage step of the run: each normalised frame is filtered against
 * its partition catalog before its rows are written, one directory per day.
 */
module Pipeline {
  import opened Wrappers
  import opened Time
  import opened Sequences
  import opened Traffic
  import opened Weather
  import opened Partitions

  function TrafficDate(row: TrafficRow): string { row.eventDate }

  function WeatherDate(row: WeatherRow): string { row.eventDate }

  /**
   * For the traffic frame: once the rows that survive the filter are
   * written, a second run's filter of the same frame against the grown
   * catalog leaves nothing, because the rendering of a day never contains
   * `=`.
   */
  lemma {:induction false} TrafficWrittenOnce(alerts: seq<Alert>, w: Window, env: Enrichment, listing: Option<seq<string>>)
    requires WazeFrame(alerts, w, env).Success?
    ensures var rows := WazeFrame(alerts, w, env).value.rows;
      var kept := FilterNewData(rows, TrafficDate, listing);
      FilterNewData(rows, TrafficDate, ListingAfterWrite(listing, kept, TrafficDate)) == []
  {
    var rows := WazeFrame(alerts, w, env).value.rows;
    WazeKeepsWindow(alerts, w, env);
    forall k | 0 <= k < |rows|
      ensures '=' !in TrafficDate(rows[k])
    {
      var idx := KeptIndices(alerts, WazeStep(w, env));
      var a := alerts[idx[k]];
      assert rows[k] == NormaliseAlert(env, a, a.pubMillis.value);
    }
    WrittenRowsAreNotNew(rows, TrafficDate, listing);
  }

  /** The same cycle for the weather frame. */
  lemma {:induction false} WeatherWrittenOnce(features: seq<Feature>, w: Window, parse: TimeParser, listing: Option<seq<string>>)
    ensures var rows := WeatherFrame(features, w, parse);
      var kept := FilterNewData(rows, WeatherDate, listing);
      FilterNewData(rows, WeatherDate, ListingAfterWrite(listing, kept, WeatherDate)) == []
  {
    var rows := WeatherFrame(features, w, parse);
    WeatherKeepsWindow(features, w, parse);
    forall k | 0 <= k < |rows|
      ensures '=' !in WeatherDate(rows[k])
    {
      var idx := KeptIndices(features, WeatherStep(w, parse));
      var f := features[idx[k]];
      assert rows[k] == NormaliseFeature(f, ReadTime(f, parse).value);
    }
    WrittenRowsAreNotNew(rows, WeatherDate, listing);
  }

  /**
   * A completed traffic frame has an `event_date` column exactly when it has
   * rows, and a frame without the column comes back from the filter
   * unchanged.
   */
  lemma {:induction false} EmptyTrafficFrameUntouched(alerts: seq<Alert>, w: Window, env: Enrichment, listing: Option<seq<string>>)
    requires WazeFrame(alerts, w, env).Success?
    ensures var frame := WazeFrame(alerts, w, env).value;
      frame.hasEventDate <==> frame.rows != []
    ensures var frame := WazeFrame(alerts, w, env).value;
      !frame.hasEventDate ==> FilterNewData(frame.rows, TrafficDate, listing) == frame.rows
  {
  }
}
