/**
 * The partition catalog (`get_datas`) and the incremental filter
 * (`filter_new_data`).  Rows are stored in directories named
 * `event_date=<date>`, one per day; before writing, the rows whose day is
 * already stored are dropped.
 */
module Partitions {
  import opened Wrappers
  import opened Text
  import opened Sequences

  const PartitionPrefix: string := "event_date="

  /** The name of the directory that holds the rows of `date`. */
  function PartitionName(date: string): string {
    PartitionPrefix + date
  }

  /** The directory names of a sequence of dates, in the same order. */
  function PartitionNames(dates: seq<string>): seq<string> {
    Map(dates, PartitionName)
  }

  /**
   * What one listed name contributes to `get_datas`: for a name starting
   * with `event_date=`, the text between its first and second `=`.
   */
  function DateOfPartition(name: string): (r: Option<string>)
    ensures r.Some? <==> StartsWith(name, PartitionPrefix)
    ensures r.Some? ==> '=' !in r.value
  {
    if StartsWith(name, PartitionPrefix) then
      assert name[10] == PartitionPrefix[10];
      Some(SecondField(name, '='))
    else None
  }

  /** A partition name has an `=`, and its date is the field after it. */
  lemma {:induction false} PartitionField(name: string)
    ensures DateOfPartition(name).Some? ==>
      '=' in name && DateOfPartition(name).value == SecondField(name, '=')
  {
    if StartsWith(name, PartitionPrefix) {
      assert name[10] == PartitionPrefix[10];
    }
  }

  /**
   * `get_datas(base_path)`: `listing` is the directory's entries in the
   * order the operating system lists them, or `None` when the directory
   * does not exist.  No date found contains `=`.
   */
  function GetDatas(listing: Option<seq<string>>): (dates: seq<string>)
    ensures listing.None? ==> dates == []
    ensures forall k :: 0 <= k < |dates| ==> '=' !in dates[k]
  {
    match listing
    case None => []
    case Some(names) =>
      FilterMapByIndices(names, DateOfPartition);
      FilterMap(names, DateOfPartition)
  }

  /** What one row contributes to `filter_new_data`: itself, unless its day is already stored. */
  function Fresh<R>(existing: seq<string>, eventDate: R -> string): R -> Option<R> {
    (row: R) => if eventDate(row) in existing then None else Some(row)
  }

  /**
   * `filter_new_data(df, base_path)`: the rows whose `event_date` is not
   * among the stored dates, with the input returned as it is when nothing is
   * stored or there are no rows.  `eventDate` reads a row's `event_date`.
   */
  function FilterNewData<R>(rows: seq<R>, eventDate: R -> string, listing: Option<seq<string>>): (r: seq<R>)
    ensures |r| <= |rows|
  {
    var existing := GetDatas(listing);
    if existing == [] || rows == [] then rows
    else FilterMap(rows, Fresh(existing, eventDate))
  }

  // ---------------------------------------------------------------------
  // Properties

  /** A date without `=` is read back from its own directory name. */
  lemma {:induction false} PartitionNameRoundTrip(date: string)
    requires '=' !in date
    ensures DateOfPartition(PartitionName(date)) == Some(date)
  {
    var name := PartitionName(date);
    assert name == "event_date" + ['='] + date;
    BeforeJoin("event_date", '=', date);
    assert name[|"event_date"| + 1..] == date;
    BeforeWhole(date, '=');
  }

  /**
   * The catalog lists, in listing order, one date for each name starting
   * with `event_date=` and nothing for the other names.
   */
  lemma {:induction false} GetDatasKeepsPartitions(names: seq<string>)
    ensures var dates, idx := GetDatas(Some(names)), KeptIndices(names, DateOfPartition);
      && |dates| == |idx| <= |names|
      && StrictlyIncreasing(idx)
      && (forall i :: 0 <= i < |names| ==> (i in idx <==> StartsWith(names[i], PartitionPrefix)))
      && (forall k :: 0 <= k < |idx| ==>
            idx[k] < |names| && '=' in names[idx[k]] && dates[k] == SecondField(names[idx[k]], '='))
  {
    var dates, idx := GetDatas(Some(names)), KeptIndices(names, DateOfPartition);
    FilterMapByIndices(names, DateOfPartition);
    forall i | 0 <= i < |names|
      ensures i in idx <==> StartsWith(names[i], PartitionPrefix)
    {
      KeptIff(names, DateOfPartition, i);
    }
    forall k | 0 <= k < |idx|
      ensures idx[k] < |names| && '=' in names[idx[k]] && dates[k] == SecondField(names[idx[k]], '=')
    {
      PartitionField(names[idx[k]]);
    }
  }

  /** Directories written for dates without `=` are read back as exactly those dates, in order. */
  lemma {:induction false} GetDatasRoundTrip(dates: seq<string>)
    requires forall k :: 0 <= k < |dates| ==> '=' !in dates[k]
    ensures GetDatas(Some(PartitionNames(dates))) == dates
  {
    forall k | 0 <= k < |dates|
      ensures DateOfPartition(PartitionName(dates[k])) == Some(dates[k])
    {
      PartitionNameRoundTrip(dates[k]);
    }
    FilterMapDecodes(dates, PartitionName, DateOfPartition);
  }

  /**
   * The guard of `filter_new_data` is only a shortcut: whatever the inputs,
   * the result is the plain filter that drops the rows whose day is stored.
   */
  lemma {:induction false} FilterNewDataIsFilter<R>(rows: seq<R>, eventDate: R -> string, listing: Option<seq<string>>)
    ensures FilterNewData(rows, eventDate, listing) == FilterMap(rows, Fresh(GetDatas(listing), eventDate))
  {
    var existing := GetDatas(listing);
    if existing == [] || rows == [] {
      FilterMapKeepsAll(rows, Fresh(existing, eventDate));
    }
  }

  /**
   * The result is a subsequence of the input: in input order, exactly the
   * rows whose `event_date` is not among the stored dates.
   */
  lemma {:induction false} FilterNewDataKeeps<R>(rows: seq<R>, eventDate: R -> string, listing: Option<seq<string>>)
    ensures var r, idx := FilterNewData(rows, eventDate, listing), KeptIndices(rows, Fresh(GetDatas(listing), eventDate));
      && |r| == |idx| <= |rows|
      && StrictlyIncreasing(idx)
      && (forall i :: 0 <= i < |rows| ==> (i in idx <==> eventDate(rows[i]) !in GetDatas(listing)))
      && (forall k :: 0 <= k < |idx| ==> idx[k] < |rows| && r[k] == rows[idx[k]])
  {
    var step := Fresh(GetDatas(listing), eventDate);
    FilterNewDataIsFilter(rows, eventDate, listing);
    FilterMapByIndices(rows, step);
    forall i | 0 <= i < |rows|
      ensures i in KeptIndices(rows, step) <==> eventDate(rows[i]) !in GetDatas(listing)
    {
      KeptIff(rows, step, i);
    }
  }

  /** The input comes back unchanged exactly when none of its days is stored. */
  lemma {:induction false} FilterNewDataUnchanged<R>(rows: seq<R>, eventDate: R -> string, listing: Option<seq<string>>)
    ensures FilterNewData(rows, eventDate, listing) == rows <==>
      forall i :: 0 <= i < |rows| ==> eventDate(rows[i]) !in GetDatas(listing)
  {
    var step := Fresh(GetDatas(listing), eventDate);
    FilterNewDataIsFilter(rows, eventDate, listing);
    if forall i :: 0 <= i < |rows| ==> eventDate(rows[i]) !in GetDatas(listing) {
      FilterMapKeepsAll(rows, step);
    } else {
      var i :| 0 <= i < |rows| && eventDate(rows[i]) in GetDatas(listing);
      FilterMapShrinks(rows, step, i);
    }
  }

  /** Against a catalog that already holds every day of the input, nothing is left. */
  lemma {:induction false} CoveredLeavesNothing<R>(rows: seq<R>, eventDate: R -> string, listing: Option<seq<string>>)
    requires forall i :: 0 <= i < |rows| ==> eventDate(rows[i]) in GetDatas(listing)
    ensures FilterNewData(rows, eventDate, listing) == []
  {
    FilterNewDataIsFilter(rows, eventDate, listing);
    FilterMapEmpty(rows, Fresh(GetDatas(listing), eventDate));
  }

  /** Filtering a second time against the same catalog changes nothing. */
  lemma {:induction false} FilterNewDataIdempotent<R>(rows: seq<R>, eventDate: R -> string, listing: Option<seq<string>>)
    ensures var once := FilterNewData(rows, eventDate, listing);
      FilterNewData(once, eventDate, listing) == once
  {
    var once := FilterNewData(rows, eventDate, listing);
    FilterNewDataKeeps(rows, eventDate, listing);
    FilterNewDataUnchanged(once, eventDate, listing);
  }

  /** The names of a listing, none when the directory does not exist. */
  function Names(listing: Option<seq<string>>): seq<string> {
    listing.GetOr([])
  }

  /**
   * Adding the directories of new dates (without `=`) to a listing adds
   * exactly those dates, in order, at the end of the catalog.
   */
  lemma {:induction false} CatalogAfterWrite(listing: Option<seq<string>>, written: seq<string>)
    requires forall k :: 0 <= k < |written| ==> '=' !in written[k]
    ensures GetDatas(Some(Names(listing) + PartitionNames(written))) == GetDatas(listing) + written
  {
    GetDatasRoundTrip(written);
    FilterMapAppend(Names(listing), PartitionNames(written), DateOfPartition);
  }

  /** The `event_date` of each row, in order. */
  function EventDates<R>(rows: seq<R>, eventDate: R -> string): seq<string> {
    Map(rows, eventDate)
  }

  /**
   * The distinct values of `dates`, each once, in order of first
   * occurrence: the partition directories a write of rows with these dates
   * creates.
   */
  function Days(dates: seq<string>): (days: seq<string>)
    ensures forall d :: d in days <==> d in dates
    ensures forall i, j :: 0 <= i < j < |days| ==> days[i] != days[j]
    decreases |dates|
  {
    if dates == [] then []
    else
      var init, last := dates[..|dates| - 1], dates[|dates| - 1];
      var days := Days(init);
      assert forall d :: d in dates <==> d in init || d == last;
      if last in days then days else days + [last]
  }

  /**
   * The listing of the base directory after a run: the Parquet write adds one
   * `event_date=` directory for each day of the rows that passed the filter
   * (none when no row passed), and the directory exists afterwards.
   */
  function ListingAfterWrite<R>(listing: Option<seq<string>>, kept: seq<R>, eventDate: R -> string): Option<seq<string>> {
    Some(Names(listing) + PartitionNames(Days(EventDates(kept, eventDate))))
  }

  /** Every row the filter keeps is a row of its input. */
  lemma {:induction false} KeptRowsFromInput<R>(rows: seq<R>, eventDate: R -> string, listing: Option<seq<string>>, k: nat)
    requires k < |FilterNewData(rows, eventDate, listing)|
    ensures exists i :: 0 <= i < |rows| && rows[i] == FilterNewData(rows, eventDate, listing)[k]
  {
    FilterNewDataKeeps(rows, eventDate, listing);
    var idx := KeptIndices(rows, Fresh(GetDatas(listing), eventDate));
    assert rows[idx[k]] == FilterNewData(rows, eventDate, listing)[k];
  }

  /** After the write, the catalog holds the earlier dates followed by the new days. */
  lemma {:induction false} CatalogAfterRun<R>(rows: seq<R>, eventDate: R -> string, listing: Option<seq<string>>)
    requires forall i :: 0 <= i < |rows| ==> '=' !in eventDate(rows[i])
    ensures var kept := FilterNewData(rows, eventDate, listing);
      GetDatas(ListingAfterWrite(listing, kept, eventDate)) == GetDatas(listing) + Days(EventDates(kept, eventDate))
  {
    var kept := FilterNewData(rows, eventDate, listing);
    var written := EventDates(kept, eventDate);
    forall k | 0 <= k < |written|
      ensures '=' !in written[k]
    {
      KeptRowsFromInput(rows, eventDate, listing, k);
    }
    var days := Days(written);
    forall k | 0 <= k < |days|
      ensures '=' !in days[k]
    {
      assert days[k] in written;
    }
    CatalogAfterWrite(listing, days);
  }

  /**
   * A second run over the same rows finds nothing new: once the rows that
   * passed the filter are written, one `event_date=` directory per day,
   * filtering the whole input again against the grown catalog leaves
   * nothing, so no day is stored twice.
   */
  lemma {:induction false} WrittenRowsAreNotNew<R>(rows: seq<R>, eventDate: R -> string, listing: Option<seq<string>>)
    requires forall i :: 0 <= i < |rows| ==> '=' !in eventDate(rows[i])
    ensures var kept := FilterNewData(rows, eventDate, listing);
      FilterNewData(rows, eventDate, ListingAfterWrite(listing, kept, eventDate)) == []
  {
    var kept := FilterNewData(rows, eventDate, listing);
    var after := ListingAfterWrite(listing, kept, eventDate);
    var days := Days(EventDates(kept, eventDate));
    CatalogAfterRun(rows, eventDate, listing);
    FilterNewDataKeeps(rows, eventDate, listing);
    var idx := KeptIndices(rows, Fresh(GetDatas(listing), eventDate));
    forall i | 0 <= i < |rows|
      ensures eventDate(rows[i]) in GetDatas(after)
    {
      if eventDate(rows[i]) !in GetDatas(listing) {
        var k :| 0 <= k < |idx| && idx[k] == i;
        assert EventDates(kept, eventDate)[k] == eventDate(rows[i]);
        assert eventDate(rows[i]) in days;
      }
    }
    CoveredLeavesNothing(rows, eventDate, after);
  }
}
