# Traffic and weather ingestion pipeline — a verified model

`waze-e-meteorologia/pipeline.py` collects two feeds, Waze traffic alerts and
the weather-station readings of the Rio de Janeiro open-data service. It
normalises each feed into flat rows, keeps the rows whose event time falls in a
closed window `[start_date, end_date]`, and stores the rows as Parquet
directories partitioned by `event_date`. Days that are already stored are
skipped. This project models the part of the program that decides what is
stored:

- **Traffic normaliser** (`processa_waze`), in `traffic.dfy`. Each alert gets:
  - an id `f"{pubMillis}_{street}"`;
  - a category from `TIPO_EVENTO_MAPPING`, or `"type/subtype"` when the pair is
    not in the table;
  - a neighbourhood from the reverse geocoder's address: suburb, then
    neighbourhood, then quarter;
  - a zone from `ZONA_MAPPING`, or `"Outra zona"` when the neighbourhood is
    not in the table;
  - the UTC calendar day as `event_date`.
- **Weather normaliser** (`processa_meteorologia`), in `weather.dfy`. It skips
  features without a usable `read_at`. It converts the six free-text
  measurements with `conversor_dados`, which is modelled in `coercion.dfy`.
- **Partition catalog and incremental filter** (`get_datas` and
  `filter_new_data`), in `partitions.dfy`. `pipeline.dfy` ties them to the two
  normalisers.

Both loops are written as Dafny methods:

- `TrafficNormaliser.ProcessWaze` and `WeatherNormaliser.ProcessMeteorologia`
  each run a `for` loop with `continue`, appending to a growing sequence.
- Each is proved equal to a specification function: `Traffic.WazeFrame` and
  `Weather.WeatherFrame`.
- Both specifications are instances of one keep-and-transform walk,
  `Sequences.FilterMap`. Its order, selection and length properties are proved
  once.
- `get_datas` and `filter_new_data` are pure expressions in the source, so they
  are modelled as functions with lemmas.

Representation choices:

- **Times** are integer epoch microseconds, the resolution of Python's
  `datetime`. An alert's time is `pubMillis * 1000`.
- **Calendar dates** come from a proleptic Gregorian calendar proved
  consistent: `Time.DayNumber` inverts `Time.DateOfDay`. They are rendered
  "YYYY-MM-DD", as `str(date)` does.
- **Loosely typed JSON values** (`read_at`, the station id, the measurements)
  use the `Values.Scalar` datatype. It follows Python truthiness and `str()`.
- **`conversor_dados` results** are exact `real` numbers.
- **The two mapping tables** are abstract maps.
- **Foreign calls** become parameters:
  - the reverse geocoder is a function from coordinates to an optional
    address, where `None` stands for every failure of the lookup;
  - date parsing is a function from text to an optional UTC instant;
  - the directory listing is an optional sequence of names, where `None` means
    the directory does not exist.

Behaviours of the code that a reader might not expect, all kept by the model:

- **Alert without `pubMillis`.** The code evaluates `None / 1000`
  (pipeline.py:67-68), which raises outside any `try`, so the whole run
  aborts. The model returns `Failure(MissingPubMillis)`.
- **Empty traffic frame.** The comment at pipeline.py:132 says the frame always
  gets an `event_date` column. The code adds it to the traffic frame only
  inside `if not df.empty` (pipeline.py:125), so a frame without rows has no
  such column (`Traffic.Frame.hasEventDate`). The weather frame always has it
  (pipeline.py:212-216).
- **Failed enrichment.** A failed lookup leaves the neighbourhood and the zone
  at their initial `''` (pipeline.py:80), not at null.
- **No-data values.** `conversor_dados` treats every falsy value as no data,
  including the number 0. It drops the sign of negative readings, so "-5"
  gives 5.

## Model

| member | source | states |
|---|---|---|
| TrafficNormaliser.ProcessWaze | waze-e-meteorologia/pipeline.py:59-140 | The loop over the alerts returns exactly `WazeFrame`. An alert without `pubMillis` anywhere in the batch aborts the run; otherwise the rows of the in-window alerts come back in order, with the `event_date` column present only if there are rows. |
| Traffic.WazeKeepsWindow | waze-e-meteorologia/pipeline.py:62-72 | When every alert has `pubMillis`, alert i produces a row iff `start <= pubMillis*1000 <= end` (both bounds inclusive). Rows follow input order, one per kept alert, and there are never more rows than alerts. |
| Traffic.MissingPubMillisAborts | waze-e-meteorologia/pipeline.py:64-68 | One alert without `pubMillis` at any position makes the whole result `Failure(MissingPubMillis)`, even after kept alerts. |
| Traffic.AlertIdDecodes | waze-e-meteorologia/pipeline.py:75 | The id splits at its first `_` into the decimal text of `pubMillis` and the street, so both can be read back. |
| Traffic.AlertIdInjective | waze-e-meteorologia/pipeline.py:75 | Equal ids imply equal `pubMillis` and equal street. |
| Traffic.ExampleId | waze-e-meteorologia/pipeline.py:75 | `pubMillis = 1700000000000` on "Av. X" gets the id "1700000000000_Av. X". |
| Traffic.CategoryFallback | waze-e-meteorologia/pipeline.py:84-85 | For a type without `/`, an unmapped `(type, subtype)` gives `type + "/" + subtype`, and both parts can be read back from it. |
| Traffic.ZoneKey | waze-e-meteorologia/pipeline.py:101 | The key looked up in the zone table has no comma and no surrounding whitespace. |
| Traffic.ZoneFollowsNeighbourhood | waze-e-meteorologia/pipeline.py:97-101 | The zone is `''` iff no truthy neighbourhood was found, or the table maps the key to `''`. With a truthy neighbourhood, the zone is the table's entry for the stripped text before its first comma, or "Outra zona" exactly when the table has no such entry. Without a geocoder answer, the neighbourhood stays `''`. |
| Traffic.GeocodeFailureKeepsAlert | waze-e-meteorologia/pipeline.py:91-104 | An in-window alert whose lookup fails still has a row, with its own id and with neighbourhood and zone `''`. |
| Traffic.EventDateIsUtcDay | waze-e-meteorologia/pipeline.py:136 | A row's `event_date` renders a valid calendar date: the UTC day whose 24 hours contain the alert's time. |
| WeatherNormaliser.ProcessMeteorologia | waze-e-meteorologia/pipeline.py:143-218 | The loop over the features returns exactly `WeatherFrame`. It never aborts, and skips features without a usable `read_at` or outside the window. |
| Weather.ReadTime | waze-e-meteorologia/pipeline.py:148-160 | A falsy `read_at` has no reading time. A truthy string `read_at` has exactly the time the parser gives for it, and a time that is found always comes from the parser. |
| Weather.WeatherKeepsWindow | waze-e-meteorologia/pipeline.py:162-164 | Feature i produces a row iff it has a reading time t with `start <= t <= end`. Rows follow input order, one per kept feature, and there are never more rows than features. |
| Weather.UnreadableFeatureSkipped | waze-e-meteorologia/pipeline.py:149-160 | A feature with a missing, falsy or unparseable `read_at` changes nothing: the result equals the result for the batch without it. |
| Weather.FeatureRowFields | waze-e-meteorologia/pipeline.py:184-195 | A row's id is `str(station id)` ("None" when absent). Its station name passes through. Each of the six measurements is empty when its value is a no-data value, and non-negative when converted. Its `event_date` renders the valid UTC day of the reading. |
| Weather.StationIdsDistinct | waze-e-meteorologia/pipeline.py:185 | Different integer station ids give different row ids. |
| Coercion.ConversorDados | waze-e-meteorologia/pipeline.py:170-181 | A no-data value (falsy, "N/D", "-") gives `None`. Any number returned is non-negative and comes from text that contains a digit. |
| Coercion.FirstRun | waze-e-meteorologia/pipeline.py:176 | The regex search finds nothing iff the text has no digit, comma or dot. A match is non-empty and made of those characters only. |
| Coercion.RunStart | waze-e-meteorologia/pipeline.py:176 | The search starts at the first digit, comma or dot. Nothing before it is one. |
| Coercion.RunLength | waze-e-meteorologia/pipeline.py:176 | The match is maximal: it extends up to the first character outside the class. |
| Coercion.ParseDecimal | waze-e-meteorologia/pipeline.py:178 | `float()` of digits and dots succeeds iff there is at most one dot and at least one digit. The value is then non-negative. |
| CoercionFacts.CoerceInteger | waze-e-meteorologia/pipeline.py:171-178 | A numeric value converts to its magnitude; 0 is falsy and gives `None`. |
| CoercionFacts.CoerceDecimal | waze-e-meteorologia/pipeline.py:176-178 | Text whose first number is `whole`, one separator (comma or dot), `frac`, with at least one digit in all, converts to exactly whole.frac, whatever non-numeric text surrounds it. This covers "25,3", "25.3" and ".5". |
| CoercionFacts.CoerceWholeNumber | waze-e-meteorologia/pipeline.py:176-178 | Text whose first number is a plain integer converts to that integer, whatever non-numeric text surrounds it. |
| CoercionFacts.CoerceTwoSeparators | waze-e-meteorologia/pipeline.py:176-180 | A first number with two separators gives `None`. That covers a thousands-grouped one such as "1.234,5", and also one that starts with a separator, such as ".5,3". |
| CoercionFacts.ParseNatText | waze-e-meteorologia/pipeline.py:178 | `float(str(n))` is n. |
| CoercionFacts.ExampleDecimalComma | waze-e-meteorologia/pipeline.py:170-181 | "25,3 °C" gives 25.3. |
| CoercionFacts.ExampleDecimalDot | waze-e-meteorologia/pipeline.py:170-181 | "25.3" gives 25.3. |
| CoercionFacts.ExampleLeadingDot | waze-e-meteorologia/pipeline.py:170-181 | ".5" gives 0.5. |
| CoercionFacts.ExamplePercent | waze-e-meteorologia/pipeline.py:170-181 | "78%" gives 78. |
| CoercionFacts.ExampleNegative | waze-e-meteorologia/pipeline.py:170-181 | "-5" gives 5: the sign is dropped. |
| CoercionFacts.ExampleGrouped | waze-e-meteorologia/pipeline.py:170-181 | "1.234,5" gives `None`. |
| Partitions.GetDatas | waze-e-meteorologia/pipeline.py:221-224 | A missing directory gives `[]`. No returned date contains `=`. |
| Partitions.DateOfPartition | waze-e-meteorologia/pipeline.py:224 | A name contributes a date iff it starts with `event_date=`. The date is free of `=`. |
| Partitions.GetDatasKeepsPartitions | waze-e-meteorologia/pipeline.py:224 | The catalog has one date per name starting with `event_date=`, in listing order. That date is the text between the first and second `=`. Other names contribute nothing. |
| Partitions.PartitionNameRoundTrip | waze-e-meteorologia/pipeline.py:224 | The directory `event_date=<d>` reads back as d when d has no `=`. |
| Partitions.GetDatasRoundTrip | waze-e-meteorologia/pipeline.py:224 | A listing of `event_date=<d>` directories reads back as exactly those dates, in order. |
| Partitions.FilterNewData | waze-e-meteorologia/pipeline.py:227-231 | The result is never longer than the input. |
| Partitions.FilterNewDataIsFilter | waze-e-meteorologia/pipeline.py:229-231 | The fast path (nothing stored, or no rows) agrees with the general filter on every input. |
| Partitions.FilterNewDataKeeps | waze-e-meteorologia/pipeline.py:231 | The result is the input rows whose `event_date` is not stored, in input order, one each. So it is a subsequence of the input. |
| Partitions.FilterNewDataUnchanged | waze-e-meteorologia/pipeline.py:229-230 | The input comes back unchanged iff none of its days is stored. This covers the empty catalog and the empty input. |
| Partitions.CoveredLeavesNothing | waze-e-meteorologia/pipeline.py:231 | Against a catalog holding every day of the input, nothing is left. |
| Partitions.FilterNewDataIdempotent | waze-e-meteorologia/pipeline.py:227-231 | Filtering twice against the same catalog equals filtering once. |
| Partitions.CatalogAfterWrite | waze-e-meteorologia/pipeline.py:277-291 | Adding `event_date=` directories for new dates appends exactly those dates, in order, to the catalog. |
| Partitions.Days | waze-e-meteorologia/pipeline.py:280 | The directories a partitioned write creates: each date of the written rows exactly once. |
| Partitions.CatalogAfterRun | waze-e-meteorologia/pipeline.py:272-291 | After a run, the catalog is the earlier dates followed by the days of the rows that passed the filter. |
| Partitions.WrittenRowsAreNotNew | waze-e-meteorologia/pipeline.py:272-291 | After the rows that pass the filter are written, one directory per distinct day, a second filter of the WHOLE input against the grown listing leaves nothing: no day is stored twice. |
| Pipeline.TrafficWrittenOnce | waze-e-meteorologia/pipeline.py:274-283 | For the traffic frame: after the filtered rows are written, a second run over the same frame filters every row out, because a rendered date has no `=`. |
| Pipeline.WeatherWrittenOnce | waze-e-meteorologia/pipeline.py:273-291 | The same holds for the weather frame. |
| Pipeline.EmptyTrafficFrameUntouched | waze-e-meteorologia/pipeline.py:125-138 | A completed traffic frame has the `event_date` column iff it has rows, so a frame without rows has no such column. The filter returns a frame without the column unchanged. |
| Sequences.FilterMapByIndices | waze-e-meteorologia/pipeline.py:62-120 | The walk with `continue` and `append` keeps exactly the items whose step answers a value. Each kept item gives one output, in input order. |
| Sequences.FilterMapAppend | waze-e-meteorologia/pipeline.py:146-195 | Walking two lists one after the other gives the two walks' outputs joined. |
| Time.UtcDateIsCalendarDay | waze-e-meteorologia/pipeline.py:136 | `t.date()` in UTC is a valid date d with `DayNumber(d) * 86400 s <= t < (DayNumber(d) + 1) * 86400 s`. |
| Time.WalkForward | waze-e-meteorologia/pipeline.py:136 | Counting n days forward from 1 January of year y lands on a valid date, n days after it. |
| Time.YearStep | waze-e-meteorologia/pipeline.py:136 | Consecutive 1 Januaries are 365 or 366 days apart, by the Gregorian leap rule. |
| Time.FormatDate | waze-e-meteorologia/pipeline.py:136 | The rendering of a date never contains `=`, so it can name a partition. |
| Time.FormatDateFields | waze-e-meteorologia/pipeline.py:136 | For years 0..9999 the rendering is "YYYY-MM-DD", and its fields read back as year, month and day. |
| Text.NatToTextRoundTrip | waze-e-meteorologia/pipeline.py:75 | Reading the decimal text of n gives n back. |
| Text.IntToTextInjective | waze-e-meteorologia/pipeline.py:75 | Different integers have different `str()` texts. |
| Text.StripSlice | waze-e-meteorologia/pipeline.py:101 | `strip()` returns a slice of its input. Everything outside the slice is whitespace, and the slice neither starts nor ends with whitespace. |
| Text.StripIdempotent | waze-e-meteorologia/pipeline.py:101 | Stripping twice is stripping once. |
| Text.Before | waze-e-meteorologia/pipeline.py:101 | `split(sep)[0]` is the longest prefix free of `sep`. |
| Traffic.WazeFrame | waze-e-meteorologia/pipeline.py:59-140 | Definition of the result of `processa_waze`. Its properties are stated by `Traffic.WazeKeepsWindow` (selection, order, count), `Traffic.MissingPubMillisAborts` (abort) and `Pipeline.EmptyTrafficFrameUntouched` (column only with rows). |
| Traffic.NormaliseAlert | waze-e-meteorologia/pipeline.py:74-118 | Definition of the dict `alerta`. Its fields are stated by `Traffic.AlertIdDecodes` (id), `Traffic.CategoryFallback` (category), `Traffic.ZoneFollowsNeighbourhood` and `Traffic.GeocodeFailureKeepsAlert` (neighbourhood, zone) and `Traffic.EventDateIsUtcDay` (event date). |
| Traffic.AlertId | waze-e-meteorologia/pipeline.py:75 | Definition of the id. `Traffic.AlertIdDecodes` and `Traffic.AlertIdInjective` state that both parts can be read back. |
| Traffic.Category | waze-e-meteorologia/pipeline.py:84-85 | Definition of the category lookup. `Traffic.CategoryFallback` states the fallback. |
| Traffic.Enrich | waze-e-meteorologia/pipeline.py:90-104 | Definition of the geocoding `try` block. `Traffic.ZoneFollowsNeighbourhood` states its result. |
| Traffic.Neighbourhood | waze-e-meteorologia/pipeline.py:97-98 | Definition of `suburb or neighbourhood or quarter`. `Traffic.ZoneFollowsNeighbourhood` states when a zone follows from it. |
| Traffic.ZoneOf | waze-e-meteorologia/pipeline.py:100-101 | Definition of the zone lookup. `Traffic.ZoneFollowsNeighbourhood` states its value, and `Traffic.ZoneKey` states its key. |
| Weather.WeatherFrame | waze-e-meteorologia/pipeline.py:143-218 | Definition of the result of `processa_meteorologia`. `Weather.WeatherKeepsWindow` and `Weather.UnreadableFeatureSkipped` state its selection, order and skips. |
| Weather.NormaliseFeature | waze-e-meteorologia/pipeline.py:184-194 | Definition of the dict `dados`. `Weather.FeatureRowFields` states its fields. |
| Coercion.IsNoData | waze-e-meteorologia/pipeline.py:171 | Definition of the no-data test. `Coercion.ConversorDados` states that a no-data value gives `None`. |
| Coercion.CommasToDots | waze-e-meteorologia/pipeline.py:178 | `replace(",", ".")` leaves a text of the same length in which each comma becomes a dot and every other character is unchanged. |
| Text.SecondField | waze-e-meteorologia/pipeline.py:224 | `split(sep)[1]` of a text containing `sep` contains no `sep`. `Partitions.GetDatasKeepsPartitions` states its use in the catalog. |
| Text.Strip | waze-e-meteorologia/pipeline.py:101 | Definition of `strip()`. `Text.StripSlice` and `Text.StripIdempotent` state its properties. |
| Partitions.ListingAfterWrite | waze-e-meteorologia/pipeline.py:277-295 | The model of the Parquet writes and `os.makedirs`. What it assumes about them: the existing entries of the base directory stay as they are; one `event_date=<day>` name is added for each distinct day of the written rows, and none when no row passed the filter; and the directory exists afterwards. `Partitions.CatalogAfterRun` and `Partitions.WrittenRowsAreNotNew` state what follows for the catalog. |
| Time.InWindow | waze-e-meteorologia/pipeline.py:71 | The window test `start_date <= data_evento <= end_date`, inclusive at both ends (also line 163). `Traffic.WazeKeepsWindow` and `Weather.WeatherKeepsWindow` state that it decides which rows are kept. |
| Time.FromMillis | waze-e-meteorologia/pipeline.py:67-68 | `fromtimestamp(pub_millis / 1000)` as an instant in microseconds. `Traffic.EventDateIsUtcDay` states the day it falls on. |
| Time.UtcDate | waze-e-meteorologia/pipeline.py:136 | `.dt.date` of a UTC instant (also line 214). `Time.UtcDateIsCalendarDay` states that it is the valid date whose day contains the instant. |
| Traffic.Coordinates | waze-e-meteorologia/pipeline.py:87-88 | `location.get('y')` and `location.get('x')`, both absent without a `location`. `Traffic.GeocodeFailureKeepsAlert` states what a failed lookup on them leaves. |
| Partitions.Fresh | waze-e-meteorologia/pipeline.py:231 | The mask `~df['event_date'].isin(existing_dates)` for one row. `Partitions.FilterNewDataKeeps` states that exactly the rows it keeps survive, in order. |
| Sequences.FilterMap | waze-e-meteorologia/pipeline.py:61-120 | The `for` loop with `continue` and `append`, never longer than its input. `Sequences.FilterMapByIndices` states which items it keeps, in order. |
| Values.Truthy | waze-e-meteorologia/pipeline.py:149 | Python truthiness of a JSON scalar, as in `if not read_at` (also line 171). `Weather.ReadTime` and `Coercion.ConversorDados` state its effect. |
| Values.ToText | waze-e-meteorologia/pipeline.py:185 | Python `str()` of a JSON scalar ("None" for null). `Weather.FeatureRowFields` and `Weather.StationIdsDistinct` state its use for the row id. |
| Text.IntToText | waze-e-meteorologia/pipeline.py:75 | `str(int)` as in the f-string of the id. `Text.NatToTextRoundTrip` and `Text.IntToTextInjective` state that it reads back and is injective. |

## Left out

- HTTP fetching is not modelled (`get_waze`, `get_meteorologia`, tenacity retry and backoff, the local JSON fallback). It is network and file I/O; the normalisers take the already-fetched lists as input.
- Argument parsing is not modelled. The window bounds are inputs that are already in UTC.
- The Nominatim call is not modelled. Its answer is an injected `Option<Address>`, where `None` stands for every failure, including a call without coordinates.
- Parsing `read_at` with the date parser, `FUSO.localize` and `astimezone` is the injected `TimeParser`.
- The contents of `ZONA_MAPPING` and `TIPO_EVENTO_MAPPING` are not modelled: `mapeamentos` is not part of this model.
- Parquet writing, `os.makedirs` and the real directory listing are not modelled. The listing is an input. Writing is modelled only by its effect on the listing, `Partitions.ListingAfterWrite`: one `event_date=` directory per distinct day of the written rows. The order in which the operating system lists directories is kept as given.
- Progress prints are not modelled.
- The pandas column coercions are not modelled (`to_numeric`, `to_datetime`, `astype('Int64')`). Reliability and coordinates pass through as the alert carries them.
- IEEE floating point is not modelled. `conversor_dados` yields exact decimals. `pubMillis / 1000` is exact: the model assumes the float division and the rounding to microseconds recover `pubMillis * 1000`.
- Coercion.ConversorDados: only ASCII digits are modelled. Python's `\d` and `float()` also accept other Unicode decimal digits.
- Coercion.ConversorDados: float and container values are not modelled, for the measurements and for the station id. The `Scalar` type carries only null, booleans, integers and strings, by choice. So the model loses what `str()` of a JSON float does: "1e-05", which `conversor_dados` turns into 1.0, and a station id such as `1.0`, which becomes the row id "1.0".
- JSON `null` in a string field of an alert (street, city, type, subtype) is treated like an absent key. In Python it would render as "None".
- A present-but-null nested object is not modelled (`properties`, `station`, `data`, `location`). Python would raise on it outside any `try` and abort the run.
- Datetime range limits are not modelled. For a `pubMillis` outside years 1–9999, `datetime.fromtimestamp` raises outside any `try`, so the run aborts; the model does not abort there. Pandas turns instants outside its nanosecond range into NaT. `Time.FormatDate` gives a rendering for every year.
- `Traffic.NormaliseAlert` keeps the neighbourhood as `Option<string>`, because the geocoder's `quarter` may be absent. The zone is always a string.
