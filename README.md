# System-Monitor-Demo: a model of the sensor store

The service keeps two append-only tables. The first, `device_states`, holds one
row per (group, device, ON/OFF status, time). The second,
`important_params`, holds one row per (parameter name, value, time). Four HTTP
endpoints read the tables:

- the latest state of every device;
- the device-state history of a time window;
- the latest value of every parameter;
- the parameter history of a time window.

Two POST endpoints append one row each. At start-up the tables are created.
If seeding is enabled and both tables are empty, they are filled with a
synthetic history:

- one state row per catalog device for every time step;
- one random-walk value per configured parameter for every time step.

The device listing endpoint returns the configured catalog itself.

## How the model is organised

| Dafny file | Contents |
|---|---|
| `wrappers.dfy` | `Option` and `Result`. `Truthy` is Python truthiness of an optional string. |
| `ordering.dfy` | The text order used by `ORDER BY` (code-point lexicographic) and the (major, minor) key order. Also a filter and a stable insertion sort, with their permutation, membership, sortedness and distinctness lemmas. |
| `tables.dfy` | The row types, the device catalog, and `/api/list/devices` (a loop, proved equal to the flattened catalog). |
| `queries.dfy` | The two latest-per-key queries (sqlite's join with `MAX(ts)` and SQL Server's `ROW_NUMBER() = 1`) and the window queries. Each is proved against the definition "latest row of its key" or "row inside the window". |
| `seed.dfy` | The seeding gate, the time buckets, and the two generator loops (imperative methods). Each loop is proved equal to a specification function whose length, indexing, bounds and ordering are proved. |
| `status.dfy` | JSON values of a request body, the status validation and mapping, and `float()` of a value. |
| `clock.dfy` | The proleptic Gregorian calendar, `iso()` (the `%Y-%m-%d %H:%M:%S` text), the `%Y-%m-%d %H:%M` parser behind `strptime`, and the window computation of the two history endpoints. |
| `textorder.dfy` | Comparing the stored `iso` texts agrees with comparing the instants. The queries compare timestamps as text; this is why that is sound. |
| `api.dfy` | The read endpoints: a query's rows rendered as the JSON objects returned. |
| `store.dfy` | `class Db`, holding the two tables and whether they exist. Its methods are `init_db`, `seed_data_if_needed`, `manual_state` and `manual_param`. Lemmas connect writes to what the read endpoints then report. |

Time is a whole number of seconds counted from 0001-01-01 00:00:00, the
earliest `datetime`. The stored form of a time is `iso`'s text, which drops
fractional seconds. The model therefore keeps seconds only.

Several inputs are parameters of the methods and functions:

- the current time `now`;
- the random state draws of the seed (`Draw`);
- Python's salted `hash` (`Hash`);
- the text-to-float parser (`parseText`).

The read endpoints are functions of the table contents. The store's writers
are methods of `Db` that update the contents in place.

The model follows the sqlite path of every query. Its time is the stored text
and its latest-per-key is the join with `MAX(ts)`. The SQL Server latest
queries are modelled beside it (`LatestDeviceStatesRanked`,
`LatestParamsRanked`), and they are proved to return one row per key, each a
latest one.

Where the written description of the system and the code disagree, the model
follows the code:

- The description calls status tokens case-insensitive and lists localised
  synonyms. The validation at app.py:335 is case-sensitive: `"on"` and
  `"true"` are refused. The synonyms in the mapping at app.py:337 therefore
  can never be reached.

## Model

| member | source | states |
|---|---|---|
| Ordering.StrLeTotal | app.py:170 | Any two names are comparable in the text order `ORDER BY` uses |
| Ordering.StrLeTrans | app.py:170 | The text order is transitive |
| Ordering.StrLeAntisym | app.py:170 | Two names that sort before each other are equal, so the order is total on names |
| Ordering.KeyLeTotal | app.py:170 | `ORDER BY group_name, device_name` compares any two keys |
| Ordering.KeyLeTrans | app.py:170 | The two-column key order is transitive |
| Ordering.KeyLeAntisym | app.py:170 | Keys that sort before each other are equal |
| Ordering.KeyLeMajor | app.py:170 | A key sorted before another has a group name that sorts no later |
| Ordering.Filter | app.py:215-217 | A `WHERE` keeps exactly the rows meeting its condition, each with its multiplicity |
| Ordering.FilterMono | app.py:216 | A weaker condition keeps at least the same rows |
| Ordering.Sort | app.py:170 | `ORDER BY` returns a permutation of its input |
| Ordering.SortMembers | app.py:170 | Sorting neither adds nor drops a row |
| Ordering.SortSorted | app.py:170 | Under a total preorder, the sorted result is ordered |
| Ordering.SortDistinct | app.py:170 | Sorting rows with distinct keys keeps the keys distinct |
| Ordering.InsertSorted | app.py:170 | Inserting into an ordered sequence keeps it ordered |
| Tables.ListDevices | app.py:149-156 | The nested loop returns exactly the flattened catalog, group by group |
| Tables.FlattenLength | app.py:152-155 | The listing has one entry per configured device |
| Tables.FlattenMembership | app.py:152-155 | A (group, device) pair is listed iff some configured group of that name lists the device |
| Tables.ExpandMembership | app.py:154-155 | A group lists exactly its own devices, under its own name |
| Tables.FlattenAt | app.py:153-155 | Device `k` of group `i` is at position offset(i)+k of the listing |
| Tables.FlattenPrefix | app.py:153-155 | The listing of the first `i` groups is a prefix of the whole listing |
| Queries.LatestJoinCorrect | app.py:163-171 | The join with `MAX(ts)` returns exactly the rows that are latest for their key, with their multiplicities. Every key present gets a row. The result is ordered by key |
| Queries.LatestRankedCorrect | app.py:173-183 | `ROW_NUMBER() = 1` returns only latest rows, one per key, for every key present, ordered by key |
| Queries.RankedFirstUnique | app.py:176 | Two rows both numbered 1 belong to different keys |
| Queries.HistoryCorrect | app.py:215-217 | The window query returns exactly the stored rows meeting the filter inside `[from, to]`, as a permutation of them, in ascending time |
| Queries.HistoryWiden | app.py:216 | Widening the window never loses a row |
| Queries.LatestDeviceStates | app.py:163-171 | sqlite: a row is returned iff it is latest for its device, with its multiplicity. Exactly the devices present are reported, ordered by (group, device) |
| Queries.LatestDeviceStatesRanked | app.py:173-183 | SQL Server: only latest rows, every device present reported exactly once, ordered by (group, device) |
| Queries.LatestParams | app.py:262-269 | sqlite: a row is returned iff it is latest for its parameter. Exactly the names present are reported, ordered by name |
| Queries.LatestParamsRanked | app.py:271-280 | SQL Server: only latest rows, each stored parameter exactly once, ordered by name |
| Queries.StateHistory | app.py:213-223 | A row is returned iff it is in the window and, when a group is given, belongs to it. Multiplicities are kept and times ascend |
| Queries.ParamHistory | app.py:302-313 | A row is returned iff it is in the window and, when names are given, its name is one of them. Multiplicities are kept and times ascend |
| Queries.StateHistoryWiden | app.py:216 | A wider state window returns a super-multiset of a narrower one |
| Queries.ParamHistoryWiden | app.py:306 | A wider parameter window returns a super-multiset of a narrower one |
| Queries.DevicesCovered | app.py:167-169 | Every stored device is reported when each stored row has a reported row of its key |
| Queries.NamesCovered | app.py:265-267 | Every stored parameter is reported when each stored row has a reported row of its name |
| Seed.SeedGateShut | app.py:70-85 | Seeding runs iff it is enabled and both tables count zero rows or their count raised |
| Seed.BucketInWindow | app.py:94-95 | Bucket `k` is at or before `now` iff `k` is below `H*60/S + 1` |
| Seed.BucketTsIncreasing | app.py:101 | Bucket times strictly increase by the step |
| Seed.BucketBounds | app.py:94-101 | Every visited bucket lies between `now - H hours` and `now` |
| Seed.SeedStates | app.py:93-101 | The bucket loop builds exactly the specified state rows, for any step when `seed_hours` is negative (no bucket) and for a positive step otherwise |
| Seed.SeedBucket | app.py:96-100 | One bucket adds one row per catalog entry, in catalog order, with that bucket's time and the entry's own draw |
| Seed.StateSeedCount | app.py:93-101 | The seed writes buckets × catalog devices state rows |
| Seed.StateSeedAt | app.py:95-100 | Row b·D+j is device j of the catalog at bucket b. The first bucket uses the uniform draw and later buckets the weighted one |
| Seed.StateSeedBounds | app.py:93-101 | Every seeded state is 0 or 1 and inside the window, and times never decrease along the rows |
| Seed.StatesThroughDevices | app.py:96-100 | Every seeded state row belongs to a catalog device |
| Seed.SeedSeries | app.py:117-123 | One parameter's loop builds exactly its random walk, one row per bucket, for any step when `seed_hours` is negative |
| Seed.SeedParams | app.py:115-123 | The parameter loop builds every configured parameter's series, for any step when `seed_hours` is negative. It fails, writing nothing, when a name has no baseline |
| Seed.SeriesAt | app.py:119-123 | Row `a` of a series holds the walk value after `a+1` increments, at bucket `a`'s time |
| Seed.ParamSeedLength | app.py:115-123 | The seed writes parameters × buckets parameter rows |
| Seed.ParamSeedAt | app.py:116-123 | Row i·N+k is parameter `i` at bucket `k` with its walk value |
| Seed.ParamSeedIncreasing | app.py:118-123 | Within one parameter's block, the name is fixed and time strictly increases |
| Seed.ParamSeedBounds | app.py:115-123 | Every seeded parameter row names a configured parameter and lies inside the window |
| Seed.WalkBounds | app.py:110-121 | After `k+1` steps, the walk is within `(k+1)·drift/2` of its baseline |
| Status.AcceptedExactly | app.py:335 | The validation accepts exactly the six strings `ON`, `OFF`, `1`, `0`, `True` and `False` (case-sensitive), plus any number or boolean equal to 0 or 1 |
| Status.StatusNumAsWrittenOnlyFloatOne | app.py:337 | The mapping as written differs from the intended one on exactly one accepted status, the float `1.0` |
| Status.StatusFloatOneStoredOff | app.py:335-337 | `{"status": 1.0}` passes validation and means on, yet the written mapping stores 0 |
| Status.StatusNumMeansOn | app.py:337 | The corrected mapping stores 1 iff the status means on (`ON`, `1`, `"1"`, `True`, `1.0`), and 0 otherwise |
| Status.StringStatusMeansOn | app.py:337 | Of the accepted strings, exactly `ON`, `1` and `True` upper-case to an ON token |
| Status.StringMeansOn | app.py:335 | A string status means on iff it is `ON`, `1` or `True`: a string is never equal to a number |
| Status.UpperAccepted | app.py:337 | `upper()` changes only `True` and `False` among the accepted strings |
| Status.UpperIdempotent | app.py:337 | After `upper()` no lower-case ASCII letter is left, so a second `upper()` changes nothing |
| Clock.DaysBeforeMonthStep | app.py:144-145 | Month offsets accumulate month lengths, and December ends at the year's length |
| Clock.DaysBeforeYearClosed | app.py:144-145 | The days before year `y` follow the Gregorian closed form `365(y-1) + ⌊(y-1)/4⌋ - ⌊(y-1)/100⌋ + ⌊(y-1)/400⌋` |
| Clock.YearDaysCounted | app.py:144-145 | A year has 366 days exactly when the leap rule's three divisibility counts step up |
| Clock.DaysBeforeYearMono | app.py:144-145 | Later years start at least 365 days per year later |
| Clock.DateOf | app.py:144-145 | Every day number names a valid date whose day number is that number |
| Clock.YearOf | app.py:144-145 | The year search lands inside a year and accounts for every day |
| Clock.MonthOf | app.py:144-145 | The month search lands on a valid day of a month and accounts for every day |
| Clock.DateOfDayNumber | app.py:144-145 | Date → day number → date is the identity on valid dates |
| Clock.DayNumberRange | app.py:144-145 | A valid date is representable iff its year is at most 9999 |
| Clock.CivilOf | app.py:144-145 | Every representable instant splits into a valid date and a time of day that recompose to it |
| Clock.Two | app.py:145 | `%H`-style two-digit fields are digits denoting the number |
| Clock.Four | app.py:145 | `%Y` is four digits denoting the year |
| Clock.Iso | app.py:144-145 | `iso` always yields 19 characters |
| Clock.IsoNoT | app.py:144-145 | `iso` text has a space, not `T`, between date and time, so normalising it changes nothing |
| Clock.ParseMinute | app.py:208 | A parsed `%Y-%m-%d %H:%M` time is a representable whole minute |
| Clock.MatchFields | app.py:208 | Every matched field is in its `strptime` range |
| Clock.MatchPadded | app.py:208 | The zero-padded text of any in-range fields matches back to those fields |
| Clock.ParseMinuteString | app.py:208 | Parsing the minute text of a valid date gives that minute's instant |
| Clock.ParseIsoMinute | app.py:144-145 | The first 16 characters of `iso(t)` parse back to the minute containing `t` |
| Clock.CivilMinute | app.py:208 | An instant lies within the minute its civil fields name |
| Clock.NormalizeTIdempotent | app.py:206-207 | Replacing `T` by a space a second time changes nothing |
| Clock.NormalizeTFixed | app.py:206-207 | Text without `T` is unchanged by the replacement |
| Clock.Between | app.py:205-209 | Explicit bounds succeed iff both parse after `T`-normalisation, and yield whole minutes in range. Otherwise the error is a bad time |
| Clock.BetweenNormalized | app.py:206-207 | Normalising the bounds in advance does not change the window |
| Clock.Window | app.py:201-209 | Without both bounds, the window ends at `now` and spans `hours` (default 24), failing only outside the representable range. With both, it is the parsed pair |
| Clock.WindowTForm | app.py:205-207 | The `T` and space forms of a bound give the same window |
| Clock.WindowLocalText | app.py:205-209 | Bounds sent as `datetime-local` text of instants a and b give a window whose ends are those instants truncated to the minute |
| Clock.LocalTextNormal | app.py:205-207 | The `datetime-local` text of an instant normalises to the minute prefix of its `iso` text |
| TextOrder.IsoOrder | app.py:217 | Comparing stored `iso` texts agrees with comparing instants, in both directions, and equal texts mean equal instants |
| TextOrder.IsoMonotone | app.py:167 | An earlier instant never has a later `iso` text |
| TextOrder.PrefixOrder | app.py:145 | Civil times ordered at the first `k` fields have `iso` prefixes ordered the same way |
| TextOrder.InstantBefore | app.py:145 | A civil time before another in field order is an earlier instant |
| TextOrder.BeforeTotal | app.py:145 | Any two civil times are equal or ordered at every prefix of fields |
| Api.RenderStateInjective | app.py:190-191 | Two stored states render to the same JSON object iff they are the same row: the object's text time determines the instant |
| Api.RenderParamInjective | app.py:282 | Two stored parameter values render to the same JSON object iff they are the same row |
| Api.RenderStatesMembers | app.py:188-191 | Every row is rendered, and every object renders some row |
| Api.RenderParamsMembers | app.py:282 | Every row is rendered, and every object renders some row |
| Api.RenderStatesDevices | app.py:188-191 | Rendering keeps the set of (group, device) pairs |
| Api.RenderParamsNames | app.py:282 | Rendering keeps the set of parameter names |
| Api.RenderStatesSorted | app.py:170 | Rendering rows ordered by key keeps the response ordered by (group, device) |
| Api.RenderStatesAscending | app.py:217 | Rows in ascending time render as ascending time texts |
| Api.RenderParamsAscending | app.py:307 | Rows in ascending time render as ascending time texts |
| Api.DeviceStates | app.py:158-192 | Exactly the stored devices are reported, each object being the render of a latest row of its device. Every latest row is reported, ordered by (group, device) |
| Api.ImportantParams | app.py:257-282 | Exactly the stored parameters are reported, each object being the render of a latest row of its name. Every latest row is reported, ordered by name |
| Api.StateHistoryOut | app.py:213-239 | Every stored row inside the window (and of the group, when one is given) is reported. Every object renders such a row, and times ascend |
| Api.ParamHistoryOut | app.py:302-329 | Every stored row inside the window (and among the names, when some are given) is reported. Every object renders such a row, and times ascend |
| Api.DeviceStateHistory | app.py:194-239 | The endpoint fails iff its window does, with the window's error, and otherwise returns the state history of that window |
| Api.ImportantParamsHistory | app.py:284-329 | The endpoint fails iff its window does, with the window's error, and otherwise returns the parameter history of that window |
| Store.Db.constructor | app.py:12-58 | Before `init_db` neither table exists and both are empty |
| Store.Db.InitDb | app.py:12-58 | `CREATE TABLE IF NOT EXISTS`: afterwards the tables exist and any existing rows are kept |
| Store.Db.SeedIfNeeded | app.py:69-138 | A shut gate leaves the tables alone. An open gate fails, writing nothing, on an overflowing window or a negative step over a window that is not negative, then on an unknown parameter, then on a missing table. Otherwise it writes exactly the specified state and parameter rows |
| Store.Db.ManualState | app.py:331-345 | An incomplete or unaccepted body is refused with nothing written, and so is a write before the table exists. Otherwise exactly one row (group, device, status as app.py:337 maps it, now) is appended, so the float `1.0` is stored as 0, the parameter table is untouched, and `iso(now)` is returned |
| Store.Db.ManualParam | app.py:347-362 | A value that `float()` refuses is rejected with nothing written, and so is a write before the table exists or one without a `param` (the `NOT NULL` column). Otherwise exactly one row (param, float value, now) is appended, the state table is untouched, and `iso(now)` is returned |
| Store.ManualStateReported | app.py:331-345 | After a manual write, the latest-state endpoint reports that device with the stored number, `ON` iff it is 1, at the write's time. For every accepted status but the float `1.0`, `ON` iff the status means on. Requires that no stored row of the device is later |
| Store.WriteReported | app.py:158-192 | A state row written no earlier than every row of its device is reported by the latest-state endpoint, `ON` iff its number is 1 |
| Store.CorrectedStateReported | app.py:337 | With the corrected mapping, the reported state is `ON` iff the written status means on, for every accepted status |
| Store.ManualStateOthersUnchanged | app.py:341 | A manual write leaves every other device's latest rows as they were |
| Store.ManualParamReported | app.py:347-362 | After a manual write, the latest-parameter endpoint reports the written value at the write's time |
| Store.ManualStateInHistory | app.py:194-239 | A row written at `now` appears in the default history window ending at `now` |
| Store.SeededDevicesReported | app.py:93-101 | After seeding, the latest-state endpoint reports exactly the catalog's devices, or nothing for a negative `seed_hours` |
| Store.SeedDevices | app.py:93-101 | For a non-negative window, the seeded state rows name exactly the catalog's (group, device) pairs |
| Store.SeedNames | app.py:115-123 | The seeded parameter rows name exactly the configured parameters |
| Store.SeededParamsReported | app.py:115-123 | After seeding, the latest-parameter endpoint reports exactly the configured parameters, or nothing for a negative `seed_hours` |

## Left out

- `db.py` (connection setup, the configuration file) is not part of this model. The configuration arrives as values (`SeedConfig`, the catalog `groups`).
- The Flask plumbing, CORS, the static-file routes, and request bodies that are not JSON objects or not valid JSON are left out. Request fields arrive already decoded.
- `api_list_params` (app.py:242-255) is not modelled. It returns the configuration's list or the distinct stored names, and it is outside the store's core.
- `table_count`'s query is not modelled. Its result arrives as an optional count, `None` when the query raised.
- Floats are reals: rounding, NaN and infinities of `float()` are not modelled.
- The random draws of the seed and Python's salted `hash` are uninterpreted function parameters. A draw is picked by its bucket and catalog position, so every generated row has its own. The weights 1:3 of the later draws are not modelled.
- Only the sqlite dialect drives the endpoints. Two SQL Server details are not modelled:
  - `DATETIME2(0)` storing rounded rather than truncated seconds;
  - its `CONVERT` formatting.
- Collation is plain code-point order; database collations are not modelled.
- The `%Y-%m-%d %H:%M` parser accepts ASCII digits only. `strptime`'s acceptance of non-ASCII digits is not modelled.
- Years below 1000 are not modelled as the platform writes them. Python's `%Y` may write such a year without zero padding, and sqlite's `datetime()` cannot read a year that is not four digits. The model's `iso` always writes four digits (year 1 as `0001`).
- Store.Db.SeedIfNeeded: a `seed_step_minutes` of 0 with a `seed_hours` that is not negative and an in-range window (one starting no earlier than year 1) never leaves the state loop (the source hangs, or runs out of memory while `rows_states` grows), so that one configuration is excluded when the gate is open. A window starting before year 1 raises `OverflowError` before the loop whatever the step, and the model returns that overflow failure. A negative step over such a window is modelled as the overflow failure it ends in.
- Seed.SeedStates, Seed.SeedSeries and Seed.SeedParams: these loops require that they end (a negative `seed_hours`, or a positive step). The store reports the other steps before calling them.
- Seed.SeedParams: when `params` is configured but empty, the seed writes no parameter rows, just as the source does. A `params` value that is not a list is not modelled.
- Non-string group, device or parameter names in request bodies are not modelled.
- A device listed twice in the catalog is listed twice by the model, as by the source. No lemma states distinctness of the listing.
- Store.Db.SeedIfNeeded: the `timedelta` construction limit is not modelled beyond the representable range of the window. A step over 999999999 days with a negative `seed_hours` raises in the source but seeds nothing in the model.
- The read endpoints on tables that do not exist are not modelled: the source raises, and the model reads empty tables.
- Concurrency between requests is left out: each write is one atomic step.
- Store.ManualStateReported and Store.ManualParamReported: these require that no stored row of the key is later than the write. Clocks that move backwards are not covered.

## Findings

| source | as written | input that shows it | evidently intended | confidence | as-written member | corrected member |
|---|---|---|---|---|---|---|
| app.py:335-337 | The status is validated with Python `==`, so the JSON float `1.0` is accepted as equal to 1. The mapping then tests `str(st).upper()`, which is `"1.0"` and not an ON token, so the row is stored as 0 (OFF); Store.Db.ManualState stores it so | `POST /api/manual_state` with `{"group": "g", "device": "d", "status": 1.0}` | An accepted status that equals 1 is stored as 1 (ON) | not executed | Status.StatusNumAsWrittenOnlyFloatOne | Status.StatusNumMeansOn |
