# Event-stream pipeline: the transform stage in Dafny

This project models the transform stage of a small batch pipeline for click-stream
events. Each event has a user id, a timestamp and an event-type label.

The **silver layer** (`src/transform/transform_events.py`) does three things:

1. It normalises every event-type label. The label is trimmed and lower-cased, then
   looked up in a fixed synonym table that maps known variants onto `view`, `cart`
   and `purchase`.
2. It sorts the events by (user, time). It then marks each event that starts a
   session: the event is the user's first, or it comes more than 30 minutes after
   the user's previous event. It numbers each user's sessions 1, 2, … and names
   them `user-index`.
3. It reduces each session to one summary row: user, start, end, number of
   events, number of distinct types and length in minutes.

The **gold layer** (`src/transform/build_gold_tables.py`) builds three tables from
the silver events:

- the number of events per minute;
- the number of events per type, largest first;
- a user × type pivot of counts, with the columns `view`, `cart` and `purchase`
  renamed to `views`, `carts` and `purchases`.

Modules, leaves first:

- `Options` holds the option type.
- `Text` models `str.strip()`, `str.lower()` and `str(int)` with its inverse.
- `Order` holds Python's string order and the ascending list of distinct group
  keys that pandas `groupby` produces.
- `Tally` holds counting, `groupby().size()` tables and the conservation lemma.
- `Events` holds the event record and the 30-minute constant.
- `EventNormalizer` models `standardize_event_type`.
- `SessionIds` models the session-id format and its decoding.
- `SessionAssigner` models `add_sessions`.
- `SessionSummarizer` models `build_sessions_table`.
- `GoldTables` models the three gold tables.

Timestamps are whole seconds. A gap is compared in minutes, as an exact
rational number: the model divides exactly where the code divides in floating
point (`transform_events.py:64`), and rounding is left out. The lemma
`SessionAssigner.GapExceedsLimit` shows that the comparison is the same as
"more than 1800 seconds".

Frames that the code updates in place have imperative models:

- `standardize_event_type` overwrites the type column of its caller's frame. Its
  model is a method on an `array<Event>`.
- `build_events_by_minute` adds a `minute` column to its caller's frame. Its
  model is a method of the class `GoldTables.EventsFrame`.
- The rename loop of `build_user_funnel` fills a dictionary. Its model is a
  `for` loop building a `map`.
- The grouped `shift`/`cumsum` of `add_sessions` is modelled as one pass that
  builds each row from the row above. It is proved equal to a reference
  definition, `AssignSessions`. That definition states, position by position,
  what the pandas columns mean: the latest earlier event of the same user, and
  the running count of session starts.

Three details of the code shape the model:

- An unknown label is not returned verbatim. The whole column is trimmed and
  lower-cased before the lookup (`transform_events.py:30-35`), and
  `mapping.get(key, key)` (`transform_events.py:51`) falls back to that key, so
  an unknown label comes out trimmed and lower-cased.
- The session counter is 1-based. A grouped `cumsum` of the flags counts the
  user's first event.
- The sorts (`sort_values`, `transform_events.py:57` and
  `build_gold_tables.py:35`) use pandas' default algorithm, which does not
  promise any order among ties. The model's sorts are stable insertion sorts: one
  admissible order among those ties. Events tied on (user, time) always share
  a session (`SessionAssigner.WithinGapSameSession`), so each event's
  `session_index` and `session_id` do not depend on how the tied rows are
  ordered. Which of them carries `new_session` and the gap from the earlier
  event does depend on it. The lemmas that state the equality of whole frames
  (`AssignSessions`, `SortSortedIsIdentity`, `AssignSessionsIdempotent`) hold
  for the model's stable order.

## Model

| member | source | states |
|---|---|---|
| Text.Strip | src/transform/transform_events.py:33 | `str.strip()`: the result is a contiguous slice of the input with no whitespace at either end; everything cut off on both sides is whitespace (Python's `isspace` set) |
| Text.ToLower | src/transform/transform_events.py:34 | `str.lower()`: same length, each character lower-cased, and the result has no upper-case letter |
| Text.ToLowerOfLowerCase | src/transform/transform_events.py:34 | lower-casing a string with no upper-case letter leaves it unchanged |
| Text.LowerKeepsTrimmed | src/transform/transform_events.py:33-34 | lower-casing after stripping keeps the string trimmed |
| Text.StripTrimmed | src/transform/transform_events.py:33 | stripping a string with no whitespace at its ends changes nothing |
| Text.NatToString | src/transform/transform_events.py:77 | `str(int)` of a counter is a canonical decimal: digits only and no leading zero |
| Text.ParseNatToString | src/transform/transform_events.py:77 | reading back the rendered counter gives the counter |
| Text.NatToStringOfParse | src/transform/transform_events.py:77 | every canonical decimal is the rendering of its value: decimal rendering is a bijection onto canonical numerals |
| Order.LessTransitive | src/transform/transform_events.py:57 | the string order used for sorting and grouping is transitive |
| Order.LessTotal | src/transform/transform_events.py:57 | any two different strings are ordered one way or the other |
| Order.UniqueSorted | src/transform/transform_events.py:84 | the group keys of `groupby`: strictly ascending, and exactly the values that occur |
| Order.UniqueSortedInts | src/transform/build_gold_tables.py:22 | the minute keys: strictly ascending, and exactly the minutes that occur |
| Order.AscendingUnique | src/transform/transform_events.py:84 | a list of group keys is determined by its elements: two strictly ascending lists with the same elements are equal |
| Tally.Count | src/transform/build_gold_tables.py:23 | a group's size is at most the number of rows, and 0 exactly when the key does not occur |
| Tally.CountIsMultiplicity | src/transform/build_gold_tables.py:23 | a group's size is the key's multiplicity in the multiset of the column |
| Tally.CountsPartition | src/transform/build_gold_tables.py:21-26 | conservation: over distinct keys that cover every row, the group sizes add up to the number of rows |
| Tally.Tallies | src/transform/build_gold_tables.py:22-24 | `groupby().size()`: one row per key given, carrying that key's number of rows |
| Tally.TalliesTotal | src/transform/build_gold_tables.py:22-24 | the `events_count` column of such a table adds up to the number of rows |
| Tally.Distinct | src/transform/transform_events.py:91 | `nunique`: a duplicate-free list holding exactly the values that occur |
| EventNormalizer.Synonym | src/transform/transform_events.py:38-49 | the `mapping` dictionary: each of its ten keys maps to `view`, `cart` or `purchase` as listed, any other key to nothing; `SynonymsCanonical` states its properties |
| EventNormalizer.SynonymsCanonical | src/transform/transform_events.py:38-49 | every value of the synonym table is a canonical name; every canonical name maps to itself and is already trimmed and lower-case |
| EventNormalizer.LookupKey | src/transform/transform_events.py:30-35 | the label after strip and lower: trimmed, free of upper-case letters, and no longer than the label |
| EventNormalizer.CanonicalType | src/transform/transform_events.py:30-51 | one label through the whole normalisation: strip, lower, then `mapping.get(key, key)`; `CanonicalTypeSpec` states what it yields |
| EventNormalizer.CanonicalTypeSpec | src/transform/transform_events.py:30-51 | `mapping.get(key, key)` on the stripped, lower-cased key: the result is a canonical name exactly when the table knows the key, otherwise the key itself; in either case a normal form |
| EventNormalizer.CanonicalTypeOfNormalForm | src/transform/transform_events.py:30-51 | a label in normal form is its own canonical type |
| EventNormalizer.CanonicalTypeIdempotent | src/transform/transform_events.py:30-51 | normalising a label twice gives what normalising it once gives |
| EventNormalizer.LookupKeyOfTrimmedLower | src/transform/transform_events.py:30-35 | a trimmed label without upper-case letters is its own lookup key |
| EventNormalizer.CartExample | src/transform/transform_events.py:30-51 | "Cart " (trailing space, capital letter) normalises to "cart" |
| EventNormalizer.AddToCartExample | src/transform/transform_events.py:44 | "add_to_cart" normalises to "cart" |
| EventNormalizer.BuyExample | src/transform/transform_events.py:47 | "BUY" normalises to "purchase" |
| EventNormalizer.MapTypes | src/transform/transform_events.py:51 | `Series.map` on the type column: same length and order, users and times untouched, each type replaced by its image |
| EventNormalizer.MapTypesIdempotent | src/transform/transform_events.py:51 | mapping twice with an idempotent function is mapping once |
| EventNormalizer.NormalizeEvents | src/transform/transform_events.py:28-52 | the frame `standardize_event_type` returns: the type column mapped through `CanonicalType`; `StandardizeEventType` and `NormalizeEventsIdempotent` state its properties |
| EventNormalizer.NormalizeEventsIdempotent | src/transform/transform_events.py:28-52 | the normalised frame is a fixed point of normalisation |
| EventNormalizer.MapEventTypes | src/transform/transform_events.py:51 | overwrites the type column of the caller's frame with its image under the function, row by row, in place |
| EventNormalizer.StandardizeEventType | src/transform/transform_events.py:28-52 | after the call the caller's frame holds the normalised events: same rows, same order, canonical types |
| SessionIds.SessionId | src/transform/transform_events.py:74-78 | `user + "-" + str(index)`: the user, then a '-', then a canonical decimal |
| SessionIds.LastDash | src/transform/transform_events.py:74-78 | finds the last '-' of an id, or reports that there is none |
| SessionIds.SessionIdRoundTrip | src/transform/transform_events.py:74-78 | splitting a session id at its last '-' recovers the user and the counter, whatever the user id contains |
| SessionIds.ParseSessionId | src/transform/transform_events.py:74-78 | the inverse of the id format: `None` when the id has no `-` or no canonical decimal after its last one; `SessionIdRoundTrip` and `ParseSessionIdSound` state its properties |
| SessionIds.ParseSessionIdSound | src/transform/transform_events.py:74-78 | whatever parses as a session id is the id of the pair it parses to |
| SessionIds.SessionIdInjective | src/transform/transform_events.py:74-78 | distinct (user, counter) pairs give distinct ids |
| SessionIds.SessionIdExample | src/transform/transform_events.py:74-78 | the id of user "u1"'s second session is "u1-2" |
| SessionAssigner.EventLeTransitive | src/transform/transform_events.py:57 | the (user, time) sort order is transitive |
| SessionAssigner.EventLeTotal | src/transform/transform_events.py:57 | the (user, time) sort order is total |
| SessionAssigner.InsertEvent | src/transform/transform_events.py:57 | inserting into sorted events keeps them sorted and adds exactly that event |
| SessionAssigner.SortByUserTime | src/transform/transform_events.py:57 | `sort_values([user_id, event_time])`: sorted by (user, time) and a permutation of the input |
| SessionAssigner.SortSortedIsIdentity | src/transform/transform_events.py:57 | sorting already sorted events leaves them unchanged |
| SessionAssigner.NoEarlierEventOfUser | src/transform/transform_events.py:57-60 | in sorted events, a row whose user differs from the row above is that user's first row |
| SessionAssigner.PrevIndex | src/transform/transform_events.py:60 | the row a grouped `shift(1)` reads: the latest earlier row of the same user, or none |
| SessionAssigner.PrevTime | src/transform/transform_events.py:60 | the grouped `shift(1)` of the time column: the time of the row `PrevIndex` finds, missing when it finds none |
| SessionAssigner.GapMinutes | src/transform/transform_events.py:63-65 | the gap from the previous time in minutes, seconds divided by 60; `GapExceedsLimit` relates it to 1800 s |
| SessionAssigner.GapExceedsLimit | src/transform/transform_events.py:63-68 | a gap of more than 30 minutes is exactly a gap of more than 1800 seconds |
| SessionAssigner.IsNewSession | src/transform/transform_events.py:68 | `prev_time.isna() \| gap_minutes > 30` for one row; `NewSessionRule` states it in terms of the row above |
| SessionAssigner.NewSessionsOf | src/transform/transform_events.py:71 | a running count of session starts never exceeds the number of rows counted |
| SessionAssigner.SessionIndex | src/transform/transform_events.py:71 | the grouped `cumsum` of `new_session` at one row, that row included; `SessionIndexRule` and `SessionIndexBounds` state its properties |
| SessionAssigner.RowAt | src/transform/transform_events.py:60-78 | the output row at one position of the sorted events, each column by its reference definition; `AssignSessions` and `AddSessions` build the frame from it |
| SessionAssigner.AssignSessions | src/transform/transform_events.py:55-80 | the output frame holds the input events permuted into (user, time) order, one row per event |
| SessionAssigner.SortedStep | src/transform/transform_events.py:60-71 | on sorted events, `prev_time` is the row above when it has the same user, and the counter restarts at 1 or adds the row's flag to the counter above |
| SessionAssigner.NextRow | src/transform/transform_events.py:60-78 | the single-pass step: the session columns of an event from the row above only; `StepIsRowAt` proves it agrees with `RowAt` |
| SessionAssigner.StepIsRowAt | src/transform/transform_events.py:60-78 | each reference row is the single-pass step applied to the reference row above it |
| SessionAssigner.AddSessions | src/transform/transform_events.py:55-80 | the single pass over the sorted events produces exactly the reference frame `AssignSessions` |
| SessionAssigner.NewSessionRule | src/transform/transform_events.py:60-68 | `prev_time` is the time of the row above for the same user and missing otherwise; `new_session` holds exactly at the first row, a user's first row, or after a gap of more than 1800 s |
| SessionAssigner.SessionIndexRule | src/transform/transform_events.py:71-78 | the counter is 1 at each user's first row, otherwise the counter above plus 1 if the row starts a session; the id is `SessionId(user, counter)` |
| SessionAssigner.SessionIndexBounds | src/transform/transform_events.py:71 | on sorted events, a counter is between 1 and its row number |
| SessionAssigner.SessionIndexPositive | src/transform/transform_events.py:71 | every counter of the output frame is at least 1 and at most its row number |
| SessionAssigner.WithinGapSameSession | src/transform/transform_events.py:63-71 | a user's next event at most 30 minutes later (equal times included) starts no session and keeps the id |
| SessionAssigner.IdChange | src/transform/transform_events.py:71-78 | for consecutive counters, the ids differ exactly when the second row starts a session |
| SessionAssigner.NewSessionIffIdChanges | src/transform/transform_events.py:68-78 | a row starts a session exactly when it is the first row or its id differs from the row above |
| SessionAssigner.SameSessionSameUser | src/transform/transform_events.py:71-78 | rows sharing a session id have the same user and the same counter |
| SessionAssigner.NewSessionsOfMonotone | src/transform/transform_events.py:71 | the running count of a user's session starts never decreases |
| SessionAssigner.BetweenSameUser | src/transform/transform_events.py:57 | in sorted events, a row between two rows of a user belongs to that user |
| SessionAssigner.BetweenSameSession | src/transform/transform_events.py:57-71 | in sorted events, a row between two rows with the same user and counter has that same user and counter |
| SessionAssigner.SessionsContiguous | src/transform/transform_events.py:55-80 | the rows of one session are consecutive in the output frame |
| SessionAssigner.AssignSessionsIdempotent | src/transform/transform_events.py:55-80 | sessionising the events of the output frame again gives the same frame |
| SessionAssigner.GapScenario | src/transform/transform_events.py:60-78 | events of u1 at 0, 10 and 50 minutes: the flags are start, no start, start; the counters are 1, 1, 2; the second id equals the first and the third differs |
| SessionSummarizer.Ids | src/transform/transform_events.py:84 | the `session_id` column: one entry per row, in row order |
| SessionSummarizer.Members | src/transform/transform_events.py:84 | a group holds only rows of the frame that carry its id |
| SessionSummarizer.MembersComplete | src/transform/transform_events.py:84 | every row carrying an id is in that id's group |
| SessionSummarizer.MembersCount | src/transform/transform_events.py:84-90 | a group has as many rows as its id occurs in the `session_id` column |
| SessionSummarizer.Min | src/transform/transform_events.py:88 | the aggregate `min`: a member that is at most every member |
| SessionSummarizer.Max | src/transform/transform_events.py:89 | the aggregate `max`: a member that is at least every member |
| SessionSummarizer.LengthMinutes | src/transform/transform_events.py:94-96 | `session_length_minutes`: end minus start, divided by 60; `Summarize` states its bounds |
| SessionSummarizer.Summarize | src/transform/transform_events.py:86-96 | a session row: the first member's user; start and end are member times bracketing every member's time; the count is the group size; 1 <= distinct types <= count; the length is (end - start) / 60 and so >= 0, and 0 for a one-event session |
| SessionSummarizer.SessionOf | src/transform/transform_events.py:84-96 | the row of a present id carries that id and the number of rows holding it, at least 1 |
| SessionSummarizer.BuildSessionsTable | src/transform/transform_events.py:83-98 | one row per distinct session id, in strictly ascending id order, each counting the rows that carry its id |
| SessionSummarizer.EverySessionListed | src/transform/transform_events.py:84-92 | every row's session id has a row in the table |
| SessionSummarizer.TotalIsSumCounts | src/transform/transform_events.py:90 | the `events_count` column adds up to the sum of the group sizes |
| SessionSummarizer.SessionSizesTotal | src/transform/transform_events.py:84-92 | conservation: the `events_count` column of the sessions table adds up to the number of events |
| SessionSummarizer.SessionSpansItsRows | src/transform/transform_events.py:88-90 | every row lies between its session's start and end |
| SessionSummarizer.SessionUser | src/transform/transform_events.py:87 | on the `add_sessions` output, each session's `user_id` is the user of every one of its rows |
| SessionSummarizer.SingleEventSession | src/transform/transform_events.py:83-98 | a single event gives one session of one event, starting and ending at its time, 0 minutes long |
| GoldTables.FloorToMinute | src/transform/build_gold_tables.py:20 | `dt.floor("Min")`: a multiple of 60 with `minute <= t < minute + 60` |
| GoldTables.FloorToMinuteUnique | src/transform/build_gold_tables.py:20 | that minute is the only multiple of 60 within the 60 s ending at `t` |
| GoldTables.FloorToMinuteIdempotent | src/transform/build_gold_tables.py:20 | flooring a minute start leaves it unchanged |
| GoldTables.MinuteColumn | src/transform/build_gold_tables.py:20 | the `minute` column: each event's time floored to its minute, row by row |
| GoldTables.EventsByMinute | src/transform/build_gold_tables.py:21-26 | strictly ascending minutes; a minute has a row exactly when some event falls in it; each count is that minute's number of events, at least 1 |
| GoldTables.EventsByMinuteTotal | src/transform/build_gold_tables.py:21-26 | the per-minute counts add up to the number of events |
| GoldTables.EventsFrame.BuildEventsByMinute | src/transform/build_gold_tables.py:18-27 | adds the `minute` column to the caller's frame, leaves its events unchanged, and returns the per-minute table |
| GoldTables.EventTypes | src/transform/build_gold_tables.py:32 | the `event_type` column: one entry per event, in row order |
| GoldTables.PrependNonIncreasing | src/transform/build_gold_tables.py:35 | a row whose count is at least every count of a non-increasing table can go in front |
| GoldTables.InsertByCount | src/transform/build_gold_tables.py:35 | inserting into a table of non-increasing counts keeps it non-increasing and adds exactly that row |
| GoldTables.SortByCountDesc | src/transform/build_gold_tables.py:35 | `sort_values("events_count", ascending=False)`: non-increasing counts and a permutation of the rows |
| GoldTables.SortByCountDescTotal | src/transform/build_gold_tables.py:35 | sorting keeps the sum of the counts |
| GoldTables.SortKeepsDistinctKeys | src/transform/build_gold_tables.py:35 | sorting keeps the keys distinct |
| GoldTables.EventsByType | src/transform/build_gold_tables.py:30-37 | non-increasing counts, a permutation of the per-type tally, one row per distinct type |
| GoldTables.EventsByTypeRows | src/transform/build_gold_tables.py:30-37 | each row is a type that occurs, with its number of events; each type that occurs has such a row; no type has two rows |
| GoldTables.EventsByTypeTotal | src/transform/build_gold_tables.py:30-37 | the per-type counts add up to the number of events |
| GoldTables.EventsByTypeNonEmpty | src/transform/build_gold_tables.py:30-37 | the table is non-empty exactly when there are events |
| GoldTables.EventUsers | src/transform/build_gold_tables.py:44 | the `user_id` column: one entry per event, in row order |
| GoldTables.TypesOfUser | src/transform/build_gold_tables.py:42-51 | the types of one user's events, in row order, from which the pivot counts; `TypesOfUserSpec` and `TypesOfUserCount` state its properties |
| GoldTables.TypesOfUserSpec | src/transform/build_gold_tables.py:42-51 | a user's types are as many as the user's events, and each is a type that occurs |
| GoldTables.PairCount | src/transform/build_gold_tables.py:47 | the number of events of a (user, type) pair is 0 exactly when there is no such event |
| GoldTables.TypesOfUserCount | src/transform/build_gold_tables.py:42-51 | counting a type among a user's types counts that user's events of that type |
| GoldTables.Pivot | src/transform/build_gold_tables.py:42-51 | fails (`None`) exactly when some event type is `user_id`, where `reset_index` raises; otherwise the columns are `user_id` and then the distinct types in ascending order, one row per distinct user, ascending, and each row's cells count that user's events by type |
| GoldTables.PivotUsers | src/transform/build_gold_tables.py:42-51 | when it exists, the pivot has exactly one row per distinct user, in strictly ascending order |
| GoldTables.PivotCell | src/transform/build_gold_tables.py:42-51 | when the pivot exists, each cell is the number of events of its user and its column's type, and 0 exactly when there is none |
| GoldTables.PivotRowTotal | src/transform/build_gold_tables.py:42-51 | when the pivot exists, a row's cells add up to its user's number of events |
| GoldTables.ReadableName | src/transform/build_gold_tables.py:56-62 | view, cart and purchase become views, carts and purchases; every other name, `user_id` included, is kept |
| GoldTables.RenameMap | src/transform/build_gold_tables.py:54-63 | the rename dictionary has exactly the pivot's columns as keys, each mapped to its readable name |
| GoldTables.Renamed | src/transform/build_gold_tables.py:65 | `rename(columns=...)`: the same number of columns, in the same order, each replaced by its readable name |
| GoldTables.BuildUserFunnel | src/transform/build_gold_tables.py:40-66 | fails exactly when the pivot fails; otherwise the funnel keeps the pivot's rows, and its columns are the pivot's columns renamed one by one, the first still `user_id` |
| GoldTables.PairCountCons | src/transform/build_gold_tables.py:47 | one more event adds one to its (user, type) pair's count and nothing to any other pair |
| GoldTables.FunnelPairCounts | src/transform/build_gold_tables.py:47 | a user with three views and a cart, next to another user's purchase, has the pair counts 3, 1 and 0 for view, cart and purchase |
| GoldTables.FunnelTypes | src/transform/build_gold_tables.py:42-51 | the pivot's type columns for those events are `cart`, `purchase` and `view`, the distinct types in ascending order |
| GoldTables.FunnelUsers | src/transform/build_gold_tables.py:42-51 | the pivot's users for those events are u1 and u2, in that order |
| GoldTables.FunnelColumns | src/transform/build_gold_tables.py:42-51 | for those events the pivot exists and its columns are `user_id`, `cart`, `purchase` and `view` |
| GoldTables.FunnelRenamed | src/transform/build_gold_tables.py:53-65 | renaming `user_id`, `cart`, `purchase` and `view` gives `user_id`, `carts`, `purchases` and `views` |
| GoldTables.FunnelFirstUser | src/transform/build_gold_tables.py:42-51 | for those events the pivot has two rows, the first is u1's and it holds three cells |
| GoldTables.FunnelCell | src/transform/build_gold_tables.py:42-51 | u1's cells are 1, 0 and 3, for cart, purchase and view |
| GoldTables.FunnelFirstRow | src/transform/build_gold_tables.py:42-51 | the pivot's first row is u1 with the cells 1, 0 and 3 |
| GoldTables.FunnelScenario | src/transform/build_gold_tables.py:40-66 | for those events the pivot exists; its columns are `user_id`, `cart`, `purchase` and `view`, renamed to `user_id`, `carts`, `purchases` and `views`; there are two rows, and the first is u1's with the cells 1, 0 and 3 |

## Left out

- Reading and writing CSV files, creating directories and printing are left out. This covers `load_bronze_events`, `load_events` and both `main` functions (`transform_events.py:15-25, 101-128`; `build_gold_tables.py:12-15, 69-87`). The sanity check on column names in `main` is left out too. The ingest script, the Airflow DAG and the sampling script are not part of this model.
- Timestamp parsing by `pd.to_datetime` is not modelled. Timestamps arrive as whole seconds on one clock, with no time zones and no sub-second part.
- Floating point is not modelled. `/ 60.0` is exact division of rationals, both in `gap_minutes` and in `session_length_minutes`, so rounding is not modelled.
- Text.ToLower: models ASCII case folding only. Python's `str.lower()` also folds non-ASCII letters, and for a few characters it changes the length of the string. No label in the synonym table needs that.
- `astype(str)` on the type and user columns is taken to be the identity: every label and every user id is a string. The rendering of missing values (`NaN` becomes `"nan"`) is left out.
- Non-string user ids are left out. pandas sorts numeric ids numerically, while the model compares user ids as strings.
- SessionAssigner.SortByUserTime: ties on (user, time) come out in the stable insertion order. pandas' default sort does not guarantee any order for tied rows. Each event's session counter and id do not depend on that order; which tied row carries `new_session`, `prev_time` and `gap_minutes` from the earlier event does, and so does the equality of whole frames stated by `AssignSessions`, `SortSortedIsIdentity` and `AssignSessionsIdempotent`.
- GoldTables.SortByCountDesc: ties on the count keep the key order of the grouping, by a stable insertion sort. pandas' default sort promises no order among equal counts.
- Columns other than user, time and type travel with their rows in pandas. They are not part of `Event`.
- The helper columns `prev_time`, `gap_minutes` and `new_session` are kept in `SessionRow`, as `add_sessions` returns them. Dropping them before writing is file output.
- GoldTables.Pivot: counts events, not non-null `session_id` values. The two are equal because every silver row has a session id. pandas' dropping of columns that are entirely missing never applies to counts filled with 0.
- GoldTables.BuildUserFunnel: takes a renamed column as a name in a list. A duplicate column name produced by the renaming (an event type named `views` beside `view`) is kept twice, as `rename` does. What later operations make of duplicate names is left out.
- GoldTables.Pivot: an event type named `user_id` makes `reset_index()` (`build_gold_tables.py:50`) raise `ValueError`, because the index name clashes with a column. The model returns `None` exactly then, and `BuildUserFunnel` returns `None` with it; the exception's type and message are not modelled.
- The gold tables take the silver events as a sequence of `Event`. The reading of `events_silver.csv` back into a frame is left out.
