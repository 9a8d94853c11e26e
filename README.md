# Data-usage anomaly detector (LineageOS DataUsageProvider), modelled in Dafny

The system samples the mobile data usage of every app once a period and warns when an app's
recent usage jumps well above its long-run baseline. It has three parts, and this project
models each one:

- **The data-usage provider** (`usage_store.dfy`, module `UsageStore`).
  - It is a one-table SQLite database behind a content provider, modelled as the class
    `UsageTable`.
  - Rows are kept in rowid order, and a new rowid is the largest rowid plus one.
  - `insert` appends a row.
  - `delete` and `update` are gated by the URI kind.
  - `update` is an upsert: when no row matches, it inserts one carrying the uid.
  - `query` returns null for an unmatched URI.
- **The helper layer** (`usage_utils.dfy`, module `UsageUtils`).
  - It covers adding, removing, enabling and reading back an app's row.
  - It covers the network qualification test and the feature switch with its repeating alarm
    (the class `ServiceControl`).
  - It covers the user label for a user bucket.
- **The sampling service**.
  - `aggregation.dfy` (module `Aggregation`) specifies how the raw per-uid statistics are
    routed into buckets and summed. A bucket (collapse key) is an app's uid, a user's bucket,
    or the single bucket for removed users.
  - `detector.dfy` (module `Detector`) specifies the per-row decision of one cycle: the idle
    test, baseline building, the exceed test and the running averages. It also proves
    properties of runs over many cycles.
  - `usage_service.dfy` (module `UsageService`) is the service as a class
    `DataUsageService`. Its fields `knownItems` (the bucket map) and `largest` are updated in
    place by `Accumulate`, `ClearStats`, the collection loop and the detection loop. Each is
    proved against the specification functions above.

Platform facts are parameters, not calls:

- The user facts consulted by the collection loop are a `Users` value: app uid or not, the
  user of a uid, the profiles, the current user, and whether a user still exists.
- The fetched network statistics are an `Option<seq<Entry>>`. None stands for a missing
  session or a failed fetch.
- The display label of a uid is a function `labelOf`.
- The active network and the metered flag are parameters.
- Notifications are returned as a sequence of `(uid, title, firstTime)` values.

`wrappers.dfy` holds the `Option` and `Result` types.

## Model

Paths are relative to the repository root.

| member | source | states |
|---|---|---|
| UsageStore.NewRow | src/org/cyanogenmod/providers/datausage/DataUsageProvider.java:74-90 | A new row keeps every supplied column. Each of enb, active, bytes and the four statistics that is not supplied defaults to 0, column by column. uid, label and extra stay NULL unless supplied. |
| UsageStore.Matches | src/org/cyanogenmod/providers/datausage/DataUsageProvider.java:134-136 | The selection `<column> = ?` with its one argument; no selection matches every row. (A definition: its meaning is given by the Select, UpdateWhere and DeleteWhere rows.) |
| UsageStore.Apply | src/org/cyanogenmod/providers/datausage/DataUsageProvider.java:244 | An updated row keeps its rowid, takes every supplied column's value and keeps the rest. (`UsageTable.Update` never reaches it with an empty ContentValues, which SQLite refuses.) |
| UsageStore.NextRowId | src/org/cyanogenmod/providers/datausage/DataUsageProvider.java:78 | The rowid given to an inserted row is positive and larger than every rowid in use. |
| UsageStore.CountMatching | src/org/cyanogenmod/providers/datausage/DataUsageProvider.java:200-201 | The number of rows a selection matches is at most the table size, and it is 0 exactly when no row matches. |
| UsageStore.Select | src/org/cyanogenmod/providers/datausage/DataUsageProvider.java:134-136 | A query returns as many rows as match. A row is returned iff it is in the table and matches the selection. |
| UsageStore.UpdateWhere | src/org/cyanogenmod/providers/datausage/DataUsageProvider.java:244 | The table keeps its length. Each matching row gets the supplied columns; every other row is unchanged. |
| UsageStore.DeleteWhere | src/org/cyanogenmod/providers/datausage/DataUsageProvider.java:200 | Exactly the matching rows are removed. A row survives iff it was there and does not match. |
| UsageStore.Upsert | src/org/cyanogenmod/providers/datausage/DataUsageProvider.java:242-258 | When nothing matches, the old rows are kept and one row is appended: `NewRow` with the next rowid, the supplied columns and the uid. Otherwise the table keeps its length and exactly the matching rows are updated. |
| UsageStore.UpsertResult | src/org/cyanogenmod/providers/datausage/DataUsageProvider.java:244-266 | `update` always returns a positive number: the updated count (at most the table size), or a rowid above every rowid in use when it inserted. |
| UsageStore.UpdateTarget | src/org/cyanogenmod/providers/datausage/DataUsageProvider.java:206-232 | On the table URI, the caller's selection and its first argument as the uid; a null argument array throws NullPointerException. On the uid URI, a caller selection throws UnsupportedOperationException, otherwise `uid = <path uid>`. Any other URI throws. |
| UsageStore.DeleteTarget | src/org/cyanogenmod/providers/datausage/DataUsageProvider.java:174-202 | On the table URI, the caller's selection (none deletes every row). On the uid URI, a caller selection throws, otherwise `uid = <path uid>`. Any other URI throws UnsupportedOperationException. |
| UsageStore.GetType | src/org/cyanogenmod/providers/datausage/DataUsageProvider.java:141-154 | The dir type for the table URI and the item type for the id and uid URIs. Any other URI throws IllegalArgumentException, in both directions. |
| UsageStore.GatingProperties | src/org/cyanogenmod/providers/datausage/DataUsageProvider.java:173-232 | Only the table URI accepts a caller's selection for update and delete; the uid URI always addresses the rows of the uid in its path; every URI that update or delete accepts has a MIME type. |
| UsageStore.DeleteKeepsOrder | src/org/cyanogenmod/providers/datausage/DataUsageProvider.java:200 | Deleting rows keeps the rowids positive and increasing. |
| UsageStore.SelectKeepsOrder | src/org/cyanogenmod/providers/datausage/DataUsageProvider.java:134-136 | A query on a table in rowid order returns its rows in rowid order. |
| UsageStore.CountAppend | src/org/cyanogenmod/providers/datausage/DataUsageProvider.java:157-171 | The match count of a table with rows appended is the sum of the two counts. |
| UsageStore.UpdateKeepsUidCount | src/org/cyanogenmod/providers/datausage/DataUsageProvider.java:244 | An update that does not change the uid column (or writes the selected uid) keeps every row that uid selected. |
| UsageStore.UpsertCreatesOneRow | src/org/cyanogenmod/providers/datausage/DataUsageProvider.java:244-255 | When nothing matches, `update` leaves exactly one row for the uid, carrying the uid and the supplied values on the schema defaults. |
| UsageStore.UpsertTwiceNoDuplicate | src/org/cyanogenmod/providers/datausage/DataUsageProvider.java:244-255 | A second upsert for the same uid finds the row the first one left. It updates in place, and the table does not grow. |
| UsageStore.InsertAddsRowForUid | src/org/cyanogenmod/providers/datausage/DataUsageProvider.java:157-171 | `insert` does not check for an existing row: the uid gains one more row. |
| UsageStore.UsageTable.constructor | src/org/cyanogenmod/providers/datausage/DataUsageProvider.java:74-90 | The table starts empty. |
| UsageStore.UsageTable.AppendRow | src/org/cyanogenmod/providers/datausage/DataUsageProvider.java:164 | Appends one new row with the next rowid and keeps the rowids increasing. |
| UsageStore.UsageTable.Insert | src/org/cyanogenmod/providers/datausage/DataUsageProvider.java:156-171 | Whatever the URI, the table becomes the old table plus one new row, and the new rowid is returned. An empty ContentValues makes the INSERT fail: -1 is returned and the table is unchanged. |
| UsageStore.UsageTable.Delete | src/org/cyanogenmod/providers/datausage/DataUsageProvider.java:173-202 | The gating error leaves the table unchanged. Otherwise the match count is returned and those rows are removed. |
| UsageStore.UsageTable.Update | src/org/cyanogenmod/providers/datausage/DataUsageProvider.java:204-267 | The gating error leaves the table unchanged. An empty ContentValues throws IllegalArgumentException and leaves the table unchanged. Otherwise the table is the upsert, and the result is the updated count or the rowid of the inserted row. |
| UsageStore.UsageTable.Query | src/org/cyanogenmod/providers/datausage/DataUsageProvider.java:105-139 | Null exactly for an unmatched URI. Otherwise the rows matching the caller's selection, in rowid order; the id or uid in the path is ignored. |
| UsageUtils.AddApp | src/org/cyanogenmod/providers/datausage/DataUsageUtils.java:62-76 | Inserts a row holding the uid, the label and enb 0 (without checking for an existing row). |
| UsageUtils.AddAppTwiceLeavesTwoRows | src/org/cyanogenmod/providers/datausage/DataUsageUtils.java:62-76 | Adding the same app twice leaves two more rows for its uid. |
| UsageUtils.RemoveApp | src/org/cyanogenmod/providers/datausage/DataUsageUtils.java:78-87 | Deletes every row of the uid. |
| UsageUtils.RemoveAppThenDisabled | src/org/cyanogenmod/providers/datausage/DataUsageUtils.java:78-87 | After removal no row carries the uid, so `getAppEnb` reads false. |
| UsageUtils.EnbApp | src/org/cyanogenmod/providers/datausage/DataUsageUtils.java:89-91 | Upserts enb (1 or 0) for the uid and leaves the label alone. |
| UsageUtils.EnbAppWithLabel | src/org/cyanogenmod/providers/datausage/DataUsageUtils.java:93-110 | Upserts enb and, when given, the label for the uid. |
| UsageUtils.FirstRowEnabled | src/org/cyanogenmod/providers/datausage/DataUsageUtils.java:112-137 | Reference definition: true only if some row of the uid has enb 1. It reads the first such row in table order. |
| UsageUtils.GetAppEnb | src/org/cyanogenmod/providers/datausage/DataUsageUtils.java:112-137 | The query-then-first-row reading equals the reference definition. No row gives false. |
| UsageUtils.FirstRowSkipsOthers | src/org/cyanogenmod/providers/datausage/DataUsageUtils.java:123-131 | Rows of other uids before the first row of this uid do not affect the reading. |
| UsageUtils.UpdateSetsFirstRow | src/org/cyanogenmod/providers/datausage/DataUsageUtils.java:123-131 | After an update by uid that writes enb, the reading is that enb. |
| UsageUtils.EnbAppThenGetAppEnb | src/org/cyanogenmod/providers/datausage/DataUsageUtils.java:89-137 | Round trip: after `enbApp(uid, enb)`, `getAppEnb(uid)` returns `enb`, whether or not the row existed. |
| UsageUtils.IsDataUsageQualified | src/org/cyanogenmod/providers/datausage/DataUsageUtils.java:186-200 | Qualified iff there is an active network that is connected, of mobile type and metered. No active network is never qualified. |
| UsageUtils.ServiceControl.StartDataUsageService | src/org/cyanogenmod/providers/datausage/DataUsageUtils.java:154-173 | Arms the repeating alarm when enabled and cancels it otherwise. |
| UsageUtils.ServiceControl.EnbDataUsageService | src/org/cyanogenmod/providers/datausage/DataUsageUtils.java:143-152 | Always stores the switch. The alarm follows the switch only on a qualified network; otherwise it is unchanged. |
| UsageUtils.ServiceControl.StartDataUsageServiceIfEnabled | src/org/cyanogenmod/providers/datausage/DataUsageUtils.java:175-184 | Only ever arms, and only when the stored switch is on (default off). |
| UsageUtils.GetUserLabelAsWritten | src/org/cyanogenmod/providers/datausage/DataUsageUtils.java:41-55 | As written, a null info throws NullPointerException. |
| UsageUtils.GetUserLabel | src/org/cyanogenmod/providers/datausage/DataUsageUtils.java:41-55 | Managed profile gives the managed title (iff). Otherwise the label is built on the guest string, or else the name, or else the id as a string. A null info gives the unknown string. |
| UsageUtils.NullUserInfoThrows | src/org/cyanogenmod/providers/datausage/DataUsageUtils.java:42-52 | The as-written and corrected versions agree on every non-null info. On null, the first throws and the second gives the unknown string. |
| Aggregation.Targets | src/org/lineage/providers/datausage/DataUsageService.java:266-296 | Each bucket an entry is accumulated into gets the category that belongs to its key (user bucket: user category, otherwise app category). No bucket is fed twice by one entry. |
| Aggregation.Routing | src/org/lineage/providers/datausage/DataUsageService.java:271-296 | Iff: non-app uids feed nothing. An app in a profile feeds its own uid, and its user's bucket exactly when that user is not the current one. An app of a user outside the profiles feeds that user's bucket if the user exists, else the removed-users bucket. |
| Aggregation.Accumulated | src/org/lineage/providers/datausage/DataUsageService.java:218-232 | Exactly rx+tx is added to one bucket's total and the uid to its members. A bucket that already exists keeps its category; a bucket it creates gets the category passed in. Every other bucket is unchanged. |
| Aggregation.Cleared | src/org/lineage/providers/datausage/DataUsageService.java:234-240 | Same buckets; each keeps its category and members and has total 0, so the largest total is 0. |
| Aggregation.AddEntryEffect | src/org/lineage/providers/datausage/DataUsageService.java:271-296 | One iteration of the collection loop touches exactly the buckets the entry feeds, each once. |
| Aggregation.AddEntry | src/org/lineage/providers/datausage/DataUsageService.java:270-296 | One entry never removes a bucket or changes an existing bucket's category; a bucket it creates gets its key's category. |
| Aggregation.AggregateFrom | src/org/lineage/providers/datausage/DataUsageService.java:265-297 | The collection loop as a fold of one AddEntry step per entry, in order. Its result is characterized by AggregateCharacterized and AggregateKeepsCategories. |
| Aggregation.AggregateKeepsCategories | src/org/lineage/providers/datausage/DataUsageService.java:265-297 | Folding entries never removes a bucket, and keeps every bucket's category the one belonging to its key. |
| Aggregation.Aggregate | src/org/lineage/providers/datausage/DataUsageService.java:264-298 | Every bucket of a cycle, which starts from no bucket, has its key's category. |
| Aggregation.BucketTotal | src/org/lineage/providers/datausage/DataUsageService.java:218-232 | Reference definition: the sum of rx+tx over the entries feeding a bucket. Tied to the fold by AggregateCharacterized. |
| Aggregation.Members | src/org/lineage/providers/datausage/DataUsageService.java:218-232 | Reference definition: the uids of the entries feeding a bucket. Tied to the fold by AggregateCharacterized. |
| Aggregation.AggregateCharacterized | src/org/lineage/providers/datausage/DataUsageService.java:265-297 | The bucket map of a cycle holds exactly the fed buckets. Each has its key's category, the set of uids feeding it, and the sum of rx+tx of those entries. |
| Aggregation.BucketTotalPermutation | src/org/lineage/providers/datausage/DataUsageService.java:269-296 | A bucket's total does not depend on the order of the statistics entries. |
| Aggregation.AggregateOrderIndependent | src/org/lineage/providers/datausage/DataUsageService.java:269-296 | Any reordering of the same entries gives the same bucket map. |
| Detector.TruncDiv | src/org/lineage/providers/datausage/DataUsageService.java:414 | The `(long)` cast of a quotient rounds toward zero: for a non-negative numerator `q*d <= n < q*d + d`, for a negative one `q*d - d < n <= q*d`. |
| Detector.ComputeAvg | src/org/lineage/providers/datausage/DataUsageService.java:407-421 | The new average is the mean over a window of w values, w-1 of them at the old average and one the delta, rounded down when that sum is non-negative (w is samples+1 while filling, samples once full). The first sample of an empty window is the average. |
| Detector.ComputeAvgBetween | src/org/lineage/providers/datausage/DataUsageService.java:407-421 | For non-negative inputs, the new average lies between the old average and the delta. |
| Detector.ComputeAvgFixedPoint | src/org/lineage/providers/datausage/DataUsageService.java:407-421 | A delta equal to the average leaves the average unchanged, in and after the window. |
| Detector.Exceeds | src/org/lineage/providers/datausage/DataUsageService.java:373-378 | For a positive slow average the test holds iff fast exceeds slow by more than 68% (`fast*100 > 168*slow`); for a zero slow average iff fast is positive; for a negative one never. |
| Detector.Delta | src/org/lineage/providers/datausage/DataUsageService.java:334 | The delta completes the stored bytes to the new total; a row that stored 0 bytes has delta 0. |
| Detector.Evaluate | src/org/lineage/providers/datausage/DataUsageService.java:345-401 | Every write stores the new total. Only the bytes column is written iff the delta is idle. A warning writes every column with active 1 and is first-time iff the stored flag was off. |
| Detector.Written | src/org/lineage/providers/datausage/DataUsageService.java:436-456 | After the write the bytes column holds the written bytes; a bytes-only write keeps every other statistic; a full write sets active, both averages and both counts to the written values. |
| Detector.Cycle | src/org/lineage/providers/datausage/DataUsageService.java:345-401 | After one cycle the stored bytes are the new total, and an idle cycle changes nothing else. |
| Detector.Run | src/org/lineage/providers/datausage/DataUsageService.java:320-403 | After a non-empty run of cycles the stored bytes are the last total. |
| Detector.Warnings | src/org/lineage/providers/datausage/DataUsageService.java:377-379 | A run raises at most one warning per cycle. |
| Detector.IdleCycle | src/org/lineage/providers/datausage/DataUsageService.java:334-401 | A delta of at most 5 KiB, including a first sample (stored bytes 0) or a counter reset, writes only the bytes column and raises no warning. |
| Detector.BaselineCycle | src/org/lineage/providers/datausage/DataUsageService.java:347-370 | Below 60 slow samples: the slow average becomes the growing-window mean `(slow*n + delta)/(n+1)` and the slow count goes up by one. The fast average uses the growing window below 5 samples and the fixed window at 5, and the fast count saturates at 5. Active is written 0, the bytes are the new total, and there is no warning. |
| Detector.EstablishedCycle | src/org/lineage/providers/datausage/DataUsageService.java:371-396 | With an established baseline, the warning is raised iff the exceed test holds on the averages before the update. It is first-time iff the stored flag was off. Active becomes the outcome of the test, and the counts are kept. |
| Detector.WarningNeedsPriorExcess | src/org/lineage/providers/datausage/DataUsageService.java:345-381 | A warning needs a non-idle delta, at least 60 slow samples and a fast average above the slow one. |
| Detector.ThresholdExamples | src/org/lineage/providers/datausage/DataUsageService.java:373-378 | With a slow average of 100, a fast average of 169 warns (69%) and one of 165 does not (65%). |
| Detector.FirstTimeThenRepeat | src/org/lineage/providers/datausage/DataUsageService.java:379-382 | Over two alerting cycles in a row, the first is first-time iff the stored flag was off, and the second never is. |
| Detector.SlowCountStep | src/org/lineage/providers/datausage/DataUsageService.java:347-391 | The slow count never decreases and grows by at most one per cycle. |
| Detector.SamplesSaturate | src/org/lineage/providers/datausage/DataUsageService.java:347-362 | Counts that start within their windows stay at most 60 and 5, over any number of cycles. |
| Detector.NoWarningDuringBaseline | src/org/lineage/providers/datausage/DataUsageService.java:347-370 | No run short enough to stay within the baseline window raises a warning. |
| Detector.AveragesStayNonNegative | src/org/lineage/providers/datausage/DataUsageService.java:345-401 | Averages that start non-negative stay non-negative over any run, counter resets included. |
| Detector.SpikeWarnsOneCycleLate | src/org/lineage/providers/datausage/DataUsageService.java:371-396 | Concrete run: the cycle with the spike raises no warning (it tests the old averages). The next one raises a first-time warning and the one after a repeat. |
| UsageService.WriteValues | src/org/lineage/providers/datausage/DataUsageService.java:424-456 | Neither updateDb shape writes the uid, enb or label column. |
| UsageService.RowStats | src/org/lineage/providers/datausage/DataUsageService.java:321-327 | The statistics the cursor reads from a row; WriteReadsBack proves they are what updateDb wrote. |
| UsageService.RowBucket | src/org/lineage/providers/datausage/DataUsageService.java:330 | A row is looked up under the removed-users bucket exactly when its uid is -4, otherwise under its own app bucket. |
| UsageService.EnabledRows | src/org/lineage/providers/datausage/DataUsageService.java:309-315 | The cursor holds exactly the table rows with enb 1. |
| UsageService.RowVerdict | src/org/lineage/providers/datausage/DataUsageService.java:330-345 | A row is evaluated iff its bucket exists, and then against that bucket's total. |
| UsageService.RowWrite | src/org/lineage/providers/datausage/DataUsageService.java:367-400 | One row's updateDb leaves the table unchanged when its bucket is missing and otherwise adds at most one row. |
| UsageService.RowNotes | src/org/lineage/providers/datausage/DataUsageService.java:377-379 | One row posts at most one notification, carrying its uid and label, first-time iff its stored active flag was off. |
| UsageService.RowNotesWarn | src/org/lineage/providers/datausage/DataUsageService.java:345-381 | A row posts a notification iff its bucket exists, the delta is not idle, its baseline holds 60 samples and the stored fast average exceeds the stored slow one. |
| UsageService.Detect | src/org/lineage/providers/datausage/DataUsageService.java:320-403 | The detection loop as a fold over the cursor. Its notifications are characterized by DetectNotifications and its table by CycleAdvancesEnabledRows. |
| UsageService.DetectNotifications | src/org/lineage/providers/datausage/DataUsageService.java:320-403 | The notifications of a pass are one per warning cursor row, in cursor order, each with first-time iff that row's active flag was off, whatever the table; a notification is posted iff some cursor row warns. |
| UsageService.DetectIsWarningNotes | src/org/lineage/providers/datausage/DataUsageService.java:320-403 | The detection loop's notifications equal the front-to-back reference: one per warning cursor row, in cursor order. |
| UsageService.WarningNotesMembers | src/org/lineage/providers/datausage/DataUsageService.java:377-379 | A notification is posted iff some cursor row warns and it carries that row's uid, label and first-time flag. |
| UsageService.DataUsageService.constructor | src/org/lineage/providers/datausage/DataUsageService.java:174 | No bucket and a largest total of 0. |
| UsageService.DataUsageService.Accumulate | src/org/lineage/providers/datausage/DataUsageService.java:218-232 | The bucket map becomes `Accumulated` of the old one. `largest` becomes the maximum of the old value and the bucket's new total, and stays the largest bucket total. |
| UsageService.DataUsageService.ClearStats | src/org/lineage/providers/datausage/DataUsageService.java:234-240 | The loop over the keys zeroes every total and keeps buckets, members and categories. |
| UsageService.DataUsageService.CollectEntry | src/org/lineage/providers/datausage/DataUsageService.java:270-296 | One iteration of the collection loop: the bucket map becomes one `AddEntry` step of the specification, and `largest` stays the largest bucket total. |
| UsageService.DataUsageService.CollectStats | src/org/lineage/providers/datausage/DataUsageService.java:265-297 | The loop leaves the bucket map equal to the specification fold of the entries, and keeps `largest` the largest bucket total. |
| UsageService.DataUsageService.ProcessRow | src/org/lineage/providers/datausage/DataUsageService.java:321-401 | One cursor row: a row whose uid has no bucket is skipped. Otherwise it is evaluated, written back by uid, and notified when the warning fires. |
| UsageService.DataUsageService.ScanEnabledRows | src/org/lineage/providers/datausage/DataUsageService.java:308-404 | The detection loop over the rows with enb 1 leaves the table and the notifications equal to the specification `Detect`. |
| UsageService.DataUsageService.DataUsageUpdate | src/org/lineage/providers/datausage/DataUsageService.java:247-405 | Resets `largest` and the totals and folds in the statistics (none when the fetch failed). The tables and notifications are then those of `Detect` over the enabled rows. |
| UsageService.DataUsageService.OnHandleIntent | src/org/lineage/providers/datausage/DataUsageService.java:152-179 | Each cycle starts from a fresh bucket map, so the map is exactly the aggregate of this cycle's statistics. |
| UsageService.FailedFetchWritesNothing | src/org/lineage/providers/datausage/DataUsageService.java:265-332 | Without statistics there is no bucket: the cycle writes no row and posts no notification. |
| UsageService.WriteReadsBack | src/org/lineage/providers/datausage/DataUsageService.java:424-456 | What updateDb writes is what the next cycle's cursor reads back. |
| UsageService.SelectKeepsUniqueUids | src/org/lineage/providers/datausage/DataUsageService.java:309-315 | The cursor of a table with unique uids has unique uids. |
| UsageService.AdvanceOneRow | src/org/lineage/providers/datausage/DataUsageService.java:330-401 | Processing a row not yet visited advances exactly that row by one cycle. |
| UsageService.VisitedSnoc | src/org/lineage/providers/datausage/DataUsageService.java:320-332 | A row counts as visited after one more cursor row iff it was visited before or the new row has its uid and a bucket. |
| UsageService.DetectAdvancesVisitedRows | src/org/lineage/providers/datausage/DataUsageService.java:320-403 | The detection loop adds and removes no row. It advances exactly the visited rows by one detector cycle and leaves every other row untouched. |
| UsageService.CycleAdvancesEnabledRows | src/org/lineage/providers/datausage/DataUsageService.java:308-403 | On a table with unique uids, an enabled row whose uid has a bucket has its statistics advanced by exactly one `Detector.Cycle`. Every other row is unchanged, so the multi-cycle lemmas of `Detector` apply to each row. |

## Left out

- Floating point and 64-bit widths.
  - `computeAvg` and the exceed test are modelled as exact arithmetic followed by Java's truncation toward zero.
  - Float rounding of large byte counts and `long` overflow are not modelled. Integers are unbounded.
  - The percentage is compared as `(fast - slow) * 100 > 68 * slow` for a positive slow average. A zero slow average gives +Infinity in float, so the test is just `fast > slow`. A negative slow average gives a negative percentage, which never passes.
- Negative sample-count columns. The sample counts are natural numbers, because the detector only ever writes non-negative counts. A row edited to hold a negative count is not modelled.
- A null `uid` column reads as 0, as `Cursor.getInt` does.
- Bucket keys.
  - Buckets are a tagged datatype.
  - The int encoding of user keys (`buildKeyForUser`) is not modelled. The model assumes no table row's uid equals such a key, so a row is looked up only as the removed-users bucket (uid -4) or an app bucket.
  - The model assumes `isApp(-4)` is false, as on the platform, so no app bucket for uid -4 is ever created beside the removed-users bucket. In the source both are the int key -4 and would be the same bucket; `Users.isApp` is a parameter and the model does not enforce this.
- The user label in notifications. `UidDetailProvider` labels are a parameter `labelOf`.
- How notifications are displayed.
  - The notification builder, intents and actions are left out. Only `(uid, title, firstTime)` is kept.
  - Every notification uses the same id, so a later one replaces an earlier one on screen. The model returns the whole sequence.
- `genExtraInfo` with DEBUG on. DEBUG is false, so the full update stores an empty extra string.
- Platform setup and scheduling.
  - Telephony, subscription and session setup, and the time window of the statistics fetch, are left out. The fetched statistics are the parameter `stats`.
  - The alarm timing constants, the broadcast receivers, and the package install and remove services are not part of this model. The alarm is the boolean `alarmArmed`.
- SQL forms.
  - Only the `<column> = ?` selections the core uses are modelled: `uid = ?` and `enb = ?`.
  - Projection and sort order are left out.
  - A selection is paired with its one argument. A null selection with non-null arguments, or the reverse, is not representable.
  - An `_id` supplied in the values is not modelled.
- Other query sources.
  - Concurrency between the service and other provider clients, and transaction rollback, are left out.
  - The content resolver returning a null cursor for an unavailable provider is left out. `query` on the table URI never returns null here.
  - `onUpgrade` is left out.
- Behaviour of the code worth knowing; the model follows it as written.
  - A negative byte delta (a counter reset) takes the idle branch and only stores the new bytes.
  - Any delta of at most 5 KiB (`MAX_IDLE_BW`) is idle.
  - A warning is judged on the averages from before the update, so it comes one cycle after the spike (see `Detector.SpikeWarnsOneCycleLate`).
- CycleAdvancesEnabledRows assumes a table in which every row has a uid and no two rows share one. `enbApp`'s upsert keeps that shape, but `addApp` is a plain insert and can add a second row for a uid (`UsageUtils.AddAppTwiceLeavesTwoRows`); for such a table the lemma says nothing.
- The update result. On the upsert path, `update` returns the new rowid rather than 1, because it returns the result of `db.insert`. This is modelled as written (`UsageStore.UpsertResult`).

## Findings

| source | as written | input that shows it | evidently intended | confidence | as-written member | corrected member |
|---|---|---|---|---|---|---|
| src/org/cyanogenmod/providers/datausage/DataUsageUtils.java:42-52 | `info.isManagedProfile()` is called before any null check, so the later `info == null` branch, which selects the "unknown" string, can never run | `getUserLabel(context, null)` throws NullPointerException | a null info yields the label built on the "unknown" string | not executed | UsageUtils.GetUserLabelAsWritten (exhibited by UsageUtils.NullUserInfoThrows) | UsageUtils.GetUserLabel |
