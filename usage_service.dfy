/**
 * DataUsageService: one sampling cycle. The bucket map is rebuilt from the network
 * statistics, then every row of the data-usage table with warnings enabled is
 * evaluated against its bucket and written back, raising notifications.
 */
module UsageService {
  import opened Wrappers
  import opened UsageStore
  import opened Aggregation
  import opened Detector

  /** A posted notification: the app's uid, its display label, and whether it is the first warning. */
  datatype Notification = Notification(uid: int, title: string, firstTime: bool)

  /** Cursor.getInt on the uid column: a NULL uid reads as 0. */
  function RowUid(r: Row): int {
    r.uid.GetOr(0)
  }

  /** The bucket a table row is looked up under: the removed-users key, otherwise the app's own uid. */
  function RowBucket(uid: int): (b: Bucket)
    ensures b == RemovedBucket <==> uid == UID_REMOVED
    ensures b != RemovedBucket ==> b == AppBucket(uid)
  {
    if uid == UID_REMOVED then RemovedBucket else AppBucket(uid)
  }

  /** The statistics the detection loop reads from one cursor row. */
  function RowStats(r: Row): Stats {
    Stats(r.active > 0, r.bytes, r.slowAvg, r.slowSamples, r.fastAvg, r.fastSamples)
  }

  /** The ContentValues of the two updateDb overloads; the full one stores an empty extra string (debug off). */
  function WriteValues(w: Write): (v: Values)
    ensures v.uid.None? && v.enb.None? && v.appLabel.None?
    ensures v.bytes == Some(w.bytes)
  {
    match w
    case BytesOnly(b) => NoValues.(bytes := Some(b))
    case AllColumns(sa, ss, fa, fs, a, b) =>
      Values(None, None, Some(a), None, Some(b), Some(sa), Some(ss), Some(fa), Some(fs), Some(""))
  }

  /** The selection of the cursor: `enb = 1`. */
  function EnabledRows(rows: seq<Row>): (r: seq<Row>)
    ensures forall x :: x in r <==> x in rows && x.enb == 1
  {
    Select(rows, Some(Where(EnbColumn, 1)))
  }

  /** The verdict for one cursor row: None when its uid has no bucket (the row is skipped). */
  function RowVerdict(row: Row, items: map<Bucket, AppItem>): (v: Option<Verdict>)
    ensures v.Some? <==> RowBucket(RowUid(row)) in items
    ensures v.Some? ==> v.value.write.bytes == items[RowBucket(RowUid(row))].total
  {
    var key := RowBucket(RowUid(row));
    if key in items then Some(Evaluate(RowStats(row), items[key].total)) else None
  }

  /** The table after the updateDb call for one cursor row (an update by uid). */
  function RowWrite(t: seq<Row>, row: Row, items: map<Bucket, AppItem>): (r: seq<Row>)
    ensures |t| <= |r| <= |t| + 1
    ensures RowBucket(RowUid(row)) !in items ==> r == t
  {
    var uid := RowUid(row);
    match RowVerdict(row, items)
    case None => t
    case Some(v) => Upsert(t, Where(UidColumn, uid), uid, WriteValues(v.write))
  }

  /** The notification genNotification posts for one cursor row, if any. */
  function RowNotes(row: Row, items: map<Bucket, AppItem>, labelOf: int -> string): (ns: seq<Notification>)
    ensures |ns| <= 1
    ensures ns != [] ==> ns[0] == Notification(RowUid(row), labelOf(RowUid(row)), !(row.active > 0))
  {
    var uid := RowUid(row);
    match RowVerdict(row, items)
    case Some(Verdict(_, Some(firstTime))) => [Notification(uid, labelOf(uid), firstTime)]
    case _ => []
  }

  /**
   * The detection loop over `cursor` (a snapshot taken before any write), starting from
   * `table`: the table and the notifications after it.
   */
  function Detect(cursor: seq<Row>, items: map<Bucket, AppItem>, table: seq<Row>, labelOf: int -> string)
    : (r: (seq<Row>, seq<Notification>))
    decreases |cursor|
  {
    if cursor == [] then (table, [])
    else
      var (t, ns) := Detect(cursor[..|cursor| - 1], items, table, labelOf);
      var row := cursor[|cursor| - 1];
      (RowWrite(t, row, items), ns + RowNotes(row, items, labelOf))
  }

  /** Detect over one more cursor row. */
  lemma DetectStep(cursor: seq<Row>, i: int, items: map<Bucket, AppItem>, table: seq<Row>, labelOf: int -> string)
    requires 0 <= i < |cursor|
    ensures var prior := Detect(cursor[..i], items, table, labelOf);
            Detect(cursor[..i + 1], items, table, labelOf)
              == (RowWrite(prior.0, cursor[i], items), prior.1 + RowNotes(cursor[i], items, labelOf))
  {
    assert cursor[..i + 1][..i] == cursor[..i];
  }

  /**
   * The row raises a warning this cycle: its uid has a bucket, the byte delta is not idle,
   * its baseline is established and the stored fast average exceeds the stored slow one.
   */
  ghost predicate Warns(row: Row, items: map<Bucket, AppItem>) {
    var key := RowBucket(RowUid(row));
    && key in items
    && row.slowSamples >= MIN_SLOW_SAMPLE_COUNT
    && Delta(RowStats(row), items[key].total) > MAX_IDLE_BW
    && Exceeds(row.fastAvg, row.slowAvg)
  }

  /** The notification posted for a warning row: first-time exactly when its stored active flag was off. */
  function NoteFor(row: Row, labelOf: int -> string): Notification {
    Notification(RowUid(row), labelOf(RowUid(row)), !(row.active > 0))
  }

  /** Independent reference: the notifications of the warning rows of `cursor`, front to back. */
  ghost function WarningNotes(cursor: seq<Row>, items: map<Bucket, AppItem>, labelOf: int -> string): seq<Notification>
    decreases |cursor|
  {
    if cursor == [] then []
    else (if Warns(cursor[0], items) then [NoteFor(cursor[0], labelOf)] else []) + WarningNotes(cursor[1..], items, labelOf)
  }

  lemma {:induction false} WarningNotesSnoc(p: seq<Row>, x: Row, items: map<Bucket, AppItem>, labelOf: int -> string)
    ensures WarningNotes(p + [x], items, labelOf)
         == WarningNotes(p, items, labelOf) + (if Warns(x, items) then [NoteFor(x, labelOf)] else [])
    decreases |p|
  {
    if p == [] {
      assert [x][1..] == [];
    } else {
      assert (p + [x])[1..] == p[1..] + [x];
      WarningNotesSnoc(p[1..], x, items, labelOf);
    }
  }

  lemma RowNotesWarn(row: Row, items: map<Bucket, AppItem>, labelOf: int -> string)
    ensures RowNotes(row, items, labelOf) == if Warns(row, items) then [NoteFor(row, labelOf)] else []
  {
    var key := RowBucket(RowUid(row));
    if key in items {
      var s := RowStats(row);
      var total := items[key].total;
      if Delta(s, total) <= MAX_IDLE_BW {
        IdleCycle(s, total);
      } else if s.slowSamples < MIN_SLOW_SAMPLE_COUNT {
        BaselineCycle(s, total);
      } else {
        EstablishedCycle(s, total);
      }
    }
  }

  /**
   * The notifications of one detection pass: exactly one for each cursor row that warns, in
   * cursor order, carrying its uid, its label and first-time iff its active flag was off;
   * whatever the table.
   */
  lemma {:induction false} DetectNotifications(cursor: seq<Row>, items: map<Bucket, AppItem>, table: seq<Row>, labelOf: int -> string)
    ensures Detect(cursor, items, table, labelOf).1 == WarningNotes(cursor, items, labelOf)
    ensures forall n :: n in Detect(cursor, items, table, labelOf).1 <==>
              exists i :: 0 <= i < |cursor| && Warns(cursor[i], items) && n == NoteFor(cursor[i], labelOf)
  {
    DetectIsWarningNotes(cursor, items, table, labelOf);
    WarningNotesMembers(cursor, items, labelOf);
  }

  lemma {:induction false} DetectIsWarningNotes(cursor: seq<Row>, items: map<Bucket, AppItem>, table: seq<Row>, labelOf: int -> string)
    ensures Detect(cursor, items, table, labelOf).1 == WarningNotes(cursor, items, labelOf)
    decreases |cursor|
  {
    if cursor != [] {
      var prefix, row := cursor[..|cursor| - 1], cursor[|cursor| - 1];
      DetectIsWarningNotes(prefix, items, table, labelOf);
      RowNotesWarn(row, items, labelOf);
      assert cursor == prefix + [row];
      WarningNotesSnoc(prefix, row, items, labelOf);
    }
  }

  /** A notification is in the reference sequence iff some row warns and it is that row's notification. */
  lemma {:induction false} WarningNotesMembers(cursor: seq<Row>, items: map<Bucket, AppItem>, labelOf: int -> string)
    ensures forall n :: n in WarningNotes(cursor, items, labelOf) <==>
              exists i :: 0 <= i < |cursor| && Warns(cursor[i], items) && n == NoteFor(cursor[i], labelOf)
    decreases |cursor|
  {
    if cursor != [] {
      var rest := cursor[1..];
      WarningNotesMembers(rest, items, labelOf);
      forall n ensures n in WarningNotes(cursor, items, labelOf) <==>
                exists i :: 0 <= i < |cursor| && Warns(cursor[i], items) && n == NoteFor(cursor[i], labelOf) {
        if n in WarningNotes(rest, items, labelOf) {
          var i :| 0 <= i < |rest| && Warns(rest[i], items) && n == NoteFor(rest[i], labelOf);
          assert cursor[i + 1] == rest[i];
        }
        if exists i :: 0 <= i < |cursor| && Warns(cursor[i], items) && n == NoteFor(cursor[i], labelOf) {
          var i :| 0 <= i < |cursor| && Warns(cursor[i], items) && n == NoteFor(cursor[i], labelOf);
          if i > 0 {
            assert rest[i - 1] == cursor[i];
          }
        }
      }
    }
  }

  class DataUsageService {
    /** mKnownItems, keyed by collapse key. */
    var knownItems: map<Bucket, AppItem>
    /** mLargest. */
    var largest: int

    ghost predicate Valid()
      reads this
    {
      IsLargest(knownItems, largest)
    }

    constructor ()
      ensures Valid() && knownItems == map[] && largest == 0
    {
      knownItems := map[];
      largest := 0;
    }

    /** accumulate: grow (or create) one bucket and raise mLargest to its total when it exceeds it. */
    method Accumulate(key: Bucket, e: Entry, category: Category)
      requires Valid()
      modifies this
      ensures Valid()
      ensures knownItems == Accumulated(old(knownItems), key, category, e)
      ensures largest == Max(old(largest), knownItems[key].total)
    {
      var item: AppItem;
      if key in knownItems {
        item := knownItems[key];
      } else {
        item := AppItem(category, {}, 0);
      }
      item := item.(uids := item.uids + {e.uid}, total := item.total + e.rxBytes + e.txBytes);
      knownItems := knownItems[key := item];
      if largest < item.total {
        largest := item.total;
      }
      if item.total == largest {
        assert key in knownItems && knownItems[key].total == largest;
      } else {
        assert old(knownItems) != map[];
        ghost var b0 :| b0 in old(knownItems) && old(knownItems)[b0].total == largest;
        assert b0 != key;
        assert b0 in knownItems && knownItems[b0].total == largest;
      }
    }

    /** clearStats: every bucket's total back to 0; the buckets and their members are kept. */
    method ClearStats()
      modifies this`knownItems
      ensures knownItems == Cleared(old(knownItems))
    {
      var pending := knownItems.Keys;
      while pending != {}
        invariant pending <= knownItems.Keys == old(knownItems).Keys
        invariant forall b :: b in knownItems ==>
                    knownItems[b] == if b in pending then old(knownItems)[b] else old(knownItems)[b].(total := 0)
        decreases pending
      {
        var b :| b in pending;
        knownItems := knownItems[b := knownItems[b].(total := 0)];
        pending := pending - {b};
      }
    }

    /** One iteration of the collection loop: route one entry to its collapse key (and its user's bucket). */
    method CollectEntry(entry: Entry, users: Users)
      requires Valid()
      modifies this
      ensures Valid()
      ensures knownItems == AddEntry(old(knownItems), entry, users)
    {
      var uid := entry.uid;
      var userId := users.userIdOf(uid);
      if users.isApp(uid) {
        var collapseKey: Bucket, category: Category;
        if userId in users.profiles {
          if userId != users.currentUser {
            Accumulate(UserBucket(userId), entry, CategoryUser);
          }
          collapseKey, category := AppBucket(uid), CategoryApp;
        } else if !users.userInfoExists(userId) {
          collapseKey, category := RemovedBucket, CategoryApp;
        } else {
          collapseKey, category := UserBucket(userId), CategoryUser;
        }
        Accumulate(collapseKey, entry, category);
      }
    }

    /** The collection loop of dataUsageUpdate: route every entry to its buckets. */
    method CollectStats(entries: seq<Entry>, users: Users)
      requires Valid()
      modifies this
      ensures Valid()
      ensures knownItems == AggregateFrom(old(knownItems), entries, users)
    {
      var i := 0;
      while i < |entries|
        invariant 0 <= i <= |entries|
        invariant Valid()
        invariant knownItems == AggregateFrom(old(knownItems), entries[..i], users)
      {
        CollectEntry(entries[i], users);
        assert entries[..i + 1][..i] == entries[..i];
        i := i + 1;
      }
      assert entries[..|entries|] == entries;
    }

    /**
     * dataUsageUpdate: reset mLargest and the totals, fold in the statistics when they could
     * be fetched (`stats` is None when the session or the fetch failed), then run the
     * detection loop over the enabled rows.
     */
    method DataUsageUpdate(store: UsageTable, stats: Option<seq<Entry>>, users: Users, labelOf: int -> string)
      returns (notifications: seq<Notification>)
      requires store.Valid()
      modifies this, store
      ensures Valid() && store.Valid()
      ensures knownItems == AggregateFrom(Cleared(old(knownItems)), if stats.Some? then stats.value else [], users)
      ensures (store.rows, notifications) == Detect(EnabledRows(old(store.rows)), knownItems, old(store.rows), labelOf)
    {
      largest := 0;
      ClearStats();
      if stats.Some? {
        CollectStats(stats.value, users);
      }
      notifications := ScanEnabledRows(store, labelOf);
    }

    /** The detection loop of dataUsageUpdate: evaluate every enabled row whose uid has a bucket, write it back, notify. */
    method ScanEnabledRows(store: UsageTable, labelOf: int -> string) returns (notifications: seq<Notification>)
      requires store.Valid()
      modifies store
      ensures store.Valid()
      ensures (store.rows, notifications) == Detect(EnabledRows(old(store.rows)), knownItems, old(store.rows), labelOf)
    {
      var cursor := store.Query(TableUri, Some(Where(EnbColumn, 1))).value;
      ghost var table := store.rows;
      notifications := [];
      var i := 0;
      while i < |cursor|
        invariant 0 <= i <= |cursor|
        invariant store.Valid()
        invariant (store.rows, notifications) == Detect(cursor[..i], knownItems, table, labelOf)
      {
        DetectStep(cursor, i, knownItems, table, labelOf);
        var notes := ProcessRow(store, cursor[i], labelOf);
        notifications := notifications + notes;
        i := i + 1;
      }
      assert cursor[..|cursor|] == cursor;
    }

    /** The body of the detection loop for one cursor row: look up its bucket, evaluate, notify, updateDb. */
    method ProcessRow(store: UsageTable, row: Row, labelOf: int -> string) returns (notes: seq<Notification>)
      requires store.Valid()
      modifies store
      ensures store.Valid()
      ensures store.rows == RowWrite(old(store.rows), row, knownItems)
      ensures notes == RowNotes(row, knownItems, labelOf)
    {
      notes := [];
      var uid := RowUid(row);
      var key := RowBucket(uid);
      if key in knownItems {
        var verdict := Evaluate(RowStats(row), knownItems[key].total);
        if verdict.warning.Some? {
          notes := [Notification(uid, labelOf(uid), verdict.warning.value)];
        }
        var _ := store.Update(TableUri, WriteValues(verdict.write), Some(Where(UidColumn, uid)));
      }
    }

    /** onHandleIntent: every cycle starts from a fresh bucket map, then runs dataUsageUpdate. */
    method OnHandleIntent(store: UsageTable, stats: Option<seq<Entry>>, users: Users, labelOf: int -> string)
      returns (notifications: seq<Notification>)
      requires store.Valid()
      modifies this, store
      ensures Valid() && store.Valid()
      ensures knownItems == Aggregate(if stats.Some? then stats.value else [], users)
      ensures (store.rows, notifications) == Detect(EnabledRows(old(store.rows)), knownItems, old(store.rows), labelOf)
    {
      knownItems := map[];
      assert Cleared(knownItems) == map[];
      notifications := DataUsageUpdate(store, stats, users, labelOf);
    }
  }

  /** A cycle whose statistics could not be fetched has no bucket, so it writes nothing and notifies nothing. */
  lemma {:induction false} FailedFetchWritesNothing(cursor: seq<Row>, table: seq<Row>, labelOf: int -> string)
    ensures Detect(cursor, map[], table, labelOf).0 == table
    ensures Detect(cursor, map[], table, labelOf).1 == []
    decreases |cursor|
  {
    if cursor != [] {
      var prefix, row := cursor[..|cursor| - 1], cursor[|cursor| - 1];
      FailedFetchWritesNothing(prefix, table, labelOf);
      assert RowNotes(row, map[], labelOf) == [];
      assert RowWrite(table, row, map[]) == table;
    }
  }

  /** What a write stores is what the next cycle reads back: the row's statistics become Written(…). */
  lemma WriteReadsBack(r: Row, w: Write)
    ensures RowStats(Apply(r, WriteValues(w))) == Written(RowStats(r), w)
    ensures Apply(r, WriteValues(w)).uid == r.uid && Apply(r, WriteValues(w)).enb == r.enb
    ensures Apply(r, WriteValues(w)).id == r.id && Apply(r, WriteValues(w)).appLabel == r.appLabel
  {
  }

  /**
   * Every row carries a uid and no two rows share one. The upsert of enbApp keeps this
   * shape; addApp, a plain insert, does not.
   */
  ghost predicate UniqueUids(rows: seq<Row>) {
    && (forall i :: 0 <= i < |rows| ==> rows[i].uid.Some?)
    && (forall i, j :: 0 <= i < j < |rows| ==> rows[i].uid != rows[j].uid)
  }

  lemma {:induction false} SelectKeepsUniqueUids(rows: seq<Row>, sel: Option<Selection>)
    requires UniqueUids(rows)
    ensures UniqueUids(Select(rows, sel))
    decreases |rows|
  {
    if rows != [] {
      var rest := rows[1..];
      assert UniqueUids(rest);
      SelectKeepsUniqueUids(rest, sel);
      var s := Select(rest, sel);
      forall j | 0 <= j < |s| ensures s[j].uid != rows[0].uid {
        assert s[j] in rest;
      }
    }
  }

  /** The row of `table` at `k` is visited by the cursor with a bucket. */
  ghost predicate Visited(cursor: seq<Row>, items: map<Bucket, AppItem>, row: Row) {
    exists c :: c in cursor && c.uid == row.uid && RowBucket(RowUid(c)) in items
  }

  /** The shape of the table during the detection loop: same rows, the visited ones advanced by one cycle. */
  ghost predicate Advanced(t: seq<Row>, table: seq<Row>, cursor: seq<Row>, items: map<Bucket, AppItem>) {
    && |t| == |table|
    && (forall k :: 0 <= k < |t| ==> t[k].id == table[k].id && t[k].uid == table[k].uid && t[k].enb == table[k].enb)
    && (forall k :: 0 <= k < |t| ==>
          if Visited(cursor, items, table[k])
          then RowStats(t[k]) == Cycle(RowStats(table[k]), items[RowBucket(RowUid(table[k]))].total)
          else t[k] == table[k])
  }

  lemma AdvanceOneRow(t: seq<Row>, table: seq<Row>, prefix: seq<Row>, row: Row, items: map<Bucket, AppItem>)
    requires UniqueUids(table) && row in table
    requires Advanced(t, table, prefix, items)
    requires forall c :: c in prefix ==> c.uid != row.uid
    requires RowBucket(RowUid(row)) in items
    ensures var uid := RowUid(row);
            var v := Evaluate(RowStats(row), items[RowBucket(uid)].total);
            Advanced(Upsert(t, Where(UidColumn, uid), uid, WriteValues(v.write)), table, prefix + [row], items)
  {
    var uid := RowUid(row);
    var v := Evaluate(RowStats(row), items[RowBucket(uid)].total);
    var sel := Where(UidColumn, uid);
    var k :| 0 <= k < |table| && table[k] == row;
    assert !Visited(prefix, items, row);
    assert t[k] == row && Matches(t[k], Some(sel));
    assert CountMatching(t, Some(sel)) != 0;
    var t' := Upsert(t, sel, uid, WriteValues(v.write));
    assert t' == UpdateWhere(t, Some(sel), WriteValues(v.write));
    WriteReadsBack(row, v.write);
    forall j | 0 <= j < |t|
      ensures t'[j].id == table[j].id && t'[j].uid == table[j].uid && t'[j].enb == table[j].enb
      ensures if Visited(prefix + [row], items, table[j])
              then RowStats(t'[j]) == Cycle(RowStats(table[j]), items[RowBucket(RowUid(table[j]))].total)
              else t'[j] == table[j]
    {
      VisitedSnoc(prefix, row, items, table[j]);
      if j != k {
        assert table[j].uid != row.uid;
        assert !Matches(t[j], Some(sel));
      }
    }
  }

  lemma VisitedSnoc(prefix: seq<Row>, row: Row, items: map<Bucket, AppItem>, r: Row)
    ensures Visited(prefix + [row], items, r) <==>
              Visited(prefix, items, r) || (row.uid == r.uid && RowBucket(RowUid(row)) in items)
  {
    if Visited(prefix + [row], items, r) {
      var c :| c in prefix + [row] && c.uid == r.uid && RowBucket(RowUid(c)) in items;
      assert c in prefix || c == row;
    }
    if Visited(prefix, items, r) {
      var c :| c in prefix && c.uid == r.uid && RowBucket(RowUid(c)) in items;
      assert c in prefix + [row];
    }
    if row.uid == r.uid && RowBucket(RowUid(row)) in items {
      assert row in prefix + [row];
    }
  }

  /** The detection loop advances exactly the visited rows by one cycle and leaves the rest untouched. */
  lemma {:induction false} DetectAdvancesVisitedRows(cursor: seq<Row>, items: map<Bucket, AppItem>, table: seq<Row>, labelOf: int -> string)
    requires UniqueUids(table) && UniqueUids(cursor)
    requires forall c :: c in cursor ==> c in table
    ensures Advanced(Detect(cursor, items, table, labelOf).0, table, cursor, items)
    decreases |cursor|
  {
    if cursor == [] {
      forall k | 0 <= k < |table| ensures !Visited(cursor, items, table[k]) { }
    } else {
      var prefix, row := cursor[..|cursor| - 1], cursor[|cursor| - 1];
      assert cursor == prefix + [row];
      assert UniqueUids(prefix);
      DetectAdvancesVisitedRows(prefix, items, table, labelOf);
      var t := Detect(prefix, items, table, labelOf).0;
      if RowBucket(RowUid(row)) in items {
        forall c | c in prefix ensures c.uid != row.uid {
          var j :| 0 <= j < |prefix| && prefix[j] == c;
          assert cursor[j] == c;
        }
        AdvanceOneRow(t, table, prefix, row, items);
      } else {
        forall k | 0 <= k < |table| ensures Visited(cursor, items, table[k]) <==> Visited(prefix, items, table[k]) {
          if Visited(cursor, items, table[k]) {
            var c :| c in cursor && c.uid == table[k].uid && RowBucket(RowUid(c)) in items;
            assert c in prefix;
          }
        }
      }
    }
  }

  /**
   * One cycle over a table with unique uids: an enabled row whose uid has a bucket has its
   * statistics advanced by exactly one detector Cycle; every other row is left untouched,
   * and no row is added or removed.
   */
  lemma CycleAdvancesEnabledRows(table: seq<Row>, items: map<Bucket, AppItem>, labelOf: int -> string, k: int)
    requires UniqueUids(table) && 0 <= k < |table|
    ensures var t := Detect(EnabledRows(table), items, table, labelOf).0;
      && |t| == |table|
      && t[k].id == table[k].id && t[k].uid == table[k].uid && t[k].enb == table[k].enb
      && if table[k].enb == 1 && RowBucket(RowUid(table[k])) in items
         then RowStats(t[k]) == Cycle(RowStats(table[k]), items[RowBucket(RowUid(table[k]))].total)
         else t[k] == table[k]
  {
    var cursor := EnabledRows(table);
    SelectKeepsUniqueUids(table, Some(Where(EnbColumn, 1)));
    DetectAdvancesVisitedRows(cursor, items, table, labelOf);
    if Visited(cursor, items, table[k]) {
      var c :| c in cursor && c.uid == table[k].uid && RowBucket(RowUid(c)) in items;
      var j :| 0 <= j < |table| && table[j] == c;
      assert j == k;
    }
  }
}
