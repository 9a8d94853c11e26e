/**
 * The usage store: the single `datausage` table of DataUsageProvider, with the
 * provider's insert, update-or-insert, delete, query and getType.
 *
 * The table is a sequence of rows in rowid order. A selection is the one-argument
 * equality `<column> = ?` that every caller in the core passes, or no selection at all.
 */
module UsageStore {
  import opened Wrappers

  /** One row of the table; columns that have a schema default are plain values. */
  datatype Row = Row(
    id: int,                // _id, INTEGER PRIMARY KEY (the rowid)
    uid: Option<int>,       // uid, no default: NULL unless supplied
    enb: int,               // enable flag (ENB, also spelled ENABLE), default 0
    active: int,            // warning currently active, default 0
    appLabel: Option<string>,  // label, no default
    bytes: int,             // last total bytes seen, default 0
    slowAvg: int,
    slowSamples: nat,
    fastAvg: int,
    fastSamples: nat,       // the four statistics, default 0
    extra: Option<string>)  // diagnostic samples, no default

  /** A ContentValues: the columns a write supplies; None means "not supplied". */
  datatype Values = Values(
    uid: Option<int>,
    enb: Option<int>,
    active: Option<int>,
    appLabel: Option<string>,
    bytes: Option<int>,
    slowAvg: Option<int>,
    slowSamples: Option<nat>,
    fastAvg: Option<int>,
    fastSamples: Option<nat>,
    extra: Option<string>)

  const NoValues := Values(None, None, None, None, None, None, None, None, None, None)

  datatype Column = UidColumn | EnbColumn

  /** The selection `<column> = ?` together with its single selection argument. */
  datatype Selection = Where(column: Column, arg: int)

  /** The URI kinds the provider's matcher knows: the table, the table row by id, the rows of one uid (uid/ followed by the uid), or no match. */
  datatype Uri = TableUri | IdUri(id: int) | UidUri(uid: int) | UnmatchedUri

  /** Exceptions thrown by the provider. */
  datatype Error = UnsupportedOperation | IllegalArgument | NullPointer

  const DIR_TYPE := "vnd.android.cursor.dir/datausage_entry"
  const ITEM_TYPE := "vnd.android.cursor.item/datausage_entry"

  predicate Matches(r: Row, sel: Option<Selection>) {
    match sel
    case None => true
    case Some(Where(UidColumn, a)) => r.uid == Some(a)
    case Some(Where(EnbColumn, a)) => r.enb == a
  }

  /** A freshly inserted row: supplied columns, schema defaults for the rest. */
  function NewRow(id: int, v: Values): (r: Row)
    ensures r.id == id && r.uid == v.uid && r.appLabel == v.appLabel && r.extra == v.extra
    ensures v.enb.Some? ==> r.enb == v.enb.value
    ensures v.active.Some? ==> r.active == v.active.value
    ensures v.bytes.Some? ==> r.bytes == v.bytes.value
    ensures v.slowAvg.Some? ==> r.slowAvg == v.slowAvg.value
    ensures v.slowSamples.Some? ==> r.slowSamples == v.slowSamples.value
    ensures v.fastAvg.Some? ==> r.fastAvg == v.fastAvg.value
    ensures v.fastSamples.Some? ==> r.fastSamples == v.fastSamples.value
    ensures v.enb.None? ==> r.enb == 0
    ensures v.active.None? ==> r.active == 0
    ensures v.bytes.None? ==> r.bytes == 0
    ensures v.slowAvg.None? ==> r.slowAvg == 0
    ensures v.slowSamples.None? ==> r.slowSamples == 0
    ensures v.fastAvg.None? ==> r.fastAvg == 0
    ensures v.fastSamples.None? ==> r.fastSamples == 0
  {
    Row(id, v.uid, v.enb.GetOr(0), v.active.GetOr(0), v.appLabel, v.bytes.GetOr(0),
        v.slowAvg.GetOr(0), v.slowSamples.GetOr(0), v.fastAvg.GetOr(0), v.fastSamples.GetOr(0),
        v.extra)
  }

  /** A row after an UPDATE that supplies `v`: supplied columns overwritten, the others kept. */
  function Apply(r: Row, v: Values): (a: Row)
    ensures a.id == r.id
    ensures v == NoValues ==> a == r
    ensures v.uid.Some? ==> a.uid == v.uid
    ensures v.enb.Some? ==> a.enb == v.enb.value
    ensures v.active.Some? ==> a.active == v.active.value
    ensures v.appLabel.Some? ==> a.appLabel == v.appLabel
    ensures v.bytes.Some? ==> a.bytes == v.bytes.value
    ensures v.slowAvg.Some? ==> a.slowAvg == v.slowAvg.value
    ensures v.slowSamples.Some? ==> a.slowSamples == v.slowSamples.value
    ensures v.fastAvg.Some? ==> a.fastAvg == v.fastAvg.value
    ensures v.fastSamples.Some? ==> a.fastSamples == v.fastSamples.value
    ensures v.extra.Some? ==> a.extra == v.extra
    ensures v.uid.None? ==> a.uid == r.uid
  {
    Row(r.id,
        if v.uid.Some? then v.uid else r.uid,
        v.enb.GetOr(r.enb), v.active.GetOr(r.active),
        if v.appLabel.Some? then v.appLabel else r.appLabel,
        v.bytes.GetOr(r.bytes), v.slowAvg.GetOr(r.slowAvg), v.slowSamples.GetOr(r.slowSamples),
        v.fastAvg.GetOr(r.fastAvg), v.fastSamples.GetOr(r.fastSamples),
        if v.extra.Some? then v.extra else r.extra)
  }

  /** The largest rowid in use, 0 for an empty table. */
  function MaxId(rows: seq<Row>): (m: int)
    ensures m >= 0
    ensures forall i :: 0 <= i < |rows| ==> rows[i].id <= m
  {
    if rows == [] then 0
    else
      var rest := MaxId(rows[1..]);
      if rows[0].id > rest then rows[0].id else rest
  }

  /** The rowid SQLite gives the next inserted row: one above the largest in use. */
  function NextRowId(rows: seq<Row>): (id: int)
    ensures id > 0
    ensures forall i :: 0 <= i < |rows| ==> rows[i].id < id
  {
    MaxId(rows) + 1
  }

  /** Number of rows a selection matches. */
  function CountMatching(rows: seq<Row>, sel: Option<Selection>): (n: nat)
    ensures n <= |rows|
    ensures n == 0 <==> forall i :: 0 <= i < |rows| ==> !Matches(rows[i], sel)
  {
    if rows == [] then 0
    else (if Matches(rows[0], sel) then 1 else 0) + CountMatching(rows[1..], sel)
  }

  /** SELECT: the matching rows, in table order. */
  function Select(rows: seq<Row>, sel: Option<Selection>): (r: seq<Row>)
    ensures |r| == CountMatching(rows, sel)
    ensures forall x :: x in r <==> x in rows && Matches(x, sel)
  {
    if rows == [] then []
    else if Matches(rows[0], sel) then [rows[0]] + Select(rows[1..], sel)
    else Select(rows[1..], sel)
  }

  /** UPDATE: every matching row gets the supplied columns, every other row is unchanged. */
  function UpdateWhere(rows: seq<Row>, sel: Option<Selection>, v: Values): (r: seq<Row>)
    ensures |r| == |rows|
    ensures forall i :: 0 <= i < |rows| ==>
              r[i] == if Matches(rows[i], sel) then Apply(rows[i], v) else rows[i]
  {
    if rows == [] then []
    else [if Matches(rows[0], sel) then Apply(rows[0], v) else rows[0]]
         + UpdateWhere(rows[1..], sel, v)
  }

  /** DELETE: the rows the selection does not match, in table order. */
  function DeleteWhere(rows: seq<Row>, sel: Option<Selection>): (r: seq<Row>)
    ensures |r| == |rows| - CountMatching(rows, sel)
    ensures forall x :: x in r <==> x in rows && !Matches(x, sel)
  {
    if rows == [] then []
    else if Matches(rows[0], sel) then DeleteWhere(rows[1..], sel)
    else [rows[0]] + DeleteWhere(rows[1..], sel)
  }

  /**
   * What `update` addresses once the URI is matched: the selection it applies and
   * the uid a missing row is created with, or the exception it throws.
   */
  function UpdateTarget(uri: Uri, sel: Option<Selection>): (t: Result<(Selection, int), Error>)
    ensures uri.UidUri? && sel.None? ==> t == Ok((Where(UidColumn, uri.uid), uri.uid))
    ensures uri.UidUri? && sel.Some? ==> t == Err(UnsupportedOperation)
    ensures uri.TableUri? ==> t == if sel.Some? then Ok((sel.value, sel.value.arg)) else Err(NullPointer)
    ensures uri.IdUri? || uri.UnmatchedUri? ==> t == Err(UnsupportedOperation)
  {
    match uri
    case TableUri =>
      // `uid = selectionArgs[0]`: a null argument array throws
      if sel.None? then Err(NullPointer) else Ok((sel.value, sel.value.arg))
    case UidUri(u) =>
      if sel.Some? then Err(UnsupportedOperation) else Ok((Where(UidColumn, u), u))
    case _ => Err(UnsupportedOperation)
  }

  /** The table after `update`'s transaction: update the matching rows, or insert one row if none matched. */
  function Upsert(rows: seq<Row>, sel: Selection, uid: int, v: Values): (r: seq<Row>)
    ensures CountMatching(rows, Some(sel)) == 0 ==>
              |r| == |rows| + 1 && r[..|rows|] == rows
              && r[|rows|].id == NextRowId(rows) && r[|rows|].uid == Some(uid)
              && r[|rows|] == NewRow(NextRowId(rows), v.(uid := Some(uid)))
    ensures CountMatching(rows, Some(sel)) > 0 ==>
              |r| == |rows| &&
              forall i :: 0 <= i < |rows| ==> r[i] == if Matches(rows[i], Some(sel)) then Apply(rows[i], v) else rows[i]
  {
    if CountMatching(rows, Some(sel)) == 0 then rows + [NewRow(NextRowId(rows), v.(uid := Some(uid)))]
    else UpdateWhere(rows, Some(sel), v)
  }

  /** What `update` returns: the number of rows updated, or the rowid of the row it inserted. */
  function UpsertResult(rows: seq<Row>, sel: Selection): (n: int)
    ensures n > 0
    ensures CountMatching(rows, Some(sel)) > 0 ==> n <= |rows|
    ensures CountMatching(rows, Some(sel)) == 0 ==> forall i :: 0 <= i < |rows| ==> rows[i].id < n
  {
    var n := CountMatching(rows, Some(sel));
    if n == 0 then NextRowId(rows) else n
  }

  /** The URI gating of `delete`: the selection it applies, or the exception it throws. */
  function DeleteTarget(uri: Uri, sel: Option<Selection>): (t: Result<Option<Selection>, Error>)
    ensures uri.TableUri? ==> t == Ok(sel)
    ensures uri.UidUri? ==> t == if sel.Some? then Err(UnsupportedOperation) else Ok(Some(Where(UidColumn, uri.uid)))
    ensures uri.IdUri? || uri.UnmatchedUri? ==> t == Err(UnsupportedOperation)
  {
    match uri
    case TableUri => Ok(sel)
    case UidUri(u) => if sel.Some? then Err(UnsupportedOperation) else Ok(Some(Where(UidColumn, u)))
    case _ => Err(UnsupportedOperation)
  }

  /** getType: the MIME type of a matched URI; an unmatched one throws. */
  function GetType(uri: Uri): (r: Result<string, Error>)
    ensures r.Ok? <==> !uri.UnmatchedUri?
    ensures uri.TableUri? ==> r == Ok(DIR_TYPE)
    ensures uri.IdUri? || uri.UidUri? ==> r == Ok(ITEM_TYPE)
    ensures r.Err? ==> r.error == IllegalArgument
  {
    match uri
    case TableUri => Ok(DIR_TYPE)
    case IdUri(_) => Ok(ITEM_TYPE)
    case UidUri(_) => Ok(ITEM_TYPE)
    case UnmatchedUri => Err(IllegalArgument)
  }

  /**
   * The gating as properties: only the table URI accepts a caller's selection, and the uid
   * URI always addresses exactly the rows of the uid in its path.
   */
  lemma GatingProperties(uri: Uri, sel: Option<Selection>)
    ensures sel.Some? && UpdateTarget(uri, sel).Ok? ==> uri.TableUri?
    ensures sel.Some? && DeleteTarget(uri, sel).Ok? ==> uri.TableUri?
    ensures uri.UidUri? && UpdateTarget(uri, sel).Ok? ==> UpdateTarget(uri, sel).value.0 == Where(UidColumn, uri.uid)
    ensures uri.UidUri? && DeleteTarget(uri, sel).Ok? ==> DeleteTarget(uri, sel).value == Some(Where(UidColumn, uri.uid))
    ensures UpdateTarget(uri, sel).Ok? || DeleteTarget(uri, sel).Ok? ==> GetType(uri).Ok?
  {
  }

  /** Rowids are positive and increase along the table: the order a cursor returns rows in. */
  ghost predicate IdsIncreasing(rows: seq<Row>) {
    (forall i :: 0 <= i < |rows| ==> rows[i].id > 0) &&
    (forall i, j :: 0 <= i < j < |rows| ==> rows[i].id < rows[j].id)
  }

  /** DELETE keeps the surviving rows in order, so rowids stay increasing. */
  lemma {:induction false} DeleteKeepsOrder(rows: seq<Row>, sel: Option<Selection>)
    requires IdsIncreasing(rows)
    ensures IdsIncreasing(DeleteWhere(rows, sel))
  {
    if rows != [] {
      var tail := rows[1..];
      assert IdsIncreasing(tail);
      DeleteKeepsOrder(tail, sel);
      var rest := DeleteWhere(tail, sel);
      if !Matches(rows[0], sel) {
        forall x | x in rest ensures rows[0].id < x.id {
          var k :| 0 <= k < |tail| && tail[k] == x;
          assert rows[k + 1] == x;
        }
        PrependKeepsOrder(rows[0], rest);
      }
    }
  }

  lemma PrependKeepsOrder(r: Row, rest: seq<Row>)
    requires IdsIncreasing(rest) && r.id > 0
    requires forall x :: x in rest ==> r.id < x.id
    ensures IdsIncreasing([r] + rest)
  {
    var s := [r] + rest;
    forall i, j | 0 <= i < j < |s| ensures s[i].id < s[j].id {
      assert s[j] == rest[j - 1];
      if i > 0 {
        assert s[i] == rest[i - 1];
      }
    }
  }

  /** SELECT keeps the chosen rows in table order, so rowids stay increasing. */
  lemma {:induction false} SelectKeepsOrder(rows: seq<Row>, sel: Option<Selection>)
    ensures IdsIncreasing(rows) ==> IdsIncreasing(Select(rows, sel))
  {
    if rows != [] && IdsIncreasing(rows) {
      var tail := rows[1..];
      assert IdsIncreasing(tail);
      SelectKeepsOrder(tail, sel);
      var rest := Select(tail, sel);
      if Matches(rows[0], sel) {
        forall x | x in rest ensures rows[0].id < x.id {
          var k :| 0 <= k < |tail| && tail[k] == x;
          assert rows[k + 1] == x;
        }
        PrependKeepsOrder(rows[0], rest);
      }
    }
  }

  /** Count of matches over a concatenation. */
  lemma {:induction false} CountAppend(a: seq<Row>, b: seq<Row>, sel: Option<Selection>)
    ensures CountMatching(a + b, sel) == CountMatching(a, sel) + CountMatching(b, sel)
  {
    if a == [] {
      assert a + b == b;
    } else {
      assert (a + b)[1..] == a[1..] + b;
      CountAppend(a[1..], b, sel);
    }
  }

  /** An UPDATE that leaves the uid column alone, or writes the selected uid, keeps every row the uid selection matched. */
  lemma {:induction false} UpdateKeepsUidCount(rows: seq<Row>, u: int, sel: Option<Selection>, v: Values)
    requires v.uid.None? || v.uid == Some(u)
    ensures CountMatching(UpdateWhere(rows, sel, v), Some(Where(UidColumn, u)))
         >= CountMatching(rows, Some(Where(UidColumn, u)))
  {
    if rows != [] {
      UpdateKeepsUidCount(rows[1..], u, sel, v);
      assert UpdateWhere(rows, sel, v)[1..] == UpdateWhere(rows[1..], sel, v);
    }
  }

  /**
   * Update-or-insert on a uid with no row: exactly one row is appended, holding
   * the supplied columns plus the uid and schema defaults elsewhere; earlier rows are unchanged.
   */
  lemma UpsertCreatesOneRow(rows: seq<Row>, u: int, v: Values)
    requires CountMatching(rows, Some(Where(UidColumn, u))) == 0
    ensures var r := Upsert(rows, Where(UidColumn, u), u, v);
      && |r| == |rows| + 1
      && r[..|rows|] == rows
      && r[|rows|] == NewRow(NextRowId(rows), v.(uid := Some(u)))
      && CountMatching(r, Some(Where(UidColumn, u))) == 1
  {
    var s := Some(Where(UidColumn, u));
    var x := NewRow(NextRowId(rows), v.(uid := Some(u)));
    CountAppend(rows, [x], s);
    assert CountMatching([x], s) == 1;
    assert (rows + [x])[..|rows|] == rows;
  }

  /**
   * A second update-or-insert of the same uid finds the row the first one left,
   * so it updates in place and the table does not grow.
   */
  lemma UpsertTwiceNoDuplicate(rows: seq<Row>, u: int, v1: Values, v2: Values)
    requires v1.uid.None? || v1.uid == Some(u)
    ensures var once := Upsert(rows, Where(UidColumn, u), u, v1);
      && CountMatching(once, Some(Where(UidColumn, u))) >= 1
      && Upsert(once, Where(UidColumn, u), u, v2) == UpdateWhere(once, Some(Where(UidColumn, u)), v2)
      && |Upsert(once, Where(UidColumn, u), u, v2)| == |once|
  {
    var s := Some(Where(UidColumn, u));
    if CountMatching(rows, s) == 0 {
      UpsertCreatesOneRow(rows, u, v1);
    } else {
      UpdateKeepsUidCount(rows, u, s, v1);
    }
  }

  /** Table after an `insert`: the row is appended with a fresh rowid. Uniqueness of uid is not enforced. */
  lemma InsertAddsRowForUid(rows: seq<Row>, u: int, v: Values)
    requires v.uid == Some(u)
    ensures CountMatching(rows + [NewRow(NextRowId(rows), v)], Some(Where(UidColumn, u)))
         == CountMatching(rows, Some(Where(UidColumn, u))) + 1
  {
    var x := NewRow(NextRowId(rows), v);
    CountAppend(rows, [x], Some(Where(UidColumn, u)));
    assert CountMatching([x], Some(Where(UidColumn, u))) == 1;
  }

  /** The provider's table: one sequential state object. */
  class UsageTable {
    var rows: seq<Row>

    ghost predicate Valid()
      reads this
    {
      IdsIncreasing(rows)
    }

    /** onCreate: the table starts empty. */
    constructor ()
      ensures Valid() && rows == []
    {
      rows := [];
    }

    /** db.insert: append a row with the next rowid. */
    method AppendRow(values: Values) returns (rowId: int)
      requires Valid()
      modifies this
      ensures Valid()
      ensures rowId == NextRowId(old(rows)) && rowId > 0
      ensures rows == old(rows) + [NewRow(rowId, values)]
    {
      rowId := NextRowId(rows);
      rows := rows + [NewRow(rowId, values)];
    }

    /**
     * insert: appends a row whatever the URI, even for a uid that already has rows; returns its rowid.
     * An empty ContentValues (no nullColumnHack) makes the INSERT fail: SQLiteDatabase.insert returns -1.
     */
    method Insert(uri: Uri, values: Values) returns (rowId: int)
      requires Valid()
      modifies this
      ensures Valid()
      ensures values == NoValues ==> rowId == -1 && rows == old(rows)
      ensures values != NoValues ==> rowId == NextRowId(old(rows)) && rows == old(rows) + [NewRow(rowId, values)]
    {
      if values == NoValues {
        return -1;
      }
      rowId := AppendRow(values);
    }

    /** delete: the table URI applies the caller's selection, the uid URI the uid from its path. */
    method Delete(uri: Uri, sel: Option<Selection>) returns (r: Result<nat, Error>)
      requires Valid()
      modifies this
      ensures Valid()
      ensures DeleteTarget(uri, sel).Err? ==> r == Err(DeleteTarget(uri, sel).error) && rows == old(rows)
      ensures DeleteTarget(uri, sel).Ok? ==>
                var s := DeleteTarget(uri, sel).value;
                r == Ok(CountMatching(old(rows), s)) && rows == DeleteWhere(old(rows), s)
    {
      var target := DeleteTarget(uri, sel);
      if target.Err? {
        return Err(target.error);
      }
      var s := target.value;
      DeleteKeepsOrder(rows, s);
      r := Ok(CountMatching(rows, s));
      rows := DeleteWhere(rows, s);
    }

    /**
     * update: update the addressed rows; if none matched, insert one row (one transaction).
     * SQLiteDatabase.update refuses an empty ContentValues with IllegalArgumentException.
     */
    method Update(uri: Uri, values: Values, sel: Option<Selection>) returns (r: Result<int, Error>)
      requires Valid()
      modifies this
      ensures Valid()
      ensures UpdateTarget(uri, sel).Err? ==> r == Err(UpdateTarget(uri, sel).error) && rows == old(rows)
      ensures UpdateTarget(uri, sel).Ok? && values == NoValues ==> r == Err(IllegalArgument) && rows == old(rows)
      ensures UpdateTarget(uri, sel).Ok? && values != NoValues ==>
                var (s, uid) := UpdateTarget(uri, sel).value;
                r == Ok(UpsertResult(old(rows), s)) && rows == Upsert(old(rows), s, uid, values)
    {
      var target := UpdateTarget(uri, sel);
      if target.Err? {
        return Err(target.error);
      }
      if values == NoValues {
        return Err(IllegalArgument);
      }
      var (s, uid) := target.value;
      var count := CountMatching(rows, Some(s));
      rows := UpdateWhere(rows, Some(s), values);
      if count == 0 {
        assert rows == old(rows);
        var rowId := AppendRow(values.(uid := Some(uid)));
        r := Ok(rowId);
      } else {
        r := Ok(count);
      }
    }

    /** query: null for an unmatched URI; otherwise the caller's selection alone (the id or uid path segment is ignored). */
    function Query(uri: Uri, sel: Option<Selection>): (r: Option<seq<Row>>)
      reads this
      ensures r.None? <==> uri.UnmatchedUri?
      ensures r.Some? ==> forall x :: x in r.value <==> x in rows && Matches(x, sel)
      ensures r.Some? && Valid() ==> IdsIncreasing(r.value)
    {
      SelectKeepsOrder(rows, sel);
      if uri.UnmatchedUri? then None else Some(Select(rows, sel))
    }
  }
}
