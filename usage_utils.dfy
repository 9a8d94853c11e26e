/**
 * DataUsageUtils: the store helpers used by the install and notification receivers
 * and by Settings, the feature switch, the network qualification test and the user label.
 */
module UsageUtils {
  import opened Wrappers
  import opened UsageStore

  /** ConnectivityManager.TYPE_MOBILE. */
  const TYPE_MOBILE := 0

  /** The selection `uid = ?` with the uid as its argument. */
  function UidSelection(uid: int): Selection {
    Where(UidColumn, uid)
  }

  /** The columns addApp supplies. */
  function AddValues(uid: int, appLabel: string): Values {
    NoValues.(uid := Some(uid), appLabel := Some(appLabel))
  }

  /** The columns enbApp supplies: the flag as 1 or 0, and the label only when it is non-null. */
  function EnbValues(enb: bool, appLabel: Option<string>): Values {
    NoValues.(enb := Some(if enb then 1 else 0), appLabel := appLabel)
  }

  /** addApp: insert a row for the uid and label, whether or not the uid already has one. */
  method AddApp(store: UsageTable, uid: int, appLabel: string)
    requires store.Valid()
    modifies store
    ensures store.Valid()
    ensures store.rows == old(store.rows) + [NewRow(NextRowId(old(store.rows)), AddValues(uid, appLabel))]
  {
    var rowId := store.Insert(TableUri, AddValues(uid, appLabel));
  }

  /** removeApp: delete every row of the uid. */
  method RemoveApp(store: UsageTable, uid: int)
    requires store.Valid()
    modifies store
    ensures store.Valid()
    ensures store.rows == DeleteWhere(old(store.rows), Some(UidSelection(uid)))
  {
    var count := store.Delete(TableUri, Some(UidSelection(uid)));
  }

  /** enbApp with a label: update-or-insert the enable flag (and the label when given) of the uid. */
  method EnbAppWithLabel(store: UsageTable, uid: int, enb: bool, appLabel: Option<string>)
    requires store.Valid()
    modifies store
    ensures store.Valid()
    ensures store.rows == Upsert(old(store.rows), UidSelection(uid), uid, EnbValues(enb, appLabel))
  {
    var count := store.Update(TableUri, EnbValues(enb, appLabel), Some(UidSelection(uid)));
  }

  /** enbApp without a label: the same as passing a null label. */
  method EnbApp(store: UsageTable, uid: int, enb: bool)
    requires store.Valid()
    modifies store
    ensures store.Valid()
    ensures store.rows == Upsert(old(store.rows), UidSelection(uid), uid, EnbValues(enb, None))
  {
    EnbAppWithLabel(store, uid, enb, None);
  }

  /** Reference meaning of getAppEnb: the first row stored for the uid has the flag 1; no row means false. */
  function FirstRowEnabled(rows: seq<Row>, uid: int): (b: bool)
    ensures b ==> exists i :: 0 <= i < |rows| && rows[i].uid == Some(uid) && rows[i].enb == 1
  {
    if rows == [] then false
    else if rows[0].uid == Some(uid) then rows[0].enb == 1
    else
      var rest := FirstRowEnabled(rows[1..], uid);
      assert rest ==> exists i :: 0 <= i < |rows| && rows[i].uid == Some(uid) && rows[i].enb == 1 by {
        if rest {
          var k :| 0 <= k < |rows[1..]| && rows[1..][k].uid == Some(uid) && rows[1..][k].enb == 1;
          assert rows[k + 1] == rows[1..][k];
        }
      }
      rest
  }

  /** The first row of the query `uid = ?` is the first row of the uid in the table. */
  lemma {:induction false} QueryFirstRow(rows: seq<Row>, uid: int)
    ensures var cursor := Select(rows, Some(UidSelection(uid)));
      (|cursor| > 0 && cursor[0].enb == 1) == FirstRowEnabled(rows, uid)
  {
    if rows != [] && rows[0].uid != Some(uid) {
      QueryFirstRow(rows[1..], uid);
    }
  }

  /** getAppEnb: read-only; true iff the first row of the uid has the enable flag 1. */
  function GetAppEnb(store: UsageTable, uid: int): (enabled: bool)
    reads store
    ensures enabled == FirstRowEnabled(store.rows, uid)
  {
    QueryFirstRow(store.rows, uid);
    match store.Query(TableUri, Some(UidSelection(uid)))
    case None => false
    case Some(cursor) => |cursor| > 0 && cursor[0].enb == 1
  }

  /** Rows of other uids in front do not change which row is the first of `uid`. */
  lemma {:induction false} FirstRowSkipsOthers(a: seq<Row>, b: seq<Row>, uid: int)
    requires forall i :: 0 <= i < |a| ==> a[i].uid != Some(uid)
    ensures FirstRowEnabled(a + b, uid) == FirstRowEnabled(b, uid)
  {
    if a == [] {
      assert a + b == b;
    } else {
      assert (a + b)[1..] == a[1..] + b;
      FirstRowSkipsOthers(a[1..], b, uid);
    }
  }

  /** Updating every row of a present uid with a flag value makes that the flag of its first row. */
  lemma {:induction false} UpdateSetsFirstRow(rows: seq<Row>, uid: int, v: Values)
    requires CountMatching(rows, Some(UidSelection(uid))) > 0
    requires v.uid.None? && v.enb.Some?
    ensures FirstRowEnabled(UpdateWhere(rows, Some(UidSelection(uid)), v), uid) == (v.enb.value == 1)
  {
    var s := Some(UidSelection(uid));
    var r := UpdateWhere(rows, s, v);
    assert r[1..] == UpdateWhere(rows[1..], s, v);
    if rows[0].uid != Some(uid) {
      UpdateSetsFirstRow(rows[1..], uid, v);
    }
  }

  /** enbApp followed by getAppEnb reads back the flag just written, whether the row existed or was created. */
  lemma EnbAppThenGetAppEnb(rows: seq<Row>, uid: int, enb: bool, appLabel: Option<string>)
    ensures FirstRowEnabled(Upsert(rows, UidSelection(uid), uid, EnbValues(enb, appLabel)), uid) == enb
  {
    var v := EnbValues(enb, appLabel);
    if CountMatching(rows, Some(UidSelection(uid))) == 0 {
      var x := NewRow(NextRowId(rows), v.(uid := Some(uid)));
      FirstRowSkipsOthers(rows, [x], uid);
      assert FirstRowEnabled([x], uid) == enb;
    } else {
      UpdateSetsFirstRow(rows, uid, v);
    }
  }

  /** removeApp leaves no row of the uid, so getAppEnb then answers false; every other row is kept. */
  lemma RemoveAppThenDisabled(rows: seq<Row>, uid: int)
    ensures var r := DeleteWhere(rows, Some(UidSelection(uid)));
      && CountMatching(r, Some(UidSelection(uid))) == 0
      && !FirstRowEnabled(r, uid)
      && forall x :: x in rows && x.uid != Some(uid) ==> x in r
  {
  }

  /** addApp twice for one uid leaves two more rows of that uid: insert does not enforce uniqueness. */
  lemma AddAppTwiceLeavesTwoRows(rows: seq<Row>, uid: int, appLabel: string)
    ensures var once := rows + [NewRow(NextRowId(rows), AddValues(uid, appLabel))];
      var twice := once + [NewRow(NextRowId(once), AddValues(uid, appLabel))];
      CountMatching(twice, Some(UidSelection(uid))) == CountMatching(rows, Some(UidSelection(uid))) + 2
  {
    var once := rows + [NewRow(NextRowId(rows), AddValues(uid, appLabel))];
    InsertAddsRowForUid(rows, uid, AddValues(uid, appLabel));
    InsertAddsRowForUid(once, uid, AddValues(uid, appLabel));
  }

  /** The active network as NetworkInfo reports it. */
  datatype NetworkInfo = NetworkInfo(connected: bool, networkType: int)

  /** isDataUsageQualified: a connected, mobile, metered active network; no active network is not qualified. */
  function IsDataUsageQualified(activeNetwork: Option<NetworkInfo>, metered: bool): (qualified: bool)
    ensures activeNetwork.None? ==> !qualified
    ensures qualified <==> activeNetwork.Some? && activeNetwork.value.connected
                           && activeNetwork.value.networkType == TYPE_MOBILE && metered
  {
    match activeNetwork
    case None => false
    case Some(info) => info.connected && info.networkType == TYPE_MOBILE && metered
  }

  /** The persisted feature switch and the repeating alarm that starts the sampling service. */
  class ServiceControl {
    var notifyPref: bool  // PREF_ENB_DATA_USAGE_NOTIFY, read with default false
    var alarmArmed: bool  // the repeating DataUsageService alarm is set

    constructor ()
      ensures !notifyPref && !alarmArmed
    {
      notifyPref := false;
      alarmArmed := false;
    }

    /** startDataUsageService: arm the repeating alarm, or cancel it. */
    method StartDataUsageService(enb: bool)
      modifies this`alarmArmed
      ensures alarmArmed == enb
    {
      alarmArmed := enb;
    }

    /** enbDataUsageService: always store the switch; arm or cancel the alarm only on a qualified network. */
    method EnbDataUsageService(enb: bool, activeNetwork: Option<NetworkInfo>, metered: bool)
      modifies this
      ensures notifyPref == enb
      ensures alarmArmed == if IsDataUsageQualified(activeNetwork, metered) then enb else old(alarmArmed)
    {
      notifyPref := enb;
      if IsDataUsageQualified(activeNetwork, metered) {
        StartDataUsageService(enb);
      }
    }

    /** startDataUsageServiceIfEnabled: only ever arms, and only when the stored switch is on. */
    method StartDataUsageServiceIfEnabled()
      modifies this`alarmArmed
      ensures alarmArmed == (old(alarmArmed) || notifyPref)
    {
      if notifyPref {
        StartDataUsageService(true);
      }
    }
  }

  /** The parts of android.content.pm.UserInfo that getUserLabel reads. */
  datatype UserInfo = UserInfo(id: int, name: Option<string>, managedProfile: bool, guest: bool)

  /** The name put into the user label: the user's name, the guest string, the id as a string, or the unknown string. */
  datatype LabelName = GivenName(name: string) | GuestString | UserIdString(id: int) | UnknownString

  /** The managed-profile title, or the `running_process_item_user_label` string formatted with a name. */
  datatype UserLabel = ManagedUserTitle | RunningProcessUserLabel(labelName: LabelName)

  /** getUserLabel as written: `info.isManagedProfile()` runs before any null check, so a null info throws. */
  function GetUserLabelAsWritten(info: Option<UserInfo>): (r: Result<UserLabel, Error>)
    ensures info.None? ==> r == Err(NullPointer)
  {
    var name: Option<LabelName> := if info.Some? && info.value.name.Some? then Some(GivenName(info.value.name.value)) else None;
    match info
    case None => Err(NullPointer)
    case Some(u) =>
      if u.managedProfile then Ok(ManagedUserTitle)
      else
        var name' := if u.guest then Some(GuestString) else name;
        Ok(RunningProcessUserLabel(if name'.None? then UserIdString(u.id) else name'.value))
  }

  /** getUserLabel as evidently intended: a null info gets the unknown string instead of throwing. */
  function GetUserLabel(info: Option<UserInfo>): (r: UserLabel)
    ensures r == ManagedUserTitle <==> info.Some? && info.value.managedProfile
    ensures info.None? ==> r == RunningProcessUserLabel(UnknownString)
    ensures info.Some? && !info.value.managedProfile && info.value.guest ==> r == RunningProcessUserLabel(GuestString)
    ensures info.Some? && !info.value.managedProfile && !info.value.guest ==>
              r == RunningProcessUserLabel(if info.value.name.Some? then GivenName(info.value.name.value) else UserIdString(info.value.id))
  {
    match info
    case None => RunningProcessUserLabel(UnknownString)
    case Some(u) =>
      if u.managedProfile then ManagedUserTitle
      else if u.guest then RunningProcessUserLabel(GuestString)
      else if u.name.Some? then RunningProcessUserLabel(GivenName(u.name.value))
      else RunningProcessUserLabel(UserIdString(u.id))
  }

  /** The null-info branch of getUserLabel is unreachable as written; the two versions agree everywhere else. */
  lemma NullUserInfoThrows(info: Option<UserInfo>)
    ensures info.None? ==> GetUserLabelAsWritten(info).Err? && GetUserLabel(info) == RunningProcessUserLabel(UnknownString)
    ensures info.Some? ==> GetUserLabelAsWritten(info) == Ok(GetUserLabel(info))
  {
  }
}
