/**
 * Aggregation of the raw per-uid network statistics of one cycle into collapse-key
 * buckets: an app's own uid, a per-user bucket, or the single removed-user bucket.
 * This is the specification the collection loop of DataUsageService is proved against.
 */
module Aggregation {

  /** TrafficStats.UID_REMOVED: the uid that collects the traffic of removed users. */
  const UID_REMOVED := -4

  /** One NetworkStats entry: a uid and its received and transmitted byte counts. */
  datatype Entry = Entry(uid: int, rxBytes: nat, txBytes: nat)

  /** The platform facts the collection loop consults. */
  datatype Users = Users(
    isApp: int -> bool,           // UserHandle.isApp
    userIdOf: int -> int,         // UserHandle.getUserId
    profiles: set<int>,           // user ids of UserManager.getUserProfiles()
    currentUser: int,             // ActivityManager.getCurrentUser()
    userInfoExists: int -> bool)  // UserManager.getUserInfo(userId) != null

  /** A collapse key: one app's uid, all apps of one user, or all apps of removed users. */
  datatype Bucket = AppBucket(uid: int) | UserBucket(userId: int) | RemovedBucket

  datatype Category = CategoryApp | CategoryUser

  /** AppItem: the category fixed when the bucket was created, the uids folded in, and their byte total. */
  datatype AppItem = AppItem(category: Category, uids: set<int>, total: nat)

  /** The category every call site passes with a key. */
  function CategoryOf(b: Bucket): Category {
    if b.UserBucket? then CategoryUser else CategoryApp
  }

  function Bytes(e: Entry): nat {
    e.rxBytes + e.txBytes
  }

  /** The (key, category) pairs the collection loop accumulates one entry into, in call order. */
  function Targets(e: Entry, users: Users): (t: seq<(Bucket, Category)>)
    ensures forall i :: 0 <= i < |t| ==> t[i].1 == CategoryOf(t[i].0)
    ensures forall i, j :: 0 <= i < j < |t| ==> t[i].0 != t[j].0
    ensures |t| <= 2
  {
    var userId := users.userIdOf(e.uid);
    if !users.isApp(e.uid) then []
    else if userId in users.profiles then
      (if userId != users.currentUser then [(UserBucket(userId), CategoryUser)] else [])
      + [(AppBucket(e.uid), CategoryApp)]
    else if !users.userInfoExists(userId) then [(RemovedBucket, CategoryApp)]
    else [(UserBucket(userId), CategoryUser)]
  }

  /** The entry contributes to bucket `b`. */
  predicate Feeds(e: Entry, users: Users, b: Bucket) {
    exists i :: 0 <= i < |Targets(e, users)| && Targets(e, users)[i].0 == b
  }

  /**
   * Routing: only app uids count; an in-profile app feeds its own bucket, and its
   * user's bucket exactly when that user is not the current one; an app of a user
   * outside the profiles feeds that user's bucket if the user still exists, else the removed bucket.
   */
  lemma Routing(e: Entry, users: Users, b: Bucket)
    ensures Feeds(e, users, b) <==>
      users.isApp(e.uid) &&
      var u := users.userIdOf(e.uid);
      if u in users.profiles then b == AppBucket(e.uid) || (u != users.currentUser && b == UserBucket(u))
      else if users.userInfoExists(u) then b == UserBucket(u)
      else b == RemovedBucket
  {
    var t := Targets(e, users);
    var u := users.userIdOf(e.uid);
    if users.isApp(e.uid) && u in users.profiles && u != users.currentUser {
      assert t[0].0 == UserBucket(u) && t[1].0 == AppBucket(e.uid);
    } else if users.isApp(e.uid) {
      assert t[0].0 == (if u in users.profiles then AppBucket(e.uid)
                        else if users.userInfoExists(u) then UserBucket(u) else RemovedBucket);
    }
  }

  /** The item of `key` after accumulate: created with `category` when absent, otherwise grown keeping its category. */
  function Bumped(items: map<Bucket, AppItem>, key: Bucket, category: Category, e: Entry): AppItem {
    if key in items then items[key].(uids := items[key].uids + {e.uid}, total := items[key].total + Bytes(e))
    else AppItem(category, {e.uid}, Bytes(e))
  }

  /** accumulate: exactly rx + tx added to one bucket and the uid to its members; every other bucket unchanged. */
  function Accumulated(items: map<Bucket, AppItem>, key: Bucket, category: Category, e: Entry): (r: map<Bucket, AppItem>)
    ensures r.Keys == items.Keys + {key}
    ensures forall b :: b in items && b != key ==> r[b] == items[b]
    ensures r[key].total == (if key in items then items[key].total else 0) + e.rxBytes + e.txBytes
    ensures r[key].uids == (if key in items then items[key].uids else {}) + {e.uid}
    ensures key in items ==> r[key].category == items[key].category
    ensures key !in items ==> r[key].category == category
  {
    items[key := Bumped(items, key, category, e)]
  }

  /** One iteration of the collection loop: accumulate into each target in turn. */
  function AddEntry(items: map<Bucket, AppItem>, e: Entry, users: Users): (r: map<Bucket, AppItem>)
    ensures items.Keys <= r.Keys
    ensures forall b :: b in items ==> r[b].category == items[b].category
    ensures forall b :: b in r && b !in items ==> r[b].category == CategoryOf(b)
  {
    var ts := Targets(e, users);
    if |ts| == 0 then items
    else if |ts| == 1 then Accumulated(items, ts[0].0, ts[0].1, e)
    else Accumulated(Accumulated(items, ts[0].0, ts[0].1, e), ts[1].0, ts[1].1, e)
  }

  /** The buckets after folding `es`, in order, into `items`. */
  function AggregateFrom(items: map<Bucket, AppItem>, es: seq<Entry>, users: Users): map<Bucket, AppItem>
    decreases |es|
  {
    if es == [] then items
    else AddEntry(AggregateFrom(items, es[..|es| - 1], users), es[|es| - 1], users)
  }

  /** The buckets of one cycle, which starts from no bucket at all. */
  function Aggregate(es: seq<Entry>, users: Users): (r: map<Bucket, AppItem>)
    ensures forall b :: b in r ==> r[b].category == CategoryOf(b)
  {
    AggregateKeepsCategories(map[], es, users);
    AggregateFrom(map[], es, users)
  }

  /** Folding entries never removes a bucket, and keeps every bucket's category the one belonging to its key. */
  lemma {:induction false} AggregateKeepsCategories(items: map<Bucket, AppItem>, es: seq<Entry>, users: Users)
    ensures items.Keys <= AggregateFrom(items, es, users).Keys
    ensures (forall b :: b in items ==> items[b].category == CategoryOf(b)) ==>
              forall b :: b in AggregateFrom(items, es, users) ==> AggregateFrom(items, es, users)[b].category == CategoryOf(b)
    decreases |es|
  {
    if es != [] {
      AggregateKeepsCategories(items, es[..|es| - 1], users);
    }
  }

  /** Independent reference: the bytes of all entries feeding `b`. */
  function BucketTotal(es: seq<Entry>, users: Users, b: Bucket): nat
    decreases |es|
  {
    if es == [] then 0
    else BucketTotal(es[..|es| - 1], users, b) + (if Feeds(es[|es| - 1], users, b) then Bytes(es[|es| - 1]) else 0)
  }

  /** Independent reference: the uids of all entries feeding `b`. */
  ghost function Members(es: seq<Entry>, users: Users, b: Bucket): set<int> {
    set e | e in es && Feeds(e, users, b) :: e.uid
  }

  ghost predicate Fed(es: seq<Entry>, users: Users, b: Bucket) {
    exists e :: e in es && Feeds(e, users, b)
  }

  /** One iteration touches exactly the buckets the entry feeds, each once. */
  lemma AddEntryEffect(items: map<Bucket, AppItem>, e: Entry, users: Users)
    ensures var r := AddEntry(items, e, users);
      && (forall b :: b in r <==> b in items || Feeds(e, users, b))
      && (forall b :: b in r ==> r[b] == if Feeds(e, users, b) then Bumped(items, b, CategoryOf(b), e) else items[b])
  {
    var ts := Targets(e, users);
    if |ts| == 1 {
      forall b ensures Feeds(e, users, b) <==> b == ts[0].0 { }
    } else if |ts| == 2 {
      forall b ensures Feeds(e, users, b) <==> b == ts[0].0 || b == ts[1].0 { }
    }
  }

  /** Appending one entry adds to the fed buckets exactly those it feeds. */
  lemma FedSnoc(p: seq<Entry>, x: Entry, users: Users, b: Bucket)
    ensures Fed(p + [x], users, b) <==> Fed(p, users, b) || Feeds(x, users, b)
  {
    var es := p + [x];
    if Fed(es, users, b) {
      var e :| e in es && Feeds(e, users, b);
      assert e in p || e == x;
    }
    if Feeds(x, users, b) {
      assert x in es;
    }
    if Fed(p, users, b) {
      var e :| e in p && Feeds(e, users, b);
      assert e in es;
    }
  }

  /** Appending one entry adds its uid to the members of exactly the buckets it feeds. */
  lemma MembersSnoc(p: seq<Entry>, x: Entry, users: Users, b: Bucket)
    ensures Members(p + [x], users, b) == Members(p, users, b) + (if Feeds(x, users, b) then {x.uid} else {})
  {
    var es := p + [x];
    forall u ensures u in Members(es, users, b) <==> u in Members(p, users, b) + (if Feeds(x, users, b) then {x.uid} else {}) {
      if u in Members(es, users, b) {
        var e :| e in es && Feeds(e, users, b) && e.uid == u;
        assert e in p || e == x;
      }
      if u in Members(p, users, b) {
        var e :| e in p && Feeds(e, users, b) && e.uid == u;
        assert e in es;
      }
      if Feeds(x, users, b) && u == x.uid {
        assert x in es;
      }
    }
  }

  lemma MembersComeFromFed(es: seq<Entry>, users: Users, b: Bucket)
    ensures Members(es, users, b) != {} ==> Fed(es, users, b)
  {
    if Members(es, users, b) != {} {
      var u :| u in Members(es, users, b);
      var e :| e in es && Feeds(e, users, b) && e.uid == u;
      assert e in es && Feeds(e, users, b);
    }
  }

  /** `m` holds, per fed bucket of `es`, its reference category, members and byte total, and no other bucket. */
  ghost predicate Characterizes(m: map<Bucket, AppItem>, es: seq<Entry>, users: Users) {
    && (forall b :: b in m <==> Fed(es, users, b))
    && (forall b :: b in m ==> m[b] == AppItem(CategoryOf(b), Members(es, users, b), BucketTotal(es, users, b)))
    && (forall b :: !Fed(es, users, b) ==> BucketTotal(es, users, b) == 0)
  }

  lemma CharacterizesSnoc(m: map<Bucket, AppItem>, p: seq<Entry>, x: Entry, users: Users)
    requires Characterizes(m, p, users)
    ensures Characterizes(AddEntry(m, x, users), p + [x], users)
  {
    var r := AddEntry(m, x, users);
    AddEntryEffect(m, x, users);
    forall b
      ensures b in r <==> Fed(p + [x], users, b)
      ensures b in r ==> r[b] == AppItem(CategoryOf(b), Members(p + [x], users, b), BucketTotal(p + [x], users, b))
      ensures !Fed(p + [x], users, b) ==> BucketTotal(p + [x], users, b) == 0
    {
      CharacterizesSnocAt(m, r, p, x, users, b);
    }
  }

  /** The step of CharacterizesSnoc for one bucket. */
  lemma CharacterizesSnocAt(m: map<Bucket, AppItem>, r: map<Bucket, AppItem>, p: seq<Entry>, x: Entry, users: Users, b: Bucket)
    requires b in m <==> Fed(p, users, b)
    requires b in m ==> m[b] == AppItem(CategoryOf(b), Members(p, users, b), BucketTotal(p, users, b))
    requires !Fed(p, users, b) ==> BucketTotal(p, users, b) == 0
    requires b in r <==> b in m || Feeds(x, users, b)
    requires b in r ==> r[b] == if Feeds(x, users, b) then Bumped(m, b, CategoryOf(b), x) else m[b]
    ensures b in r <==> Fed(p + [x], users, b)
    ensures b in r ==> r[b] == AppItem(CategoryOf(b), Members(p + [x], users, b), BucketTotal(p + [x], users, b))
    ensures !Fed(p + [x], users, b) ==> BucketTotal(p + [x], users, b) == 0
  {
    var es := p + [x];
    assert es[..|es| - 1] == p && es[|es| - 1] == x;
    FedSnoc(p, x, users, b);
    MembersSnoc(p, x, users, b);
    MembersComeFromFed(p, users, b);
  }

  /** The aggregate holds, per fed bucket, its reference category, members and byte total; no other bucket. */
  lemma {:induction false} AggregateCharacterized(es: seq<Entry>, users: Users)
    ensures Characterizes(Aggregate(es, users), es, users)
    decreases |es|
  {
    if es != [] {
      var p, x := es[..|es| - 1], es[|es| - 1];
      assert es == p + [x];
      AggregateCharacterized(p, users);
      CharacterizesSnoc(Aggregate(p, users), p, x, users);
    }
  }

  lemma {:induction false} BucketTotalConcat(a: seq<Entry>, c: seq<Entry>, users: Users, b: Bucket)
    ensures BucketTotal(a + c, users, b) == BucketTotal(a, users, b) + BucketTotal(c, users, b)
    decreases |c|
  {
    if c == [] {
      assert a + c == a;
    } else {
      var c' := c[..|c| - 1];
      assert (a + c)[..|a + c| - 1] == a + c';
      assert (a + c)[|a + c| - 1] == c[|c| - 1];
      BucketTotalConcat(a, c', users, b);
    }
  }

  lemma RemoveOne(p1: seq<Entry>, x: Entry, left: seq<Entry>, right: seq<Entry>)
    requires multiset(p1 + [x]) == multiset(left + [x] + right)
    ensures multiset(p1) == multiset(left + right)
  {
    forall y ensures multiset(p1)[y] == multiset(left + right)[y] {
      assert multiset(p1 + [x])[y] == multiset(p1)[y] + multiset{x}[y];
      assert multiset(left + [x] + right)[y] == multiset(left + right)[y] + multiset{x}[y];
    }
  }

  /** The byte total of a bucket does not depend on the order of the entries. */
  lemma {:induction false} BucketTotalPermutation(es1: seq<Entry>, es2: seq<Entry>, users: Users, b: Bucket)
    requires multiset(es1) == multiset(es2)
    ensures BucketTotal(es1, users, b) == BucketTotal(es2, users, b)
    decreases |es1|
  {
    if es1 == [] {
      assert |es2| == |multiset(es2)| == 0;
    } else {
      var p1, x := es1[..|es1| - 1], es1[|es1| - 1];
      assert es1 == p1 + [x];
      assert x in multiset(es2);
      var j :| 0 <= j < |es2| && es2[j] == x;
      var left, right := es2[..j], es2[j + 1..];
      assert es2 == left + [x] + right;
      var p2 := left + right;
      RemoveOne(p1, x, left, right);
      BucketTotalPermutation(p1, p2, users, b);
      BucketTotalSplit(left, x, right, users, b);
    }
  }

  lemma BucketTotalSplit(left: seq<Entry>, x: Entry, right: seq<Entry>, users: Users, b: Bucket)
    ensures BucketTotal(left + [x] + right, users, b)
         == BucketTotal(left + right, users, b) + (if Feeds(x, users, b) then Bytes(x) else 0)
  {
    BucketTotalConcat(left + [x], right, users, b);
    BucketTotalConcat(left, [x], users, b);
    BucketTotalConcat(left, right, users, b);
    assert [x][..0] == [];
  }

  lemma SameElements(es1: seq<Entry>, es2: seq<Entry>, e: Entry)
    requires multiset(es1) == multiset(es2)
    ensures e in es1 <==> e in es2
  {
    assert e in es1 <==> e in multiset(es1);
    assert e in es2 <==> e in multiset(es2);
  }

  lemma FedPermutation(es1: seq<Entry>, es2: seq<Entry>, users: Users, b: Bucket)
    requires multiset(es1) == multiset(es2)
    ensures Fed(es1, users, b) <==> Fed(es2, users, b)
    ensures Members(es1, users, b) == Members(es2, users, b)
  {
    if Fed(es1, users, b) {
      var e :| e in es1 && Feeds(e, users, b);
      SameElements(es1, es2, e);
    }
    if Fed(es2, users, b) {
      var e :| e in es2 && Feeds(e, users, b);
      SameElements(es1, es2, e);
    }
    forall u ensures u in Members(es1, users, b) <==> u in Members(es2, users, b) {
      if u in Members(es1, users, b) {
        var e :| e in es1 && Feeds(e, users, b) && e.uid == u;
        SameElements(es1, es2, e);
      }
      if u in Members(es2, users, b) {
        var e :| e in es2 && Feeds(e, users, b) && e.uid == u;
        SameElements(es1, es2, e);
      }
    }
  }

  /** Two maps characterizing reorderings of the same entries are equal. */
  lemma CharacterizedUnique(m1: map<Bucket, AppItem>, es1: seq<Entry>, m2: map<Bucket, AppItem>, es2: seq<Entry>, users: Users)
    requires multiset(es1) == multiset(es2)
    requires Characterizes(m1, es1, users) && Characterizes(m2, es2, users)
    ensures m1 == m2
  {
    forall b ensures (b in m1 <==> b in m2) && (b in m1 ==> m1[b] == m2[b]) {
      CharacterizedAt(m1, es1, m2, es2, users, b);
    }
    assert m1.Keys == m2.Keys;
  }

  lemma CharacterizedAt(m1: map<Bucket, AppItem>, es1: seq<Entry>, m2: map<Bucket, AppItem>, es2: seq<Entry>, users: Users, b: Bucket)
    requires multiset(es1) == multiset(es2)
    requires Characterizes(m1, es1, users) && Characterizes(m2, es2, users)
    ensures b in m1 <==> b in m2
    ensures b in m1 ==> m1[b] == m2[b]
  {
    FedPermutation(es1, es2, users, b);
    BucketTotalPermutation(es1, es2, users, b);
  }

  /** Aggregation is order-independent: any reordering of the same entries gives the same buckets. */
  lemma AggregateOrderIndependent(es1: seq<Entry>, es2: seq<Entry>, users: Users)
    requires multiset(es1) == multiset(es2)
    ensures Aggregate(es1, users) == Aggregate(es2, users)
  {
    AggregateCharacterized(es1, users);
    AggregateCharacterized(es2, users);
    CharacterizedUnique(Aggregate(es1, users), es1, Aggregate(es2, users), es2, users);
  }

  /** mLargest: no bucket total exceeds it, and it is the total of some bucket (0 when there is none). */
  ghost predicate IsLargest(items: map<Bucket, AppItem>, largest: int) {
    && (forall b :: b in items ==> items[b].total <= largest)
    && (if items == map[] then largest == 0 else exists b :: b in items && items[b].total == largest)
  }

  /** clearStats: every total back to 0, members and categories kept. */
  function Cleared(items: map<Bucket, AppItem>): (r: map<Bucket, AppItem>)
    ensures r.Keys == items.Keys
    ensures forall b :: b in items ==> r[b] == items[b].(total := 0)
    ensures IsLargest(r, 0)
  {
    var r := map b | b in items :: items[b].(total := 0);
    assert r == map[] || exists b :: b in r && r[b].total == 0 by {
      if r != map[] {
        var b :| b in r;
      }
    }
    r
  }
}
