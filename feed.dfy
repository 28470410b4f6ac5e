/**
 * Read state and the unread-activity feed: the rows of `updates_read` (one per
 * (user, kind, entity, comment) key, with the time it was last marked), the
 * anti-join that gives a user's unread journal entries, and the bulk
 * acknowledgement of unread entries.
 */
module Feed {
  import opened Js
  import opened Journal
  import Devices
  import Sorting

  /** The only entity kind that carries a journal. */
  const PointsKind: string := "points"

  const RecentDefault: int := 30
  const RecentMax: int := 100
  const ReadAllDefault: int := 300
  const ReadAllMax: int := 500

  /** The unique key of `updates_read`. */
  datatype ReadKey = ReadKey(userId: int, kind: string, entityId: int, commentId: int)

  /** A row of `updates_read` as the single-item route returns it. */
  datatype ReadMark = ReadMark(key: ReadKey, readAt: int)

  /** The table: at most one row per key, holding its `read_at`. */
  type ReadMarks = map<ReadKey, int>

  /** A row of the feed: a journal entry tagged with its kind and its device's name. */
  datatype FeedItem = FeedItem(
    id: int, kind: string, entityId: int, entityTitle: string,
    userId: int, userEmail: string, body: string, createdAt: int, edited: bool)

  /** `Number.isFinite(raw) ? Math.max(1, Math.min(max, raw)) : default`. */
  function ClampLimit(raw: Coerced<int>, max: int, default: int): (r: int)
    requires 1 <= default <= max
    ensures 1 <= r <= max
    ensures raw.NotFinite? ==> r == default
    ensures raw.Finite? && 1 <= raw.value <= max ==> r == raw.value
    ensures raw.Finite? && raw.value < 1 ==> r == 1
    ensures raw.Finite? && raw.value > max ==> r == max
  {
    match raw
    case NotFinite => default
    case Finite(v) => if v > max then max else if v < 1 then 1 else v
  }

  // --------------------------------------------------------------- the feed

  function ItemOf(a: Devices.Asset, c: Comment): FeedItem {
    FeedItem(c.id, PointsKind, c.pointId, a.name, c.userId, c.userEmail, c.body, c.createdAt, c.edited)
  }

  /** The read-mark key of a feed row for a user. */
  function ItemKey(user: int, f: FeedItem): ReadKey {
    ReadKey(user, f.kind, f.entityId, f.id)
  }

  /** The read-mark key of a journal entry for a user. */
  function CommentKey(user: int, c: Comment): ReadKey {
    ReadKey(user, PointsKind, c.pointId, c.id)
  }

  /** The `feed` CTE of the recent route: every entry joined to its device. */
  function JoinedFeed(assets: map<int, Devices.Asset>, cs: seq<Comment>): (r: seq<FeedItem>)
    ensures |r| <= |cs|
    ensures forall f :: f in r <==> exists c :: c in cs && c.pointId in assets && f == ItemOf(assets[c.pointId], c)
  {
    if cs == [] then []
    else
      var rest := JoinedFeed(assets, cs[1..]);
      assert forall c :: c in cs <==> c == cs[0] || c in cs[1..];
      (if cs[0].pointId in assets then [ItemOf(assets[cs[0].pointId], cs[0])] else []) + rest
  }

  predicate UnreadBy(marks: ReadMarks, user: int, f: FeedItem) {
    ItemKey(user, f) !in marks
  }

  /** The anti-join: joined rows without a read mark of this user. */
  function UnreadFeed(assets: map<int, Devices.Asset>, cs: seq<Comment>, marks: ReadMarks, user: int): (r: seq<FeedItem>)
    ensures forall f :: f in r <==> f in JoinedFeed(assets, cs) && ItemKey(user, f) !in marks
  {
    var r := Sorting.Filter(JoinedFeed(assets, cs), f => UnreadBy(marks, user, f));
    forall f ensures f in r <==> f in JoinedFeed(assets, cs) && UnreadBy(marks, user, f) {
      Sorting.FilterMembership(JoinedFeed(assets, cs), f => UnreadBy(marks, user, f), f);
    }
    r
  }

  /** `ORDER BY created_at DESC` (no tie-break). */
  predicate NewerFirst(a: FeedItem, b: FeedItem) {
    a.createdAt >= b.createdAt
  }

  /** A sorted sequence cut after k rows holds k rows that are at least as new as every row cut off. */
  lemma TopOfSorted(s: seq<FeedItem>, k: nat)
    requires Sorting.SortedBy(s, NewerFirst) && k <= |s|
    ensures multiset(s) - multiset(s[..k]) == multiset(s[k..])
    ensures forall f, g :: f in multiset(s[k..]) && g in s[..k] ==> f.createdAt <= g.createdAt
  {
    assert s == s[..k] + s[k..];
    forall f, g | f in multiset(s[k..]) && g in s[..k] ensures f.createdAt <= g.createdAt {
      assert f in s[k..];
      var j :| 0 <= j < |s[k..]| && s[k..][j] == f;
      var i :| 0 <= i < k && s[..k][i] == g;
      assert NewerFirst(s[i], s[k + j]);
    }
  }

  /** The first k rows of a permutation of u are rows of u. */
  lemma PrefixOfPermutation(u: seq<FeedItem>, s: seq<FeedItem>, k: nat)
    requires multiset(s) == multiset(u) && k <= |s|
    ensures |s| == |u|
    ensures multiset(s[..k]) <= multiset(u)
    ensures forall f :: f in s[..k] ==> f in u
  {
    assert |s| == |multiset(s)| == |u|;
    assert s == s[..k] + s[k..];
    assert multiset(s) == multiset(s[..k]) + multiset(s[k..]);
    forall f | f in s[..k] ensures f in u {
      assert f in multiset(s);
    }
  }

  /**
   * The recent route's answer: the unread rows, newest first, cut at the limit.
   * Rows with equal creation times may come in either order.
   */
  function Recent(assets: map<int, Devices.Asset>, cs: seq<Comment>, marks: ReadMarks, user: int, limit: nat): (r: seq<FeedItem>)
    ensures |r| == if limit < |UnreadFeed(assets, cs, marks, user)| then limit else |UnreadFeed(assets, cs, marks, user)|
    ensures Sorting.SortedBy(r, NewerFirst)
    ensures multiset(r) <= multiset(UnreadFeed(assets, cs, marks, user))
    ensures forall f :: f in r ==> f in JoinedFeed(assets, cs) && ItemKey(user, f) !in marks
    ensures forall f, g :: f in multiset(UnreadFeed(assets, cs, marks, user)) - multiset(r) && g in r ==>
      f.createdAt <= g.createdAt
  {
    Newest(UnreadFeed(assets, cs, marks, user), limit)
  }

  /** The `limit` newest rows of u, newest first. */
  function Newest(u: seq<FeedItem>, limit: nat): (r: seq<FeedItem>)
    ensures |r| == if limit < |u| then limit else |u|
    ensures Sorting.SortedBy(r, NewerFirst)
    ensures multiset(r) <= multiset(u)
    ensures forall f :: f in r ==> f in u
    ensures forall f, g :: f in multiset(u) - multiset(r) && g in r ==> f.createdAt <= g.createdAt
  {
    var sorted := Sorting.Sort(u, NewerFirst);
    var k := if limit < |sorted| then limit else |sorted|;
    PrefixOfPermutation(u, sorted, k);
    TopOfSorted(sorted, k);
    sorted[..k]
  }

  /**
   * An entry on an existing device that the user has not read, and that is newer than every
   * other unread entry, heads the feed; once its key is marked it is no longer in the feed.
   */
  lemma UnreadUntilAcknowledged(assets: map<int, Devices.Asset>, cs: seq<Comment>, marks: ReadMarks,
                                user: int, limit: nat, c: Comment, now: int)
    requires c in cs && c.pointId in assets && CommentKey(user, c) !in marks && limit >= 1
    requires forall f :: f in UnreadFeed(assets, cs, marks, user) && f != ItemOf(assets[c.pointId], c) ==>
      f.createdAt < c.createdAt
    ensures Recent(assets, cs, marks, user, limit) != []
    ensures Recent(assets, cs, marks, user, limit)[0] == ItemOf(assets[c.pointId], c)
    ensures ItemOf(assets[c.pointId], c) !in Recent(assets, cs, marks[CommentKey(user, c) := now], user, limit)
  {
    HeadOfRecent(assets, cs, marks, user, limit, c);
    MarkedLeavesFeed(assets, cs, marks, user, limit, c, now);
  }

  /** An entry's mark keeps it out of the feed. */
  lemma MarkedLeavesFeed(assets: map<int, Devices.Asset>, cs: seq<Comment>, marks: ReadMarks,
                         user: int, limit: nat, c: Comment, now: int)
    requires c.pointId in assets
    ensures ItemOf(assets[c.pointId], c) !in Recent(assets, cs, marks[CommentKey(user, c) := now], user, limit)
  {
    assert ItemKey(user, ItemOf(assets[c.pointId], c)) == CommentKey(user, c);
  }

  /** The newest unread entry heads the feed. */
  lemma HeadOfRecent(assets: map<int, Devices.Asset>, cs: seq<Comment>, marks: ReadMarks,
                     user: int, limit: nat, c: Comment)
    requires c in cs && c.pointId in assets && CommentKey(user, c) !in marks && limit >= 1
    requires forall f :: f in UnreadFeed(assets, cs, marks, user) && f != ItemOf(assets[c.pointId], c) ==>
      f.createdAt < c.createdAt
    ensures Recent(assets, cs, marks, user, limit) != []
    ensures Recent(assets, cs, marks, user, limit)[0] == ItemOf(assets[c.pointId], c)
  {
    var item := ItemOf(assets[c.pointId], c);
    assert item in JoinedFeed(assets, cs);
    NewestHead(UnreadFeed(assets, cs, marks, user), limit, item);
  }

  /** A row strictly newer than every other row of u heads the newest rows of u. */
  lemma NewestHead(u: seq<FeedItem>, limit: nat, item: FeedItem)
    requires item in u && limit >= 1
    requires forall f :: f in u && f != item ==> f.createdAt < item.createdAt
    ensures Newest(u, limit) != [] && Newest(u, limit)[0] == item
  {
    var r := Newest(u, limit);
    assert item in multiset(u);
    assert r[0] in u;
    if item in multiset(r) {
      var j :| 0 <= j < |r| && r[j] == item;
      if j != 0 {
        assert NewerFirst(r[0], r[j]);
      }
    } else {
      assert false;
    }
  }

  /** Marking a key of one user does not change what another user sees. */
  lemma {:induction false} OtherUsersUnaffected(assets: map<int, Devices.Asset>, cs: seq<Comment>, marks: ReadMarks,
                                                user: int, k: ReadKey, now: int, limit: nat)
    requires k.userId != user
    ensures Recent(assets, cs, marks[k := now], user, limit) == Recent(assets, cs, marks, user, limit)
  {
    var joined := JoinedFeed(assets, cs);
    Sorting.FilterExt(joined, f => UnreadBy(marks[k := now], user, f), f => UnreadBy(marks, user, f));
  }

  // ------------------------------------------------------------- read marks

  /** The single-item route: insert the key, or refresh its `read_at`. */
  function MarkOne(marks: ReadMarks, k: ReadKey, now: int): (r: ReadMarks)
    ensures r.Keys == marks.Keys + {k} && r[k] == now
    ensures forall j :: j in marks && j != k ==> r[j] == marks[j]
  {
    marks[k := now]
  }

  /** The keys the bulk route may acknowledge: every entry, joined to nothing, without this user's mark. */
  function UnreadKeys(cs: seq<Comment>, marks: ReadMarks, user: int): (r: set<ReadKey>)
    ensures forall k :: k in r ==> k !in marks && k.userId == user && k.kind == PointsKind
  {
    if cs == [] then {}
    else
      var init := cs[..|cs| - 1];
      var last := cs[|cs| - 1];
      var r := UnreadKeys(init, marks, user) + if CommentKey(user, last) !in marks then {CommentKey(user, last)} else {};
      assert cs == init + [last];
      r
  }

  /** A key is a candidate exactly when some entry has it and this user has not marked it. */
  lemma {:induction false} UnreadKeysMembership(cs: seq<Comment>, marks: ReadMarks, user: int, k: ReadKey)
    ensures k in UnreadKeys(cs, marks, user) <==> exists c :: c in cs && k == CommentKey(user, c) && k !in marks
  {
    if cs != [] {
      var init := cs[..|cs| - 1];
      UnreadKeysMembership(init, marks, user, k);
      assert cs == init + [cs[|cs| - 1]];
      if k in UnreadKeys(cs, marks, user) && k !in UnreadKeys(init, marks, user) {
        assert k == CommentKey(user, cs[|cs| - 1]);
      }
      forall c | c in init ensures c in cs { }
    }
  }

  /** `INSERT ... ON CONFLICT DO NOTHING`: new keys get `now`, existing rows keep their time. */
  function InsertKeys(marks: ReadMarks, batch: set<ReadKey>, now: int): (r: ReadMarks)
    ensures r.Keys == marks.Keys + batch
    ensures forall k :: k in marks ==> r[k] == marks[k]
    ensures forall k :: k in batch && k !in marks ==> r[k] == now
  {
    map k | k in marks.Keys + batch :: if k in marks then marks[k] else now
  }

  /** Acknowledging every unread key empties both the bulk route's candidates and the feed. */
  lemma ReadAllClearsFeed(assets: map<int, Devices.Asset>, cs: seq<Comment>, marks: ReadMarks, user: int, now: int)
    ensures UnreadKeys(cs, InsertKeys(marks, UnreadKeys(cs, marks, user), now), user) == {}
    ensures UnreadFeed(assets, cs, InsertKeys(marks, UnreadKeys(cs, marks, user), now), user) == []
  {
    var after := InsertKeys(marks, UnreadKeys(cs, marks, user), now);
    forall c | c in cs ensures CommentKey(user, c) in after {
      if CommentKey(user, c) !in marks {
        UnreadKeysMembership(cs, marks, user, CommentKey(user, c));
      }
    }
    forall k ensures k !in UnreadKeys(cs, after, user) {
      UnreadKeysMembership(cs, after, user, k);
    }
    forall f | f in JoinedFeed(assets, cs) ensures ItemKey(user, f) in after {
      var c :| c in cs && c.pointId in assets && f == ItemOf(assets[c.pointId], c);
      assert ItemKey(user, f) == CommentKey(user, c);
    }
  }

  /**
   * A bulk acknowledgement whose batch is as large as the candidates takes all of them: afterwards
   * nothing is left to acknowledge and the feed is empty, so an immediate repeat inserts nothing.
   */
  lemma ReadAllWithinLimit(assets: map<int, Devices.Asset>, cs: seq<Comment>, marks: ReadMarks, user: int,
                           batch: set<ReadKey>, now: int)
    requires batch <= UnreadKeys(cs, marks, user) && |batch| == |UnreadKeys(cs, marks, user)|
    ensures UnreadKeys(cs, InsertKeys(marks, batch, now), user) == {}
    ensures UnreadFeed(assets, cs, InsertKeys(marks, batch, now), user) == []
  {
    FullSubset(batch, UnreadKeys(cs, marks, user));
    ReadAllClearsFeed(assets, cs, marks, user, now);
  }

  /** A subset as large as its superset is the superset. */
  lemma {:induction false} FullSubset<T>(a: set<T>, b: set<T>)
    requires a <= b && |a| == |b|
    ensures a == b
  {
    if a != {} {
      var x :| x in a;
      FullSubset(a - {x}, b - {x});
      assert a == (a - {x}) + {x} && b == (b - {x}) + {x};
    }
  }

  lemma {:induction false} SubsetCardinality<T>(a: set<T>, b: set<T>)
    requires a <= b
    ensures |a| <= |b|
  {
    if a != {} {
      var x :| x in a;
      SubsetCardinality(a - {x}, b - {x});
    }
  }

  /**
   * When every entry's device exists, the bulk route's candidates are exactly the keys of the
   * unread feed; otherwise the bulk route also acknowledges entries the feed never shows.
   */
  lemma CandidatesUnderIntegrity(assets: map<int, Devices.Asset>, cs: seq<Comment>, marks: ReadMarks, user: int)
    requires forall c :: c in cs ==> c.pointId in assets
    ensures UnreadKeys(cs, marks, user) == set f | f in UnreadFeed(assets, cs, marks, user) :: ItemKey(user, f)
  {
    var feedKeys := set f | f in UnreadFeed(assets, cs, marks, user) :: ItemKey(user, f);
    forall k | k in UnreadKeys(cs, marks, user) ensures k in feedKeys {
      UnreadKeyShown(assets, cs, marks, user, k);
    }
    forall k | k in feedKeys ensures k in UnreadKeys(cs, marks, user) {
      var f :| f in UnreadFeed(assets, cs, marks, user) && k == ItemKey(user, f);
      ShownKeyUnread(assets, cs, marks, user, f);
    }
  }

  /** A candidate of the bulk route whose device exists is the key of a feed row. */
  lemma UnreadKeyShown(assets: map<int, Devices.Asset>, cs: seq<Comment>, marks: ReadMarks, user: int, k: ReadKey)
    requires forall c :: c in cs ==> c.pointId in assets
    requires k in UnreadKeys(cs, marks, user)
    ensures exists f :: f in UnreadFeed(assets, cs, marks, user) && k == ItemKey(user, f)
  {
    UnreadKeysMembership(cs, marks, user, k);
    var c :| c in cs && k == CommentKey(user, c) && k !in marks;
    var f := ItemOf(assets[c.pointId], c);
    assert f in JoinedFeed(assets, cs);
    assert ItemKey(user, f) == k;
  }

  /** The key of a feed row is a candidate of the bulk route. */
  lemma ShownKeyUnread(assets: map<int, Devices.Asset>, cs: seq<Comment>, marks: ReadMarks, user: int, f: FeedItem)
    requires f in UnreadFeed(assets, cs, marks, user)
    ensures ItemKey(user, f) in UnreadKeys(cs, marks, user)
  {
    var c :| c in cs && c.pointId in assets && f == ItemOf(assets[c.pointId], c);
    assert ItemKey(user, f) == CommentKey(user, c);
    UnreadKeysMembership(cs, marks, user, ItemKey(user, f));
  }

  /** `DELETE FROM updates_read WHERE kind='points' AND entity_id=$1`, for every user. */
  function RemoveMarksOf(marks: ReadMarks, pointId: int): (r: ReadMarks)
    ensures forall k :: k in r <==> k in marks && !(k.kind == PointsKind && k.entityId == pointId)
    ensures forall k :: k in r ==> r[k] == marks[k]
  {
    map k | k in marks && !(k.kind == PointsKind && k.entityId == pointId) :: marks[k]
  }
}
