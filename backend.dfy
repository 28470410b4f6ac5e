/**
 * The backend's tables and the route handlers that change them: device
 * create/update/priority/delete, the journal routes of a device, and the
 * unread-activity routes. Each method answers as its route does, with the
 * guards in the route's order (bad path id, then body checks, then the row
 * lookups, then ownership).
 */
module Backend {
  import opened Js
  import opened Http
  import opened Devices
  import opened Journal
  import opened Feed
  import Sorting

  class Database {
    /** `assets`, keyed by id. */
    var assets: map<int, Asset>
    /** `point_comments`, in insertion order. */
    var comments: seq<Comment>
    /** `updates_read`: one `read_at` per key. */
    var marks: ReadMarks
    /** The next values of the two serial columns. */
    var nextAssetId: int
    var nextCommentId: int

    /**
     * Ids are unique and below their sequences, every journal entry belongs to an existing
     * device, and every device row has one of the two storage shapes.
     */
    ghost predicate Valid()
      reads this
    {
      Tables(assets, comments, nextAssetId, nextCommentId)
    }

    constructor ()
      ensures Valid()
      ensures assets == map[] && comments == [] && marks == map[]
    {
      assets := map[];
      comments := [];
      marks := map[];
      nextAssetId := 1;
      nextCommentId := 1;
    }

    // ------------------------------------------------------------ devices

    /** `POST /api/points`: a new device with a fresh id and priority off. */
    method CreatePoint(body: PointBody) returns (r: Result<int>)
      requires Valid()
      modifies this
      ensures Valid()
      ensures r.Ok? <==> NewAsset(body).Ok?
      ensures r.Err? ==> r == Err(NewAsset(body).failure) && assets == old(assets)
      ensures r.Ok? ==> (r.value == old(nextAssetId) && r.value !in old(assets) &&
        assets == old(assets)[r.value := NewAsset(body).value])
      ensures nextAssetId == old(nextAssetId) + (if r.Ok? then 1 else 0)
      ensures comments == old(comments) && marks == old(marks) && nextCommentId == old(nextCommentId)
    {
      var a := NewAsset(body);
      if a.Err? {
        return Err(a.failure);
      }
      var id := nextAssetId;
      TablesNewAsset(assets, comments, nextAssetId, nextCommentId, a.value);
      assets := assets[id := a.value];
      nextAssetId := nextAssetId + 1;
      r := Ok(id);
    }

    /** `PUT /api/points/:id`: rewrites name, status, notes and storage; keeps the priority. */
    method UpdatePoint(id: Coerced<int>, body: PointBody) returns (r: Result<Asset>)
      requires Valid()
      modifies this
      ensures Valid()
      ensures id.NotFinite? ==> r == Err(BadRequest(BadId))
      ensures id.Finite? && UpdateRejection(body).Some? ==> r == Err(UpdateRejection(body).value)
      ensures id.Finite? && UpdateRejection(body).None? && id.value !in old(assets) ==> r == Err(NotFound(NoDevice))
      ensures id.Finite? && UpdateRejection(body).None? && id.value in old(assets) ==>
        r == Ok(UpdatedAsset(old(assets)[id.value], body)) && assets == old(assets)[id.value := r.value]
      ensures r.Err? ==> assets == old(assets)
      ensures comments == old(comments) && marks == old(marks)
      ensures nextAssetId == old(nextAssetId) && nextCommentId == old(nextCommentId)
    {
      if id.NotFinite? {
        return Err(BadRequest(BadId));
      }
      var rejection := UpdateRejection(body);
      if rejection.Some? {
        return Err(rejection.value);
      }
      if id.value !in assets {
        return Err(NotFound(NoDevice));
      }
      var a := UpdatedAsset(assets[id.value], body);
      StoreAsset(id.value, a);
      r := Ok(a);
    }

    /** `PATCH /api/points/:id/priority`: sets the flag, nothing else. */
    method SetPriority(id: Coerced<int>, v: Json) returns (r: Result<Asset>)
      requires Valid()
      modifies this
      ensures Valid()
      ensures id.NotFinite? ==> r == Err(BadRequest(BadId))
      ensures id.Finite? && !v.JBool? ==> r == Err(BadRequest(PriorityNotBoolean))
      ensures id.Finite? && v.JBool? && id.value !in old(assets) ==> r == Err(NotFound(NoDevice))
      ensures id.Finite? && v.JBool? && id.value in old(assets) ==>
        r == Ok(old(assets)[id.value].(priority := v.b)) && assets == old(assets)[id.value := r.value]
      ensures r.Err? ==> assets == old(assets)
      ensures comments == old(comments) && marks == old(marks)
      ensures nextAssetId == old(nextAssetId) && nextCommentId == old(nextCommentId)
    {
      if id.NotFinite? {
        return Err(BadRequest(BadId));
      }
      var flag := PriorityFlag(v);
      if flag.Err? {
        return Err(flag.failure);
      }
      if id.value !in assets {
        return Err(NotFound(NoDevice));
      }
      var a := assets[id.value].(priority := flag.value);
      StoreAsset(id.value, a);
      r := Ok(a);
    }

    /**
     * `DELETE /api/points/:id`: removes the device's journal and every user's read marks on it,
     * then the device; the first two happen even when the device does not exist.
     */
    method DeletePoint(id: Coerced<int>) returns (r: Result<int>)
      requires Valid()
      modifies this
      ensures Valid()
      ensures id.NotFinite? ==>
        r == Err(BadRequest(BadId)) && comments == old(comments) && marks == old(marks) && assets == old(assets)
      ensures id.Finite? ==>
        comments == RemoveCommentsOf(old(comments), id.value) &&
        marks == RemoveMarksOf(old(marks), id.value) &&
        assets == old(assets) - {id.value} &&
        r == (if id.value in old(assets) then Ok(id.value) else Err(NotFound(NoDevice)))
      ensures nextAssetId == old(nextAssetId) && nextCommentId == old(nextCommentId)
    {
      if id.NotFinite? {
        return Err(BadRequest(BadId));
      }
      var pointId := id.value;
      TablesDelete(assets, comments, nextAssetId, nextCommentId, pointId);
      r := if pointId in assets then Ok(pointId) else Err(NotFound(NoDevice));
      comments := RemoveCommentsOf(comments, pointId);
      marks := RemoveMarksOf(marks, pointId);
      assets := assets - {pointId};
      assert Tables(assets, comments, nextAssetId, nextCommentId);
    }

    /** Overwrites an existing device row; the tables stay valid as long as the row's storage is consistent. */
    method StoreAsset(id: int, a: Asset)
      requires Valid() && id in assets && Consistent(a.storage)
      modifies this
      ensures Valid()
      ensures assets == old(assets)[id := a]
      ensures comments == old(comments) && marks == old(marks)
      ensures nextAssetId == old(nextAssetId) && nextCommentId == old(nextCommentId)
    {
      TablesStore(assets, comments, nextAssetId, nextCommentId, id, a);
      assets := assets[id := a];
    }

    // ------------------------------------------------------------ journal

    /** `GET /api/points/:id/comments`: the device's entries, newest first. */
    method ListComments(pointId: Coerced<int>) returns (r: Result<seq<Comment>>)
      ensures pointId.NotFinite? ==> r == Err(BadRequest(BadId))
      ensures pointId.Finite? && pointId.value !in assets ==> r == Err(NotFound(NoDevice))
      ensures pointId.Finite? && pointId.value in assets ==>
        r.Ok? && r.value == ListFor(comments, pointId.value) &&
        (forall c :: c in r.value <==> c in comments && c.pointId == pointId.value)
    {
      if pointId.NotFinite? {
        return Err(BadRequest(BadId));
      }
      if pointId.value !in assets {
        return Err(NotFound(NoDevice));
      }
      r := Ok(ListFor(comments, pointId.value));
    }

    /** `POST /api/points/:id/comments`: a new, unedited entry by the caller with a fresh id. */
    method AddComment(pointId: Coerced<int>, user: User, raw: string, now: int) returns (r: Result<Comment>)
      requires Valid()
      modifies this
      ensures Valid()
      ensures pointId.NotFinite? ==> r == Err(BadRequest(BadId))
      ensures pointId.Finite? && CheckBody(raw).Err? ==> r == Err(CheckBody(raw).failure)
      ensures pointId.Finite? && CheckBody(raw).Ok? && pointId.value !in assets ==> r == Err(NotFound(NoDevice))
      ensures r.Err? ==> comments == old(comments)
      ensures r.Ok? ==>
        pointId.Finite? && pointId.value in assets && CheckBody(raw).Ok? &&
        r.value == Comment(old(nextCommentId), pointId.value, user.id, user.email, CheckBody(raw).value, now, false, None) &&
        comments == old(comments) + [r.value]
      ensures nextCommentId == old(nextCommentId) + (if r.Ok? then 1 else 0)
      ensures assets == old(assets) && marks == old(marks) && nextAssetId == old(nextAssetId)
    {
      if pointId.NotFinite? {
        return Err(BadRequest(BadId));
      }
      var body := CheckBody(raw);
      if body.Err? {
        return Err(body.failure);
      }
      if pointId.value !in assets {
        return Err(NotFound(NoDevice));
      }
      var c := Comment(nextCommentId, pointId.value, user.id, user.email, body.value, now, false, None);
      TablesAppend(assets, comments, nextAssetId, nextCommentId, c);
      comments := comments + [c];
      nextCommentId := nextCommentId + 1;
      r := Ok(c);
    }

    /**
     * `PUT /api/points/:id/comments/:commentId`: the entry is looked up by both ids, only its
     * author may edit it, and the update itself selects the row by comment id alone.
     */
    method EditComment(pointId: Coerced<int>, commentId: Coerced<int>, user: User, raw: string, now: int)
      returns (r: Result<Comment>)
      requires Valid()
      modifies this
      ensures Valid()
      ensures pointId.NotFinite? || commentId.NotFinite? ==> r == Err(BadRequest(BadId))
      ensures pointId.Finite? && commentId.Finite? && CheckBody(raw).Err? ==> r == Err(CheckBody(raw).failure)
      ensures pointId.Finite? && commentId.Finite? && CheckBody(raw).Ok? ==>
        var found := FindComment(old(comments), commentId.value, pointId.value);
        (found.None? ==> r == Err(NotFound(NoComment))) &&
        (found.Some? && found.value.userId != user.id ==> r == Err(Forbidden)) &&
        (found.Some? && found.value.userId == user.id ==>
          r == Ok(Edited(found.value, CheckBody(raw).value, now)) &&
          comments == EditComments(old(comments), commentId.value, CheckBody(raw).value, now))
      ensures r.Err? ==> comments == old(comments)
      ensures assets == old(assets) && marks == old(marks)
      ensures nextAssetId == old(nextAssetId) && nextCommentId == old(nextCommentId)
    {
      if pointId.NotFinite? || commentId.NotFinite? {
        return Err(BadRequest(BadId));
      }
      var body := CheckBody(raw);
      if body.Err? {
        return Err(body.failure);
      }
      var found := FindComment(comments, commentId.value, pointId.value);
      if found.None? {
        return Err(NotFound(NoComment));
      }
      if found.value.userId != user.id {
        return Err(Forbidden);
      }
      TablesEdit(assets, comments, nextAssetId, nextCommentId, commentId.value, body.value, now);
      comments := EditComments(comments, commentId.value, body.value, now);
      r := Ok(Edited(found.value, body.value, now));
    }

    /** `DELETE /api/points/:id/comments/:commentId`: only the author may remove an entry. */
    method DeleteComment(pointId: Coerced<int>, commentId: Coerced<int>, user: User) returns (r: Result<int>)
      requires Valid()
      modifies this
      ensures Valid()
      ensures pointId.NotFinite? || commentId.NotFinite? ==> r == Err(BadRequest(BadId))
      ensures pointId.Finite? && commentId.Finite? ==>
        var found := FindComment(old(comments), commentId.value, pointId.value);
        (found.None? ==> r == Err(NotFound(NoComment))) &&
        (found.Some? && found.value.userId != user.id ==> r == Err(Forbidden)) &&
        (found.Some? && found.value.userId == user.id ==>
          r == Ok(commentId.value) &&
          comments == RemoveComment(old(comments), commentId.value, pointId.value))
      ensures r.Err? ==> comments == old(comments)
      ensures assets == old(assets) && marks == old(marks)
      ensures nextAssetId == old(nextAssetId) && nextCommentId == old(nextCommentId)
    {
      if pointId.NotFinite? || commentId.NotFinite? {
        return Err(BadRequest(BadId));
      }
      var found := FindComment(comments, commentId.value, pointId.value);
      if found.None? {
        return Err(NotFound(NoComment));
      }
      if found.value.userId != user.id {
        return Err(Forbidden);
      }
      TablesRemove(assets, comments, nextAssetId, nextCommentId, commentId.value, pointId.value);
      comments := RemoveComment(comments, commentId.value, pointId.value);
      r := Ok(commentId.value);
    }

    // ----------------------------------------------------- unread activity

    /** `GET /api/updates/recent`: the caller's unread entries, newest first, limit 1..100 (30 by default). */
    method RecentUpdates(user: User, limit: Coerced<int>) returns (r: seq<FeedItem>)
      ensures r == Recent(assets, comments, marks, user.id, ClampLimit(limit, RecentMax, RecentDefault))
      ensures 1 <= ClampLimit(limit, RecentMax, RecentDefault) <= RecentMax
    {
      r := Recent(assets, comments, marks, user.id, ClampLimit(limit, RecentMax, RecentDefault));
    }

    /**
     * `POST /api/updates/read-all`: marks up to 1..500 (300 by default) of the caller's unread
     * entries; which ones is not fixed when there are more. Existing marks keep their time.
     */
    method MarkAllRead(user: User, limit: Coerced<int>, now: int) returns (inserted: nat)
      requires Valid()
      modifies this
      ensures Valid()
      ensures var k := ClampLimit(limit, ReadAllMax, ReadAllDefault);
        var unread := UnreadKeys(old(comments), old(marks), user.id);
        inserted == (if k < |unread| then k else |unread|)
      ensures exists batch ::
        batch <= UnreadKeys(old(comments), old(marks), user.id) && |batch| == inserted && marks == InsertKeys(old(marks), batch, now)
      ensures ClampLimit(limit, ReadAllMax, ReadAllDefault) >= |UnreadKeys(old(comments), old(marks), user.id)| ==>
        UnreadKeys(comments, marks, user.id) == {} && UnreadFeed(assets, comments, marks, user.id) == []
      ensures assets == old(assets) && comments == old(comments)
      ensures nextAssetId == old(nextAssetId) && nextCommentId == old(nextCommentId)
    {
      var k := ClampLimit(limit, ReadAllMax, ReadAllDefault);
      var batch := ChooseBatch(comments, marks, user.id, k);
      inserted := |batch|;
      if k >= |UnreadKeys(comments, marks, user.id)| {
        ReadAllWithinLimit(assets, comments, marks, user.id, batch, now);
      }
      marks := InsertKeys(marks, batch, now);
    }

    /**
     * `POST /api/updates/read`: only kind "points" and finite ids are accepted; the key is
     * inserted, or its `read_at` refreshed. The device and entry need not exist.
     */
    method MarkRead(user: User, kind: string, entityId: Coerced<int>, commentId: Coerced<int>, now: int)
      returns (r: Result<ReadMark>)
      requires Valid()
      modifies this
      ensures Valid()
      ensures kind != PointsKind ==> r == Err(BadRequest(BadKind)) && marks == old(marks)
      ensures kind == PointsKind && (entityId.NotFinite? || commentId.NotFinite?) ==>
        r == Err(BadRequest(BadReadIds)) && marks == old(marks)
      ensures kind == PointsKind && entityId.Finite? && commentId.Finite? ==>
        var key := ReadKey(user.id, kind, entityId.value, commentId.value);
        r == Ok(ReadMark(key, now)) && marks == MarkOne(old(marks), key, now)
      ensures assets == old(assets) && comments == old(comments)
      ensures nextAssetId == old(nextAssetId) && nextCommentId == old(nextCommentId)
    {
      if kind != PointsKind {
        return Err(BadRequest(BadKind));
      }
      if entityId.NotFinite? || commentId.NotFinite? {
        return Err(BadRequest(BadReadIds));
      }
      var key := ReadKey(user.id, kind, entityId.value, commentId.value);
      marks := MarkOne(marks, key, now);
      r := Ok(ReadMark(key, now));
    }
  }

  /**
   * What the tables keep between requests: journal ids are unique and below their sequence,
   * every journal entry belongs to a device, and every device id is below its sequence and its
   * row has one of the two storage shapes.
   */
  ghost predicate Tables(assets: map<int, Asset>, comments: seq<Comment>, nextAssetId: int, nextCommentId: int) {
    DistinctIds(comments) &&
    (forall i :: 0 <= i < |comments| ==> comments[i].id < nextCommentId) &&
    (forall i :: 0 <= i < |comments| ==> comments[i].pointId in assets) &&
    (forall id :: id in assets ==> id < nextAssetId && Consistent(assets[id].storage))
  }

  /** A device row under the next id is new, and inserting it keeps the tables. */
  lemma TablesNewAsset(assets: map<int, Asset>, comments: seq<Comment>, nextAssetId: int, nextCommentId: int, a: Asset)
    requires Tables(assets, comments, nextAssetId, nextCommentId) && Consistent(a.storage)
    ensures nextAssetId !in assets
    ensures Tables(assets[nextAssetId := a], comments, nextAssetId + 1, nextCommentId)
  {
  }

  /** Overwriting an existing device row with a consistent one keeps the tables. */
  lemma TablesStore(assets: map<int, Asset>, comments: seq<Comment>, nextAssetId: int, nextCommentId: int, id: int, a: Asset)
    requires Tables(assets, comments, nextAssetId, nextCommentId) && id in assets && Consistent(a.storage)
    ensures Tables(assets[id := a], comments, nextAssetId, nextCommentId)
  {
  }

  /** Deleting a device together with its journal keeps the tables. */
  lemma TablesDelete(assets: map<int, Asset>, comments: seq<Comment>, nextAssetId: int, nextCommentId: int, pointId: int)
    requires Tables(assets, comments, nextAssetId, nextCommentId)
    ensures Tables(assets - {pointId}, RemoveCommentsOf(comments, pointId), nextAssetId, nextCommentId)
  {
    var rest := RemoveCommentsOf(comments, pointId);
    SubsequenceKeepsDistinct(rest, comments);
    forall i | 0 <= i < |rest| ensures rest[i].id < nextCommentId && rest[i].pointId in assets - {pointId} {
      assert rest[i] in comments;
    }
  }

  /** Appending an entry under the next id, on an existing device, keeps the tables. */
  lemma TablesAppend(assets: map<int, Asset>, comments: seq<Comment>, nextAssetId: int, nextCommentId: int, c: Comment)
    requires Tables(assets, comments, nextAssetId, nextCommentId)
    requires c.id == nextCommentId && c.pointId in assets
    ensures Tables(assets, comments + [c], nextAssetId, nextCommentId + 1)
  {
    var s := comments + [c];
    forall i, j | 0 <= i < j < |s| ensures s[i].id != s[j].id {
      if j < |comments| {
        assert s[i] == comments[i] && s[j] == comments[j];
      } else {
        assert s[i] == comments[i];
      }
    }
  }

  /** Editing a body keeps every id and device of the journal. */
  lemma TablesEdit(assets: map<int, Asset>, comments: seq<Comment>, nextAssetId: int, nextCommentId: int,
                   commentId: int, body: string, now: int)
    requires Tables(assets, comments, nextAssetId, nextCommentId)
    ensures Tables(assets, EditComments(comments, commentId, body, now), nextAssetId, nextCommentId)
  {
    var r := EditComments(comments, commentId, body, now);
    assert forall i :: 0 <= i < |r| ==> r[i].id == comments[i].id && r[i].pointId == comments[i].pointId;
  }

  /** Removing one entry keeps the tables. */
  lemma TablesRemove(assets: map<int, Asset>, comments: seq<Comment>, nextAssetId: int, nextCommentId: int,
                     commentId: int, pointId: int)
    requires Tables(assets, comments, nextAssetId, nextCommentId)
    ensures Tables(assets, RemoveComment(comments, commentId, pointId), nextAssetId, nextCommentId)
  {
    var rest := RemoveComment(comments, commentId, pointId);
    SubsequenceKeepsDistinct(rest, comments);
    forall i | 0 <= i < |rest| ensures rest[i].id < nextCommentId && rest[i].pointId in assets {
      assert rest[i] in comments;
    }
  }

  /**
   * The `unread ... limit $2` subquery: scans the entries in table order and keeps the keys
   * without a mark until k are found.
   */
  method ChooseBatch(cs: seq<Comment>, marks: ReadMarks, user: int, k: nat) returns (batch: set<ReadKey>)
    ensures batch <= UnreadKeys(cs, marks, user)
    ensures |batch| == if k < |UnreadKeys(cs, marks, user)| then k else |UnreadKeys(cs, marks, user)|
  {
    batch := {};
    var i := 0;
    while i < |cs| && |batch| < k
      invariant 0 <= i <= |cs|
      invariant batch == UnreadKeys(cs[..i], marks, user)
      invariant |batch| <= k
    {
      var key := CommentKey(user, cs[i]);
      assert cs[..i + 1][..i] == cs[..i];
      if key !in marks {
        batch := batch + {key};
      }
      assert batch == UnreadKeys(cs[..i + 1], marks, user);
      i := i + 1;
    }
    if i == |cs| {
      assert cs[..i] == cs;
    } else {
      assert cs[..i] <= cs;
      UnreadKeysPrefix(cs[..i], cs, marks, user);
    }
  }

  /** The candidates of a prefix are candidates of the whole table. */
  lemma UnreadKeysPrefix(p: seq<Comment>, s: seq<Comment>, marks: ReadMarks, user: int)
    requires p <= s
    ensures UnreadKeys(p, marks, user) <= UnreadKeys(s, marks, user)
    ensures |UnreadKeys(p, marks, user)| <= |UnreadKeys(s, marks, user)|
  {
    forall k | k in UnreadKeys(p, marks, user) ensures k in UnreadKeys(s, marks, user) {
      UnreadKeysMembership(p, marks, user, k);
      UnreadKeysMembership(s, marks, user, k);
      var d :| d in p && k == CommentKey(user, d) && k !in marks;
      assert d in s;
    }
    SubsetCardinality(UnreadKeys(p, marks, user), UnreadKeys(s, marks, user));
  }
}
