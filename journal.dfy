/**
 * The journal of a device: the rows of `point_comments` and the pure rules the
 * comment routes apply to them (body validation, listing order, the lookup by
 * comment id and device id, and the edit and removal of rows).
 */
module Journal {
  import opened Js
  import opened Http
  import Sorting

  const MaxBodyLength: nat := 5000

  /** The authenticated caller, taken from the verified token. */
  datatype User = User(id: int, email: string)

  /** A row of `point_comments`; `updatedAt` is None until the first edit. */
  datatype Comment = Comment(
    id: int, pointId: int, userId: int, userEmail: string, body: string,
    createdAt: int, edited: bool, updatedAt: Option<int>)

  /** Comment ids are unique, as the serial primary key makes them. */
  ghost predicate DistinctIds(cs: seq<Comment>) {
    forall i, j :: 0 <= i < j < |cs| ==> cs[i].id != cs[j].id
  }

  // ------------------------------------------------------------ body rules

  /** The body a create or update request stores: trimmed, non-empty, at most 5000 UTF-16 units. */
  function CheckBody(raw: string): (r: Result<string>)
    ensures r.Ok? <==> Trim(raw) != [] && Utf16Length(Trim(raw)) <= MaxBodyLength
    ensures r.Ok? ==> r.value == Trim(raw) && r.value != []
    ensures Trim(raw) == [] ==> r == Err(BadRequest(EmptyBody))
    ensures Trim(raw) != [] && r.Err? ==> r == Err(BadRequest(BodyTooLong))
  {
    var body := Trim(raw);
    if body == [] then Err(BadRequest(EmptyBody))
    else if Utf16Length(body) > MaxBodyLength then Err(BadRequest(BodyTooLong))
    else Ok(body)
  }

  /** A stored body passes the check again unchanged. */
  lemma CheckBodyStable(raw: string)
    requires CheckBody(raw).Ok?
    ensures CheckBody(CheckBody(raw).value) == CheckBody(raw)
  {
    TrimIdempotent(raw);
  }

  /** Characters of the Basic Multilingual Plane count once in `length`. */
  lemma {:induction false} BmpLength(s: string)
    requires forall i :: 0 <= i < |s| ==> s[i] as int <= 0xFFFF
    ensures Utf16Length(s) == |s|
  {
    if s != [] {
      BmpLength(s[1..]);
    }
  }

  /** Exactly 5000 characters are accepted, 5001 are rejected as too long. */
  lemma BodyLengthBoundary(s: string)
    requires s != [] && !IsWhite(s[0]) && !IsWhite(s[|s| - 1])
    requires forall i :: 0 <= i < |s| ==> s[i] as int <= 0xFFFF
    ensures |s| == 5000 ==> CheckBody(s) == Ok(s)
    ensures |s| == 5001 ==> CheckBody(s) == Err(BadRequest(BodyTooLong))
  {
    BmpLength(s);
    assert TrimStart(s) == s;
    assert TrimEnd(s) == s;
  }

  // --------------------------------------------------------------- listing

  /** `ORDER BY created_at DESC, id DESC`. */
  predicate NewestFirst(a: Comment, b: Comment) {
    a.createdAt > b.createdAt || (a.createdAt == b.createdAt && a.id >= b.id)
  }

  lemma NewestFirstTotal()
    ensures Sorting.TotalPreorder(NewestFirst)
  {
  }

  predicate OnPoint(pointId: int, c: Comment) {
    c.pointId == pointId
  }

  /** The rows the listing of one device returns, newest first. */
  function ListFor(cs: seq<Comment>, pointId: int): (r: seq<Comment>)
    ensures forall c :: c in r <==> c in cs && c.pointId == pointId
    ensures multiset(r) == multiset(Sorting.Filter(cs, c => OnPoint(pointId, c)))
    ensures Sorting.SortedBy(r, NewestFirst)
  {
    NewestFirstTotal();
    var mine := Sorting.Filter(cs, c => OnPoint(pointId, c));
    var r := Sorting.Sort(mine, NewestFirst);
    assert forall c :: c in r <==> c in mine by {
      forall c ensures c in r <==> c in mine {
        assert c in r <==> c in multiset(r);
        assert c in mine <==> c in multiset(mine);
      }
    }
    forall c ensures c in mine <==> c in cs && c.pointId == pointId {
      Sorting.FilterMembership(cs, c => OnPoint(pointId, c), c);
    }
    r
  }

  /** With unique ids the listing order is fully determined: any other newest-first arrangement is the same. */
  lemma ListOrderDetermined(cs: seq<Comment>, pointId: int, other: seq<Comment>)
    requires DistinctIds(cs)
    requires multiset(other) == multiset(ListFor(cs, pointId))
    requires Sorting.SortedBy(other, NewestFirst)
    ensures other == ListFor(cs, pointId)
  {
    var r := ListFor(cs, pointId);
    forall x, y | x in other && y in other && NewestFirst(x, y) && NewestFirst(y, x)
      ensures x == y
    {
      assert x in multiset(r) && y in multiset(r);
      assert x in r && y in r;
      var i :| 0 <= i < |cs| && cs[i] == x;
      var j :| 0 <= j < |cs| && cs[j] == y;
      assert cs[i].id == cs[j].id;
      assert i == j;
    }
    Sorting.SortedUnique(other, r, NewestFirst);
  }

  // ----------------------------------------------------------- edit/delete

  /** `SELECT ... WHERE id=$1 AND point_id=$2`: the first row matching both ids. */
  function FindComment(cs: seq<Comment>, commentId: int, pointId: int): (r: Option<Comment>)
    ensures r.Some? <==> exists i :: 0 <= i < |cs| && cs[i].id == commentId && cs[i].pointId == pointId
    ensures r.Some? ==> r.value in cs && r.value.id == commentId && r.value.pointId == pointId
  {
    if cs == [] then None
    else if cs[0].id == commentId && cs[0].pointId == pointId then Some(cs[0])
    else
      var r := FindComment(cs[1..], commentId, pointId);
      assert forall i :: 1 <= i < |cs| ==> cs[i] == cs[1..][i - 1];
      r
  }

  /** The row after an edit: new body, marked edited, update time refreshed. */
  function Edited(c: Comment, body: string, now: int): (e: Comment)
    ensures e.body == body && e.edited && e.updatedAt == Some(now)
    ensures e.(body := c.body, edited := c.edited, updatedAt := c.updatedAt) == c
  {
    c.(body := body, edited := true, updatedAt := Some(now))
  }

  /** `UPDATE point_comments SET body=$1, edited=true, updated_at=NOW() WHERE id=$2`. */
  function EditComments(cs: seq<Comment>, commentId: int, body: string, now: int): (r: seq<Comment>)
    ensures |r| == |cs|
    ensures forall i :: 0 <= i < |cs| ==> r[i] == if cs[i].id == commentId then Edited(cs[i], body, now) else cs[i]
  {
    if cs == [] then []
    else [if cs[0].id == commentId then Edited(cs[0], body, now) else cs[0]] + EditComments(cs[1..], commentId, body, now)
  }

  predicate Keeps(commentId: int, pointId: int, c: Comment) {
    !(c.id == commentId && c.pointId == pointId)
  }

  /** `DELETE FROM point_comments WHERE id=$1 AND point_id=$2`. */
  function RemoveComment(cs: seq<Comment>, commentId: int, pointId: int): (r: seq<Comment>)
    ensures forall c :: c in r <==> c in cs && !(c.id == commentId && c.pointId == pointId)
    ensures Sorting.IsSubsequence(r, cs)
    ensures FindComment(r, commentId, pointId).None?
  {
    var r := Sorting.Filter(cs, c => Keeps(commentId, pointId, c));
    forall c ensures c in r <==> c in cs && Keeps(commentId, pointId, c) {
      Sorting.FilterMembership(cs, c => Keeps(commentId, pointId, c), c);
    }
    forall i | 0 <= i < |r| ensures Keeps(commentId, pointId, r[i]) {
      assert r[i] in r;
    }
    r
  }

  /** `DELETE FROM point_comments WHERE point_id=$1`. */
  function RemoveCommentsOf(cs: seq<Comment>, pointId: int): (r: seq<Comment>)
    ensures forall c :: c in r <==> c in cs && c.pointId != pointId
    ensures Sorting.IsSubsequence(r, cs)
  {
    var r := Sorting.Filter(cs, c => !OnPoint(pointId, c));
    forall c ensures c in r <==> c in cs && !OnPoint(pointId, c) {
      Sorting.FilterMembership(cs, c => !OnPoint(pointId, c), c);
    }
    r
  }

  /** Removing keeps unique ids unique. */
  lemma {:induction false} SubsequenceKeepsDistinct(a: seq<Comment>, b: seq<Comment>)
    requires Sorting.IsSubsequence(a, b) && DistinctIds(b)
    ensures DistinctIds(a) && (forall c :: c in a ==> c in b)
  {
    if a != [] {
      assert b != [];
      if a[0] == b[0] && Sorting.IsSubsequence(a[1..], b[1..]) {
        SubsequenceKeepsDistinct(a[1..], b[1..]);
        forall j | 0 < j < |a| ensures a[0].id != a[j].id {
          assert a[j] in a[1..];
          var k :| 0 <= k < |b[1..]| && b[1..][k] == a[j];
          assert b[k + 1] == a[j];
        }
        forall c | c in a ensures c in b {
          if c != a[0] { assert c in a[1..]; }
        }
      } else {
        SubsequenceKeepsDistinct(a, b[1..]);
      }
    }
  }
}
