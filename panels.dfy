/**
 * The front end's list state: the updates panel dropping the entries the user
 * acknowledges, the journal panel adding, editing and deleting entries and
 * reporting its size, the per-project journal sizes that feed the chance
 * rings, the acquired/lost switches of the edit form, and the outer rings
 * drawn for a tunnel's geometry.
 */
module Panels {
  import opened Js
  import opened Http
  import Journal
  import Feed
  import Sorting
  import Chance

  // ---------------------------------------------------------- updates panel

  /** `${kind}:${entity_id}:${id}`: the key the updates panel files an entry under. */
  function FeedKey(f: Feed.FeedItem): (r: string)
    ensures |r| > |f.kind| && r[..|f.kind|] == f.kind && r[|f.kind|] == ':'
  {
    var r := f.kind + ":" + IntToString(f.entityId) + ":" + IntToString(f.id);
    assert r == f.kind + (":" + IntToString(f.entityId) + ":" + IntToString(f.id));
    r
  }

  /** Two rows stand for the same journal entry. */
  predicate SameEntry(a: Feed.FeedItem, b: Feed.FeedItem) {
    a.kind == b.kind && a.entityId == b.entityId && a.id == b.id
  }

  /** Only the positions past a colon-free prefix can hold its separating colon. */
  lemma ColonAfter(a: string, b: string)
    requires ':' !in a
    ensures (a + ":" + b)[|a|] == ':'
    ensures forall i :: 0 <= i < |a| ==> (a + ":" + b)[i] != ':'
  {
    forall i | 0 <= i < |a| ensures (a + ":" + b)[i] != ':' {
      assert (a + ":" + b)[i] == a[i];
    }
  }

  /** A colon-free prefix is recovered from the string it starts. */
  lemma SplitAtColon(a: string, b: string, c: string, d: string)
    requires ':' !in a && ':' !in c
    requires a + ":" + b == c + ":" + d
    ensures a == c && b == d
  {
    var s := a + ":" + b;
    ColonAfter(a, b);
    ColonAfter(c, d);
    assert |a| == |c|;
    assert a == s[..|a|] && c == s[..|c|];
    assert b == s[|a| + 1..] && d == s[|c| + 1..];
  }

  /** With colon-free kinds, two rows share a key exactly when they are the same entry. */
  lemma FeedKeyInjective(x: Feed.FeedItem, u: Feed.FeedItem)
    requires ':' !in x.kind && ':' !in u.kind
    ensures FeedKey(x) == FeedKey(u) <==> SameEntry(x, u)
  {
    if FeedKey(x) == FeedKey(u) {
      var ex, ix := IntToString(x.entityId), IntToString(x.id);
      var eu, iu := IntToString(u.entityId), IntToString(u.id);
      FeedKeyParts(x);
      FeedKeyParts(u);
      SplitAtColon(x.kind, ex + ":" + ix, u.kind, eu + ":" + iu);
      SplitAtColon(ex, ix, eu, iu);
      IntToStringInjective(x.entityId, u.entityId);
      IntToStringInjective(x.id, u.id);
    }
  }

  /** A key is the kind, a colon, and the rest. */
  lemma FeedKeyParts(f: Feed.FeedItem)
    ensures FeedKey(f) == f.kind + ":" + (IntToString(f.entityId) + ":" + IntToString(f.id))
  {
  }

  /** The rows left once u is acknowledged, in their order; u's entry is gone. */
  function WithoutEntry(items: seq<Feed.FeedItem>, u: Feed.FeedItem): (r: seq<Feed.FeedItem>)
    ensures Sorting.IsSubsequence(r, items)
    ensures forall x :: x in r ==> x in items && !SameEntry(x, u)
  {
    var r := Sorting.Filter(items, x => FeedKey(x) != FeedKey(u));
    forall x | x in r ensures x in items && !SameEntry(x, u) {
      Sorting.FilterMembership(items, x => FeedKey(x) != FeedKey(u), x);
    }
    r
  }

  /** With colon-free kinds, acknowledging u drops u's entry and no other. */
  lemma WithoutEntryDropsOnlyIt(items: seq<Feed.FeedItem>, u: Feed.FeedItem)
    requires ':' !in u.kind && forall i :: 0 <= i < |items| ==> ':' !in items[i].kind
    ensures forall x :: x in WithoutEntry(items, u) <==> x in items && !SameEntry(x, u)
  {
    forall x ensures x in WithoutEntry(items, u) <==> x in items && !SameEntry(x, u) {
      Sorting.FilterMembership(items, y => FeedKey(y) != FeedKey(u), x);
      if x in items {
        FeedKeyInjective(x, u);
      }
    }
  }

  /** The feed's own rows all carry the kind "points", which has no colon. */
  lemma FeedKindColonFree()
    ensures ':' !in Feed.PointsKind
  {
  }

  /** The updates panel: the unread rows it lists and which of them are expanded, by key. */
  class UpdatesPanel {
    var items: seq<Feed.FeedItem>
    var expanded: map<string, bool>

    constructor ()
      ensures items == [] && expanded == map[]
    {
      items := [];
      expanded := map[];
    }

    /** `load`: the panel shows the rows the server returned. */
    method Load(fetched: seq<Feed.FeedItem>)
      modifies this
      ensures items == fetched && expanded == old(expanded)
    {
      items := fetched;
    }

    /** `markRead`: the row leaves the list and its expansion flag is forgotten at once. */
    method MarkRead(u: Feed.FeedItem)
      modifies this
      ensures items == WithoutEntry(old(items), u)
      ensures expanded == old(expanded) - {FeedKey(u)}
    {
      var key := FeedKey(u);
      items := Sorting.Filter(items, x => FeedKey(x) != key);
      expanded := expanded - {key};
    }

    /** `markAllRead`: nothing happens on an empty list; otherwise the list and the flags are cleared. */
    method MarkAllRead()
      modifies this
      ensures old(items) == [] ==> items == old(items) && expanded == old(expanded)
      ensures old(items) != [] ==> items == [] && expanded == map[]
    {
      if items == [] {
        return;
      }
      items := [];
      expanded := map[];
    }
  }

  // ---------------------------------------------------------- journal sizes

  /** `journalCounts`: per kind ("points" or "tunnels"), the journal size last reported per id. */
  type SizeTable = map<string, map<int, JsNumber>>

  /** `handleCountsChange`'s new state: one size replaced (`Number(count) || 0`), all others kept. */
  function SizeChanged(m: SizeTable, kind: string, id: int, count: JsNumber): (r: SizeTable)
    ensures r.Keys == m.Keys + {kind}
    ensures id in r[kind] && r[kind][id] == OrZero(count)
    ensures kind in m ==> r[kind].Keys == m[kind].Keys + {id}
    ensures kind !in m ==> r[kind].Keys == {id}
    ensures kind in m ==> forall j :: j in m[kind] && j != id ==> r[kind][j] == m[kind][j]
    ensures forall k :: k in m && k != kind ==> r[k] == m[k]
  {
    var inner := if kind in m then m[kind] else map[];
    m[kind := inner[id := OrZero(count)]]
  }

  /** `journalCounts[kind]?.[id] || 0`: the size a ring is drawn from; an unknown project has 0. */
  function SizeOf(m: SizeTable, kind: string, id: int): (r: JsNumber)
    ensures !r.NaN?
    ensures kind !in m || id !in m[kind] ==> r == Num(0.0)
  {
    if kind in m && id in m[kind] then OrZero(m[kind][id]) else Num(0.0)
  }

  /** Once a panel reports n entries, the project's ring shows the chance of n entries. */
  lemma RingAfterReport(m: SizeTable, kind: string, id: int, n: nat, acquired: bool)
    ensures Chance.ProjectChance(acquired, SizeOf(SizeChanged(m, kind, id, Num(n as real)), kind, id)) ==
      Num(if acquired then 100.0 else if n >= 4 then 90.0 else 50.0 + 10.0 * n as real)
  {
    Chance.ChanceByCount(n);
  }

  /** A report for one project leaves every other project's ring as it was. */
  lemma {:induction false} OtherRingsKept(m: SizeTable, kind: string, id: int, count: JsNumber, k: string, j: int)
    requires k != kind || j != id
    ensures SizeOf(SizeChanged(m, kind, id, count), k, j) == SizeOf(m, k, j)
  {
    var r := SizeChanged(m, kind, id, count);
    if k == kind {
      assert j in r[k] <==> kind in m && j in m[kind];
    }
  }

  /** The journal sizes of all projects, as the map page keeps them. */
  class JournalSizes {
    var sizes: SizeTable

    constructor ()
      ensures sizes == map["points" := map[], "tunnels" := map[]]
    {
      sizes := map["points" := map[], "tunnels" := map[]];
    }

    /** `handleCountsChange`. */
    method Change(kind: string, id: int, count: JsNumber)
      modifies this
      ensures sizes == SizeChanged(old(sizes), kind, id, count)
    {
      var inner := if kind in sizes then sizes[kind] else map[];
      sizes := sizes[kind := inner[id := OrZero(count)]];
    }
  }

  // ---------------------------------------------------------- journal panel

  /** `String(draft || "").trim()`: the body a submit sends; a blank draft sends nothing. */
  function DraftBody(draft: string): (r: Option<string>)
    ensures r.None? <==> Trim(draft) == []
    ensures r.Some? ==> r.value != [] && Trim(r.value) == r.value
  {
    var body := Trim(draft);
    TrimIdempotent(draft);
    if body == [] then None else Some(body)
  }

  /** A draft the panel sends is refused by the server only for its length. */
  lemma DraftPassesUnlessTooLong(draft: string)
    requires DraftBody(draft).Some?
    ensures Journal.CheckBody(DraftBody(draft).value) == Journal.CheckBody(draft)
    ensures Journal.CheckBody(draft).Ok? <==> Utf16Length(DraftBody(draft).value) <= Journal.MaxBodyLength
  {
  }

  /** The list after an edit: the row with the saved entry's id is replaced by it. */
  function ReplaceEntry(items: seq<Journal.Comment>, updated: Journal.Comment): (r: seq<Journal.Comment>)
    ensures |r| == |items|
    ensures forall i :: 0 <= i < |items| ==> r[i] == if items[i].id == updated.id then updated else items[i]
  {
    var r := seq(|items|, i requires 0 <= i < |items| =>
      if IntToString(items[i].id) == IntToString(updated.id) then updated else items[i]);
    forall i | 0 <= i < |items| ensures r[i] == if items[i].id == updated.id then updated else items[i] {
      if IntToString(items[i].id) == IntToString(updated.id) {
        IntToStringInjective(items[i].id, updated.id);
      }
    }
    r
  }

  /** With distinct ids, an edit changes exactly the edited entry and keeps the ids distinct. */
  lemma ReplaceKeepsIds(items: seq<Journal.Comment>, updated: Journal.Comment)
    requires Journal.DistinctIds(items)
    ensures Journal.DistinctIds(ReplaceEntry(items, updated))
    ensures forall i :: 0 <= i < |items| ==> ReplaceEntry(items, updated)[i].id == items[i].id
    ensures updated in ReplaceEntry(items, updated) <==> updated in items || exists i :: 0 <= i < |items| && items[i].id == updated.id
  {
    var r := ReplaceEntry(items, updated);
    if updated in r && updated !in items {
      var i :| 0 <= i < |r| && r[i] == updated;
      assert items[i].id == updated.id;
    }
    if updated in items {
      var i :| 0 <= i < |items| && items[i] == updated;
      assert r[i] == updated;
    }
  }

  /** The list after a delete: every row whose id reads as the deleted one goes, the rest keep their order. */
  function DropEntry(items: seq<Journal.Comment>, commentId: int): (r: seq<Journal.Comment>)
    ensures forall x :: x in r <==> x in items && x.id != commentId
    ensures Sorting.IsSubsequence(r, items)
  {
    var r := Sorting.Filter(items, (x: Journal.Comment) => IntToString(x.id) != IntToString(commentId));
    forall x: Journal.Comment ensures x in r <==> x in items && x.id != commentId {
      Sorting.FilterMembership(items, (y: Journal.Comment) => IntToString(y.id) != IntToString(commentId), x);
      if IntToString(x.id) == IntToString(commentId) {
        IntToStringInjective(x.id, commentId);
      }
    }
    r
  }

  /** The number of rows with the given id. */
  function WithId(items: seq<Journal.Comment>, commentId: int): nat {
    if items == [] then 0 else (if items[0].id == commentId then 1 else 0) + WithId(items[1..], commentId)
  }

  /** A delete removes as many rows as carry the id: with distinct ids, one or none. */
  lemma {:induction false} DropEntryCount(items: seq<Journal.Comment>, commentId: int)
    ensures |DropEntry(items, commentId)| == |items| - WithId(items, commentId)
    ensures Journal.DistinctIds(items) ==> WithId(items, commentId) <= 1
  {
    if items != [] {
      DropEntryCount(items[1..], commentId);
      if items[0].id == commentId {
        IntToStringInjective(items[0].id, commentId);
      } else if IntToString(items[0].id) == IntToString(commentId) {
        IntToStringInjective(items[0].id, commentId);
      }
      if Journal.DistinctIds(items) {
        assert Journal.DistinctIds(items[1..]) by {
          forall i: int, j: int | 0 <= i < j < |items| - 1 ensures items[1..][i].id != items[1..][j].id {
            assert items[1..][i] == items[i + 1] && items[1..][j] == items[j + 1];
          }
        }
        if items[0].id == commentId {
          NoOtherWithId(items, commentId);
        }
      }
    }
  }

  /** With distinct ids, no row after the first shares the first one's id. */
  lemma {:induction false} NoOtherWithId(items: seq<Journal.Comment>, commentId: int)
    requires items != [] && Journal.DistinctIds(items) && items[0].id == commentId
    ensures WithId(items[1..], commentId) == 0
  {
    var rest := items[1..];
    forall i | 0 <= i < |rest| ensures rest[i].id != commentId {
      assert rest[i] == items[i + 1];
    }
    NoneWithId(rest, commentId);
  }

  lemma {:induction false} NoneWithId(items: seq<Journal.Comment>, commentId: int)
    requires forall i :: 0 <= i < |items| ==> items[i].id != commentId
    ensures WithId(items, commentId) == 0
  {
    if items != [] {
      assert forall i :: 0 <= i < |items| - 1 ==> items[1..][i] == items[i + 1];
      NoneWithId(items[1..], commentId);
    }
  }

  /**
   * The journal of one device or tunnel: its entries newest first, the entry being edited, and the
   * table of journal sizes it reports to.
   */
  class JournalPanel {
    const kind: string
    const entityId: int
    var items: seq<Journal.Comment>
    var editing: Option<int>
    const sizes: JournalSizes

    constructor (kind: string, entityId: int, sizes: JournalSizes)
      ensures this.kind == kind && this.entityId == entityId && this.sizes == sizes
      ensures items == [] && editing == None
    {
      this.kind := kind;
      this.entityId := entityId;
      this.sizes := sizes;
      items := [];
      editing := None;
    }

    /** A panel without an entity (id 0) ignores every action. */
    predicate Bound() {
      entityId != 0
    }

    /** `load`: the fetched entries replace the list and their number is reported. */
    method Load(fetched: seq<Journal.Comment>)
      modifies this, sizes
      ensures !Bound() ==> items == old(items) && sizes.sizes == old(sizes.sizes)
      ensures Bound() ==> items == fetched
      ensures Bound() ==> sizes.sizes == SizeChanged(old(sizes.sizes), kind, entityId, Num(|fetched| as real))
      ensures editing == old(editing)
    {
      if !Bound() {
        return;
      }
      items := fetched;
      sizes.Change(kind, entityId, Num(|items| as real));
    }

    /** `addComment`: the created entry goes on top and the new size is reported. */
    method AddEntry(created: Journal.Comment)
      modifies this, sizes
      ensures !Bound() ==> items == old(items) && sizes.sizes == old(sizes.sizes)
      ensures Bound() ==> items == [created] + old(items)
      ensures Bound() ==> sizes.sizes == SizeChanged(old(sizes.sizes), kind, entityId, Num((|old(items)| + 1) as real))
      ensures editing == old(editing)
    {
      if !Bound() {
        return;
      }
      items := [created] + items;
      sizes.Change(kind, entityId, Num(|items| as real));
    }

    /** `saveEdit`: the saved entry replaces the row with its id; the size is not reported again. */
    method EditEntry(updated: Journal.Comment)
      modifies this
      ensures !Bound() ==> items == old(items) && editing == old(editing)
      ensures Bound() ==> items == ReplaceEntry(old(items), updated) && editing == None
    {
      if !Bound() {
        return;
      }
      items := ReplaceEntry(items, updated);
      editing := None;
    }

    /** `removeComment`: the row goes, the new size is reported, and an edit of that row is dropped. */
    method RemoveEntry(commentId: int)
      modifies this, sizes
      ensures !Bound() ==> items == old(items) && editing == old(editing) && sizes.sizes == old(sizes.sizes)
      ensures Bound() ==> items == DropEntry(old(items), commentId)
      ensures Bound() ==> editing == if old(editing) == Some(commentId) then None else old(editing)
      ensures Bound() ==> sizes.sizes == SizeChanged(old(sizes.sizes), kind, entityId, Num(|items| as real))
    {
      if !Bound() {
        return;
      }
      items := DropEntry(items, commentId);
      sizes.Change(kind, entityId, Num(|items| as real));
      if editing.Some? && IntToString(editing.value) == IntToString(commentId) {
        IntToStringInjective(editing.value, commentId);
        editing := None;
      }
    }
  }

  /** One more entry raises the chance by ten points, up to 90. */
  lemma ChanceAfterAdd(n: nat)
    ensures Chance.ChanceFromJournalCount(Num((n + 1) as real)).value ==
      if n >= 3 then 90.0 else Chance.ChanceFromJournalCount(Num(n as real)).value + 10.0
  {
    Chance.ChanceByCount(n);
    Chance.ChanceByCount(n + 1);
  }

  // -------------------------------------------------------- acquired / lost

  /** The two switches of the edit form. */
  datatype Outcome = Outcome(acquired: bool, lost: bool)

  predicate Exclusive(o: Outcome) {
    !(o.acquired && o.lost)
  }

  /** Ticking "Projekt pozyskany" clears "Projekt przegrany"; unticking leaves it. */
  function CheckAcquired(o: Outcome, checked: bool): (r: Outcome)
    ensures r.acquired == checked && Exclusive(r)
    ensures !checked ==> r.lost == o.lost
  {
    Outcome(checked, if checked then false else o.lost)
  }

  /** Ticking "Projekt przegrany" clears "Projekt pozyskany"; unticking leaves it. */
  function CheckLost(o: Outcome, checked: bool): (r: Outcome)
    ensures r.lost == checked && Exclusive(r)
    ensures !checked ==> r.acquired == o.acquired
  {
    Outcome(if checked then false else o.acquired, checked)
  }

  /** A click on one of the two switches. */
  datatype Click = Acquired(on: bool) | Lost(on: bool)

  function Apply(o: Outcome, c: Click): Outcome {
    match c
    case Acquired(on) => CheckAcquired(o, on)
    case Lost(on) => CheckLost(o, on)
  }

  function ApplyAll(o: Outcome, cs: seq<Click>): Outcome
    decreases |cs|
  {
    if cs == [] then o else ApplyAll(Apply(o, cs[0]), cs[1..])
  }

  /** Whatever the clicks, a form that starts with at most one switch on keeps at most one on. */
  lemma {:induction false} ClicksKeepExclusive(o: Outcome, cs: seq<Click>)
    requires Exclusive(o)
    ensures Exclusive(ApplyAll(o, cs))
    decreases |cs|
  {
    if cs != [] {
      ClicksKeepExclusive(Apply(o, cs[0]), cs[1..]);
    }
  }

  /** The last switch ticked is the one that is on. */
  lemma {:induction false} LastTickWins(o: Outcome, cs: seq<Click>)
    requires cs != [] && cs[|cs| - 1].on
    ensures ApplyAll(o, cs) == if cs[|cs| - 1].Acquired? then Outcome(true, false) else Outcome(false, true)
    decreases |cs|
  {
    if |cs| > 1 {
      assert cs[1..][|cs[1..]| - 1] == cs[|cs| - 1];
      LastTickWins(Apply(o, cs[0]), cs[1..]);
    }
  }

  /** The edit form's outcome switches. */
  class OutcomeForm {
    var acquired: bool
    var lost: bool

    constructor (acquired: bool, lost: bool)
      ensures this.acquired == acquired && this.lost == lost
    {
      this.acquired := acquired;
      this.lost := lost;
    }

    function State(): Outcome
      reads this
    {
      Outcome(acquired, lost)
    }

    method ToggleAcquired(checked: bool)
      modifies this
      ensures State() == CheckAcquired(old(State()), checked)
    {
      acquired := checked;
      if checked {
        lost := false;
      }
    }

    method ToggleLost(checked: bool)
      modifies this
      ensures State() == CheckLost(old(State()), checked)
    {
      lost := checked;
      if checked {
        acquired := false;
      }
    }
  }

  // ---------------------------------------------------------- outer rings

  type Position = seq<real>
  type Ring = seq<Position>

  /** A polygon's rings as parsed from JSON; a missing or null entry is None. */
  type Rings = Option<seq<Option<Ring>>>

  datatype Geometry =
    | NoGeometry
    | Polygon(coordinates: Rings)
    | MultiPolygon(polygons: Option<seq<Rings>>)
    | OtherType(name: string)

  /** `poly?.[0]`: the outer ring of a polygon, when it has one. */
  function FirstRing(p: Rings): (r: Option<Ring>)
    ensures r.Some? <==> p.Some? && |p.value| > 0 && p.value[0].Some?
  {
    if p.Some? && |p.value| > 0 then p.value[0] else None
  }

  /** The outer rings of the polygons, in order, skipping those without one. */
  function OuterRingsOf(polys: seq<Rings>): (r: seq<Ring>)
    ensures |r| <= |polys|
  {
    if polys == [] then []
    else
      var init := OuterRingsOf(polys[..|polys| - 1]);
      match FirstRing(polys[|polys| - 1])
      case Some(ring) => init + [ring]
      case None => init
  }

  /** A ring is drawn exactly when it is the outer ring of one of the polygons. */
  lemma {:induction false} OuterRingsMembership(polys: seq<Rings>, ring: Ring)
    ensures ring in OuterRingsOf(polys) <==> exists i :: 0 <= i < |polys| && FirstRing(polys[i]) == Some(ring)
  {
    if polys != [] {
      var init := polys[..|polys| - 1];
      OuterRingsMembership(init, ring);
      assert forall i :: 0 <= i < |init| ==> init[i] == polys[i];
      if exists i :: 0 <= i < |polys| && FirstRing(polys[i]) == Some(ring) {
        var i :| 0 <= i < |polys| && FirstRing(polys[i]) == Some(ring);
        if i < |init| {
          assert FirstRing(init[i]) == Some(ring);
        }
      }
    }
  }

  /** `extractOuterRings`, as a function of the geometry. */
  function OuterRings(g: Geometry): (r: seq<Ring>)
    ensures g.Polygon? ==> |r| <= 1
    ensures g.NoGeometry? || g.OtherType? ==> r == []
  {
    match g
    case NoGeometry => []
    case Polygon(coordinates) =>
      (match FirstRing(coordinates) case Some(ring) => [ring] case None => [])
    case MultiPolygon(polygons) => if polygons.Some? then OuterRingsOf(polygons.value) else []
    case OtherType(_) => []
  }

  /** `extractOuterRings`: the outer ring of a polygon, or of each polygon of a multipolygon. */
  method ExtractOuterRings(g: Geometry) returns (rings: seq<Ring>)
    ensures rings == OuterRings(g)
  {
    match g {
      case NoGeometry =>
        rings := [];
      case Polygon(coordinates) =>
        var first := FirstRing(coordinates);
        rings := if first.Some? then [first.value] else [];
      case MultiPolygon(polygons) =>
        var polys := if polygons.Some? then polygons.value else [];
        rings := [];
        var i := 0;
        while i < |polys|
          invariant 0 <= i <= |polys|
          invariant rings == OuterRingsOf(polys[..i])
        {
          assert polys[..i + 1][..i] == polys[..i];
          var first := FirstRing(polys[i]);
          if first.Some? {
            rings := rings + [first.value];
          }
          i := i + 1;
        }
        assert polys[..i] == polys;
      case OtherType(_) =>
        rings := [];
    }
  }
}
