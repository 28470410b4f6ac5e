/**
 * The project list of the front end's side panel: devices ("points") and
 * tunnels filtered by the status check boxes, ordered priority first and then
 * by descending id, searched by name or id, and tallied per status.
 */
module ProjectList {
  import opened Js
  import Sorting
  import Chance

  /** A device or tunnel as the list sees it; a missing status or name is the empty string. */
  datatype Item = Item(id: int, title: string, name: string, status: string, priority: bool)

  datatype Kind = Point | Tunnel

  /** A list row: the item tagged with what it is (`{ ...p, kind: "point" }`). */
  datatype Project = Project(kind: Kind, item: Item)

  /** `x.status || "planowany"`. */
  function EffectiveStatus(s: string): (r: string)
    ensures r != ""
    ensures s != "" ==> r == s
    ensures s == "" ==> r == Chance.Planned
  {
    if s == "" then Chance.Planned else s
  }

  /** `visibleStatus[st] !== false`: only a status switched off explicitly hides its items. */
  predicate Visible(vs: map<string, bool>, it: Item): (b: bool)
    ensures EffectiveStatus(it.status) !in vs ==> b
    ensures EffectiveStatus(it.status) in vs ==> (b <==> vs[EffectiveStatus(it.status)])
    ensures it.status == "" ==> (b <==> Chance.Planned !in vs || vs[Chance.Planned])
  {
    var st := EffectiveStatus(it.status);
    !(st in vs && !vs[st])
  }

  // ------------------------------------------------------------- ordering

  /** `byPriorityThenIdDesc`: negative when a comes first. */
  function ByPriorityThenIdDesc(a: Item, b: Item): (d: int)
    ensures a.priority && !b.priority ==> d < 0
    ensures !a.priority && b.priority ==> d > 0
    ensures a.priority == b.priority ==> (d < 0 <==> a.id > b.id) && (d == 0 <==> a.id == b.id)
  {
    var ap := if a.priority then 1 else 0;
    var bp := if b.priority then 1 else 0;
    if bp != ap then bp - ap else b.id - a.id
  }

  /** The comparator is antisymmetric, so sorting with it is well defined. */
  lemma ComparatorAntisymmetric(a: Item, b: Item)
    ensures ByPriorityThenIdDesc(a, b) == -ByPriorityThenIdDesc(b, a)
  {
  }

  /** a may come before b: the comparator does not put b first. */
  predicate Before(a: Item, b: Item) {
    ByPriorityThenIdDesc(a, b) <= 0
  }

  predicate ProjectBefore(a: Project, b: Project) {
    Before(a.item, b.item)
  }

  lemma BeforeTotal()
    ensures Sorting.TotalPreorder(Before)
    ensures Sorting.TotalPreorder(ProjectBefore)
  {
  }

  /** In a list sorted by the comparator, priority items come first and ids descend within a priority. */
  predicate PriorityThenIdDesc(s: seq<Item>) {
    forall i, j :: 0 <= i < j < |s| ==>
      (s[j].priority ==> s[i].priority) && (s[i].priority == s[j].priority ==> s[i].id >= s[j].id)
  }

  lemma SortedMeansPriorityThenIdDesc(s: seq<Item>)
    requires Sorting.SortedBy(s, Before)
    ensures PriorityThenIdDesc(s)
  {
    forall i, j | 0 <= i < j < |s|
      ensures (s[j].priority ==> s[i].priority) && (s[i].priority == s[j].priority ==> s[i].id >= s[j].id)
    {
      assert Before(s[i], s[j]);
    }
  }

  /** `items.filter(visible).slice().sort(byPriorityThenIdDesc)`, as for points and for tunnels. */
  function FilteredItems(items: seq<Item>, vs: map<string, bool>): (r: seq<Item>)
    ensures forall x :: x in r <==> x in items && Visible(vs, x)
    ensures multiset(r) == multiset(Sorting.Filter(items, x => Visible(vs, x)))
    ensures Sorting.SortedBy(r, Before) && PriorityThenIdDesc(r)
  {
    BeforeTotal();
    var shown := Sorting.Filter(items, x => Visible(vs, x));
    var r := Sorting.Sort(shown, Before);
    forall x ensures x in r <==> x in items && Visible(vs, x) {
      Sorting.FilterMembership(items, x => Visible(vs, x), x);
      assert x in r <==> x in multiset(r);
    }
    SortedMeansPriorityThenIdDesc(r);
    r
  }

  /** With every status switched on, nothing is hidden. */
  lemma AllStatusesShown(items: seq<Item>, vs: map<string, bool>)
    requires forall st :: st in vs ==> vs[st]
    ensures multiset(FilteredItems(items, vs)) == multiset(items)
  {
    Sorting.FilterAll(items, x => Visible(vs, x));
  }

  function Tag(kind: Kind, s: seq<Item>): (r: seq<Project>)
    ensures |r| == |s| && forall i :: 0 <= i < |s| ==> r[i] == Project(kind, s[i])
  {
    seq(|s|, i requires 0 <= i < |s| => Project(kind, s[i]))
  }

  function Items(s: seq<Project>): (r: seq<Item>)
    ensures |r| == |s| && forall i :: 0 <= i < |s| ==> r[i] == s[i].item
  {
    seq(|s|, i requires 0 <= i < |s| => s[i].item)
  }

  /** p is one of the points (tagged "point") or one of the tunnels (tagged "tunnel"). */
  predicate InSource(points: seq<Item>, tunnels: seq<Item>, p: Project) {
    match p.kind
    case Point => p.item in points
    case Tunnel => p.item in tunnels
  }

  /** The visible points, tagged, followed by the visible tunnels, tagged. */
  function Combined(points: seq<Item>, tunnels: seq<Item>, vs: map<string, bool>): (r: seq<Project>)
    ensures forall p :: p in r <==> InSource(points, tunnels, p) && Visible(vs, p.item)
    ensures |r| == |FilteredItems(points, vs)| + |FilteredItems(tunnels, vs)|
  {
    var ps, ts := FilteredItems(points, vs), FilteredItems(tunnels, vs);
    var r := Tag(Point, ps) + Tag(Tunnel, ts);
    forall p ensures p in r <==> InSource(points, tunnels, p) && Visible(vs, p.item) {
      TagMembership(Point, ps, p);
      TagMembership(Tunnel, ts, p);
    }
    r
  }

  lemma TagMembership(kind: Kind, s: seq<Item>, p: Project)
    ensures p in Tag(kind, s) <==> p.kind == kind && p.item in s
  {
    if p.kind == kind && p.item in s {
      var i :| 0 <= i < |s| && s[i] == p.item;
      assert Tag(kind, s)[i] == p;
    }
  }

  lemma ProjectOrderOnItems(r: seq<Project>)
    requires Sorting.SortedBy(r, ProjectBefore)
    ensures PriorityThenIdDesc(Items(r))
  {
    var items := Items(r);
    forall i, j | 0 <= i < j < |items| ensures Before(items[i], items[j]) {
      assert ProjectBefore(r[i], r[j]);
    }
    SortedMeansPriorityThenIdDesc(items);
  }

  /** `filteredProjects`: the visible points and tunnels together, once more priority first and by id. */
  function FilteredProjects(points: seq<Item>, tunnels: seq<Item>, vs: map<string, bool>): (r: seq<Project>)
    ensures forall p :: p in r <==> InSource(points, tunnels, p) && Visible(vs, p.item)
    ensures |r| == |FilteredItems(points, vs)| + |FilteredItems(tunnels, vs)|
    ensures Sorting.SortedBy(r, ProjectBefore) && PriorityThenIdDesc(Items(r))
    ensures multiset(r) == multiset(Combined(points, tunnels, vs))
  {
    BeforeTotal();
    var all := Combined(points, tunnels, vs);
    var r := Sorting.Sort(all, ProjectBefore);
    assert |r| == |multiset(r)| == |multiset(all)| == |all|;
    forall p ensures p in r <==> p in all {
      assert p in r <==> p in multiset(r);
    }
    ProjectOrderOnItems(r);
    r
  }

  // ---------------------------------------------------------------- search

  /** The text a row is searched by: a tunnel's name, a device's title. */
  function Label(p: Project): string {
    if p.kind == Tunnel then p.item.name else p.item.title
  }

  predicate Matches(q: string, p: Project) {
    Includes(Lower(Label(p)), q) || Includes(IntToString(p.item.id), q)
  }

  /** `filteredProjectsSearch`: a blank query keeps the list, any other keeps the rows whose label or id contains it. */
  function Search(projects: seq<Project>, query: string): (r: seq<Project>)
    ensures Trim(query) == [] ==> r == projects
    ensures Trim(query) != [] ==> forall p :: p in r <==> p in projects && Matches(Lower(Trim(query)), p)
    ensures Sorting.IsSubsequence(r, projects)
  {
    var q := Lower(Trim(query));
    if q == [] then
      Sorting.FilterAll(projects, p => true);
      assert Sorting.Filter(projects, p => true) == projects;
      projects
    else
      var r := Sorting.Filter(projects, p => Matches(q, p));
      forall p ensures p in r <==> p in projects && Matches(q, p) {
        Sorting.FilterMembership(projects, p => Matches(q, p), p);
      }
      r
  }

  /** The decimal string of an id is its own trimmed, lower-cased form. */
  lemma IdStringNormal(n: int)
    ensures Trim(IntToString(n)) == IntToString(n)
    ensures Lower(IntToString(n)) == IntToString(n)
  {
    var s := IntToString(n);
    forall i | 0 <= i < |s| ensures LowerChar(s[i]) == s[i] {
      DigitNormal(s[i]);
    }
    DigitNormal(s[0]);
    DigitNormal(s[|s| - 1]);
    assert TrimStart(s) == s;
    assert TrimEnd(s) == s;
  }

  lemma DigitNormal(c: char)
    requires c == '-' || '0' <= c <= '9'
    ensures !IsWhite(c) && LowerChar(c) == c
  {
  }

  /** Searching for an id finds the rows with that id. */
  lemma SearchFindsId(projects: seq<Project>, p: Project)
    requires p in projects
    ensures p in Search(projects, IntToString(p.item.id))
  {
    var s := IntToString(p.item.id);
    IdStringNormal(p.item.id);
    assert s[0..|s|] == s;
    assert OccursAt(s, s, 0);
    assert Matches(s, p);
  }
}
