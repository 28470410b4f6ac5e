/**
 * The per-status tallies shown next to the status check boxes: every point and
 * every tunnel is counted once under its status ("planowany" when it has none).
 *
 * The tally is a JavaScript object used as a dictionary. Read as written, its
 * lookup `c[st] || 0` also finds the members every object inherits from
 * `Object.prototype`, so a status such as "constructor" or "__proto__" is not
 * counted. `Counts` is the tally with own-key lookup, which is what the code
 * evidently intends; `CountsAsWritten` follows the inherited lookup, and the
 * lemmas at the end show where the two part.
 */
module StatusTally {
  import opened Http
  import Chance
  import ProjectList

  // --------------------------------------------------- tally by own keys

  /** One property of the tally: a status and its count. */
  datatype Entry = Entry(status: string, count: int)

  /** `{ planowany: 0, przetarg: 0, realizacja: 0, nieaktualny: 0 }`, in that key order. */
  const Initial: seq<Entry> :=
    [Entry(Chance.Planned, 0), Entry(Chance.Tender, 0), Entry(Chance.InProgress, 0), Entry(Chance.Outdated, 0)]

  /** The initial tally holds four distinct statuses, all at 0. */
  lemma InitialFacts()
    ensures DistinctKeys(Initial) && Sum(Initial) == 0
    ensures forall st :: CountOf(Initial, st) == 0
  {
    ZeroTally(Initial, Chance.Planned);
    forall st ensures CountOf(Initial, st) == 0 {
      ZeroTally(Initial, st);
    }
  }

  /** A tally whose entries are all 0 sums to 0 and counts 0 for every status. */
  lemma {:induction false} ZeroTally(c: seq<Entry>, st: string)
    requires forall i :: 0 <= i < |c| ==> c[i].count == 0
    ensures Sum(c) == 0 && CountOf(c, st) == 0
  {
    if c != [] {
      ZeroTally(c[1..], st);
    }
  }

  predicate DistinctKeys(c: seq<Entry>) {
    forall i, j :: 0 <= i < j < |c| ==> c[i].status != c[j].status
  }

  function Keys(c: seq<Entry>): (r: set<string>)
    ensures forall st :: st in r <==> exists i :: 0 <= i < |c| && c[i].status == st
  {
    if c == [] then {}
    else
      var r := {c[0].status} + Keys(c[1..]);
      assert forall i :: 1 <= i < |c| ==> c[i] == c[1..][i - 1];
      r
  }

  /** The count stored under a status; a status not present counts 0. */
  function CountOf(c: seq<Entry>, st: string): int {
    if c == [] then 0 else if c[0].status == st then c[0].count else CountOf(c[1..], st)
  }

  function Sum(c: seq<Entry>): int {
    if c == [] then 0 else c[0].count + Sum(c[1..])
  }

  /** `c[st] = (c[st] || 0) + 1` with own-key lookup: the entry is incremented, or appended with 1. */
  function Bump(c: seq<Entry>, st: string): (r: seq<Entry>)
    ensures |c| <= |r| <= |c| + 1
    ensures forall i :: 0 <= i < |c| ==> r[i].status == c[i].status
    ensures |r| == |c| + 1 ==> r[|c|] == Entry(st, 1)
  {
    if c == [] then [Entry(st, 1)]
    else if c[0].status == st then [Entry(st, c[0].count + 1)] + c[1..]
    else [c[0]] + Bump(c[1..], st)
  }

  lemma {:induction false} BumpSum(c: seq<Entry>, st: string)
    ensures Sum(Bump(c, st)) == Sum(c) + 1
  {
    if c != [] && c[0].status != st {
      BumpSum(c[1..], st);
      assert Bump(c, st)[1..] == Bump(c[1..], st);
    }
  }

  lemma {:induction false} BumpCount(c: seq<Entry>, st: string, k: string)
    ensures CountOf(Bump(c, st), k) == CountOf(c, k) + (if k == st then 1 else 0)
  {
    if c != [] && c[0].status != st {
      BumpCount(c[1..], st, k);
      assert Bump(c, st)[1..] == Bump(c[1..], st);
    }
  }

  lemma {:induction false} BumpKeys(c: seq<Entry>, st: string)
    ensures Keys(Bump(c, st)) == Keys(c) + {st}
  {
    if c != [] && c[0].status != st {
      BumpKeys(c[1..], st);
      assert Bump(c, st)[1..] == Bump(c[1..], st);
    }
  }

  lemma BumpDistinct(c: seq<Entry>, st: string)
    requires DistinctKeys(c)
    ensures DistinctKeys(Bump(c, st))
  {
    var r := Bump(c, st);
    forall i, j | 0 <= i < j < |r| ensures r[i].status != r[j].status {
      assert r[i].status == c[i].status;
      if j < |c| {
        assert r[j].status == c[j].status;
      } else {
        BumpMissing(c, st, i);
      }
    }
  }

  /** Bump appends only when no entry has the status. */
  lemma {:induction false} BumpMissing(c: seq<Entry>, st: string, i: nat)
    requires i < |c| && |Bump(c, st)| == |c| + 1
    ensures c[i].status != st
  {
    if i > 0 {
      assert Bump(c, st)[1..] == Bump(c[1..], st);
      BumpMissing(c[1..], st, i - 1);
    }
  }

  /** How many of the items count under st. */
  function Occurrences(items: seq<ProjectList.Item>, st: string): nat {
    if items == [] then 0
    else Occurrences(items[..|items| - 1], st) + (if ProjectList.EffectiveStatus(items[|items| - 1].status) == st then 1 else 0)
  }

  function StatusesOf(items: seq<ProjectList.Item>): set<string> {
    set it | it in items :: ProjectList.EffectiveStatus(it.status)
  }

  /** The tally c0 grows into after counting the items in order. */
  function TallyOf(c0: seq<Entry>, items: seq<ProjectList.Item>): seq<Entry> {
    if items == [] then c0
    else Bump(TallyOf(c0, items[..|items| - 1]), ProjectList.EffectiveStatus(items[|items| - 1].status))
  }

  /** Counting adds one to the total per item. */
  lemma {:induction false} TallySum(c0: seq<Entry>, items: seq<ProjectList.Item>)
    ensures Sum(TallyOf(c0, items)) == Sum(c0) + |items|
  {
    if items != [] {
      var init := items[..|items| - 1];
      TallySum(c0, init);
      BumpSum(TallyOf(c0, init), ProjectList.EffectiveStatus(items[|items| - 1].status));
    }
  }

  /** Counting adds each item once, under its own status. */
  lemma {:induction false} TallyCount(c0: seq<Entry>, items: seq<ProjectList.Item>, k: string)
    ensures CountOf(TallyOf(c0, items), k) == CountOf(c0, k) + Occurrences(items, k)
  {
    if items != [] {
      var init := items[..|items| - 1];
      TallyCount(c0, init, k);
      BumpCount(TallyOf(c0, init), ProjectList.EffectiveStatus(items[|items| - 1].status), k);
    }
  }

  /** Counting keeps the keys distinct. */
  lemma {:induction false} TallyDistinct(c0: seq<Entry>, items: seq<ProjectList.Item>)
    requires DistinctKeys(c0)
    ensures DistinctKeys(TallyOf(c0, items))
  {
    if items != [] {
      var init := items[..|items| - 1];
      TallyDistinct(c0, init);
      BumpDistinct(TallyOf(c0, init), ProjectList.EffectiveStatus(items[|items| - 1].status));
    }
  }

  /** Counting adds a key for each status met and forgets none. */
  lemma {:induction false} TallyKeys(c0: seq<Entry>, items: seq<ProjectList.Item>)
    ensures Keys(TallyOf(c0, items)) == Keys(c0) + StatusesOf(items)
  {
    if items != [] {
      var init := items[..|items| - 1];
      var last := items[|items| - 1];
      assert items == init + [last];
      TallyKeys(c0, init);
      BumpKeys(TallyOf(c0, init), ProjectList.EffectiveStatus(last.status));
      StatusesOfSnoc(init, last);
    }
  }

  /** The statuses of a list grown by one item gain that item's status. */
  lemma StatusesOfSnoc(init: seq<ProjectList.Item>, last: ProjectList.Item)
    ensures StatusesOf(init + [last]) == StatusesOf(init) + {ProjectList.EffectiveStatus(last.status)}
  {
    forall it | it in init + [last] ensures it in init || it == last { }
  }

  /** With distinct keys, an entry's count is the count of its status. */
  lemma CountOfEntry(c: seq<Entry>, i: nat)
    requires DistinctKeys(c) && i < |c|
    ensures CountOf(c, c[i].status) == c[i].count
  {
    if i > 0 {
      assert DistinctKeys(c[1..]);
      assert c[1..][i - 1] == c[i];
      CountOfEntry(c[1..], i - 1);
    }
  }

  /**
   * The `counts` memo: the points, then the tunnels, each counted under its status. Every entry
   * holds the number of items with its status, and the counts add up to the number of items.
   */
  method Counts(points: seq<ProjectList.Item>, tunnels: seq<ProjectList.Item>) returns (c: seq<Entry>)
    ensures c == TallyOf(Initial, points + tunnels)
    ensures DistinctKeys(c) && |c| >= |Initial|
    ensures forall i :: 0 <= i < |Initial| ==> c[i].status == Initial[i].status
    ensures forall i :: 0 <= i < |c| ==> c[i].count == Occurrences(points, c[i].status) + Occurrences(tunnels, c[i].status)
    ensures forall st :: CountOf(c, st) == Occurrences(points, st) + Occurrences(tunnels, st)
    ensures Keys(c) == Keys(Initial) + StatusesOf(points) + StatusesOf(tunnels)
    ensures Sum(c) == |points| + |tunnels|
  {
    c := CountInto(Initial, points);
    c := CountInto(c, tunnels);
    TallyOfAppend(Initial, points, tunnels);
    TallyFacts(points + tunnels);
    StatusesAppend(points, tunnels);
    OccurrencesSplit(points, tunnels);
  }

  /** One `for` loop of `counts`: each item is counted in turn into c0. */
  method CountInto(c0: seq<Entry>, items: seq<ProjectList.Item>) returns (c: seq<Entry>)
    ensures c == TallyOf(c0, items)
  {
    c := c0;
    var i := 0;
    while i < |items|
      invariant 0 <= i <= |items|
      invariant c == TallyOf(c0, items[..i])
    {
      assert items[..i + 1][..i] == items[..i];
      c := Bump(c, ProjectList.EffectiveStatus(items[i].status));
      i := i + 1;
    }
    assert items[..i] == items;
  }

  lemma OccurrencesSplit(a: seq<ProjectList.Item>, b: seq<ProjectList.Item>)
    ensures forall st :: Occurrences(a + b, st) == Occurrences(a, st) + Occurrences(b, st)
  {
    forall st ensures Occurrences(a + b, st) == Occurrences(a, st) + Occurrences(b, st) {
      OccurrencesAppend(a, b, st);
    }
  }

  /** The facts `Counts` promises, about the tally of a list of items. */
  lemma TallyFacts(items: seq<ProjectList.Item>)
    ensures DistinctKeys(TallyOf(Initial, items))
    ensures |TallyOf(Initial, items)| >= |Initial|
    ensures forall i :: 0 <= i < |Initial| ==> TallyOf(Initial, items)[i].status == Initial[i].status
    ensures forall i :: 0 <= i < |TallyOf(Initial, items)| ==>
      TallyOf(Initial, items)[i].count == Occurrences(items, TallyOf(Initial, items)[i].status)
    ensures forall st :: CountOf(TallyOf(Initial, items), st) == Occurrences(items, st)
    ensures Keys(TallyOf(Initial, items)) == Keys(Initial) + StatusesOf(items)
    ensures Sum(TallyOf(Initial, items)) == |items|
  {
    var c := TallyOf(Initial, items);
    InitialFacts();
    TallySum(Initial, items);
    TallyDistinct(Initial, items);
    TallyKeys(Initial, items);
    TallyKeepsPrefix(Initial, items);
    forall st ensures CountOf(c, st) == Occurrences(items, st) {
      TallyCount(Initial, items, st);
    }
    forall k | 0 <= k < |c| ensures c[k].count == Occurrences(items, c[k].status) {
      CountOfEntry(c, k);
    }
  }

  lemma {:induction false} OccurrencesAppend(a: seq<ProjectList.Item>, b: seq<ProjectList.Item>, st: string)
    ensures Occurrences(a + b, st) == Occurrences(a, st) + Occurrences(b, st)
  {
    if b == [] {
      assert a + b == a;
    } else {
      OccurrencesAppend(a, b[..|b| - 1], st);
      assert (a + b)[..|a + b| - 1] == a + b[..|b| - 1];
      assert (a + b)[|a + b| - 1] == b[|b| - 1];
    }
  }

  lemma StatusesAppend(a: seq<ProjectList.Item>, b: seq<ProjectList.Item>)
    ensures StatusesOf(a + b) == StatusesOf(a) + StatusesOf(b)
  {
    forall it | it in a + b ensures it in a || it in b { }
  }

  /** Counting two lists one after the other is counting their concatenation. */
  lemma {:induction false} TallyOfAppend(c0: seq<Entry>, a: seq<ProjectList.Item>, b: seq<ProjectList.Item>)
    ensures TallyOf(TallyOf(c0, a), b) == TallyOf(c0, a + b)
  {
    if b == [] {
      assert a + b == a;
    } else {
      TallyOfAppend(c0, a, b[..|b| - 1]);
      assert (a + b)[..|a + b| - 1] == a + b[..|b| - 1];
      assert (a + b)[|a + b| - 1] == b[|b| - 1];
    }
  }

  /** Counting never reorders or drops the keys already present. */
  lemma {:induction false} TallyKeepsPrefix(c0: seq<Entry>, items: seq<ProjectList.Item>)
    ensures |TallyOf(c0, items)| >= |c0|
    ensures forall i :: 0 <= i < |c0| ==> TallyOf(c0, items)[i].status == c0[i].status
  {
    if items != [] {
      TallyKeepsPrefix(c0, items[..|items| - 1]);
    }
  }

  // -------------------------------------------- tally as written in JavaScript

  /** The JavaScript values the tally's properties can take. */
  datatype JsValue = Undefined | NumberV(n: int) | StringV(s: string) | FunctionV(name: string) | ObjectV

  /** An own property of the tally object. */
  datatype Prop = Prop(key: string, value: JsValue)

  /** The methods every plain object inherits from `Object.prototype`. */
  const PrototypeMethods: set<string> := {
    "constructor", "hasOwnProperty", "isPrototypeOf", "propertyIsEnumerable", "toLocaleString",
    "toString", "valueOf", "__defineGetter__", "__defineSetter__", "__lookupGetter__", "__lookupSetter__"}

  /** The accessor that reads and sets an object's prototype. */
  const ProtoKey: string := "__proto__"

  const InitialProps: seq<Prop> :=
    [Prop(Chance.Planned, NumberV(0)), Prop(Chance.Tender, NumberV(0)),
     Prop(Chance.InProgress, NumberV(0)), Prop(Chance.Outdated, NumberV(0))]

  function OwnGet(c: seq<Prop>, key: string): Option<JsValue> {
    if c == [] then None else if c[0].key == key then Some(c[0].value) else OwnGet(c[1..], key)
  }

  /** `c[key]`: an own property, else an inherited member, else undefined. */
  function Get(c: seq<Prop>, key: string): JsValue {
    var own := OwnGet(c, key);
    if own.Some? then own.value
    else if key == ProtoKey then ObjectV
    else if key in PrototypeMethods then FunctionV(if key == "constructor" then "Object" else key)
    else Undefined
  }

  /** `(v || 0) + 1`: falsy values count as 0; any other non-number turns the sum into string concatenation. */
  function PlusOne(v: JsValue): JsValue {
    match v
    case Undefined => NumberV(1)
    case NumberV(n) => NumberV(n + 1)
    case StringV(s) => if s == "" then NumberV(1) else StringV(s + "1")
    case FunctionV(name) => StringV("function " + name + "() { [native code] }1")
    case ObjectV => StringV("[object Object]1")
  }

  /** Assigning a property keeps every key in place and appends a key not yet present. */
  function SetOwn(c: seq<Prop>, key: string, v: JsValue): (r: seq<Prop>)
    ensures |c| <= |r| <= |c| + 1
    ensures forall i :: 0 <= i < |c| ==> r[i].key == c[i].key
    ensures |r| == |c| + 1 ==> r[|c|] == Prop(key, v)
  {
    if c == [] then [Prop(key, v)]
    else if c[0].key == key then [Prop(key, v)] + c[1..]
    else [c[0]] + SetOwn(c[1..], key, v)
  }

  /** `c[key] = v`: assigning a non-object to `__proto__` is ignored. */
  function Set(c: seq<Prop>, key: string, v: JsValue): seq<Prop> {
    if key == ProtoKey then c else SetOwn(c, key, v)
  }

  function BumpAsWritten(c: seq<Prop>, st: string): seq<Prop> {
    Set(c, st, PlusOne(Get(c, st)))
  }

  function TallyAsWrittenOf(c0: seq<Prop>, items: seq<ProjectList.Item>): (r: seq<Prop>)
    ensures |c0| <= |r| <= |c0| + |items|
    ensures forall i :: 0 <= i < |c0| ==> r[i].key == c0[i].key
  {
    if items == [] then c0
    else BumpAsWritten(TallyAsWrittenOf(c0, items[..|items| - 1]), ProjectList.EffectiveStatus(items[|items| - 1].status))
  }

  /**
   * The `counts` memo as the code reads: the points, then the tunnels, through the inherited lookup.
   * The four preset statuses stay the first keys, and each item adds at most one key.
   */
  function CountsAsWritten(points: seq<ProjectList.Item>, tunnels: seq<ProjectList.Item>): (r: seq<Prop>)
    ensures |InitialProps| <= |r| <= |InitialProps| + |points| + |tunnels|
    ensures forall i :: 0 <= i < |InitialProps| ==> r[i].key == InitialProps[i].key
  {
    TallyAsWrittenOf(TallyAsWrittenOf(InitialProps, points), tunnels)
  }

  /** The sum of the numeric properties. */
  function NumericSum(c: seq<Prop>): int {
    if c == [] then 0 else (if c[0].value.NumberV? then c[0].value.n else 0) + NumericSum(c[1..])
  }

  /** The own-key tally as an object's own properties. */
  function Lift(c: seq<Entry>): (r: seq<Prop>)
    ensures |r| == |c|
  {
    if c == [] then [] else [Prop(c[0].status, NumberV(c[0].count))] + Lift(c[1..])
  }

  predicate Inherited(st: string) {
    st == ProtoKey || st in PrototypeMethods
  }

  /** One step agrees with the own-key tally when the status is not an inherited name. */
  lemma {:induction false} BumpAgrees(c: seq<Entry>, st: string)
    requires !Inherited(st)
    ensures BumpAsWritten(Lift(c), st) == Lift(Bump(c, st))
  {
    if c != [] {
      var p := Prop(c[0].status, NumberV(c[0].count));
      var t := Lift(c[1..]);
      assert Lift(c) == [p] + t;
      assert ([p] + t)[1..] == t;
      if c[0].status != st {
        BumpAgrees(c[1..], st);
        var v := PlusOne(Get(t, st));
        assert Get(Lift(c), st) == Get(t, st);
        assert SetOwn(Lift(c), st, v) == [p] + SetOwn(t, st, v);
        var b := Bump(c[1..], st);
        assert Bump(c, st) == [c[0]] + b;
        assert ([c[0]] + b)[1..] == b;
      } else {
        var e := Entry(st, c[0].count + 1);
        assert Bump(c, st) == [e] + c[1..];
        assert ([e] + c[1..])[1..] == c[1..];
        assert Get(Lift(c), st) == NumberV(c[0].count);
      }
    }
  }

  /** Away from the inherited names the code counts exactly as the own-key tally. */
  lemma {:induction false} AsWrittenAgreesOffPrototype(c0: seq<Entry>, items: seq<ProjectList.Item>)
    requires forall i :: 0 <= i < |items| ==> !Inherited(ProjectList.EffectiveStatus(items[i].status))
    ensures TallyAsWrittenOf(Lift(c0), items) == Lift(TallyOf(c0, items))
  {
    if items != [] {
      AsWrittenAgreesOffPrototype(c0, items[..|items| - 1]);
      BumpAgrees(TallyOf(c0, items[..|items| - 1]), ProjectList.EffectiveStatus(items[|items| - 1].status));
    }
  }

  /** Looking up a key no own property has finds nothing. */
  lemma {:induction false} OwnGetMissing(c: seq<Prop>, key: string)
    requires forall i :: 0 <= i < |c| ==> c[i].key != key
    ensures OwnGet(c, key) == None
    ensures forall v :: SetOwn(c, key, v) == c + [Prop(key, v)]
  {
    if c != [] {
      OwnGetMissing(c[1..], key);
      forall v ensures SetOwn(c, key, v) == c + [Prop(key, v)] {
        assert c == [c[0]] + c[1..];
      }
    } else {
      forall v ensures SetOwn(c, key, v) == c + [Prop(key, v)] {
        assert c + [Prop(key, v)] == [Prop(key, v)];
      }
    }
  }

  /** A property added last is found under its key when no earlier one has it. */
  lemma {:induction false} OwnGetLast(c: seq<Prop>, p: Prop)
    requires forall i :: 0 <= i < |c| ==> c[i].key != p.key
    ensures OwnGet(c + [p], p.key) == Some(p.value)
  {
    if c != [] {
      assert (c + [p])[1..] == c[1..] + [p];
      OwnGetLast(c[1..], p);
    }
  }

  lemma {:induction false} NumericSumLast(c: seq<Prop>, p: Prop)
    ensures NumericSum(c + [p]) == NumericSum(c) + (if p.value.NumberV? then p.value.n else 0)
  {
    if c == [] {
      assert c + [p] == [p];
      assert [p][1..] == [];
    } else {
      assert (c + [p])[1..] == c[1..] + [p];
      NumericSumLast(c[1..], p);
    }
  }

  lemma {:induction false} ZeroProps(c: seq<Prop>)
    requires forall i :: 0 <= i < |c| ==> c[i].value == NumberV(0)
    ensures NumericSum(c) == 0
  {
    if c != [] {
      ZeroProps(c[1..]);
    }
  }

  /** Counting one item through the code is one bump of the initial object. */
  lemma OneItem(it: ProjectList.Item)
    ensures CountsAsWritten([it], []) == BumpAsWritten(InitialProps, ProjectList.EffectiveStatus(it.status))
  {
    var once := TallyAsWrittenOf(InitialProps, [it]);
    assert [it][..0] == [];
    assert once == BumpAsWritten(TallyAsWrittenOf(InitialProps, []), ProjectList.EffectiveStatus(it.status));
    assert CountsAsWritten([it], []) == TallyAsWrittenOf(once, []) == once;
  }

  /** A single item with status "constructor": the code stores a string under it and counts nothing. */
  lemma ConstructorStatusNotCounted()
    ensures var c := CountsAsWritten([ProjectList.Item(1, "", "", "constructor", false)], []);
      Get(c, "constructor") == StringV("function Object() { [native code] }1") && NumericSum(c) == 0
  {
    var st := "constructor";
    OneItem(ProjectList.Item(1, "", "", st, false));
    ConstructorNotOwn();
    OwnGetMissing(InitialProps, st);
    assert Get(InitialProps, st) == FunctionV("Object");
    var v := PlusOne(FunctionV("Object"));
    ObjectPlusOne();
    var c := InitialProps + [Prop(st, v)];
    assert CountsAsWritten([ProjectList.Item(1, "", "", st, false)], []) == c;
    OwnGetLast(InitialProps, Prop(st, v));
    ZeroProps(InitialProps);
    NumericSumLast(InitialProps, Prop(st, v));
  }

  /** `Object + 1` is the function's source text followed by "1". */
  lemma ObjectPlusOne()
    ensures PlusOne(FunctionV("Object")) == StringV("function Object() { [native code] }1")
  {
    assert "function " + "Object" == "function Object";
    assert "function Object" + "() { [native code] }1" == "function Object() { [native code] }1";
  }

  /** No initial status is called "constructor". */
  lemma ConstructorNotOwn()
    ensures forall i :: 0 <= i < |InitialProps| ==> InitialProps[i].key != "constructor"
  {
    forall i | 0 <= i < |InitialProps| ensures InitialProps[i].key != "constructor" {
      assert |InitialProps[i].key| > 0 && InitialProps[i].key[0] != 'c';
    }
  }

  /** A single item with status "__proto__": the increment is lost and nothing is counted. */
  lemma ProtoStatusNotCounted()
    ensures CountsAsWritten([ProjectList.Item(1, "", "", ProtoKey, false)], []) == InitialProps
    ensures NumericSum(InitialProps) == 0
  {
    OneItem(ProjectList.Item(1, "", "", ProtoKey, false));
    ZeroProps(InitialProps);
  }

  /** The own-key tally counts either item once. */
  lemma CountsSeeInheritedNames(points: seq<ProjectList.Item>)
    requires points == [ProjectList.Item(1, "", "", "constructor", false)] ||
             points == [ProjectList.Item(1, "", "", ProtoKey, false)]
    ensures Sum(TallyOf(Initial, points)) == 1
    ensures CountOf(TallyOf(Initial, points), points[0].status) == 1
  {
    InitialFacts();
    TallySum(Initial, points);
    TallyCount(Initial, points, points[0].status);
    assert points[..0] == [];
  }
}
