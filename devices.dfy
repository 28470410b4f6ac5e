/**
 * Device records ("points", stored in the `assets` table) as far as the
 * journal engine needs them, and the pure request validation of the device
 * routes: where a device is kept (a warehouse or map coordinates), the name
 * guard of the device update and the type guard of the priority flag.
 */
module Devices {
  import opened Js
  import opened Http

  /** The known warehouses, the service point included. */
  const Warehouses: set<string> := {"GEO_BB", "GEO_OM", "GEO_LD", "SERWIS"}
  const DefaultWarehouse: string := "GEO_BB"

  /** A JSON request value; a missing field reads as null. */
  datatype Json = JNull | JBool(b: bool) | JNum(n: real) | JStr(s: string) | JComposite

  /** A text field of a request: null or missing, or the string `String(v)` gives for it. */
  datatype TextArg = Absent | Text(s: string)

  /** The fields of a request body that decide where a device is kept. */
  datatype StorageBody = StorageBody(inStorage: Json, warehouse: TextArg, lat: Coerced<real>, lng: Coerced<real>)

  /** The storage columns written for a device. */
  datatype StorageFields = StorageFields(inStorage: bool, warehouse: Option<string>, lat: Option<real>, lng: Option<real>)

  /** One of the two shapes the storage columns may take. */
  predicate Consistent(f: StorageFields) {
    if f.inStorage then f.warehouse.Some? && f.warehouse.value in Warehouses && f.lat.None? && f.lng.None?
    else f.warehouse.None? && f.lat.Some? && f.lng.Some?
  }

  /** `parseInStorage`: only true, "true", 1 and "1" mean "in a warehouse". */
  predicate ParseInStorage(v: Json): (b: bool)
    ensures v.JBool? ==> (b <==> v.b)
    ensures v.JNum? ==> (b <==> v.n == 1.0)
    ensures v.JStr? ==> (b <==> v.s == "true" || v.s == "1")
    ensures v.JNull? || v.JComposite? ==> !b
  {
    v == JBool(true) || v == JStr("true") || v == JNum(1.0) || v == JStr("1")
  }

  /** `normalizeWarehouse`: null gives the empty name, anything else is trimmed and upper-cased. */
  function NormalizeWarehouse(v: TextArg): string {
    match v
    case Absent => ""
    case Text(s) => Upper(Trim(s))
  }

  /**
   * A normalised warehouse name carries no white at either end and no lower-case ASCII letter;
   * it is empty exactly when the name is missing or blank.
   */
  lemma NormalizedWarehouse(v: TextArg)
    ensures v.Absent? ==> NormalizeWarehouse(v) == ""
    ensures v.Text? ==> |NormalizeWarehouse(v)| <= |v.s| && (NormalizeWarehouse(v) == "" <==> AllWhite(v.s))
    ensures NormalizeWarehouse(v) == "" ||
      (!IsWhite(NormalizeWarehouse(v)[0]) && !IsWhite(NormalizeWarehouse(v)[|NormalizeWarehouse(v)| - 1]))
    ensures forall i :: 0 <= i < |NormalizeWarehouse(v)| ==> !('a' <= NormalizeWarehouse(v)[i] <= 'z')
  {
    if v.Text? {
      WarehouseText(v.s, NormalizeWarehouse(v));
    }
  }

  /** What trimming and upper-casing make of a warehouse name. */
  lemma WarehouseText(s: string, r: string)
    requires r == Upper(Trim(s))
    ensures |r| <= |s| && (r == "" <==> AllWhite(s))
    ensures r == "" || (!IsWhite(r[0]) && !IsWhite(r[|r| - 1]))
    ensures forall i :: 0 <= i < |r| ==> !('a' <= r[i] <= 'z')
  {
    TrimBlank(s);
    TrimIsInfix(s);
    UpperEnds(Trim(s));
    UpperNoLower(Trim(s));
  }

  /** No ASCII lower-case letter survives upper-casing. */
  lemma UpperNoLower(t: string)
    ensures forall i :: 0 <= i < |Upper(t)| ==> !('a' <= Upper(t)[i] <= 'z')
  {
    forall i | 0 <= i < |t| ensures !('a' <= Upper(t)[i] <= 'z') {
      UpperCharNotLower(t[i]);
    }
  }

  lemma UpperCharNotLower(c: char)
    ensures !('a' <= UpperChar(c) <= 'z')
  {
  }

  /** Upper-casing keeps a string free of white at either end. */
  lemma UpperEnds(t: string)
    requires t == "" || (!IsWhite(t[0]) && !IsWhite(t[|t| - 1]))
    ensures Upper(t) == "" || (!IsWhite(Upper(t)[0]) && !IsWhite(Upper(t)[|t| - 1]))
  {
    if t != "" {
      UpperWhite(t[0]);
      UpperWhite(t[|t| - 1]);
    }
  }

  /** Upper-casing neither makes nor removes white space. */
  lemma UpperWhite(c: char)
    ensures IsWhite(UpperChar(c)) <==> IsWhite(c)
  {
  }

  /** The warehouse a device in storage is put in: the normalised name, or the default one. */
  function ChosenWarehouse(v: TextArg): string {
    var w := NormalizeWarehouse(v);
    if w == "" then DefaultWarehouse else w
  }

  /** `normalizeStorage`: maps a request body to one of the two consistent shapes, or a 400. */
  function NormalizeStorage(body: StorageBody): (r: Result<StorageFields>)
    ensures r.Ok? ==> Consistent(r.value)
    ensures r.Ok? ==> (r.value.inStorage <==> body.inStorage in {JBool(true), JStr("true"), JNum(1.0), JStr("1")})
    ensures ParseInStorage(body.inStorage) ==>
      (r.Ok? <==> ChosenWarehouse(body.warehouse) in Warehouses) &&
      (r.Ok? ==> r.value.warehouse == Some(ChosenWarehouse(body.warehouse))) &&
      (r.Err? ==> r.failure == BadRequest(BadWarehouse))
    ensures !ParseInStorage(body.inStorage) ==>
      (r.Ok? <==> body.lat.Finite? && body.lng.Finite?) &&
      (r.Ok? ==> r.value.lat == Some(body.lat.value) && r.value.lng == Some(body.lng.value)) &&
      (r.Err? ==> r.failure == BadRequest(BadCoordinates))
  {
    if ParseInStorage(body.inStorage) then
      var wh := ChosenWarehouse(body.warehouse);
      if wh !in Warehouses then Err(BadRequest(BadWarehouse))
      else Ok(StorageFields(true, Some(wh), None, None))
    else if !body.lat.Finite? || !body.lng.Finite? then Err(BadRequest(BadCoordinates))
    else Ok(StorageFields(false, None, Some(body.lat.value), Some(body.lng.value)))
  }

  /** A request body that asks for exactly the given storage columns. */
  function AsBody(f: StorageFields): StorageBody {
    StorageBody(
      JBool(f.inStorage),
      if f.warehouse.Some? then Text(f.warehouse.value) else Absent,
      if f.lat.Some? then Finite(f.lat.value) else NotFinite,
      if f.lng.Some? then Finite(f.lng.value) else NotFinite)
  }

  /** The known warehouse names are already in normal form. */
  lemma WarehouseNamesNormal(w: string)
    requires w in Warehouses
    ensures NormalizeWarehouse(Text(w)) == w
  {
    assert forall i :: 0 <= i < |w| ==> ('A' <= w[i] <= 'Z' || w[i] == '_');
    UpperKeeps(w);
    TrimKeeps(w);
  }

  /** Capitals and underscores are left alone by upper-casing. */
  lemma UpperKeeps(s: string)
    requires forall i :: 0 <= i < |s| ==> ('A' <= s[i] <= 'Z' || s[i] == '_')
    ensures Upper(s) == s
  {
  }

  /** Sending stored columns back gives the same columns: normalisation is a fixed point on its results. */
  lemma NormalizeStorageRoundTrip(f: StorageFields)
    requires Consistent(f)
    ensures NormalizeStorage(AsBody(f)) == Ok(f)
  {
    if f.inStorage {
      WarehouseNamesNormal(f.warehouse.value);
    }
  }

  /** Warehouse names are matched after trimming and upper-casing. */
  lemma WarehouseNameLenient()
    ensures NormalizeStorage(StorageBody(JStr("1"), Text(" serwis "), NotFinite, NotFinite))
      == Ok(StorageFields(true, Some("SERWIS"), None, None))
  {
    SerwisNormalised();
  }

  lemma SerwisNormalised()
    ensures NormalizeWarehouse(Text(" serwis ")) == "SERWIS"
  {
    var padded := " serwis ";
    var word := "serwis";
    assert padded[1..] == word + " ";
    assert !IsWhite((word + " ")[0]);
    assert TrimStart(padded) == word + " ";
    assert (word + " ")[..|word|] == word;
    assert TrimEnd(word + " ") == word;
    var u := Upper(word);
    assert u[0] == 'S' && u[1] == 'E' && u[2] == 'R' && u[3] == 'W' && u[4] == 'I' && u[5] == 'S';
    assert u == "SERWIS";
  }

  /** A blank warehouse name means the default warehouse. */
  lemma BlankWarehouseIsDefault()
    ensures NormalizeStorage(StorageBody(JBool(true), Text("  "), NotFinite, NotFinite))
      == Ok(StorageFields(true, Some(DefaultWarehouse), None, None))
  {
    BlankNormalised();
  }

  lemma BlankNormalised()
    ensures NormalizeWarehouse(Text("  ")) == ""
  {
    assert "  "[1..] == " " && " "[1..] == "";
    assert TrimStart("  ") == "";
  }

  /** An unknown warehouse is a 400 even in upper case. */
  lemma UnknownWarehouseRejected()
    ensures NormalizeStorage(StorageBody(JBool(true), Text("geo_xx"), NotFinite, NotFinite))
      == Err(BadRequest(BadWarehouse))
  {
    UnknownNormalised();
  }

  lemma UnknownNormalised()
    ensures NormalizeWarehouse(Text("geo_xx")) == "GEO_XX"
  {
    var word := "geo_xx";
    TrimKeeps(word);
    var u := Upper(word);
    assert u[0] == 'G' && u[1] == 'E' && u[2] == 'O' && u[3] == '_' && u[4] == 'X' && u[5] == 'X';
    assert u == "GEO_XX";
  }

  // ------------------------------------------------------------ device rows

  /** A device row, with its storage columns. */
  datatype Asset = Asset(name: string, status: string, notes: string, priority: bool, storage: StorageFields)

  /** The text fields of a create or update request; a missing or null field is the empty string. */
  datatype PointBody = PointBody(title: string, name: string, status: string, note: string, notes: string, storage: StorageBody)

  /** `a || b` on strings: the empty string is falsy. */
  function OrElse(a: string, b: string): string {
    if a != "" then a else b
  }

  const NewDeviceName: string := "Nowe urz\U{0105}dzenie"
  const DefaultStatus: string := "tachimetr"

  /** The device row a create request asks for: name defaults to "Nowe urządzenie", status to "tachimetr". */
  function NewAsset(body: PointBody): (r: Result<Asset>)
    ensures r.Ok? <==> NormalizeStorage(body.storage).Ok?
    ensures r.Ok? ==> r.value.storage == NormalizeStorage(body.storage).value && !r.value.priority
    ensures r.Ok? ==> r.value.name == Trim(OrElse(OrElse(body.title, body.name), NewDeviceName))
    ensures r.Err? ==> r.failure == NormalizeStorage(body.storage).failure
  {
    var st := NormalizeStorage(body.storage);
    if st.Err? then Err(st.failure)
    else Ok(Asset(
      Trim(OrElse(OrElse(body.title, body.name), NewDeviceName)),
      Trim(OrElse(body.status, DefaultStatus)),
      OrElse(body.note, body.notes),
      false,
      st.value))
  }

  /** A new device row takes the trimmed status ("tachimetr" when none is given) and the untrimmed `note`, else `notes`. */
  lemma NewAssetFields(body: PointBody)
    ensures NewAsset(body).Ok? ==> NewAsset(body).value.status == Trim(OrElse(body.status, DefaultStatus))
    ensures NewAsset(body).Ok? ==> NewAsset(body).value.notes == OrElse(body.note, body.notes)
  {
  }

  /** The 400 an update request meets before the row is looked up: the name guard, then storage. */
  function UpdateRejection(body: PointBody): (r: Option<Failure>)
    ensures Trim(OrElse(body.title, body.name)) == [] ==> r == Some(BadRequest(TitleRequired))
    ensures Trim(OrElse(body.title, body.name)) != [] ==>
      (r.None? <==> NormalizeStorage(body.storage).Ok?) &&
      (r.Some? ==> r.value == NormalizeStorage(body.storage).failure)
  {
    if Trim(OrElse(body.title, body.name)) == [] then Some(BadRequest(TitleRequired))
    else
      var st := NormalizeStorage(body.storage);
      if st.Err? then Some(st.failure) else None
  }

  /** The row an update request writes over `current`; the priority flag is kept. */
  function UpdatedAsset(current: Asset, body: PointBody): (r: Asset)
    requires UpdateRejection(body).None?
    ensures r.name == Trim(OrElse(body.title, body.name)) && r.name != []
    ensures r.status == Trim(OrElse(body.status, DefaultStatus))
    ensures r.notes == Trim(OrElse(body.note, body.notes))
    ensures r.priority == current.priority
    ensures r.storage == NormalizeStorage(body.storage).value && Consistent(r.storage)
  {
    Asset(Trim(OrElse(body.title, body.name)), Trim(OrElse(body.status, DefaultStatus)),
          Trim(OrElse(body.note, body.notes)), current.priority, NormalizeStorage(body.storage).value)
  }

  /** A title of blanks does not fall back to the name: it is rejected although a name is given. */
  lemma BlankTitleHidesName(storage: StorageBody)
    ensures UpdateRejection(PointBody("  ", "Tachimetr 1", "", "", "", storage)) == Some(BadRequest(TitleRequired))
  {
    assert Trim("  ") == "";
  }

  /** The priority route accepts only a JSON boolean. */
  function PriorityFlag(v: Json): (r: Result<bool>)
    ensures r.Ok? <==> v.JBool?
    ensures r.Ok? ==> r.value == v.b
    ensures r.Err? ==> r.failure == BadRequest(PriorityNotBoolean)
  {
    if v.JBool? then Ok(v.b) else Err(BadRequest(PriorityNotBoolean))
  }
}
