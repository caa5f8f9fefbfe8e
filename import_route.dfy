/**
 * `POST /api/admin/import` (`src/app/api/admin/import/route.ts`): a JSON array of printers
 * is upserted into the `printers` table by ip inside one transaction. Items without a
 * truthy ip are skipped, absent text fields default to '', a falsy display order to 0.
 * An existing ip keeps its row id; a new ip gets the next id. Either way the statement
 * draws an AUTOINCREMENT id. Any error rolls the whole batch back and answers 500.
 */
module ImportRoute {
  import opened Js
  import opened Db

  /** A parsed JSON value; numbers are the integers an export writes. */
  datatype Json = JNull | JBool(b: bool) | JNum(n: int) | JStr(s: string) | JArray(elems: seq<Json>) | JObject(fields: map<string, Json>)

  /** `item.key`: undefined (None) unless `item` is an object holding `key`. */
  function Get(item: Json, key: string): Option<Json> {
    if item.JObject? && key in item.fields then Some(item.fields[key]) else None
  }

  /** JavaScript truthiness of a property value; undefined is falsy. */
  predicate Truthy(v: Option<Json>) {
    match v
    case None => false
    case Some(JNull) => false
    case Some(JBool(b)) => b
    case Some(JNum(n)) => n != 0
    case Some(JStr(s)) => s != ""
    case Some(_) => true
  }

  /**
   * The SQLite value better-sqlite3 binds for a JavaScript value; booleans, arrays and
   * objects cannot be bound and make `run` throw.
   */
  function Bind(v: Json): Option<SqlValue> {
    match v
    case JNull => Some(Null)
    case JNum(n) => Some(Integer(n))
    case JStr(s) => Some(Text(s))
    case _ => None
  }

  /** `item.key || fallback`, bound. */
  function BindOr(item: Json, key: string, fallback: SqlValue): Option<SqlValue> {
    var v := Get(item, key);
    if Truthy(v) then Bind(v.value) else Some(fallback)
  }

  /**
   * Parameter `v` is what `item.key || fallback` binds: the fallback when the property is
   * absent or falsy, otherwise the property's own value.
   */
  predicate FieldFrom(item: Json, key: string, fallback: SqlValue, v: SqlValue) {
    && (!Truthy(Get(item, key)) ==> v == fallback)
    && (Truthy(Get(item, key)) ==> Bind(Get(item, key).value) == Some(v))
  }

  /** The properties an upserting item reads, `ip` first. */
  const UpsertKeys: seq<string> := ["ip", "name", "brand", "model", "location", "display_order", "consumable_model"]

  /** Some property the item reads is truthy but cannot be bound. */
  predicate Unbindable(item: Json) {
    exists i :: 0 <= i < |UpsertKeys| && Truthy(Get(item, UpsertKeys[i])) && Bind(Get(item, UpsertKeys[i]).value).None?
  }

  /** The named parameters of `upsertByIp.run`. */
  datatype Fields = Fields(name: SqlValue, brand: SqlValue, model: SqlValue, ip: SqlValue,
                           location: SqlValue, displayOrder: SqlValue, consumableModel: SqlValue)

  /** What one loop iteration does with an item. */
  datatype ItemAction = Skip | Upsert(fields: Fields) | Throw

  /**
   * One iteration: reading `.ip` of null throws; a falsy ip is skipped; otherwise the
   * parameters are built with their defaults, and a value that cannot be bound throws.
   */
  function ActionOf(item: Json): (a: ItemAction)
    ensures a.Skip? <==> !item.JNull? && !Truthy(Get(item, "ip"))
    ensures a.Throw? <==> item.JNull? || (Truthy(Get(item, "ip")) && Unbindable(item))
    ensures a.Upsert? ==> a.fields.ip != Null && item.JObject? && "ip" in item.fields && Bind(item.fields["ip"]) == Some(a.fields.ip)
    ensures a.Upsert? ==>
      && FieldFrom(item, "name", Text(""), a.fields.name)
      && FieldFrom(item, "brand", Text(""), a.fields.brand)
      && FieldFrom(item, "model", Text(""), a.fields.model)
      && FieldFrom(item, "location", Text(""), a.fields.location)
      && FieldFrom(item, "display_order", Integer(0), a.fields.displayOrder)
      && FieldFrom(item, "consumable_model", Text(""), a.fields.consumableModel)
  {
    if item.JNull? then Throw
    else if !Truthy(Get(item, "ip")) then Skip
    else
      var ip := Bind(Get(item, "ip").value);
      var name := BindOr(item, "name", Text(""));
      var brand := BindOr(item, "brand", Text(""));
      var model := BindOr(item, "model", Text(""));
      var location := BindOr(item, "location", Text(""));
      var order := BindOr(item, "display_order", Integer(0));
      var consumable := BindOr(item, "consumable_model", Text(""));
      var k := UpsertKeys;
      assert Unbindable(item) <==> ip.None? || name.None? || brand.None? || model.None? || location.None? || order.None? || consumable.None? by {
        if ip.None? { assert Get(item, k[0]) == Get(item, "ip"); }
        if name.None? { assert Get(item, k[1]) == Get(item, "name"); }
        if brand.None? { assert Get(item, k[2]) == Get(item, "brand"); }
        if model.None? { assert Get(item, k[3]) == Get(item, "model"); }
        if location.None? { assert Get(item, k[4]) == Get(item, "location"); }
        if order.None? { assert Get(item, k[5]) == Get(item, "display_order"); }
        if consumable.None? { assert Get(item, k[6]) == Get(item, "consumable_model"); }
      }
      if ip.Some? && name.Some? && brand.Some? && model.Some? && location.Some? && order.Some? && consumable.Some? then
        Upsert(Fields(name.value, brand.value, model.value, ip.value, location.value, order.value, consumable.value))
      else Throw
  }

  /** The columns of a printer row the upsert writes, as parameters. */
  function FieldsOf(p: Printer): Fields {
    Fields(p.name, p.brand, p.model, p.ip, p.location, p.displayOrder, p.consumableModel)
  }

  /** `ON CONFLICT(ip) DO UPDATE SET`: every column but id and ip takes the new value. */
  function Updated(p: Printer, f: Fields): Printer {
    p.(name := f.name, brand := f.brand, model := f.model, location := f.location,
       displayOrder := f.displayOrder, consumableModel := f.consumableModel)
  }

  /** Some row of `printers` holds `ip`. */
  predicate HasIp(printers: map<int, Printer>, ip: SqlValue) {
    exists id :: id in printers && printers[id].ip == ip
  }

  /**
   * One `upsertByIp.run`: the row holding the ip is updated in place, or, when there is
   * none, a row is inserted with the next AUTOINCREMENT id. SQLite draws that id before it
   * meets the conflict, so an update consumes an id as well.
   */
  function UpsertOne(printers: map<int, Printer>, next: int, f: Fields): (map<int, Printer>, int) {
    if HasIp(printers, f.ip) then
      (map id | id in printers :: if printers[id].ip == f.ip then Updated(printers[id], f) else printers[id], next + 1)
    else
      (printers[next := Printer(next, f.name, f.brand, f.model, f.ip, f.location, f.displayOrder, f.consumableModel)], next + 1)
  }

  /** The printers table and the next id after the loop over `items`; None when an item throws. */
  function UpsertAll(printers: map<int, Printer>, next: int, items: seq<Json>): Option<(map<int, Printer>, int)> {
    if |items| == 0 then Some((printers, next))
    else
      match UpsertAll(printers, next, items[..|items| - 1])
      case None => None
      case Some(state) =>
        match ActionOf(items[|items| - 1])
        case Skip => Some(state)
        case Throw => None
        case Upsert(f) => Some(UpsertOne(state.0, state.1, f))
  }

  /** The response of the route. */
  datatype Response =
    | Imported(count: nat)   // 200 {success: true, count}
    | BadRequest             // 400, the body is not an array
    | ServerError            // 500, the body is not JSON or the transaction threw

  /** Printers keyed by their id, below the next id, with unique ips. */
  ghost predicate Keyed(printers: map<int, Printer>, next: int) {
    && (forall id :: id in printers ==> printers[id].id == id && 0 < id < next)
    && UniqueIps(printers)
    && 0 < next
  }

  /**
   * The upsert keeps the table keyed with unique ips; afterwards exactly the row holding
   * the ip carries the new values. An existing ip keeps its id and no row is added; a new
   * ip gets the next id. The next id advances by one in both cases. Every row with another
   * ip is unchanged.
   */
  lemma UpsertOneLaws(printers: map<int, Printer>, next: int, f: Fields)
    requires Keyed(printers, next) && f.ip != Null
    ensures var (p, n) := UpsertOne(printers, next, f);
      && Keyed(p, n)
      && n == next + 1
      && (HasIp(printers, f.ip) ==> p.Keys == printers.Keys)
      && (!HasIp(printers, f.ip) ==> p.Keys == printers.Keys + {next} && p[next].ip == f.ip)
      && (forall id :: id in p && p[id].ip == f.ip ==> FieldsOf(p[id]) == f)
      && HasIp(p, f.ip)
      && (forall id :: id in printers && printers[id].ip != f.ip ==> id in p && p[id] == printers[id])
  {
    var (p, n) := UpsertOne(printers, next, f);
    if HasIp(printers, f.ip) {
      var id0 :| id0 in printers && printers[id0].ip == f.ip;
      assert p[id0].ip == f.ip;
    } else {
      assert p[next].ip == f.ip;
    }
  }

  /** Upserts preserve the keying of the table through the whole loop. */
  lemma {:induction false} UpsertAllKeyed(printers: map<int, Printer>, next: int, items: seq<Json>)
    requires Keyed(printers, next)
    ensures UpsertAll(printers, next, items).Some? ==>
      var (p, n) := UpsertAll(printers, next, items).value;
      Keyed(p, n) && printers.Keys <= p.Keys && next <= n
  {
    if |items| > 0 {
      var init := items[..|items| - 1];
      UpsertAllKeyed(printers, next, init);
      var r := UpsertAll(printers, next, init);
      if r.Some? && ActionOf(items[|items| - 1]).Upsert? {
        UpsertOneLaws(r.value.0, r.value.1, ActionOf(items[|items| - 1]).fields);
      }
    }
  }

  /** One item that throws anywhere in the batch makes the whole loop fail. */
  lemma {:induction false} UpsertAllThrows(printers: map<int, Printer>, next: int, items: seq<Json>, i: int)
    requires 0 <= i < |items| && ActionOf(items[i]).Throw?
    ensures UpsertAll(printers, next, items).None?
  {
    var init := items[..|items| - 1];
    if i < |items| - 1 {
      assert init[i] == items[i];
      UpsertAllThrows(printers, next, init, i);
    }
  }

  /**
   * The last write to an ip wins: when item j upserts `f` and no later item upserts the
   * same ip, the row holding that ip ends with the values of `f`.
   */
  lemma {:induction false} LastWriteWins(printers: map<int, Printer>, next: int, items: seq<Json>, j: int)
    requires Keyed(printers, next)
    requires 0 <= j < |items| && ActionOf(items[j]).Upsert?
    requires forall k :: j < k < |items| && ActionOf(items[k]).Upsert? ==> ActionOf(items[k]).fields.ip != ActionOf(items[j]).fields.ip
    requires UpsertAll(printers, next, items).Some?
    ensures var p := UpsertAll(printers, next, items).value.0;
      var f := ActionOf(items[j]).fields;
      HasIp(p, f.ip) && forall id :: id in p && p[id].ip == f.ip ==> FieldsOf(p[id]) == f
  {
    var init := items[..|items| - 1];
    var last := items[|items| - 1];
    var f := ActionOf(items[j]).fields;
    UpsertAllKeyed(printers, next, init);
    var r := UpsertAll(printers, next, init);
    if j == |items| - 1 {
      UpsertOneLaws(r.value.0, r.value.1, f);
    } else {
      assert init[j] == items[j];
      forall k | j < k < |init| && ActionOf(init[k]).Upsert?
        ensures ActionOf(init[k]).fields.ip != f.ip
      {
        assert init[k] == items[k];
      }
      LastWriteWins(printers, next, init, j);
      if ActionOf(last).Upsert? {
        UpsertOneLaws(r.value.0, r.value.1, ActionOf(last).fields);
        var p := r.value.0;
        var g := ActionOf(last).fields;
        var id0 :| id0 in p && p[id0].ip == f.ip;
        assert UpsertOne(p, r.value.1, g).0[id0] == p[id0];
      }
    }
  }

  /** A printer whose ip no item upserts keeps its row. */
  lemma {:induction false} UntouchedRowsKept(printers: map<int, Printer>, next: int, items: seq<Json>, id: int)
    requires Keyed(printers, next) && id in printers
    requires forall k :: 0 <= k < |items| && ActionOf(items[k]).Upsert? ==> ActionOf(items[k]).fields.ip != printers[id].ip
    requires UpsertAll(printers, next, items).Some?
    ensures id in UpsertAll(printers, next, items).value.0
    ensures UpsertAll(printers, next, items).value.0[id] == printers[id]
  {
    if |items| > 0 {
      var init := items[..|items| - 1];
      var last := items[|items| - 1];
      assert forall k :: 0 <= k < |init| ==> init[k] == items[k];
      UntouchedRowsKept(printers, next, init, id);
      UpsertAllKeyed(printers, next, init);
      var r := UpsertAll(printers, next, init);
      if ActionOf(last).Upsert? {
        UpsertOneLaws(r.value.0, r.value.1, ActionOf(last).fields);
      }
    }
  }

  /**
   * The route, given the parsed body (None when `req.json()` throws). The statement of
   * lines 12-22 is compiled but never run, so only `upsertByIp` writes. Compiling either
   * statement throws when the `printers` table has no `consumable_model` column, which
   * only the migration of `seedPrinters` adds.
   */
  method Import(db: Database, body: Option<Json>) returns (resp: Response)
    requires db.Valid()
    modifies db`printers, db`nextPrinterId
    ensures db.Valid()
    ensures body.None? ==> resp == ServerError && db.printers == old(db.printers) && db.nextPrinterId == old(db.nextPrinterId)
    ensures body.Some? && !body.value.JArray? ==>
      resp == BadRequest && db.printers == old(db.printers) && db.nextPrinterId == old(db.nextPrinterId)
    ensures body.Some? && body.value.JArray? && !HasColumn(db.schema, "printers", "consumable_model") ==>
      resp == ServerError && db.printers == old(db.printers) && db.nextPrinterId == old(db.nextPrinterId)
    ensures body.Some? && body.value.JArray? && HasColumn(db.schema, "printers", "consumable_model") ==>
      var r := UpsertAll(old(db.printers), old(db.nextPrinterId), body.value.elems);
      && (r.Some? ==> resp == Imported(|body.value.elems|) && db.printers == r.value.0 && db.nextPrinterId == r.value.1)
      && (r.None? ==> resp == ServerError && db.printers == old(db.printers) && db.nextPrinterId == old(db.nextPrinterId))
  {
    if body.None? {
      return ServerError;
    }
    if !body.value.JArray? {
      return BadRequest;
    }
    if !HasColumn(db.schema, "printers", "consumable_model") {
      return ServerError;
    }
    var items := body.value.elems;
    var savedPrinters, savedNext := db.printers, db.nextPrinterId;
    for i := 0 to |items|
      invariant UpsertAll(savedPrinters, savedNext, items[..i]) == Some((db.printers, db.nextPrinterId))
      invariant Keyed(db.printers, db.nextPrinterId)
      invariant db.history == old(db.history) && db.nextHistoryId == old(db.nextHistoryId)
    {
      assert items[..i + 1][..i] == items[..i];
      var action := ActionOf(items[i]);
      if action.Throw? {
        // better-sqlite3 rolls the transaction back and rethrows
        db.printers, db.nextPrinterId := savedPrinters, savedNext;
        UpsertAllThrows(savedPrinters, savedNext, items, i);
        return ServerError;
      }
      if action.Upsert? {
        UpsertOneLaws(db.printers, db.nextPrinterId, action.fields);
        var after := UpsertOne(db.printers, db.nextPrinterId, action.fields);
        db.printers, db.nextPrinterId := after.0, after.1;
      }
    }
    assert items[..|items|] == items;
    resp := Imported(|items|);
  }
}
