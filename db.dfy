/**
 * The SQLite database of the printer monitor (`src/lib/db.ts`): its tables as maps and
 * sequences, the uniqueness constraints of the schema as the object invariant, the
 * idempotent start-up migrations and the insert-if-absent seeding of the settings.
 */
module Db {
  import opened Js

  /** A SQLite value as the modelled code stores it. */
  datatype SqlValue = Text(s: string) | Integer(n: int) | Null

  /** A row of `printers`; `added_at` is a timestamp and is left out. */
  datatype Printer = Printer(
    id: int, name: SqlValue, brand: SqlValue, model: SqlValue, ip: SqlValue,
    location: SqlValue, displayOrder: SqlValue, consumableModel: SqlValue)

  /** A row of `printer_status`, keyed by printer id; `last_updated` is left out. */
  datatype StatusRow = StatusRow(status: string, isOnline: int)

  /** The level and capacity of a row of `supplies_current`, keyed by (printer id, color). */
  datatype Reading = Reading(level: Num, max: Num)

  datatype Source = Auto | Manual

  /** A row of `supplies_history`; `recorded_at` is left out. */
  datatype HistoryRow = HistoryRow(id: int, printerId: int, color: string, reading: Reading, source: Source, remark: Option<string>)

  /** At most one printer per non-NULL ip: `ip TEXT UNIQUE`. */
  ghost predicate UniqueIps(printers: map<int, Printer>) {
    forall a, b :: a in printers && b in printers && a != b && printers[a].ip != Null ==>
      printers[a].ip != printers[b].ip
  }

  /** History ids ascend, as AUTOINCREMENT hands them out. */
  ghost predicate AscendingIds(history: seq<HistoryRow>, next: int) {
    && (forall i :: 0 <= i < |history| ==> 0 < history[i].id < next)
    && (forall i, j :: 0 <= i < j < |history| ==> history[i].id < history[j].id)
  }

  /**
   * The uniqueness and key constraints the schema enforces: printer ids as keys below the
   * AUTOINCREMENT counter, unique ips, ascending history ids.
   */
  ghost predicate Consistent(printers: map<int, Printer>, nextPrinterId: int, history: seq<HistoryRow>, nextHistoryId: int) {
    && (forall id :: id in printers ==> printers[id].id == id && 0 < id < nextPrinterId)
    && UniqueIps(printers)
    && AscendingIds(history, nextHistoryId)
    && 0 < nextPrinterId
    && 0 < nextHistoryId
  }

  /** The columns each `CREATE TABLE IF NOT EXISTS` declares. */
  const BaseColumns: map<string, set<string>> := map[
    "printers" := {"id", "name", "brand", "model", "ip", "location", "display_order", "added_at"},
    "supplies_history" := {"id", "printer_id", "color", "level", "max_capacity", "source", "recorded_at"},
    "printer_status" := {"printer_id", "status", "is_online", "last_updated"},
    "supplies_current" := {"printer_id", "color", "level", "max_capacity"},
    "settings" := {"key", "value"}
  ]

  /** `table` exists and has `column`: a statement naming it compiles. */
  predicate HasColumn(schema: map<string, set<string>>, table: string, column: string) {
    table in schema && column in schema[table]
  }

  class Database {
    /** Table name to its columns. */
    var schema: map<string, set<string>>
    /** `printers`, by id. */
    var printers: map<int, Printer>
    var nextPrinterId: int
    /** `printer_status`: PRIMARY KEY printer_id, so one row per printer. */
    var status: map<int, StatusRow>
    /** `supplies_current`: UNIQUE(printer_id, color), so one row per key. */
    var current: map<(int, string), Reading>
    /** `supplies_history`, in insertion order. */
    var history: seq<HistoryRow>
    var nextHistoryId: int
    /** `settings`: key PRIMARY KEY. */
    var settings: map<string, string>

    /** The uniqueness and key constraints the schema enforces. */
    ghost predicate Valid()
      reads this`printers, this`nextPrinterId, this`history, this`nextHistoryId
    {
      Consistent(printers, nextPrinterId, history, nextHistoryId)
    }

    /** A database file that does not exist yet. */
    constructor Open()
      ensures Valid()
      ensures schema == map[] && printers == map[] && status == map[] && current == map[]
      ensures history == [] && settings == map[]
    {
      schema := map[];
      printers := map[];
      nextPrinterId := 1;
      status := map[];
      current := map[];
      history := [];
      nextHistoryId := 1;
      settings := map[];
    }

    /** `CREATE TABLE IF NOT EXISTS` for each table: an existing table is left as it is. */
    method CreateTables()
      modifies this`schema
      ensures schema == BaseColumns + old(schema)
      ensures forall t :: t in old(schema) ==> schema[t] == old(schema)[t]
    {
      schema := BaseColumns + schema;
    }

    /**
     * `ALTER TABLE t ADD COLUMN c` inside a try whose catch ignores the error: the column
     * is added when the table exists without it, and nothing happens otherwise.
     */
    method AddColumn(table: string, column: string) returns (added: bool)
      modifies this`schema
      ensures added <==> table in old(schema) && column !in old(schema)[table]
      ensures schema == if added then old(schema)[table := old(schema)[table] + {column}] else old(schema)
    {
      if table in schema && column !in schema[table] {
        schema := schema[table := schema[table] + {column}];
        added := true;
      } else {
        added := false;
      }
    }

    /** `seedSettings`: insert only when the key is absent; an existing value is never overwritten. */
    method SeedSetting(key: string, value: string)
      modifies this`settings
      ensures settings == if key in old(settings) then old(settings) else old(settings)[key := value]
    {
      if key !in settings {
        settings := settings[key := value];
      }
    }

    /** The schema part of loading `db.ts`: the tables, then the three migrations. */
    method Migrate()
      modifies this`schema
      ensures schema.Keys == BaseColumns.Keys + old(schema).Keys
      ensures "display_order" in schema["printers"]
      ensures "source" in schema["supplies_history"] && "remark" in schema["supplies_history"]
    {
      CreateTables();
      var _ := AddColumn("printers", "display_order");
      var _ := AddColumn("supplies_history", "source");
      var _ := AddColumn("supplies_history", "remark");
    }

    /** The four `seedSettings` calls at the end of `db.ts`. */
    method SeedDefaults()
      modifies this`settings
      ensures settings == SeededSettings(old(settings))
    {
      SeedSetting("system_title", "Printer Monitor");
      SeedSetting("system_logo", "");
      SeedSetting("refresh_interval", "15");
      SeedSetting("admin_password", "admin");
    }

    /** What loading `db.ts` does: tables, migrations, then the four settings seeds. */
    method Initialise()
      requires Valid()
      modifies this`schema, this`settings
      ensures Valid()
      ensures schema.Keys == BaseColumns.Keys + old(schema).Keys
      ensures "display_order" in schema["printers"]
      ensures "source" in schema["supplies_history"] && "remark" in schema["supplies_history"]
      ensures settings == SeededSettings(old(settings))
    {
      Migrate();
      SeedDefaults();
    }
  }

  /** One `seedSettings(key, value)`. */
  function SeedOne(settings: map<string, string>, key: string, value: string): map<string, string> {
    if key in settings then settings else settings[key := value]
  }

  /** The settings `db.ts` leaves behind. */
  function SeededSettings(settings: map<string, string>): map<string, string> {
    var s1 := SeedOne(settings, "system_title", "Printer Monitor");
    var s2 := SeedOne(s1, "system_logo", "");
    var s3 := SeedOne(s2, "refresh_interval", "15");
    SeedOne(s3, "admin_password", "admin")
  }

  /**
   * After loading, the four settings exist; a value that was already there is kept and an
   * absent one takes its default ('Printer Monitor', '', '15', 'admin'); nothing else changes.
   */
  lemma SeededSettingsLaws(settings: map<string, string>)
    ensures var r := SeededSettings(settings);
      && r.Keys == settings.Keys + {"system_title", "system_logo", "refresh_interval", "admin_password"}
      && (forall k :: k in settings ==> r[k] == settings[k])
      && ("system_title" !in settings ==> r["system_title"] == "Printer Monitor")
      && ("system_logo" !in settings ==> r["system_logo"] == "")
      && ("refresh_interval" !in settings ==> r["refresh_interval"] == "15")
      && ("admin_password" !in settings ==> r["admin_password"] == "admin")
  {
  }

  /** Seeding twice is seeding once. */
  lemma SeedIdempotent(settings: map<string, string>)
    ensures SeededSettings(SeededSettings(settings)) == SeededSettings(settings)
  {
    SeededSettingsLaws(settings);
    SeededSettingsLaws(SeededSettings(settings));
  }
}
