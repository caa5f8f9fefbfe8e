/**
 * One poll of one printer (`fetchPrinterStatus`): the sysDescr probe, the decoding of
 * hrPrinterDetectedErrorState (RFC 2790, with the second-byte bit of RFC 3805), the
 * grouping of a walk of prtMarkerSuppliesTable (RFC 3805) into rows, the per-row
 * normalisation with the RFC 3805 special values and the Canon LBP rule, the Ricoh
 * private-table fallback and the final retention filter.
 *
 * The network is gone: the probe outcome, the error-state reply and the two walks are
 * parameters, given as what the SNMP library handed to the callbacks.
 */
module Snmp {
  import opened Js

  // ---------------------------------------------------------------------------
  // Wire values and results
  // ---------------------------------------------------------------------------

  /** A varbind value as the SNMP library decodes it: a number, an octet string (as text) or null. */
  datatype Value = Integer(n: int) | Octets(text: string) | NullValue

  /** One (OID, value) pair of a walk; `VarBindError` is what `snmp.isVarbindError` flags. */
  datatype VarBind = VarBind(oid: string, value: Value) | VarBindError(oid: string)

  /** The reply to the sysDescr probe: a transport error, no usable value, or the value's text. */
  datatype Probe = ProbeFailed | ProbeNoValue | ProbeDescr(descr: string)

  /**
   * The reply to hrPrinterDetectedErrorState: `NoBuffer` stands for a request error, no
   * varbind, a varbind error or a value that is not a Buffer; otherwise the octets.
   */
  datatype ErrorStateReply = NoBuffer | Buffer(bytes: seq<bv8>)

  /** The status texts a poll can produce. */
  datatype Status = Offline | Running | Jammed | NoPaper | DoorOpen | NoToner | Fault {
    /** The text stored in printer_status.status. */
    function Label(): string {
      match this
      case Offline => "Offline"
      case Running => "Running"
      case Jammed => "卡纸"
      case NoPaper => "缺纸"
      case DoorOpen => "仓门打开"
      case NoToner => "缺粉"
      case Fault => "故障"
    }
  }

  datatype SupplyType = Toner | Waste | Other

  /** One entry of `PrinterSNMPData.supplies`. */
  datatype Supply = Supply(color: string, level: Num, max: Num, percent: Num, kind: SupplyType)

  /** `PrinterSNMPData`. */
  datatype PollResult = PollResult(isOnline: bool, status: Status, supplies: seq<Supply>)

  // ---------------------------------------------------------------------------
  // hrPrinterDetectedErrorState
  // ---------------------------------------------------------------------------

  /** What the error-state reply says: a status text (if any) and the two toner flags. */
  datatype ErrorState = ErrorState(explicit: Option<Status>, noToner: bool, lowToner: bool)

  /**
   * Byte 0 is tested in priority order jammed (0x04), noPaper (0x40), doorOpen (0x08),
   * noToner (0x10), offline/serviceRequested (0x02/0x01); only when none of these is set
   * and a second byte exists does its inputTrayEmpty bit (0x04) give "no paper".
   */
  function DecodeErrorState(reply: ErrorStateReply): ErrorState {
    if reply.NoBuffer? || |reply.bytes| == 0 then ErrorState(None, false, false)
    else
      var b0 := reply.bytes[0];
      var first :=
        if (b0 & 0x04) != 0 then Some(Jammed)
        else if (b0 & 0x40) != 0 then Some(NoPaper)
        else if (b0 & 0x08) != 0 then Some(DoorOpen)
        else if (b0 & 0x10) != 0 then Some(NoToner)
        else if (b0 & 0x01) != 0 || (b0 & 0x02) != 0 then Some(Fault)
        else None;
      var explicit :=
        if first.None? && |reply.bytes| > 1 && (reply.bytes[1] & 0x04) != 0 then Some(NoPaper)
        else first;
      ErrorState(explicit, (b0 & 0x10) != 0, (b0 & 0x20) != 0)
  }

  /** The status a successful probe ends with: the explicit one, else "Running". */
  function StatusOf(e: ErrorState): Status {
    if e.explicit.Some? then e.explicit.value else Running
  }

  /** The byte-0 bits in priority order, with the status each one gives. */
  const BytePriority: seq<(bv8, Status)> :=
    [(0x04, Jammed), (0x40, NoPaper), (0x08, DoorOpen), (0x10, NoToner), (0x01, Fault), (0x02, Fault)]

  /** The status of the first entry of `table` whose bit is set in `b`. */
  function FirstSetBit(b: bv8, table: seq<(bv8, Status)>): Option<Status> {
    if |table| == 0 then None
    else if (b & table[0].0) != 0 then Some(table[0].1)
    else FirstSetBit(b, table[1..])
  }

  /**
   * The decoder agrees with the priority table: byte 0's highest-priority set bit
   * decides; byte 1 is only a fallback to "no paper"; no buffer or an empty one means
   * no explicit status. The two toner flags are exactly bits 0x10 and 0x20 of byte 0.
   */
  lemma DecodeFollowsPriority(reply: ErrorStateReply)
    ensures var e := DecodeErrorState(reply);
      if reply.NoBuffer? || |reply.bytes| == 0 then e == ErrorState(None, false, false)
      else
        var b0 := reply.bytes[0];
        && e.noToner == ((b0 & 0x10) != 0)
        && e.lowToner == ((b0 & 0x20) != 0)
        && (FirstSetBit(b0, BytePriority).Some? ==> e.explicit == FirstSetBit(b0, BytePriority))
        && (FirstSetBit(b0, BytePriority).None? ==>
              e.explicit == (if |reply.bytes| > 1 && (reply.bytes[1] & 0x04) != 0 then Some(NoPaper) else None))
  {
    if reply.Buffer? && |reply.bytes| > 0 {
      var b0 := reply.bytes[0];
      var t := BytePriority;
      assert FirstSetBit(b0, t) == if (b0 & 0x04) != 0 then Some(Jammed) else FirstSetBit(b0, t[1..]);
      assert FirstSetBit(b0, t[1..]) == if (b0 & 0x40) != 0 then Some(NoPaper) else FirstSetBit(b0, t[2..]);
      assert FirstSetBit(b0, t[2..]) == if (b0 & 0x08) != 0 then Some(DoorOpen) else FirstSetBit(b0, t[3..]);
      assert FirstSetBit(b0, t[3..]) == if (b0 & 0x10) != 0 then Some(NoToner) else FirstSetBit(b0, t[4..]);
      assert FirstSetBit(b0, t[4..]) == if (b0 & 0x01) != 0 then Some(Fault) else FirstSetBit(b0, t[5..]);
      assert FirstSetBit(b0, t[5..]) == if (b0 & 0x02) != 0 then Some(Fault) else FirstSetBit(b0, t[6..]);
      assert t[6..] == [];
    }
  }

  /** The low-toner bit never changes the status text: toggling it leaves the decode's status alone. */
  lemma LowTonerNeverSetsStatus(bytes: seq<bv8>)
    requires |bytes| > 0
    ensures var toggled := [bytes[0] ^ 0x20] + bytes[1..];
      && StatusOf(DecodeErrorState(Buffer(toggled))) == StatusOf(DecodeErrorState(Buffer(bytes)))
      && DecodeErrorState(Buffer(toggled)).noToner == DecodeErrorState(Buffer(bytes)).noToner
  {
    var toggled := [bytes[0] ^ 0x20] + bytes[1..];
    assert toggled[1..] == bytes[1..];
  }

  /** A jam outranks every other byte-0 bit, and "no toner" shows only when nothing above it is set. */
  lemma StatusPriorityExamples(b1: bv8)
    ensures StatusOf(DecodeErrorState(Buffer([0xFF, b1]))) == Jammed
    ensures StatusOf(DecodeErrorState(Buffer([0x40 | 0x10, b1]))) == NoPaper
    ensures StatusOf(DecodeErrorState(Buffer([0x10 | 0x01]))) == NoToner
    ensures DecodeErrorState(Buffer([0x20, 0x04])) == ErrorState(Some(NoPaper), false, true)
    ensures StatusOf(DecodeErrorState(Buffer([0x20]))) == Running
    ensures DecodeErrorState(Buffer([])) == ErrorState(None, false, false)
  {
  }

  // ---------------------------------------------------------------------------
  // Walk output -> rows
  // ---------------------------------------------------------------------------

  /** A table: its OID prefix and which columns are read as text and which as numbers. */
  datatype Layout = Layout(prefix: string, textColumns: set<int>, numberColumns: set<int>)

  /** prtMarkerSuppliesTable: description (6), max capacity (8), level (9). */
  const DESC := 6
  const MAX := 8
  const LEVEL := 9
  const StandardTable := Layout("1.3.6.1.2.1.43.11.1.1", {DESC}, {MAX, LEVEL})

  /** Ricoh's private toner table: name (2), description (3), percent (5). */
  const RICOH_NAME := 2
  const RICOH_DESC := 3
  const RICOH_PERCENT := 5
  const RicohTable := Layout("1.3.6.1.4.1.367.3.2.1.2.24.1.1", {RICOH_NAME, RICOH_DESC}, {RICOH_PERCENT})

  /** The cell an entry fills: the column id (a parseInt result) and the row key. */
  datatype Entry = Entry(column: Num, row: string)

  /**
   * Where an OID lands in the table: it must start with the prefix (as characters) and
   * have at least two more dot-separated segments than the prefix; the first of them is
   * the column, the rest, joined by '.', the row key.
   */
  function ParseOid(oid: string, prefix: string): Option<Entry> {
    if !StartsWith(oid, prefix) then None
    else
      var parts := Split(oid, '.');
      var n := |Split(prefix, '.')|;
      if |parts| <= n + 1 then None
      else Some(Entry(ParseInt(parts[n]), Join(parts[n + 1..], '.')))
  }

  /** The entry a varbind fills, if the walk loop uses it at all. */
  function EntryOf(vb: VarBind, layout: Layout): Option<Entry> {
    if vb.VarBindError? then None else ParseOid(vb.oid, layout.prefix)
  }

  /** `val?.toString() || ''` after a Buffer is turned into its text. */
  function TextOf(v: Value): string {
    match v
    case Integer(n) => IntToString(n)
    case Octets(t) => t
    case NullValue => ""
  }

  /** `typeof v === 'number' ? v : parseInt(v?.toString() || '0')`. */
  function NumberOf(v: Value): Num {
    match v
    case Integer(n) => Finite(n)
    case Octets(t) => ParseInt(if t == "" then "0" else t)
    case NullValue => Finite(0)
  }

  datatype Cell = Text(s: string) | Number(n: Num)

  type Row = map<int, Cell>

  /** A JS Map from row key to row: the keys in insertion order, and the rows. */
  datatype Table = Table(order: seq<string>, rows: map<string, Row>)

  /** The cell a value becomes in a given column, if the table reads that column. */
  function CellOf(layout: Layout, column: int, v: Value): Option<Cell> {
    if column in layout.textColumns then Some(Text(TextOf(v)))
    else if column in layout.numberColumns then Some(Number(NumberOf(v)))
    else None
  }

  /** One iteration of the walk callback's loop. */
  function Step(t: Table, layout: Layout, vb: VarBind): Table {
    match EntryOf(vb, layout)
    case None => t
    case Some(e) =>
      var isNew := e.row !in t.rows;
      var row := if isNew then map[] else t.rows[e.row];
      var cell := if e.column.Finite? then CellOf(layout, e.column.v, vb.value) else None;
      var row' := if cell.Some? then row[e.column.v := cell.value] else row;
      Table(if isNew then t.order + [e.row] else t.order, t.rows[e.row := row'])
  }

  /** The table a whole walk builds, starting from an empty Map. */
  function Group(walk: seq<VarBind>, layout: Layout): Table {
    if |walk| == 0 then Table([], map[])
    else Step(Group(walk[..|walk| - 1], layout), layout, walk[|walk| - 1])
  }

  /** The walk callback for one varbind: fills the row Map in place. */
  method Visit(order: seq<string>, rows: map<string, Row>, layout: Layout, vb: VarBind)
    returns (order': seq<string>, rows': map<string, Row>)
    ensures Table(order', rows') == Step(Table(order, rows), layout, vb)
  {
    order', rows' := order, rows;
    var entry := EntryOf(vb, layout);
    if entry.Some? {
      var e := entry.value;
      if e.row !in rows' {
        rows' := rows'[e.row := map[]];
        order' := order' + [e.row];
      }
      if e.column.Finite? {
        var cell := CellOf(layout, e.column.v, vb.value);
        if cell.Some? {
          rows' := rows'[e.row := rows'[e.row][e.column.v := cell.value]];
        }
      }
    }
  }

  /** The walk: every varbind of the subtree, in order, through the callback. */
  method GroupRows(walk: seq<VarBind>, layout: Layout) returns (t: Table)
    ensures t == Group(walk, layout)
  {
    var order: seq<string> := [];
    var rows: map<string, Row> := map[];
    for i := 0 to |walk|
      invariant Table(order, rows) == Group(walk[..i], layout)
    {
      assert walk[..i + 1][..i] == walk[..i];
      order, rows := Visit(order, rows, layout, walk[i]);
    }
    assert walk[..|walk|] == walk;
    t := Table(order, rows);
  }

  /** The key order lists every row exactly once. */
  ghost predicate WellFormed(t: Table) {
    && (forall i, j :: 0 <= i < j < |t.order| ==> t.order[i] != t.order[j])
    && (forall k :: k in t.rows <==> k in t.order)
  }

  lemma {:induction false} GroupWellFormed(walk: seq<VarBind>, layout: Layout)
    ensures WellFormed(Group(walk, layout))
  {
    if |walk| > 0 {
      GroupWellFormed(walk[..|walk| - 1], layout);
    }
  }

  /** Varbind `vb` names row `k` of the table. */
  predicate Names(vb: VarBind, layout: Layout, k: string) {
    EntryOf(vb, layout).Some? && EntryOf(vb, layout).value.row == k
  }

  /** A row exists exactly for the row keys of the varbinds the loop uses. */
  lemma {:induction false} GroupKeys(walk: seq<VarBind>, layout: Layout, k: string)
    ensures k in Group(walk, layout).rows <==> exists i :: 0 <= i < |walk| && Names(walk[i], layout, k)
  {
    if |walk| > 0 {
      var init := walk[..|walk| - 1];
      var last := walk[|walk| - 1];
      GroupKeys(init, layout, k);
      StepKeys(Group(init, layout), layout, last, k);
      assert Group(walk, layout) == Step(Group(init, layout), layout, last);
      if exists i :: 0 <= i < |walk| && Names(walk[i], layout, k) {
        var i :| 0 <= i < |walk| && Names(walk[i], layout, k);
        if i < |init| {
          assert Names(init[i], layout, k);
        }
      }
      if exists i :: 0 <= i < |init| && Names(init[i], layout, k) {
        var i :| 0 <= i < |init| && Names(init[i], layout, k);
        assert Names(walk[i], layout, k);
      }
      if Names(last, layout, k) {
        assert Names(walk[|walk| - 1], layout, k);
      }
    }
  }

  /** One varbind adds at most its own row key. */
  lemma StepKeys(t: Table, layout: Layout, vb: VarBind, k: string)
    ensures k in Step(t, layout, vb).rows <==> k in t.rows || Names(vb, layout, k)
  {
  }

  /** Varbind `vb` writes column `c` of row `k`. */
  predicate Writes(vb: VarBind, layout: Layout, k: string, c: int) {
    EntryOf(vb, layout) == Some(Entry(Finite(c), k)) && CellOf(layout, c, vb.value).Some?
  }

  /** The last write to a cell wins: a later value for the same cell overwrites an earlier one. */
  lemma {:induction false} GroupLastWriteWins(walk: seq<VarBind>, layout: Layout, i: int, k: string, c: int)
    requires 0 <= i < |walk| && Writes(walk[i], layout, k, c)
    requires forall j :: i < j < |walk| ==> !Writes(walk[j], layout, k, c)
    ensures var t := Group(walk, layout);
      k in t.rows && c in t.rows[k] && t.rows[k][c] == CellOf(layout, c, walk[i].value).value
  {
    var init := walk[..|walk| - 1];
    if i < |walk| - 1 {
      assert forall j :: i < j < |init| ==> init[j] == walk[j];
      GroupLastWriteWins(init, layout, i, k, c);
    }
  }

  /** A cell nobody wrote stays absent. */
  lemma {:induction false} GroupUnwrittenCell(walk: seq<VarBind>, layout: Layout, k: string, c: int)
    requires forall j :: 0 <= j < |walk| ==> !Writes(walk[j], layout, k, c)
    ensures var t := Group(walk, layout); k in t.rows ==> c !in t.rows[k]
  {
    if |walk| > 0 {
      var init := walk[..|walk| - 1];
      assert forall j :: 0 <= j < |init| ==> init[j] == walk[j];
      GroupUnwrittenCell(init, layout, k, c);
    }
  }

  /** A separator-free list of segments joined by '.' */
  ghost predicate Segments(parts: seq<string>) {
    forall k :: 0 <= k < |parts| ==> '.' !in parts[k]
  }

  lemma {:induction false} JoinAppend(a: seq<string>, b: seq<string>)
    requires |a| >= 1 && |b| >= 1
    ensures Join(a + b, '.') == Join(a, '.') + ['.'] + Join(b, '.')
  {
    if |a| > 1 {
      assert (a + b)[1..] == a[1..] + b;
      JoinAppend(a[1..], b);
    } else {
      assert (a + b)[1..] == b;
    }
  }

  /**
   * An OID built as prefix . column . row-index lands in that column and row: the parse
   * inverts the composition of OIDs.
   */
  lemma ParseComposedOid(prefixParts: seq<string>, column: nat, rowParts: seq<string>)
    requires |prefixParts| >= 1 && |rowParts| >= 1
    requires Segments(prefixParts) && Segments(rowParts)
    ensures ParseOid(Join(prefixParts + [NatToString(column)] + rowParts, '.'), Join(prefixParts, '.'))
         == Some(Entry(Finite(column), Join(rowParts, '.')))
  {
    var col := NatToString(column);
    assert '.' !in col by {
      assert forall i :: 0 <= i < |col| ==> IsDigit(col[i]);
    }
    var rest := [col] + rowParts;
    var all := prefixParts + rest;
    assert prefixParts + [col] + rowParts == all;
    assert Segments(rest) && Segments(all);
    var prefix := Join(prefixParts, '.');
    var oid := Join(all, '.');
    JoinAppend(prefixParts, rest);
    assert oid[..|prefix|] == prefix;
    SplitJoin(all, '.');
    SplitJoin(prefixParts, '.');
    assert all[|prefixParts|] == col;
    assert all[|prefixParts| + 1..] == rowParts;
    ParseIntOfIntToString(column);
  }

  // ---------------------------------------------------------------------------
  // Standard rows -> supplies
  // ---------------------------------------------------------------------------

  /** Cell `c` of `row` holds a non-empty (truthy) text. */
  predicate HasText(row: Row, c: int) {
    c in row && row[c].Text? && row[c].s != ""
  }

  /** Cell `c` of `row` holds a number (NaN included). */
  predicate HasNumber(row: Row, c: int) {
    c in row && row[c].Number?
  }

  function TextAt(row: Row, c: int): Option<string> {
    if c in row && row[c].Text? then Some(row[c].s) else None
  }

  function NumberAt(row: Row, c: int): Option<Num> {
    if c in row && row[c].Number? then Some(row[c].n) else None
  }

  /** `Math.round(level / max * 100)` for max > 0, in exact arithmetic. */
  function RoundPercent(level: int, max: int): int
    requires max > 0
  {
    (200 * level + max) / (2 * max)
  }

  /**
   * The rounding is Math.round's: the nearest integer to 100*level/max, halves going up;
   * it is not negative for a level that is not, stays at most 100 while level <= max and
   * reaches 100 once level > max.
   */
  lemma RoundPercentIsNearest(level: int, max: int)
    requires max > 0
    ensures var p := RoundPercent(level, max);
      && 2 * max * p <= 200 * level + max < 2 * max * p + 2 * max
      && (level >= 0 ==> p >= 0)
      && (level <= max ==> p <= 100)
      && (level > max ==> p >= 100)
  {
    var d := 2 * max;
    var x := 200 * level + max;
    var p := x / d;
    assert x == d * p + x % d;
    assert 0 <= x % d < d;
    assert 2 * max * p == d * p;
    if level >= 0 && p < 0 {
      MulMono(d, p, -1);
    }
    if level <= max && p > 100 {
      MulMono(d, 101, p);
    }
    if level > max && p < 100 {
      MulMono(d, p, 99);
    }
  }

  lemma MulMono(a: int, b: int, c: int)
    requires a > 0 && b <= c
    ensures a * b <= a * c
  {
  }

  /**
   * The RFC 3805 special values: -3 ("some remaining") gives 25, -2 ("unknown") in either
   * field gives 0, a positive capacity gives the rounded ratio, a non-positive capacity
   * with a level in (0, 100] takes the level as a percent, anything else 0.
   */
  function SentinelPercent(level: Num, max: Num): int {
    if level.Is(-3) then 25
    else if level.Is(-2) || max.Is(-2) then 0
    else if max.Gt(0) && level.Ge(0) then RoundPercent(level.v, max.v)
    else if max.Le(0) && level.Gt(0) && level.Le(100) then level.v
    else 0
  }

  function Clamp(p: int): (r: int)
    ensures 0 <= r <= 100
    ensures 0 <= p <= 100 ==> r == p
    ensures p < 0 ==> r == 0
    ensures p > 100 ==> r == 100
  {
    if p < 0 then 0 else if p > 100 then 100 else p
  }

  /** The keywords that make a lower-cased description a waste container. */
  const WasteKeywords: seq<string> := ["waste", "废弃"]

  /** The keywords that make a lower-cased description a toner, when no waste keyword occurs. */
  const TonerKeywords: seq<string> :=
    ["toner", "碳粉", "墨", "black", "cyan", "magenta", "yellow", "黑色", "青色", "品红色", "黄色", "cartridge"]

  /** Some word of `words` occurs in `lower`. */
  predicate HasKeyword(lower: string, words: seq<string>) {
    exists i :: 0 <= i < |words| && Contains(lower, words[i])
  }

  /** Keyword classification of a supply description. */
  function Classify(desc: string): SupplyType {
    var lower := ToLower(desc);
    if Contains(lower, "waste") || Contains(lower, "废弃") then Waste
    else if Contains(lower, "toner") || Contains(lower, "碳粉") || Contains(lower, "墨")
         || Contains(lower, "black") || Contains(lower, "cyan") || Contains(lower, "magenta")
         || Contains(lower, "yellow") || Contains(lower, "黑色") || Contains(lower, "青色")
         || Contains(lower, "品红色") || Contains(lower, "黄色") || Contains(lower, "cartridge") then Toner
    else Other
  }

  /** The Canon LBP rule applies to this reading. */
  predicate CanonApplies(canonLbp: bool, level: Num) {
    canonLbp && (level.Is(-2) || level.Is(-3))
  }

  /** One complete standard row (description, level, capacity) as a supply. */
  function NormalizeReading(desc: string, level: Num, max: Num, canonLbp: bool, noToner: bool): Supply {
    if CanonApplies(canonLbp, level) then
      var full := if noToner then 0 else 100;
      Supply(desc, Finite(full), if max.Le(0) then Finite(100) else max, Finite(Clamp(full)), Classify(desc))
    else
      Supply(desc, level, max, Finite(Clamp(SentinelPercent(level, max))), Classify(desc))
  }

  /** Whatever the raw values, the percent of a standard reading lies in [0, 100]. */
  lemma NormalizeReadingRange(desc: string, level: Num, max: Num, canonLbp: bool, noToner: bool)
    ensures var s := NormalizeReading(desc, level, max, canonLbp, noToner);
      && s.color == desc && s.kind == Classify(desc)
      && s.percent.Finite? && 0 <= s.percent.v <= 100
  {
  }

  /**
   * Outside the Canon rule, level and capacity keep their raw values and the percent
   * follows the special values: -3 gives 25, -2 gives 0, a positive capacity the rounded
   * ratio (100 once the level exceeds it), a non-positive capacity a level in (0, 100];
   * every other reading (level -1, NaN, a level outside (0, 100] without a capacity) gives 0.
   */
  lemma NormalizeReadingStandard(desc: string, level: Num, max: Num, canonLbp: bool, noToner: bool)
    requires !CanonApplies(canonLbp, level)
    ensures var s := NormalizeReading(desc, level, max, canonLbp, noToner);
      && s.level == level && s.max == max
      && (level.Is(-3) ==> s.percent == Finite(25))
      && (!level.Is(-3) && (level.Is(-2) || max.Is(-2)) ==> s.percent == Finite(0))
      && (level.Ge(0) && max.Gt(0) && level.v <= max.v ==>
            2 * max.v * s.percent.v <= 200 * level.v + max.v < 2 * max.v * s.percent.v + 2 * max.v)
      && (level.Ge(0) && max.Gt(0) && level.v > max.v ==> s.percent == Finite(100))
      && (max.Le(0) && !max.Is(-2) && level.Gt(0) && level.Le(100) ==> s.percent == level)
      && ((!level.Is(-3) && !level.Is(-2) && !max.Is(-2) && !(max.Gt(0) && level.Ge(0))
           && !(max.Le(0) && level.Gt(0) && level.Le(100))) ==> s.percent == Finite(0))
  {
    if level.Ge(0) && max.Gt(0) {
      RoundPercentIsNearest(level.v, max.v);
    }
  }

  /**
   * Under the Canon LBP rule the raw level is ignored: level and percent are 0 when the
   * no-toner flag is set and 100 otherwise, and a non-positive capacity becomes 100.
   */
  lemma NormalizeReadingCanon(desc: string, level: Num, max: Num, noToner: bool)
    requires level.Is(-2) || level.Is(-3)
    ensures var s := NormalizeReading(desc, level, max, true, noToner);
      && s.level == s.percent == Finite(if noToner then 0 else 100)
      && s.max == (if max.Le(0) then Finite(100) else max)
  {
  }

  /** The normalisation of one row, if it is complete: truthy description, level and capacity present. */
  function NormalizeRow(row: Row, canonLbp: bool, noToner: bool): (r: Option<Supply>)
    ensures r.Some? <==> HasText(row, DESC) && HasNumber(row, LEVEL) && HasNumber(row, MAX)
    ensures r.Some? ==> r.value == NormalizeReading(row[DESC].s, row[LEVEL].n, row[MAX].n, canonLbp, noToner)
  {
    var desc := TextAt(row, DESC);
    var level := NumberAt(row, LEVEL);
    var max := NumberAt(row, MAX);
    if desc.None? || desc.value == "" || level.None? || max.None? then None
    else Some(NormalizeReading(desc.value, level.value, max.value, canonLbp, noToner))
  }

  /** The supplies the rows give, in the Map's key order. */
  function NormalizeKeys(keys: seq<string>, rows: map<string, Row>, canonLbp: bool, noToner: bool): (r: seq<Supply>)
    ensures |r| <= |keys|
    ensures forall s :: s in r ==> s.percent.Finite? && 0 <= s.percent.v <= 100
  {
    if |keys| == 0 then []
    else
      var init := NormalizeKeys(keys[..|keys| - 1], rows, canonLbp, noToner);
      var k := keys[|keys| - 1];
      var s := if k in rows then NormalizeRow(rows[k], canonLbp, noToner) else None;
      if s.Some? then
        NormalizeReadingRange(TextAt(rows[k], DESC).value, NumberAt(rows[k], LEVEL).value,
                              NumberAt(rows[k], MAX).value, canonLbp, noToner);
        init + [s.value]
      else init
  }

  /** A supply is emitted exactly for the keys whose row is complete, and it is that row's normalisation. */
  lemma {:induction false} NormalizeKeysMembers(keys: seq<string>, rows: map<string, Row>, canonLbp: bool, noToner: bool)
    ensures forall s :: s in NormalizeKeys(keys, rows, canonLbp, noToner) <==>
      exists k :: k in keys && k in rows && NormalizeRow(rows[k], canonLbp, noToner) == Some(s)
  {
    if |keys| > 0 {
      var init, last := keys[..|keys| - 1], keys[|keys| - 1];
      NormalizeKeysMembers(init, rows, canonLbp, noToner);
      assert keys == init + [last];
    }
  }

  /**
   * The supplies of two runs of keys are those of the first run followed by those of the
   * second; one key gives its row's supply when the row is complete and nothing otherwise.
   * Together: the supplies come in the order of their keys.
   */
  lemma {:induction false} NormalizeKeysAppend(a: seq<string>, b: seq<string>, rows: map<string, Row>, canonLbp: bool, noToner: bool)
    ensures NormalizeKeys(a + b, rows, canonLbp, noToner)
         == NormalizeKeys(a, rows, canonLbp, noToner) + NormalizeKeys(b, rows, canonLbp, noToner)
    ensures |b| == 1 ==>
      NormalizeKeys(b, rows, canonLbp, noToner)
        == (if b[0] in rows && NormalizeRow(rows[b[0]], canonLbp, noToner).Some?
            then [NormalizeRow(rows[b[0]], canonLbp, noToner).value] else [])
  {
    if |b| == 0 {
      assert a + b == a;
    } else {
      var init, last := b[..|b| - 1], b[|b| - 1];
      var row := if last in rows then NormalizeRow(rows[last], canonLbp, noToner) else None;
      var tail := if row.Some? then [row.value] else [];
      NormalizeKeysAppend(a, init, rows, canonLbp, noToner);
      assert (a + b)[..|a + b| - 1] == a + init;
      assert NormalizeKeys(b, rows, canonLbp, noToner) == NormalizeKeys(init, rows, canonLbp, noToner) + tail;
      assert NormalizeKeys(a + b, rows, canonLbp, noToner) == NormalizeKeys(a + init, rows, canonLbp, noToner) + tail;
      if |b| == 1 {
        assert init == [];
      }
    }
  }

  /** The loop over `rows.entries()` that pushes one supply per complete row. */
  method NormalizeRows(t: Table, canonLbp: bool, noToner: bool) returns (supplies: seq<Supply>)
    ensures supplies == NormalizeKeys(t.order, t.rows, canonLbp, noToner)
  {
    supplies := [];
    for i := 0 to |t.order|
      invariant supplies == NormalizeKeys(t.order[..i], t.rows, canonLbp, noToner)
    {
      var k := t.order[i];
      assert t.order[..i + 1] == t.order[..i] + [k];
      NormalizeKeysAppend(t.order[..i], [k], t.rows, canonLbp, noToner);
      if k in t.rows {
        var s := NormalizeRow(t.rows[k], canonLbp, noToner);
        if s.Some? {
          supplies := supplies + [s.value];
        }
      }
    }
    assert t.order[..|t.order|] == t.order;
  }

  /** The final filter: keep a supply that shows any signal, a waste container, or a Canon LBP toner. */
  predicate Retained(s: Supply, canonLbp: bool) {
    || s.level.Gt(0) || s.max.Gt(0) || s.percent.Gt(0)
    || s.kind == Waste
    || (canonLbp && s.kind == Toner)
  }

  /** `supplies.filter(...)`. */
  function Retain(ss: seq<Supply>, canonLbp: bool): (r: seq<Supply>)
    ensures |r| <= |ss|
    ensures forall s :: s in r <==> s in ss && Retained(s, canonLbp)
  {
    if |ss| == 0 then []
    else
      var init, last := ss[..|ss| - 1], ss[|ss| - 1];
      var rest := Retain(init, canonLbp);
      assert ss == init + [last];
      if Retained(last, canonLbp) then rest + [last] else rest
  }

  /**
   * `filter` keeps order and multiplicity: filtering a concatenation filters each part,
   * and one supply is kept exactly when it is retained.
   */
  lemma {:induction false} RetainAppend(a: seq<Supply>, b: seq<Supply>, canonLbp: bool)
    ensures Retain(a + b, canonLbp) == Retain(a, canonLbp) + Retain(b, canonLbp)
    ensures |b| == 1 ==> Retain(b, canonLbp) == if Retained(b[0], canonLbp) then b else []
  {
    if |b| == 0 {
      assert a + b == a;
    } else {
      var init, last := b[..|b| - 1], b[|b| - 1];
      var tail := if Retained(last, canonLbp) then [last] else [];
      RetainAppend(a, init, canonLbp);
      assert (a + b)[..|a + b| - 1] == a + init;
      assert Retain(b, canonLbp) == Retain(init, canonLbp) + tail;
      assert Retain(a + b, canonLbp) == Retain(a + init, canonLbp) + tail;
      if |b| == 1 {
        assert init == [];
      }
    }
  }

  // ---------------------------------------------------------------------------
  // Ricoh private table
  // ---------------------------------------------------------------------------

  /** `rows.values().some(row => row.level === -3 || row.max === -2)`, incomplete rows included. */
  predicate HasInvalidValues(t: Table) {
    exists k :: k in t.rows && (NumberAt(t.rows[k], LEVEL) == Some(Finite(-3)) || NumberAt(t.rows[k], MAX) == Some(Finite(-2)))
  }

  /** `a || b || fallback` on optional strings, where the empty string is falsy. */
  function FirstNonEmpty(a: Option<string>, b: Option<string>, fallback: string): string {
    if a.Some? && a.value != "" then a.value
    else if b.Some? && b.value != "" then b.value
    else fallback
  }

  /** One Ricoh row with a percent, as a supply: level is the percent, capacity 100, no clamping. */
  function RicohSupply(row: Row): (r: Option<Supply>)
    ensures r.Some? <==> HasNumber(row, RICOH_PERCENT)
  {
    var percent := NumberAt(row, RICOH_PERCENT);
    if percent.None? then None
    else
      var desc := FirstNonEmpty(TextAt(row, RICOH_DESC), TextAt(row, RICOH_NAME), "Unknown Toner");
      var kind := if Contains(ToLower(desc), "waste") || Contains(desc, "废") then Waste else Toner;
      Some(Supply(desc, percent.value, Finite(100), percent.value, kind))
  }

  /**
   * A Ricoh supply takes the percent as its level, capacity 100. Its name is the
   * description, else the name, else 'Unknown Toner'; it is waste exactly when the name
   * holds 'waste' in any case or '废', and toner otherwise.
   */
  lemma RicohSupplyLaws(row: Row)
    requires HasNumber(row, RICOH_PERCENT)
    ensures var s := RicohSupply(row).value;
      && s.level == s.percent == row[RICOH_PERCENT].n && s.max == Finite(100)
      && (HasText(row, RICOH_DESC) ==> s.color == row[RICOH_DESC].s)
      && (!HasText(row, RICOH_DESC) && HasText(row, RICOH_NAME) ==> s.color == row[RICOH_NAME].s)
      && (!HasText(row, RICOH_DESC) && !HasText(row, RICOH_NAME) ==> s.color == "Unknown Toner")
      && (s.kind == Waste <==> Contains(ToLower(s.color), "waste") || Contains(s.color, "废"))
      && (s.kind == Toner <==> !Contains(ToLower(s.color), "waste") && !Contains(s.color, "废"))
  {
  }

  /** The Ricoh supplies, in the Map's key order: one per row that has a percent. */
  function RicohKeys(keys: seq<string>, rows: map<string, Row>): (r: seq<Supply>)
    ensures |r| <= |keys|
    ensures forall s :: s in r ==> s.max == Finite(100) && s.level == s.percent && s.kind != Other
  {
    if |keys| == 0 then []
    else
      var init := RicohKeys(keys[..|keys| - 1], rows);
      var k := keys[|keys| - 1];
      var s := if k in rows then RicohSupply(rows[k]) else None;
      if s.Some? then init + [s.value] else init
  }

  /** A Ricoh supply is emitted exactly for the keys whose row has a percent, and it is that row's supply. */
  lemma {:induction false} RicohKeysMembers(keys: seq<string>, rows: map<string, Row>)
    ensures forall s :: s in RicohKeys(keys, rows) <==> exists k :: k in keys && k in rows && RicohSupply(rows[k]) == Some(s)
  {
    if |keys| > 0 {
      var init, last := keys[..|keys| - 1], keys[|keys| - 1];
      RicohKeysMembers(init, rows);
      assert keys == init + [last];
    }
  }

  /** The Ricoh supplies of two runs of keys are those of the first followed by those of the second. */
  lemma {:induction false} RicohKeysAppend(a: seq<string>, b: seq<string>, rows: map<string, Row>)
    ensures RicohKeys(a + b, rows) == RicohKeys(a, rows) + RicohKeys(b, rows)
    ensures |b| == 1 ==>
      RicohKeys(b, rows) == (if b[0] in rows && RicohSupply(rows[b[0]]).Some? then [RicohSupply(rows[b[0]]).value] else [])
  {
    if |b| == 0 {
      assert a + b == a;
    } else {
      var init, last := b[..|b| - 1], b[|b| - 1];
      var tail := if last in rows && RicohSupply(rows[last]).Some? then [RicohSupply(rows[last]).value] else [];
      RicohKeysAppend(a, init, rows);
      assert (a + b)[..|a + b| - 1] == a + init;
      assert RicohKeys(b, rows) == RicohKeys(init, rows) + tail;
      assert RicohKeys(a + b, rows) == RicohKeys(a + init, rows) + tail;
      if |b| == 1 {
        assert init == [];
      }
    }
  }

  /** The Ricoh completion callback: the supplies are rebuilt from the private rows alone. */
  method RicohRows(t: Table) returns (supplies: seq<Supply>)
    ensures supplies == RicohKeys(t.order, t.rows)
  {
    supplies := [];
    for i := 0 to |t.order|
      invariant supplies == RicohKeys(t.order[..i], t.rows)
    {
      assert t.order[..i + 1][..i] == t.order[..i];
      var k := t.order[i];
      if k in t.rows {
        var s := RicohSupply(t.rows[k]);
        if s.Some? {
          supplies := supplies + [s.value];
        }
      }
    }
    assert t.order[..|t.order|] == t.order;
  }

  // ---------------------------------------------------------------------------
  // The whole poll
  // ---------------------------------------------------------------------------

  predicate IsRicoh(sysDescr: string) {
    Contains(ToLower(sysDescr), "ricoh")
  }

  predicate IsCanonLbp(sysDescr: string) {
    var d := ToLower(sysDescr);
    Contains(d, "canon") && (Contains(d, "lbp") || Contains(d, "laser"))
  }

  /** Whether the Ricoh private walk replaces the standard rows. */
  predicate UsesRicohTable(sysDescr: string, walk: seq<VarBind>) {
    IsRicoh(sysDescr) && HasInvalidValues(Group(walk, StandardTable))
  }

  /** The poll result as a function of what the device answered. */
  function Poll(probe: Probe, errorState: ErrorStateReply, walk: seq<VarBind>, ricohWalk: seq<VarBind>): PollResult {
    match probe
    case ProbeFailed => PollResult(false, Offline, [])
    case ProbeNoValue => PollResult(true, Running, [])
    case ProbeDescr(descr) =>
      var e := DecodeErrorState(errorState);
      if UsesRicohTable(descr, walk) then
        var r := Group(ricohWalk, RicohTable);
        PollResult(true, StatusOf(e), RicohKeys(r.order, r.rows))
      else
        var t := Group(walk, StandardTable);
        var canon := IsCanonLbp(descr);
        PollResult(true, StatusOf(e), Retain(NormalizeKeys(t.order, t.rows, canon, e.noToner), canon))
  }

  /** `fetchPrinterStatus` with the network replaced by its answers. */
  method FetchPrinterStatus(probe: Probe, errorState: ErrorStateReply, walk: seq<VarBind>, ricohWalk: seq<VarBind>)
    returns (result: PollResult)
    ensures result == Poll(probe, errorState, walk, ricohWalk)
  {
    result := PollResult(false, Offline, []);
    if probe.ProbeFailed? {
      return;
    }
    result := result.(isOnline := true, status := Running);
    if probe.ProbeNoValue? {
      return;
    }
    var sysDescr := ToLower(probe.descr);
    var isRicoh := Contains(sysDescr, "ricoh");
    var isCanonLbp := Contains(sysDescr, "canon") && (Contains(sysDescr, "lbp") || Contains(sysDescr, "laser"));
    var e := DecodeErrorState(errorState);
    if e.explicit.Some? {
      result := result.(status := e.explicit.value);
    }
    var rows := GroupRows(walk, StandardTable);
    if isRicoh && HasInvalidValues(rows) {
      var ricohRows := GroupRows(ricohWalk, RicohTable);
      var supplies := RicohRows(ricohRows);
      result := result.(supplies := supplies);
      return;
    }
    var supplies := NormalizeRows(rows, isCanonLbp, e.noToner);
    result := result.(supplies := Retain(supplies, isCanonLbp));
  }

  // ---------------------------------------------------------------------------
  // Properties of a poll
  // ---------------------------------------------------------------------------

  /**
   * Only a failed probe marks a printer offline, and then the result is exactly
   * {offline, "Offline", no supplies}; a probe without a value gives {online, "Running",
   * no supplies}; any other probe gives an online printer whose status is never "Offline".
   */
  lemma PollProbeOutcome(probe: Probe, errorState: ErrorStateReply, walk: seq<VarBind>, ricohWalk: seq<VarBind>)
    ensures var r := Poll(probe, errorState, walk, ricohWalk);
      && (!r.isOnline <==> probe.ProbeFailed?)
      && (probe.ProbeFailed? ==> r == PollResult(false, Offline, []))
      && (probe.ProbeNoValue? ==> r == PollResult(true, Running, []))
      && (r.status == Offline <==> probe.ProbeFailed?)
  {
    if probe.ProbeDescr? {
      var e := DecodeErrorState(errorState);
      assert e.explicit != Some(Offline);
    }
  }

  /**
   * Which rows become supplies. When the Ricoh fallback triggers, the supplies are exactly
   * those of the private rows that have a percent (level = percent, capacity 100,
   * unclamped). Otherwise they are exactly the retained normalisations of the complete
   * standard rows, each with a percent in [0, 100]; in both cases in the Map's key order.
   */
  lemma PollSupplies(descr: string, errorState: ErrorStateReply, walk: seq<VarBind>, ricohWalk: seq<VarBind>)
    ensures var r := Poll(ProbeDescr(descr), errorState, walk, ricohWalk);
      && r.isOnline && r.status == StatusOf(DecodeErrorState(errorState))
      && (UsesRicohTable(descr, walk) ==>
            var rt := Group(ricohWalk, RicohTable);
            && r.supplies == RicohKeys(rt.order, rt.rows)
            && (forall s :: s in r.supplies <==> exists k :: k in rt.rows && RicohSupply(rt.rows[k]) == Some(s))
            && (forall s :: s in r.supplies ==> s.max == Finite(100) && s.level == s.percent))
      && (!UsesRicohTable(descr, walk) ==>
            var t := Group(walk, StandardTable);
            var canon := IsCanonLbp(descr);
            var noToner := DecodeErrorState(errorState).noToner;
            && r.supplies == Retain(NormalizeKeys(t.order, t.rows, canon, noToner), canon)
            && (forall s :: s in r.supplies <==>
                  Retained(s, canon) && exists k :: k in t.rows && NormalizeRow(t.rows[k], canon, noToner) == Some(s))
            && (forall s :: s in r.supplies ==> s.percent.Finite? && 0 <= s.percent.v <= 100))
  {
    GroupWellFormed(walk, StandardTable);
    GroupWellFormed(ricohWalk, RicohTable);
    var t, rt := Group(walk, StandardTable), Group(ricohWalk, RicohTable);
    NormalizeKeysMembers(t.order, t.rows, IsCanonLbp(descr), DecodeErrorState(errorState).noToner);
    RicohKeysMembers(rt.order, rt.rows);
  }

  /** The retention filter keeps waste and Canon LBP toner even at zero and drops a zero "other" row. */
  lemma RetentionExamples(desc: string)
    ensures Retained(Supply(desc, Finite(0), Finite(0), Finite(0), Waste), false)
    ensures Retained(Supply(desc, Finite(0), Finite(0), Finite(0), Toner), true)
    ensures !Retained(Supply(desc, Finite(0), Finite(0), Finite(0), Other), true)
    ensures !Retained(Supply(desc, Finite(-3), Finite(-2), Finite(0), Toner), false)
  {
  }

  lemma WasteKeywordsListed(lower: string)
    ensures HasKeyword(lower, WasteKeywords) <==> Contains(lower, "waste") || Contains(lower, "废弃")
  {
    var w := WasteKeywords;
    if Contains(lower, "waste") {
      assert Contains(lower, w[0]);
    } else if Contains(lower, "废弃") {
      assert Contains(lower, w[1]);
    }
  }

  lemma TonerKeywordsListed(lower: string)
    ensures HasKeyword(lower, TonerKeywords) <==>
      || Contains(lower, "toner") || Contains(lower, "碳粉") || Contains(lower, "墨")
      || Contains(lower, "black") || Contains(lower, "cyan") || Contains(lower, "magenta")
      || Contains(lower, "yellow") || Contains(lower, "黑色") || Contains(lower, "青色")
      || Contains(lower, "品红色") || Contains(lower, "黄色") || Contains(lower, "cartridge")
  {
    var t := TonerKeywords;
    if HasKeyword(lower, t) {
      var i :| 0 <= i < |t| && Contains(lower, t[i]);
      assert t[i] in t;
    } else {
      assert forall i :: 0 <= i < |t| ==> !Contains(lower, t[i]);
      assert !Contains(lower, t[0]) && !Contains(lower, t[1]) && !Contains(lower, t[2]);
      assert !Contains(lower, t[3]) && !Contains(lower, t[4]) && !Contains(lower, t[5]);
      assert !Contains(lower, t[6]) && !Contains(lower, t[7]) && !Contains(lower, t[8]);
      assert !Contains(lower, t[9]) && !Contains(lower, t[10]) && !Contains(lower, t[11]);
    }
  }

  /**
   * The classification against the keyword tables: a waste keyword ('waste', '废弃') makes
   * waste whatever else occurs; otherwise any of the twelve toner keywords makes toner;
   * a description with neither is "other". Upper and lower case are not told apart.
   */
  lemma ClassifyLaws(desc: string)
    ensures var lower := ToLower(desc);
      && (Classify(desc) == Waste <==> HasKeyword(lower, WasteKeywords))
      && (Classify(desc) == Toner <==> !HasKeyword(lower, WasteKeywords) && HasKeyword(lower, TonerKeywords))
      && (Classify(desc) == Other <==> !HasKeyword(lower, WasteKeywords) && !HasKeyword(lower, TonerKeywords))
    ensures Contains(ToLower(desc), "waste") ==> Classify(desc) == Waste
    ensures Contains(ToLower(desc), "废弃") ==> Classify(desc) == Waste
    ensures Classify(ToLower(desc)) == Classify(desc)
    ensures (!Contains(ToLower(desc), "waste") && !Contains(ToLower(desc), "废弃")
             && Contains(ToLower(desc), "cartridge")) ==> Classify(desc) == Toner
  {
    ToLowerIdempotent(desc);
    WasteKeywordsListed(ToLower(desc));
    TonerKeywordsListed(ToLower(desc));
  }
}
