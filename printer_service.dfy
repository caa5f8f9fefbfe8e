/**
 * The per-printer writes of `src/lib/printerService.ts`: the refresh cycle (status upsert,
 * replacement of the supply snapshot inside a transaction, the replacement predicate),
 * `updatePrinter`, `deletePrinter`, `addReplacementHistory` and the `seedPrinters`
 * migration, all over the tables of `Db.Database`.
 */
module PrinterService {
  import opened Js
  import opened Db
  import Snmp

  // ---------------------------------------------------------------------------
  // Replacement predicate
  // ---------------------------------------------------------------------------

  /** `max > 0 ? level / max * 100 : 0`; None stands for NaN. */
  function PercentOf(r: Reading): Option<real> {
    if r.max.Gt(0) then
      if r.level.Finite? then Some(100.0 * (r.level.v as real) / (r.max.v as real)) else None
    else Some(0.0)
  }

  /** The test that logs an automatic replacement; every comparison with NaN is false. */
  predicate ReplacementDetected(current: Reading, polled: Reading) {
    var c := PercentOf(current);
    var n := PercentOf(polled);
    c.Some? && n.Some? && n.value - c.value > 40.0 && c.value < 100.0 && c.value > 0.0 && n.value >= 80.0
  }

  lemma PercentTimesMax(l: int, m: int)
    requires m > 0
    ensures PercentOf(Reading(Finite(l), Finite(m))).value * (m as real) == 100.0 * (l as real)
  {
  }

  /**
   * The predicate over integer readings with positive capacities, multiplied out: the
   * jump exceeds 40 points, the old level is strictly between empty and full, and the
   * new level is at least 80% of its capacity.
   */
  lemma ReplacementCrossMultiplied(l1: int, m1: int, l2: int, m2: int)
    requires m1 > 0 && m2 > 0
    ensures ReplacementDetected(Reading(Finite(l1), Finite(m1)), Reading(Finite(l2), Finite(m2))) <==>
      && 100 * l2 * m1 - 100 * l1 * m2 > 40 * m1 * m2
      && 0 < l1 < m1
      && 5 * l2 >= 4 * m2
  {
    var c := PercentOf(Reading(Finite(l1), Finite(m1))).value;
    var n := PercentOf(Reading(Finite(l2), Finite(m2))).value;
    PercentCompare(l1, m1, 0.0);
    PercentCompare(l1, m1, 100.0);
    PercentCompare(l2, m2, 80.0);
    JumpCompare(l1, m1, l2, m2);
  }

  /** Comparing a percentage with a threshold is comparing the level with that share of the capacity. */
  lemma PercentCompare(l: int, m: int, t: real)
    requires m > 0
    ensures var p := PercentOf(Reading(Finite(l), Finite(m))).value;
      && (p > t <==> 100.0 * (l as real) > t * (m as real))
      && (p < t <==> 100.0 * (l as real) < t * (m as real))
      && (p >= t <==> 100.0 * (l as real) >= t * (m as real))
  {
    PercentTimesMax(l, m);
    ScaleCompare(PercentOf(Reading(Finite(l), Finite(m))).value, m as real, t);
  }

  /** The jump of more than 40 points, multiplied out. */
  lemma JumpCompare(l1: int, m1: int, l2: int, m2: int)
    requires m1 > 0 && m2 > 0
    ensures PercentOf(Reading(Finite(l2), Finite(m2))).value - PercentOf(Reading(Finite(l1), Finite(m1))).value > 40.0
      <==> 100 * l2 * m1 - 100 * l1 * m2 > 40 * m1 * m2
  {
    var c := PercentOf(Reading(Finite(l1), Finite(m1))).value;
    var n := PercentOf(Reading(Finite(l2), Finite(m2))).value;
    var L1, M1, L2, M2 := l1 as real, m1 as real, l2 as real, m2 as real;
    PercentTimesMax(l1, m1);
    PercentTimesMax(l2, m2);
    ScaleCompare(n - c, M1 * M2, 40.0);
    DifferenceOfProducts(n, c, L1, M1, L2, M2);
    CastProducts(l1, m1, l2, m2);
  }

  lemma DifferenceOfProducts(n: real, c: real, L1: real, M1: real, L2: real, M2: real)
    requires n * M2 == 100.0 * L2 && c * M1 == 100.0 * L1
    ensures (n - c) * (M1 * M2) == 100.0 * L2 * M1 - 100.0 * L1 * M2
  {
    calc {
      (n - c) * (M1 * M2);
      (n * M2) * M1 - (c * M1) * M2;
      100.0 * L2 * M1 - 100.0 * L1 * M2;
    }
  }

  lemma CastProducts(l1: int, m1: int, l2: int, m2: int)
    ensures (100 * l2 * m1 - 100 * l1 * m2) as real == 100.0 * (l2 as real) * (m1 as real) - 100.0 * (l1 as real) * (m2 as real)
    ensures (40 * m1 * m2) as real == 40.0 * ((m1 as real) * (m2 as real))
  {
  }

  /** Multiplying both sides by a positive number keeps a comparison. */
  lemma ScaleCompare(x: real, k: real, t: real)
    requires k > 0.0
    ensures x > t <==> x * k > t * k
    ensures x < t <==> x * k < t * k
    ensures x >= t <==> x * k >= t * k
  {
    assert x * k - t * k == (x - t) * k;
  }

  /** Without a positive old capacity, or with a NaN level on either side, nothing is logged. */
  lemma ReplacementNeedsReadings(current: Reading, polled: Reading)
    ensures !current.max.Gt(0) ==> !ReplacementDetected(current, polled)
    ensures !polled.max.Gt(0) ==> !ReplacementDetected(current, polled)
    ensures current.max.Gt(0) && current.level.NaN? ==> !ReplacementDetected(current, polled)
    ensures polled.max.Gt(0) && polled.level.NaN? ==> !ReplacementDetected(current, polled)
  {
  }

  /** Boundary cases of the thresholds. */
  lemma ReplacementExamples()
    ensures ReplacementDetected(Reading(Finite(5), Finite(100)), Reading(Finite(95), Finite(100)))
    ensures ReplacementDetected(Reading(Finite(39), Finite(100)), Reading(Finite(80), Finite(100)))
    ensures !ReplacementDetected(Reading(Finite(40), Finite(100)), Reading(Finite(80), Finite(100)))
    ensures !ReplacementDetected(Reading(Finite(0), Finite(100)), Reading(Finite(100), Finite(100)))
    ensures !ReplacementDetected(Reading(Finite(30), Finite(100)), Reading(Finite(79), Finite(100)))
  {
    ReplacementCrossMultiplied(5, 100, 95, 100);
    ReplacementCrossMultiplied(39, 100, 80, 100);
    ReplacementCrossMultiplied(40, 100, 80, 100);
    ReplacementCrossMultiplied(0, 100, 100, 100);
    ReplacementCrossMultiplied(30, 100, 79, 100);
  }

  // ---------------------------------------------------------------------------
  // The supply snapshot
  // ---------------------------------------------------------------------------

  function ReadingOf(s: Snmp.Supply): Reading {
    Reading(s.level, s.max)
  }

  /** No two supplies of the poll share a colour, so UNIQUE(printer_id, color) holds. */
  predicate DistinctColors(ss: seq<Snmp.Supply>) {
    forall i, j :: 0 <= i < j < |ss| ==> ss[i].color != ss[j].color
  }

  /** Some supply of `ss` has colour `c`. */
  predicate HasColor(ss: seq<Snmp.Supply>, c: string) {
    exists j :: 0 <= j < |ss| && ss[j].color == c
  }

  lemma HasColorSnoc(ss: seq<Snmp.Supply>)
    requires |ss| > 0
    ensures forall c :: HasColor(ss, c) <==> HasColor(ss[..|ss| - 1], c) || ss[|ss| - 1].color == c
  {
    forall c ensures HasColor(ss, c) ==> HasColor(ss[..|ss| - 1], c) || ss[|ss| - 1].color == c {
      if HasColor(ss, c) && ss[|ss| - 1].color != c {
        var j :| 0 <= j < |ss| && ss[j].color == c;
        assert ss[..|ss| - 1][j].color == c;
      }
    }
    forall c ensures HasColor(ss[..|ss| - 1], c) ==> HasColor(ss, c) {
      if HasColor(ss[..|ss| - 1], c) {
        var j :| 0 <= j < |ss| - 1 && ss[..|ss| - 1][j].color == c;
        assert ss[j].color == c;
      }
    }
  }

  /** `supplies_current` without the rows of printer `pid`. */
  function Without(current: map<(int, string), Reading>, pid: int): map<(int, string), Reading> {
    map k | k in current && k.0 != pid :: current[k]
  }

  /** The rows the inserts of the poll's supplies make, in order. */
  function Snapshot(pid: int, ss: seq<Snmp.Supply>): map<(int, string), Reading> {
    if |ss| == 0 then map[]
    else
      var last := ss[|ss| - 1];
      Snapshot(pid, ss[..|ss| - 1])[(pid, last.color) := ReadingOf(last)]
  }

  /** The snapshot has one row per colour of the poll, and none for another printer. */
  lemma {:induction false} SnapshotKeys(pid: int, ss: seq<Snmp.Supply>)
    ensures forall k: (int, string) :: k in Snapshot(pid, ss) <==> k.0 == pid && HasColor(ss, k.1)
  {
    if |ss| > 0 {
      SnapshotKeys(pid, ss[..|ss| - 1]);
      HasColorSnoc(ss);
    }
  }

  /** With distinct colours every supply of the poll has its own row, holding its reading. */
  lemma {:induction false} SnapshotRows(pid: int, ss: seq<Snmp.Supply>, i: int)
    requires DistinctColors(ss) && 0 <= i < |ss|
    ensures (pid, ss[i].color) in Snapshot(pid, ss)
    ensures Snapshot(pid, ss)[(pid, ss[i].color)] == ReadingOf(ss[i])
  {
    if i < |ss| - 1 {
      SnapshotRows(pid, ss[..|ss| - 1], i);
    }
  }

  /** What the transaction leaves in `supplies_current`, the delete before it included. */
  function AfterReplace(current: map<(int, string), Reading>, pid: int, ss: seq<Snmp.Supply>): map<(int, string), Reading> {
    if DistinctColors(ss) then Without(current, pid) + Snapshot(pid, ss) else Without(current, pid)
  }

  /**
   * A successful replacement leaves exactly the polled list for the printer, as
   * (color, level, max), and every other printer's rows as they were.
   */
  lemma AfterReplaceLaws(current: map<(int, string), Reading>, pid: int, ss: seq<Snmp.Supply>)
    requires DistinctColors(ss)
    ensures forall i :: 0 <= i < |ss| ==>
      (pid, ss[i].color) in AfterReplace(current, pid, ss) && AfterReplace(current, pid, ss)[(pid, ss[i].color)] == ReadingOf(ss[i])
    ensures forall k: (int, string) :: k in AfterReplace(current, pid, ss) && k.0 == pid ==> HasColor(ss, k.1)
    ensures forall k: (int, string) :: k.0 != pid ==> (k in AfterReplace(current, pid, ss) <==> k in current)
    ensures forall k: (int, string) :: k.0 != pid && k in current ==> AfterReplace(current, pid, ss)[k] == current[k]
  {
    SnapshotKeys(pid, ss);
    forall i | 0 <= i < |ss|
      ensures (pid, ss[i].color) in AfterReplace(current, pid, ss)
      ensures AfterReplace(current, pid, ss)[(pid, ss[i].color)] == ReadingOf(ss[i])
    {
      SnapshotRows(pid, ss, i);
    }
  }

  /**
   * The lookup at iteration i, after the delete, finds a row exactly when an earlier supply
   * of the same poll had the same colour: rows from the previous cycle are never seen.
   */
  lemma LookupSeesOnlyThisPoll(current: map<(int, string), Reading>, pid: int, ss: seq<Snmp.Supply>, i: int)
    requires 0 <= i < |ss|
    ensures (pid, ss[i].color) in Without(current, pid) + Snapshot(pid, ss[..i]) <==>
      HasColor(ss[..i], ss[i].color)
  {
    SnapshotKeys(pid, ss[..i]);
  }

  /** One more insert of the transaction loop, and what the lookup before it finds. */
  lemma SnapshotExtend(current: map<(int, string), Reading>, pid: int, ss: seq<Snmp.Supply>, i: int)
    requires 0 <= i < |ss|
    ensures Snapshot(pid, ss[..i + 1]) == Snapshot(pid, ss[..i])[(pid, ss[i].color) := ReadingOf(ss[i])]
    ensures (pid, ss[i].color) in Without(current, pid) + Snapshot(pid, ss[..i]) ==> !DistinctColors(ss)
    ensures (pid, ss[i].color) !in Without(current, pid) + Snapshot(pid, ss[..i]) && DistinctColors(ss[..i]) ==>
      DistinctColors(ss[..i + 1])
  {
    assert ss[..i + 1][..i] == ss[..i];
    LookupSeesOnlyThisPoll(current, pid, ss, i);
    if HasColor(ss[..i], ss[i].color) {
      var j :| 0 <= j < i && ss[..i][j].color == ss[i].color;
      assert ss[j].color == ss[i].color;
    } else if DistinctColors(ss[..i]) {
      var t := ss[..i + 1];
      forall a, b | 0 <= a < b < |t| ensures t[a].color != t[b].color {
        if b == i {
          assert ss[..i][a].color != ss[i].color;
        } else {
          assert ss[..i][a] == t[a] && ss[..i][b] == t[b];
        }
      }
    }
  }

  /** The insert of supply i extends the snapshot by its row. */
  lemma InsertStep(current: map<(int, string), Reading>, pid: int, ss: seq<Snmp.Supply>, i: int)
    requires 0 <= i < |ss|
    ensures (Without(current, pid) + Snapshot(pid, ss[..i]))[(pid, ss[i].color) := ReadingOf(ss[i])]
      == Without(current, pid) + Snapshot(pid, ss[..i + 1])
  {
    assert ss[..i + 1][..i] == ss[..i];
    var a := Without(current, pid);
    var b := Snapshot(pid, ss[..i]);
    var k := (pid, ss[i].color);
    var v := ReadingOf(ss[i]);
    assert Snapshot(pid, ss[..i + 1]) == b[k := v];
    assert (a + b)[k := v] == a + b[k := v];
  }

  /** So a poll with distinct colours never reaches the replacement test. */
  lemma DistinctColoursNeverFindPrevious(current: map<(int, string), Reading>, pid: int, ss: seq<Snmp.Supply>, i: int)
    requires DistinctColors(ss) && 0 <= i < |ss|
    ensures (pid, ss[i].color) !in Without(current, pid) + Snapshot(pid, ss[..i])
  {
    LookupSeesOnlyThisPoll(current, pid, ss, i);
  }

  /** The supplies of the poll for which the replacement test holds against `previous`. */
  function Events(previous: map<(int, string), Reading>, pid: int, ss: seq<Snmp.Supply>): (r: seq<Snmp.Supply>)
    ensures |r| <= |ss|
  {
    if |ss| == 0 then []
    else
      var last := ss[|ss| - 1];
      var key := (pid, last.color);
      Events(previous, pid, ss[..|ss| - 1])
        + (if key in previous && ReplacementDetected(previous[key], ReadingOf(last)) then [last] else [])
  }

  lemma EventsStep(previous: map<(int, string), Reading>, pid: int, ss: seq<Snmp.Supply>, i: int)
    requires 0 <= i < |ss|
    ensures Events(previous, pid, ss[..i + 1]) == Events(previous, pid, ss[..i])
      + (if (pid, ss[i].color) in previous && ReplacementDetected(previous[(pid, ss[i].color)], ReadingOf(ss[i])) then [ss[i]] else [])
  {
    assert ss[..i + 1][..i] == ss[..i];
  }

  /** The `supplies_history` rows for `events`, with ids handed out from `first`. */
  function AutoRows(pid: int, events: seq<Snmp.Supply>, first: int): (r: seq<HistoryRow>)
    ensures |r| == |events|
    ensures forall j :: 0 <= j < |r| ==> r[j].id == first + j && r[j].printerId == pid && r[j].source == Auto
  {
    seq(|events|, j requires 0 <= j < |events| => HistoryRow(first + j, pid, events[j].color, ReadingOf(events[j]), Auto, None))
  }

  lemma AutoRowsSnoc(pid: int, events: seq<Snmp.Supply>, e: Snmp.Supply, first: int)
    ensures AutoRows(pid, events + [e], first)
      == AutoRows(pid, events, first) + [HistoryRow(first + |events|, pid, e.color, ReadingOf(e), Auto, None)]
  {
  }

  /** The rows the intended transaction has logged after supply i, from those before it. */
  lemma HistoryStep(previous: map<(int, string), Reading>, pid: int, ss: seq<Snmp.Supply>, i: int, h: seq<HistoryRow>, first: int)
    requires 0 <= i < |ss|
    ensures var key := (pid, ss[i].color);
      var before := Events(previous, pid, ss[..i]);
      var hit := key in previous && ReplacementDetected(previous[key], ReadingOf(ss[i]));
      && h + AutoRows(pid, Events(previous, pid, ss[..i + 1]), first)
         == h + AutoRows(pid, before, first) + (if hit then [HistoryRow(first + |before|, pid, ss[i].color, ReadingOf(ss[i]), Auto, None)] else [])
      && |Events(previous, pid, ss[..i + 1])| == |before| + (if hit then 1 else 0)
  {
    EventsStep(previous, pid, ss, i);
    AutoRowsSnoc(pid, Events(previous, pid, ss[..i]), ss[i], first);
  }

  // ---------------------------------------------------------------------------
  // The refresh cycle
  // ---------------------------------------------------------------------------

  /** The `printer_status` row one poll writes. */
  function StatusRowOf(r: Snmp.PollResult): StatusRow {
    StatusRow(r.status.Label(), if r.isOnline then 1 else 0)
  }

  /** The snapshot is replaced only when the printer is online and reported supplies. */
  predicate Touches(r: Snmp.PollResult) {
    r.isOnline && |r.supplies| > 0
  }

  /** `supplies_current` after one printer's refresh. */
  function CurrentAfterPoll(current: map<(int, string), Reading>, pid: int, r: Snmp.PollResult): map<(int, string), Reading> {
    if Touches(r) then AfterReplace(current, pid, r.supplies) else current
  }

  /** `printer_status` after a cycle over the printers `ids`. */
  ghost function StatusAfter(status: map<int, StatusRow>, ids: set<int>, poll: int -> Snmp.PollResult): map<int, StatusRow> {
    map k | k in status.Keys + ids :: if k in ids then StatusRowOf(poll(k)) else status[k]
  }

  /** The rows of printer `pid` after the cycle, when its poll touched the snapshot, or before it. */
  ghost function Source(current: map<(int, string), Reading>, ids: set<int>, poll: int -> Snmp.PollResult, pid: int): map<(int, string), Reading> {
    if pid in ids && Touches(poll(pid)) then AfterReplace(map[], pid, poll(pid).supplies) else current
  }

  ghost function NewKeys(ids: set<int>, poll: int -> Snmp.PollResult): set<(int, string)> {
    set pid, i | pid in ids && 0 <= i < |poll(pid).supplies| :: (pid, poll(pid).supplies[i].color)
  }

  lemma InNewKeys(ids: set<int>, poll: int -> Snmp.PollResult, k: (int, string), i: int)
    requires k.0 in ids && 0 <= i < |poll(k.0).supplies| && poll(k.0).supplies[i].color == k.1
    ensures k in NewKeys(ids, poll)
  {
    var pid := k.0;
    var color := poll(pid).supplies[i].color;
    assert (pid, color) in NewKeys(ids, poll);
    assert k == (pid, color);
  }

  /**
   * `supplies_current` after a cycle over the printers `ids`: each row belongs to one
   * printer and is whatever that printer's own refresh left.
   */
  ghost function CurrentAfter(current: map<(int, string), Reading>, ids: set<int>, poll: int -> Snmp.PollResult): map<(int, string), Reading> {
    map k | k in current.Keys + NewKeys(ids, poll) && k in Source(current, ids, poll, k.0) :: Source(current, ids, poll, k.0)[k]
  }

  /** A row after the cycle is the row its own printer's source holds. */
  lemma CurrentAfterAt(current: map<(int, string), Reading>, ids: set<int>, poll: int -> Snmp.PollResult, k: (int, string))
    ensures k in CurrentAfter(current, ids, poll) <==> k in Source(current, ids, poll, k.0)
    ensures k in CurrentAfter(current, ids, poll) ==> CurrentAfter(current, ids, poll)[k] == Source(current, ids, poll, k.0)[k]
  {
    if k in Source(current, ids, poll, k.0) && k.0 in ids && Touches(poll(k.0)) {
      var ss := poll(k.0).supplies;
      SnapshotKeys(k.0, ss);
      assert k in Snapshot(k.0, ss);
      var j :| 0 <= j < |ss| && ss[j].color == k.1;
      InNewKeys(ids, poll, k, j);
    }
  }

  /** The replacement touches only the rows of its own printer. */
  lemma AfterReplaceAt(m: map<(int, string), Reading>, pid: int, ss: seq<Snmp.Supply>, k: (int, string))
    ensures k.0 != pid ==> (k in AfterReplace(m, pid, ss) <==> k in m)
    ensures k.0 != pid && k in m ==> AfterReplace(m, pid, ss)[k] == m[k]
    ensures k.0 == pid ==> (k in AfterReplace(m, pid, ss) <==> k in AfterReplace(map[], pid, ss))
    ensures k.0 == pid && k in AfterReplace(m, pid, ss) ==> AfterReplace(m, pid, ss)[k] == AfterReplace(map[], pid, ss)[k]
  {
    SnapshotKeys(pid, ss);
    assert k !in Without(map[], pid);
    assert k.0 == pid ==> k !in Without(m, pid);
  }

  /** Printers refresh independently: one more printer is one more per-printer step. */
  lemma CurrentAfterStep(current: map<(int, string), Reading>, ids: set<int>, poll: int -> Snmp.PollResult, pid: int)
    requires pid !in ids
    ensures CurrentAfter(current, ids + {pid}, poll) == CurrentAfterPoll(CurrentAfter(current, ids, poll), pid, poll(pid))
  {
    var a := CurrentAfter(current, ids + {pid}, poll);
    var c := CurrentAfter(current, ids, poll);
    var b := CurrentAfterPoll(c, pid, poll(pid));
    forall k: (int, string)
      ensures (k in a <==> k in b) && (k in a ==> a[k] == b[k])
    {
      CurrentAfterAt(current, ids + {pid}, poll, k);
      CurrentAfterAt(current, ids, poll, k);
      if Touches(poll(pid)) {
        AfterReplaceAt(c, pid, poll(pid).supplies, k);
      }
    }
  }

  lemma CurrentAfterEmpty(current: map<(int, string), Reading>, poll: int -> Snmp.PollResult)
    ensures CurrentAfter(current, {}, poll) == current
  {
  }

  /**
   * After a cycle, every printer has exactly the status row its poll reported, a printer
   * whose poll did not touch the snapshot keeps its previous supply rows, and a touched
   * printer with distinct colours holds exactly its polled (color, level, max) list.
   */
  lemma CycleLaws(status: map<int, StatusRow>, current: map<(int, string), Reading>, ids: set<int>, poll: int -> Snmp.PollResult)
    ensures forall id :: id in ids ==> id in StatusAfter(status, ids, poll) && StatusAfter(status, ids, poll)[id] == StatusRowOf(poll(id))
    ensures forall k: (int, string) :: !(k.0 in ids && Touches(poll(k.0))) ==>
      (k in CurrentAfter(current, ids, poll) <==> k in current)
    ensures forall k: (int, string) :: !(k.0 in ids && Touches(poll(k.0))) && k in current ==> CurrentAfter(current, ids, poll)[k] == current[k]
    ensures forall k: (int, string) :: k.0 in ids && Touches(poll(k.0)) && DistinctColors(poll(k.0).supplies) ==>
      (k in CurrentAfter(current, ids, poll) <==> HasColor(poll(k.0).supplies, k.1))
    ensures forall pid, i :: pid in ids && Touches(poll(pid)) && DistinctColors(poll(pid).supplies) && 0 <= i < |poll(pid).supplies| ==>
      && (pid, poll(pid).supplies[i].color) in CurrentAfter(current, ids, poll)
      && CurrentAfter(current, ids, poll)[(pid, poll(pid).supplies[i].color)] == ReadingOf(poll(pid).supplies[i])
  {
    forall pid, i | pid in ids && Touches(poll(pid)) && DistinctColors(poll(pid).supplies) && 0 <= i < |poll(pid).supplies|
      ensures (pid, poll(pid).supplies[i].color) in CurrentAfter(current, ids, poll)
      ensures CurrentAfter(current, ids, poll)[(pid, poll(pid).supplies[i].color)] == ReadingOf(poll(pid).supplies[i])
    {
      CurrentAfterAt(current, ids, poll, (pid, poll(pid).supplies[i].color));
      AfterReplaceLaws(map[], pid, poll(pid).supplies);
    }
    forall k: (int, string)
      ensures !(k.0 in ids && Touches(poll(k.0))) ==> (k in CurrentAfter(current, ids, poll) <==> k in current)
      ensures !(k.0 in ids && Touches(poll(k.0))) && k in current ==> CurrentAfter(current, ids, poll)[k] == current[k]
      ensures k.0 in ids && Touches(poll(k.0)) && DistinctColors(poll(k.0).supplies) ==>
        (k in CurrentAfter(current, ids, poll) <==> HasColor(poll(k.0).supplies, k.1))
    {
      CurrentAfterAt(current, ids, poll, k);
      SnapshotKeys(k.0, poll(k.0).supplies);
    }
  }

  /** The state a better-sqlite3 transaction puts back when its function throws. */
  datatype Savepoint = Savepoint(current: map<(int, string), Reading>, history: seq<HistoryRow>, nextHistoryId: int)

  method Begin(db: Database) returns (sp: Savepoint)
    ensures sp == Savepoint(db.current, db.history, db.nextHistoryId)
  {
    sp := Savepoint(db.current, db.history, db.nextHistoryId);
  }

  method Rollback(db: Database, sp: Savepoint)
    modifies db`current, db`history, db`nextHistoryId
    ensures db.current == sp.current && db.history == sp.history && db.nextHistoryId == sp.nextHistoryId
  {
    db.current := sp.current;
    db.history := sp.history;
    db.nextHistoryId := sp.nextHistoryId;
  }

  /** The `insertHistory` statement, run when the replacement test holds for `current` and `s`. */
  method LogIfReplaced(db: Database, pid: int, current: Reading, s: Snmp.Supply)
    requires db.Valid()
    modifies db`history, db`nextHistoryId
    ensures db.Valid()
    ensures db.history == old(db.history)
      + (if ReplacementDetected(current, ReadingOf(s)) then [HistoryRow(old(db.nextHistoryId), pid, s.color, ReadingOf(s), Auto, None)] else [])
    ensures db.nextHistoryId == old(db.nextHistoryId) + (if ReplacementDetected(current, ReadingOf(s)) then 1 else 0)
  {
    if ReplacementDetected(current, ReadingOf(s)) {
      db.history := db.history + [HistoryRow(db.nextHistoryId, pid, s.color, ReadingOf(s), Auto, None)];
      db.nextHistoryId := db.nextHistoryId + 1;
    }
  }

  /** The lookup and `insertHistory` of supply i, with the lookup against `previous`. */
  method LogAgainst(db: Database, previous: map<(int, string), Reading>, pid: int, ss: seq<Snmp.Supply>, i: int, h: seq<HistoryRow>, first: int)
    requires db.Valid() && 0 <= i < |ss|
    requires db.history == h + AutoRows(pid, Events(previous, pid, ss[..i]), first)
    requires db.nextHistoryId == first + |Events(previous, pid, ss[..i])|
    modifies db`history, db`nextHistoryId
    ensures db.Valid()
    ensures db.history == h + AutoRows(pid, Events(previous, pid, ss[..i + 1]), first)
    ensures db.nextHistoryId == first + |Events(previous, pid, ss[..i + 1])|
  {
    HistoryStep(previous, pid, ss, i, h, first);
    var key := (pid, ss[i].color);
    if key in previous {
      LogIfReplaced(db, pid, previous[key], ss[i]);
    }
  }

  /**
   * The transaction of one refresh, as written: the printer's rows are deleted first
   * (committed on their own), then each supply is looked up, tested, and inserted. A
   * repeated colour breaks UNIQUE(printer_id, color) and rolls back the transaction,
   * history insert included, leaving the delete in place.
   */
  method ReplaceSupplies(db: Database, pid: int, supplies: seq<Snmp.Supply>) returns (committed: bool)
    requires db.Valid()
    modifies db`current, db`history, db`nextHistoryId
    ensures db.Valid()
    ensures committed <==> DistinctColors(supplies)
    ensures db.current == AfterReplace(old(db.current), pid, supplies)
    ensures db.history == old(db.history) && db.nextHistoryId == old(db.nextHistoryId)
  {
    ghost var previous := db.current;
    db.current := Without(db.current, pid);
    var sp := Begin(db);
    for i := 0 to |supplies|
      invariant db.current == sp.current + Snapshot(pid, supplies[..i])
      invariant sp.current == Without(previous, pid)
      invariant DistinctColors(supplies[..i])
      invariant db.history == sp.history == old(db.history) && db.nextHistoryId == sp.nextHistoryId == old(db.nextHistoryId)
      invariant db.Valid()
    {
      var s := supplies[i];
      var key := (pid, s.color);
      SnapshotExtend(previous, pid, supplies, i);
      if key in db.current {
        LogIfReplaced(db, pid, db.current[key], s);
        // the insert below violates UNIQUE(printer_id, color)
        Rollback(db, sp);
        assert AfterReplace(previous, pid, supplies) == sp.current;
        return false;
      }
      InsertStep(previous, pid, supplies, i);
      db.current := db.current[key := ReadingOf(s)];
    }
    assert supplies[..|supplies|] == supplies;
    assert AfterReplace(previous, pid, supplies) == Without(previous, pid) + Snapshot(pid, supplies);
    return true;
  }

  /**
   * The transaction as evidently intended: the lookup reads the rows as they were before
   * the delete, so a jump against the previous cycle is logged.
   */
  method ReplaceSuppliesIntended(db: Database, pid: int, supplies: seq<Snmp.Supply>) returns (committed: bool)
    requires db.Valid()
    modifies db`current, db`history, db`nextHistoryId
    ensures db.Valid()
    ensures committed <==> DistinctColors(supplies)
    ensures db.current == AfterReplace(old(db.current), pid, supplies)
    ensures db.history == old(db.history) + (if committed then AutoRows(pid, Events(old(db.current), pid, supplies), old(db.nextHistoryId)) else [])
    ensures db.nextHistoryId == old(db.nextHistoryId) + (if committed then |Events(old(db.current), pid, supplies)| else 0)
  {
    var previous := db.current;
    db.current := Without(db.current, pid);
    var sp := Begin(db);
    for i := 0 to |supplies|
      invariant db.current == sp.current + Snapshot(pid, supplies[..i])
      invariant sp.current == Without(previous, pid)
      invariant DistinctColors(supplies[..i])
      invariant sp.history == old(db.history) && sp.nextHistoryId == old(db.nextHistoryId)
      invariant db.history == sp.history + AutoRows(pid, Events(previous, pid, supplies[..i]), sp.nextHistoryId)
      invariant db.nextHistoryId == sp.nextHistoryId + |Events(previous, pid, supplies[..i])|
      invariant db.Valid()
    {
      var s := supplies[i];
      var key := (pid, s.color);
      LogAgainst(db, previous, pid, supplies, i, sp.history, sp.nextHistoryId);
      SnapshotExtend(previous, pid, supplies, i);
      if key in db.current {
        // the insert violates UNIQUE(printer_id, color)
        Rollback(db, sp);
        assert AfterReplace(previous, pid, supplies) == sp.current;
        return false;
      }
      InsertStep(previous, pid, supplies, i);
      db.current := db.current[key := ReadingOf(s)];
    }
    assert supplies[..|supplies|] == supplies;
    assert AfterReplace(previous, pid, supplies) == Without(previous, pid) + Snapshot(pid, supplies);
    return true;
  }

  /** One printer's turn in `refreshAllPrinters`, given what its poll returned. */
  method RefreshPrinter(db: Database, pid: int, data: Snmp.PollResult) returns (committed: bool)
    requires db.Valid()
    modifies db`status, db`current, db`history, db`nextHistoryId
    ensures db.Valid()
    ensures db.status == old(db.status)[pid := StatusRowOf(data)]
    ensures db.current == CurrentAfterPoll(old(db.current), pid, data)
    ensures db.history == old(db.history) && db.nextHistoryId == old(db.nextHistoryId)
    ensures !committed <==> Touches(data) && !DistinctColors(data.supplies)
  {
    db.status := db.status[pid := StatusRowOf(data)];
    committed := true;
    if data.isOnline && |data.supplies| > 0 {
      committed := ReplaceSupplies(db, pid, data.supplies);
    }
  }

  /** Some element of a non-empty set. */
  lemma Member(s: set<int>) returns (x: int)
    requires s != {}
    ensures x in s
  {
    if forall y :: y !in s {
      assert false;
    }
    x :| x in s;
  }

  /**
   * `refreshAllPrinters`: every printer in the table is polled once, in no promised order
   * (the SELECT has no ORDER BY); `poll` gives each printer's answer in this cycle. A
   * failing transaction is caught and the loop goes on with the next printer.
   */
  method RefreshAllPrinters(db: Database, poll: int -> Snmp.PollResult)
    requires db.Valid()
    modifies db`status, db`current, db`history, db`nextHistoryId
    ensures db.Valid()
    ensures db.printers == old(db.printers)
    ensures db.status == StatusAfter(old(db.status), db.printers.Keys, poll)
    ensures db.current == CurrentAfter(old(db.current), db.printers.Keys, poll)
    ensures db.history == old(db.history) && db.nextHistoryId == old(db.nextHistoryId)
  {
    var remaining := db.printers.Keys;
    ghost var done: set<int> := {};
    CurrentAfterEmpty(db.current, poll);
    assert StatusAfter(db.status, {}, poll) == db.status;
    while remaining != {}
      invariant remaining + done == db.printers.Keys && remaining !! done
      invariant db.status == StatusAfter(old(db.status), done, poll)
      invariant db.current == CurrentAfter(old(db.current), done, poll)
      invariant db.history == old(db.history) && db.nextHistoryId == old(db.nextHistoryId)
      invariant db.Valid()
      decreases remaining
    {
      ghost var some := Member(remaining);
      var id :| id in remaining;
      var _ := RefreshPrinter(db, id, poll(id));
      CurrentAfterStep(old(db.current), done, poll, id);
      remaining := remaining - {id};
      done := done + {id};
    }
  }

  // ---------------------------------------------------------------------------
  // updatePrinter
  // ---------------------------------------------------------------------------

  /** The columns an UPDATE of `printers` can set (after the `consumable_model` migration). */
  predicate IsColumn(key: string) {
    key in {"name", "brand", "model", "ip", "location", "display_order", "consumable_model"}
  }

  /**
   * A key the UPDATE can name as the schema stands: `consumable_model` only once the
   * migration of `seedPrinters` has added it.
   */
  predicate Settable(schema: map<string, set<string>>, key: string) {
    IsColumn(key) && HasColumn(schema, "printers", key)
  }

  /** The value of a settable column. */
  function FieldOf(p: Printer, key: string): SqlValue
    requires IsColumn(key)
  {
    match key
    case "name" => p.name
    case "brand" => p.brand
    case "model" => p.model
    case "ip" => p.ip
    case "location" => p.location
    case "display_order" => p.displayOrder
    case _ => p.consumableModel
  }

  function SetField(p: Printer, key: string, v: SqlValue): (r: Printer)
    requires IsColumn(key)
    ensures r.id == p.id && FieldOf(r, key) == v
    ensures forall k :: IsColumn(k) && k != key ==> FieldOf(r, k) == FieldOf(p, k)
  {
    match key
    case "name" => p.(name := v)
    case "brand" => p.(brand := v)
    case "model" => p.(model := v)
    case "ip" => p.(ip := v)
    case "location" => p.(location := v)
    case "display_order" => p.(displayOrder := v)
    case _ => p.(consumableModel := v)
  }

  /** The keys of the update data except `id` and `added_at`, in their order. */
  function Assignable(data: seq<(string, SqlValue)>): (r: seq<(string, SqlValue)>)
    ensures forall f :: f in r <==> f in data && f.0 != "id" && f.0 != "added_at"
  {
    if |data| == 0 then []
    else (if data[0].0 != "id" && data[0].0 != "added_at" then [data[0]] else []) + Assignable(data[1..])
  }

  /** The text of a SET clause: `k = @k` for every key, separated by ", ". */
  function SetClause(fields: seq<(string, SqlValue)>): string {
    if |fields| == 0 then ""
    else if |fields| == 1 then fields[0].0 + " = @" + fields[0].0
    else fields[0].0 + " = @" + fields[0].0 + ", " + SetClause(fields[1..])
  }

  /** `if (!fields) return`: the SET clause is empty exactly when no key is left. */
  lemma {:induction false} SetClauseEmpty(fields: seq<(string, SqlValue)>)
    ensures SetClause(fields) == "" <==> |fields| == 0
  {
    if |fields| > 0 {
      assert |SetClause(fields)| >= 3;
    }
  }

  /** The row after setting every field, in order. */
  function ApplyFields(p: Printer, fields: seq<(string, SqlValue)>): (r: Printer)
    requires forall f :: f in fields ==> IsColumn(f.0)
    ensures r.id == p.id
    ensures forall k :: IsColumn(k) && (forall f :: f in fields ==> f.0 != k) ==> FieldOf(r, k) == FieldOf(p, k)
    decreases |fields|
  {
    if |fields| == 0 then p else ApplyFields(SetField(p, fields[0].0, fields[0].1), fields[1..])
  }

  predicate DistinctKeys(fields: seq<(string, SqlValue)>) {
    forall i, j :: 0 <= i < j < |fields| ==> fields[i].0 != fields[j].0
  }

  /** Every supplied key ends up with its supplied value (the keys of a JS object are distinct). */
  lemma {:induction false} ApplyFieldsSets(p: Printer, fields: seq<(string, SqlValue)>, f: (string, SqlValue))
    requires forall g :: g in fields ==> IsColumn(g.0)
    requires DistinctKeys(fields) && f in fields
    ensures FieldOf(ApplyFields(p, fields), f.0) == f.1
    decreases |fields|
  {
    if fields[0] == f {
      assert forall g :: g in fields[1..] ==> g.0 != f.0 by {
        forall g | g in fields[1..] ensures g.0 != f.0 {
          var j :| 0 <= j < |fields[1..]| && fields[1..][j] == g;
          assert fields[j + 1] == g;
        }
      }
    } else {
      assert f in fields[1..];
      ApplyFieldsSets(SetField(p, fields[0].0, fields[0].1), fields[1..], f);
    }
  }

  datatype UpdateOutcome = NothingToSet | Updated(changes: nat) | SqlError

  /**
   * `updatePrinter(id, data)`: a key that is not a column of the table as the schema stands
   * or a second printer with the new ip makes the statement fail and change nothing; an id
   * that is not in the table changes no row.
   */
  method UpdatePrinter(db: Database, id: int, data: seq<(string, SqlValue)>) returns (outcome: UpdateOutcome)
    requires db.Valid()
    modifies db`printers
    ensures db.Valid()
    ensures var fields := Assignable(data);
      && (|fields| == 0 ==> outcome == NothingToSet)
      && (outcome == NothingToSet ==> |fields| == 0)
      && ((exists f :: f in fields && !Settable(db.schema, f.0)) ==> outcome == SqlError)
      && (outcome.Updated? ==> outcome.changes == (if id in old(db.printers) then 1 else 0))
      && (outcome.Updated? && id in old(db.printers) ==>
           db.printers == old(db.printers)[id := ApplyFields(old(db.printers)[id], fields)])
    ensures var fields := Assignable(data);
      |fields| > 0 && (forall f :: f in fields ==> Settable(db.schema, f.0)) && id !in old(db.printers) ==>
        outcome == Updated(0)
    ensures var fields := Assignable(data);
      |fields| > 0 && (forall f :: f in fields ==> Settable(db.schema, f.0)) && id in old(db.printers) ==>
        var row := ApplyFields(old(db.printers)[id], fields);
        (outcome == SqlError <==>
           row.ip != Null && exists other :: other in old(db.printers) && other != id && old(db.printers)[other].ip == row.ip)
    ensures !(outcome.Updated? && outcome.changes == 1) ==> db.printers == old(db.printers)
  {
    var fields := Assignable(data);
    var clause := SetClause(fields);
    SetClauseEmpty(fields);
    if clause == "" {
      return NothingToSet;
    }
    if exists f :: f in fields && !Settable(db.schema, f.0) {
      return SqlError;
    }
    if id !in db.printers {
      return Updated(0);
    }
    var row := ApplyFields(db.printers[id], fields);
    if row.ip != Null && exists other :: other in db.printers && other != id && db.printers[other].ip == row.ip {
      return SqlError;
    }
    db.printers := db.printers[id := row];
    return Updated(1);
  }

  // ---------------------------------------------------------------------------
  // deletePrinter, addReplacementHistory, seedPrinters
  // ---------------------------------------------------------------------------

  /** The history rows that do not belong to printer `pid`, in order. */
  function HistoryWithout(history: seq<HistoryRow>, pid: int): (r: seq<HistoryRow>)
    ensures forall row :: row in r <==> row in history && row.printerId != pid
    ensures |r| <= |history|
  {
    if |history| == 0 then []
    else
      HistoryWithout(history[..|history| - 1], pid)
      + (if history[|history| - 1].printerId != pid then [history[|history| - 1]] else [])
  }

  /** The history of printer `pid`, in order. */
  function HistoryOf(history: seq<HistoryRow>, pid: int): seq<HistoryRow> {
    if |history| == 0 then []
    else
      HistoryOf(history[..|history| - 1], pid)
      + (if history[|history| - 1].printerId == pid then [history[|history| - 1]] else [])
  }

  /** Deleting one printer's history leaves every other printer's history, in order. */
  lemma {:induction false} HistoryWithoutKeepsOthers(history: seq<HistoryRow>, pid: int, other: int)
    requires other != pid
    ensures HistoryOf(HistoryWithout(history, pid), other) == HistoryOf(history, other)
  {
    if |history| > 0 {
      var h := history[..|history| - 1];
      var last := history[|history| - 1];
      var w := HistoryWithout(h, pid);
      HistoryWithoutKeepsOthers(h, pid, other);
      assert HistoryOf(history, other) == HistoryOf(h, other) + (if last.printerId == other then [last] else []);
      if last.printerId != pid {
        var w' := w + [last];
        assert HistoryWithout(history, pid) == w';
        assert w'[..|w'| - 1] == w;
        assert HistoryOf(w', other) == HistoryOf(w, other) + (if last.printerId == other then [last] else []);
      } else {
        assert HistoryWithout(history, pid) == w + [];
        assert w + [] == w;
      }
    }
  }

  lemma {:induction false} HistoryWithoutAscending(history: seq<HistoryRow>, pid: int, next: int)
    requires AscendingIds(history, next)
    ensures AscendingIds(HistoryWithout(history, pid), next)
    ensures forall row :: row in HistoryWithout(history, pid) ==> row.id < next
  {
    if |history| > 0 {
      var h := history[..|history| - 1];
      var last := history[|history| - 1];
      HistoryWithoutAscending(h, pid, last.id);
    }
  }

  /** `deletePrinter`: one transaction over four tables, touching no other printer. */
  method DeletePrinter(db: Database, pid: int)
    requires db.Valid()
    modifies db`status, db`current, db`history, db`printers
    ensures db.Valid()
    ensures db.status == old(db.status) - {pid}
    ensures db.current == Without(old(db.current), pid)
    ensures db.history == HistoryWithout(old(db.history), pid)
    ensures db.printers == old(db.printers) - {pid}
  {
    ConsistentAfterDelete(db.printers, db.nextPrinterId, db.history, db.nextHistoryId, pid);
    db.status := db.status - {pid};
    db.current := Without(db.current, pid);
    db.history := HistoryWithout(db.history, pid);
    db.printers := db.printers - {pid};
  }

  /** Deleting a printer and its history keeps the schema's constraints. */
  lemma ConsistentAfterDelete(printers: map<int, Printer>, nextPrinterId: int, history: seq<HistoryRow>, nextHistoryId: int, pid: int)
    requires Consistent(printers, nextPrinterId, history, nextHistoryId)
    ensures Consistent(printers - {pid}, nextPrinterId, HistoryWithout(history, pid), nextHistoryId)
  {
    HistoryWithoutAscending(history, pid, nextHistoryId);
  }

  /**
   * `addReplacementHistory`: appends one row; an absent source means 'manual'. The row's
   * `printer_id` must name a printer (FOREIGN KEY, enforced by the bundled SQLite), so for
   * an unknown printer the insert throws and nothing is added.
   */
  method AddReplacementHistory(db: Database, pid: int, color: string, level: Num, maxCapacity: Num, source: Option<Source>)
    returns (added: bool)
    requires db.Valid()
    modifies db`history, db`nextHistoryId
    ensures db.Valid()
    ensures added <==> pid in db.printers
    ensures !added ==> db.history == old(db.history) && db.nextHistoryId == old(db.nextHistoryId)
    ensures added ==> db.history == old(db.history) + [HistoryRow(old(db.nextHistoryId), pid, color, Reading(level, maxCapacity),
      if source.Some? then source.value else Manual, None)]
    ensures added ==> db.nextHistoryId == old(db.nextHistoryId) + 1
  {
    if pid !in db.printers {
      return false;
    }
    added := true;
    var row := HistoryRow(db.nextHistoryId, pid, color, Reading(level, maxCapacity), if source.Some? then source.value else Manual, None);
    db.history := db.history + [row];
    db.nextHistoryId := db.nextHistoryId + 1;
  }

  /** The migration inside `seedPrinters`; its list of initial printers is empty, so nothing is inserted. */
  method SeedPrinters(db: Database)
    modifies db`schema
    ensures db.schema == if "printers" in old(db.schema) && "consumable_model" !in old(db.schema)["printers"]
      then old(db.schema)["printers" := old(db.schema)["printers"] + {"consumable_model"}] else old(db.schema)
  {
    var _ := db.AddColumn("printers", "consumable_model");
  }

  // ---------------------------------------------------------------------------
  // The lost replacement
  // ---------------------------------------------------------------------------

  /**
   * A cartridge read 5/100 last cycle and 95/100 now: the test holds against the previous
   * reading, yet the transaction as written logs nothing, while the intended one logs it.
   */
  method LostReplacement() returns (detected: bool, loggedAsWritten: nat, loggedIntended: nat)
    ensures detected && loggedAsWritten == 0 && loggedIntended == 1
  {
    var before := Reading(Finite(5), Finite(100));
    var black := Snmp.Supply("Black Toner", Finite(95), Finite(100), Finite(95), Snmp.Toner);
    ReplacementExamples();
    detected := ReplacementDetected(before, ReadingOf(black));

    var db := new Database.Open();
    db.current := map[(1, "Black Toner") := before];
    var _ := ReplaceSupplies(db, 1, [black]);
    loggedAsWritten := |db.history|;

    var db2 := new Database.Open();
    db2.current := map[(1, "Black Toner") := before];
    var previous := db2.current;
    var _ := ReplaceSuppliesIntended(db2, 1, [black]);
    assert [black][..0] == [];
    assert Events(previous, 1, [black]) == [black];
    loggedIntended := |db2.history|;
  }
}
