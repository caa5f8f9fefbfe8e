/**
 * The supply section of one dashboard card (`src/components/PrinterCard.tsx`): the stored
 * supplies are filtered (waste is hidden), reordered in place by a colour score, and each
 * one becomes the properties of a supply bar; an offline printer shows no bars at all.
 */
module PrinterCard {
  import opened Js
  import Snmp
  import SupplyBar

  /** One row of `supplies_current` as the card receives it. */
  datatype StoredSupply = StoredSupply(color: string, level: int, maxCapacity: int)

  /** The printer as the card receives it: `is_online` (0 when no status row exists) and its supplies. */
  datatype Printer = Printer(isOnline: int, supplies: seq<StoredSupply>)

  /** The hidden names: '废' anywhere, or 'waste' in the lower-cased name. */
  predicate IsWasteName(color: string) {
    Contains(color, "废") || Contains(ToLower(color), "waste")
  }

  /** A supply the card shows: its name is not a waste name. */
  predicate Shown(s: StoredSupply) {
    !IsWasteName(s.color)
  }

  /** The elements of `s` that satisfy `p`, in their order in `s`. */
  function Keep(s: seq<StoredSupply>, p: StoredSupply -> bool): (r: seq<StoredSupply>)
    ensures |r| <= |s|
    ensures forall i :: 0 <= i < |r| ==> p(r[i])
    ensures forall x :: x in r <==> x in s && p(x)
  {
    if |s| == 0 then []
    else
      var rest := Keep(s[..|s| - 1], p);
      var last := s[|s| - 1];
      assert s == s[..|s| - 1] + [last];
      if p(last) then rest + [last] else rest
  }

  /**
   * `Keep` keeps order and every copy: keeping from a concatenation keeps from each part,
   * and one element is kept exactly when it satisfies `p`.
   */
  lemma {:induction false} KeepAppend(a: seq<StoredSupply>, b: seq<StoredSupply>, p: StoredSupply -> bool)
    ensures Keep(a + b, p) == Keep(a, p) + Keep(b, p)
    ensures |b| == 1 ==> Keep(b, p) == if p(b[0]) then b else []
  {
    if |b| == 0 {
      assert a + b == a;
    } else {
      var init, last := b[..|b| - 1], b[|b| - 1];
      var tail := if p(last) then [last] else [];
      KeepAppend(a, init, p);
      assert (a + b)[..|a + b| - 1] == a + init;
      assert Keep(b, p) == Keep(init, p) + tail;
      assert Keep(a + b, p) == Keep(a + init, p) + tail;
      if |b| == 1 {
        assert init == [];
      }
    }
  }

  /** `printer.supplies.filter(...)`: the supplies that are not waste, in their stored order. */
  function Visible(supplies: seq<StoredSupply>): (r: seq<StoredSupply>)
    ensures |r| <= |supplies|
    ensures forall i :: 0 <= i < |r| ==> !IsWasteName(r[i].color)
    ensures forall s :: s in r <==> s in supplies && !IsWasteName(s.color)
  {
    Keep(supplies, Shown)
  }

  /**
   * The filter keeps the stored order and every copy: the visible supplies of a
   * concatenation are those of each part, and one supply is visible exactly when its name
   * is not a waste name.
   */
  lemma VisibleAppend(a: seq<StoredSupply>, b: seq<StoredSupply>)
    ensures Visible(a + b) == Visible(a) + Visible(b)
    ensures |b| == 1 ==> Visible(b) == if IsWasteName(b[0].color) then [] else b
  {
    KeepAppend(a, b, Shown);
  }

  /**
   * `getScore`: 1 for cyan, '青' or any 'c' without 'black'; 2 for magenta, '品' or any
   * 'm'; 3 for yellow, '黄' or any 'y'; 4 for black, '黑' or any 'k'; 10 otherwise.
   */
  function Score(color: string): (k: int)
    ensures k == 1 || k == 2 || k == 3 || k == 4 || k == 10
    ensures Contains(ToLower(color), "cyan") ==> k == 1
    ensures k == 10 ==> !Contains(ToLower(color), "c") && !Contains(ToLower(color), "m") && !Contains(ToLower(color), "y")
  {
    var name := ToLower(color);
    if Contains(name, "cyan") || Contains(name, "青") || (Contains(name, "c") && !Contains(name, "black")) then 1
    else if Contains(name, "magenta") || Contains(name, "品") || Contains(name, "m") then 2
    else if Contains(name, "yellow") || Contains(name, "黄") || Contains(name, "y") then 3
    else if Contains(name, "black") || Contains(name, "黑") || Contains(name, "k") then 4
    else 10
  }

  function Key(s: StoredSupply): int {
    Score(s.color)
  }

  /** Keys never decrease along `s`. */
  ghost predicate Ordered(s: seq<StoredSupply>, key: StoredSupply -> int) {
    forall i, j :: 0 <= i < j < |s| ==> key(s[i]) <= key(s[j])
  }

  /** The supplies of `s` with key `k`, in their order in `s`. */
  function OfKey(s: seq<StoredSupply>, key: StoredSupply -> int, k: int): seq<StoredSupply> {
    if |s| == 0 then []
    else OfKey(s[..|s| - 1], key, k) + (if key(s[|s| - 1]) == k then [s[|s| - 1]] else [])
  }

  /** Places `x` after every element of `s`'s tail whose key is at most its own. */
  function Insert(s: seq<StoredSupply>, x: StoredSupply, key: StoredSupply -> int): (r: seq<StoredSupply>)
    ensures |r| == |s| + 1
  {
    if |s| == 0 then [x]
    else if key(s[|s| - 1]) <= key(x) then s + [x]
    else Insert(s[..|s| - 1], x, key) + [s[|s| - 1]]
  }

  /** The stable order by `key`, built by inserting each element in turn. */
  function SortBy(xs: seq<StoredSupply>, key: StoredSupply -> int): (r: seq<StoredSupply>)
    ensures |r| == |xs|
  {
    if |xs| == 0 then []
    else Insert(SortBy(xs[..|xs| - 1], key), xs[|xs| - 1], key)
  }

  /** `supplies.sort((a, b) => getScore(a) - getScore(b))`. */
  function ByScore(xs: seq<StoredSupply>): (r: seq<StoredSupply>)
    ensures |r| == |xs|
  {
    SortBy(xs, Key)
  }

  lemma {:induction false} InsertMultiset(s: seq<StoredSupply>, x: StoredSupply, key: StoredSupply -> int)
    ensures multiset(Insert(s, x, key)) == multiset(s) + multiset{x}
  {
    if |s| > 0 && key(s[|s| - 1]) > key(x) {
      InsertMultiset(s[..|s| - 1], x, key);
      assert s == s[..|s| - 1] + [s[|s| - 1]];
    }
  }

  /** Every element of `Insert(s, x, key)` is bounded by whatever bounds `s` and `x`. */
  lemma {:induction false} InsertBound(s: seq<StoredSupply>, x: StoredSupply, key: StoredSupply -> int, b: int)
    requires forall i :: 0 <= i < |s| ==> key(s[i]) <= b
    requires key(x) <= b
    ensures forall i :: 0 <= i < |Insert(s, x, key)| ==> key(Insert(s, x, key)[i]) <= b
  {
    if |s| > 0 && key(s[|s| - 1]) > key(x) {
      InsertBound(s[..|s| - 1], x, key, b);
    }
  }

  lemma {:induction false} InsertOrdered(s: seq<StoredSupply>, x: StoredSupply, key: StoredSupply -> int)
    requires Ordered(s, key)
    ensures Ordered(Insert(s, x, key), key)
  {
    if |s| > 0 && key(s[|s| - 1]) > key(x) {
      var init, last := s[..|s| - 1], s[|s| - 1];
      InsertOrdered(init, x, key);
      InsertBound(init, x, key, key(last));
    }
  }

  lemma {:induction false} OfKeyAppend(s: seq<StoredSupply>, x: StoredSupply, key: StoredSupply -> int, k: int)
    ensures OfKey(s + [x], key, k) == OfKey(s, key, k) + (if key(x) == k then [x] else [])
  {
    assert (s + [x])[..|s|] == s;
  }

  /** Inserting `x` adds it to the end of its own key class and leaves the others alone. */
  lemma {:induction false} InsertOfKey(s: seq<StoredSupply>, x: StoredSupply, key: StoredSupply -> int, k: int)
    ensures OfKey(Insert(s, x, key), key, k) == OfKey(s, key, k) + (if key(x) == k then [x] else [])
  {
    if |s| == 0 {
      OfKeyAppend([], x, key, k);
      assert [] + [x] == [x];
    } else if key(s[|s| - 1]) <= key(x) {
      OfKeyAppend(s, x, key, k);
    } else {
      var init, last := s[..|s| - 1], s[|s| - 1];
      InsertOfKey(init, x, key, k);
      OfKeyAppend(Insert(init, x, key), last, key, k);
      OfKeyAppend(init, last, key, k);
      assert s == init + [last];
    }
  }

  /** `SortBy` orders by key, keeps the same elements, and keeps equal keys in input order. */
  lemma {:induction false} SortByIsStableSort(xs: seq<StoredSupply>, key: StoredSupply -> int)
    ensures Ordered(SortBy(xs, key), key)
    ensures multiset(SortBy(xs, key)) == multiset(xs)
    ensures forall k :: OfKey(SortBy(xs, key), key, k) == OfKey(xs, key, k)
  {
    if |xs| > 0 {
      var init, last := xs[..|xs| - 1], xs[|xs| - 1];
      SortByIsStableSort(init, key);
      InsertOrdered(SortBy(init, key), last, key);
      InsertMultiset(SortBy(init, key), last, key);
      assert xs == init + [last];
      forall k
        ensures OfKey(SortBy(xs, key), key, k) == OfKey(xs, key, k)
      {
        InsertOfKey(SortBy(init, key), last, key, k);
      }
    }
  }

  /**
   * The card's order is sorted by score, holds the same supplies, and keeps supplies of
   * equal score in their stored order.
   */
  lemma ByScoreSortsStably(xs: seq<StoredSupply>)
    ensures Ordered(ByScore(xs), Key)
    ensures multiset(ByScore(xs)) == multiset(xs)
    ensures forall k :: OfKey(ByScore(xs), Key, k) == OfKey(xs, Key, k)
  {
    SortByIsStableSort(xs, Key);
  }

  /** Sorts `a` in place by `key`, as `Array.prototype.sort` does with a key comparator. */
  method SortInPlace(a: array<StoredSupply>, key: StoredSupply -> int)
    modifies a
    ensures a[..] == SortBy(old(a[..]), key)
  {
    ghost var original := a[..];
    var i := 0;
    while i < a.Length
      invariant 0 <= i <= a.Length
      invariant a[..i] == SortBy(original[..i], key)
      invariant a[i..] == original[i..]
    {
      InsertAt(a, i, key);
      assert original[..i + 1] == original[..i] + [original[i]];
      i := i + 1;
    }
    assert original[..a.Length] == original;
  }

  /** Moves `a[i]` left past the larger keys of the prefix `a[..i]`, leaving the rest alone. */
  method InsertAt(a: array<StoredSupply>, i: int, key: StoredSupply -> int)
    requires 0 <= i < a.Length
    modifies a
    ensures a[..i + 1] == Insert(old(a[..i]), old(a[i]), key)
    ensures a[i + 1..] == old(a[i + 1..])
  {
    ghost var sorted := a[..i];
    ghost var rest := a[i + 1..];
    var x := a[i];
    var j := i;
    while j > 0 && key(a[j - 1]) > key(x)
      invariant 0 <= j <= i
      invariant a[..j] == sorted[..j]
      invariant a[j + 1..i + 1] == sorted[j..]
      invariant a[i + 1..] == rest
      invariant Insert(sorted, x, key) == Insert(sorted[..j], x, key) + sorted[j..]
    {
      ShiftStep(sorted, x, key, j);
      a[j] := a[j - 1];
      j := j - 1;
    }
    a[j] := x;
    InsertDone(sorted, x, key, j);
    assert a[..i + 1] == a[..j] + [x] + a[j + 1..i + 1];
  }

  /** One shift of the inner loop keeps the insertion's result unchanged. */
  lemma ShiftStep(sorted: seq<StoredSupply>, x: StoredSupply, key: StoredSupply -> int, j: int)
    requires 0 < j <= |sorted|
    requires key(sorted[j - 1]) > key(x)
    requires Insert(sorted, x, key) == Insert(sorted[..j], x, key) + sorted[j..]
    ensures Insert(sorted, x, key) == Insert(sorted[..j - 1], x, key) + sorted[j - 1..]
  {
    assert sorted[..j][..j - 1] == sorted[..j - 1];
    assert sorted[j - 1..] == [sorted[j - 1]] + sorted[j..];
  }

  /** Where the inner loop stops, the element goes right after the prefix it passed. */
  lemma InsertDone(sorted: seq<StoredSupply>, x: StoredSupply, key: StoredSupply -> int, j: int)
    requires 0 <= j <= |sorted|
    requires j == 0 || key(sorted[j - 1]) <= key(x)
    ensures Insert(sorted[..j], x, key) == sorted[..j] + [x]
  {
  }

  /**
   * `sortedSupplies`: the visible supplies, copied into a fresh array and reordered in
   * place by score.
   */
  method SortedSupplies(supplies: seq<StoredSupply>) returns (sorted: seq<StoredSupply>)
    ensures sorted == ByScore(Visible(supplies))
  {
    var visible := Visible(supplies);
    var a := new StoredSupply[|visible|](i requires 0 <= i < |visible| => visible[i]);
    assert a[..] == visible;
    SortInPlace(a, Key);
    sorted := a[..];
  }

  /** The percent handed to the bar: the rounded ratio for a positive capacity, else 0. */
  function Percent(level: int, max: int): (p: int)
    ensures max <= 0 ==> p == 0
  {
    if max > 0 then Snmp.RoundPercent(level, max) else 0
  }

  /**
   * For a positive capacity the percent is the nearest integer to 100*level/max (halves
   * up), with no clamping: it passes 100 when the level exceeds the capacity and is
   * negative for a negative level.
   */
  lemma PercentIsRoundedRatio(level: int, max: int)
    requires max > 0
    ensures var p := Percent(level, max);
      && 2 * max * p <= 200 * level + max < 2 * max * p + 2 * max
      && (level > max ==> p >= 100)
  {
    Snmp.RoundPercentIsNearest(level, max);
  }

  lemma PercentIsNotClamped()
    ensures Percent(3, 2) == 150
    ensures Percent(-1, 4) == -25
  {
  }

  /** The properties of one `SupplyBar`. */
  datatype BarProps = BarProps(colorName: string, level: int, max: int, percent: int, kind: SupplyBar.SupplyKind)

  /** `type={... includes('waste') ? 'waste' : 'toner'}`. */
  function KindOf(color: string): (kind: SupplyBar.SupplyKind)
    ensures kind == SupplyBar.Waste <==> Contains(ToLower(color), "waste")
    ensures kind != SupplyBar.Other
  {
    if Contains(ToLower(color), "waste") then SupplyBar.Waste else SupplyBar.Toner
  }

  function PropsOf(s: StoredSupply): BarProps {
    BarProps(s.color, s.level, s.maxCapacity, Percent(s.level, s.maxCapacity), KindOf(s.color))
  }

  function BarsOf(sorted: seq<StoredSupply>): (bars: seq<BarProps>)
    ensures |bars| == |sorted|
    ensures forall i :: 0 <= i < |sorted| ==> bars[i] == PropsOf(sorted[i])
  {
    if |sorted| == 0 then [] else [PropsOf(sorted[0])] + BarsOf(sorted[1..])
  }

  /** What the card's supply area shows. */
  datatype Body = Bars(bars: seq<BarProps>) | Loading | OfflineNotice

  /** `isOnline`: exactly `is_online === 1`. */
  predicate IsOnline(p: Printer) {
    p.isOnline == 1
  }

  /** The supply area: bars for an online printer with visible supplies, else a placeholder. */
  function CardBody(p: Printer): (b: Body)
    ensures !IsOnline(p) <==> b == OfflineNotice
    ensures b == Loading <==> IsOnline(p) && |Visible(p.supplies)| == 0
  {
    if !IsOnline(p) then OfflineNotice
    else
      var sorted := ByScore(Visible(p.supplies));
      if |sorted| > 0 then Bars(BarsOf(sorted)) else Loading
  }

  /**
   * The bars of a card are its non-waste supplies, ordered stably by score; every one is
   * a toner bar, since the waste names were filtered out before the type test.
   */
  lemma CardBars(p: Printer)
    requires CardBody(p).Bars?
    ensures IsOnline(p)
    ensures var bars := CardBody(p).bars;
      && (forall i :: 0 <= i < |bars| ==> bars[i].kind == SupplyBar.Toner && !IsWasteName(bars[i].colorName))
      && (forall i, j :: 0 <= i < j < |bars| ==> Score(bars[i].colorName) <= Score(bars[j].colorName))
      && |bars| == |Visible(p.supplies)|
      && (forall i :: 0 <= i < |bars| ==> bars[i] == PropsOf(ByScore(Visible(p.supplies))[i]))
      && multiset(ByScore(Visible(p.supplies))) == multiset(Visible(p.supplies))
  {
    var sorted := ByScore(Visible(p.supplies));
    ByScoreSortsStably(Visible(p.supplies));
    var bars := CardBody(p).bars;
    forall i | 0 <= i < |bars|
      ensures bars[i].kind == SupplyBar.Toner && !IsWasteName(bars[i].colorName)
    {
      assert sorted[i] in multiset(Visible(p.supplies));
    }
    forall i, j | 0 <= i < j < |bars|
      ensures Score(bars[i].colorName) <= Score(bars[j].colorName)
    {
      assert Key(sorted[i]) <= Key(sorted[j]);
    }
  }

  /** A hidden supply never reaches a bar, online or not. */
  lemma WasteNeverRendered(p: Printer, s: StoredSupply)
    requires s in p.supplies && IsWasteName(s.color)
    ensures CardBody(p).Bars? ==> forall b :: b in CardBody(p).bars ==> b.colorName != s.color
  {
    if CardBody(p).Bars? {
      CardBars(p);
    }
  }

  /**
   * The score's bare 'c' also catches 'cartridge': 'Magenta Toner Cartridge' is sorted into
   * the cyan place, while its bar is painted magenta.
   */
  lemma CartridgeSortsAsCyan(name: string)
    requires name == "Magenta Toner Cartridge"
    ensures Score(name) == 1
    ensures SupplyBar.Colors(name, SupplyBar.Toner).0 == SupplyBar.Magenta
  {
    var lower := ToLower(name);
    MagentaLower(name);
    MagentaScoreTests(lower);
    MagentaColourTests(lower);
  }

  lemma MagentaLower(name: string)
    requires name == "Magenta Toner Cartridge"
    ensures ToLower(name) == "magenta toner cartridge"
  {
  }

  lemma MagentaScoreTests(lower: string)
    requires lower == "magenta toner cartridge"
    ensures Contains(lower, "c") && !Contains(lower, "black")
  {
    assert forall k :: 0 <= k < |lower| ==> lower[k] != 'b';
    assert OccursAt(lower, "c", 14);
    SupplyBar.MissingChar(lower, "black", 'b');
  }

  lemma MagentaColourTests(lower: string)
    requires lower == "magenta toner cartridge"
    ensures !SupplyBar.CyanName(lower) && SupplyBar.MagentaName(lower)
  {
    assert forall k :: 0 <= k < |lower| ==> lower[k] != 'y' && lower[k] != '青';
    assert OccursAt(lower, "cartridge", 14);
    assert OccursAt(lower, "magenta", 0);
    SupplyBar.MissingChar(lower, "cyan", 'y');
    SupplyBar.MissingChar(lower, "青", '青');
  }
}
