/**
 * The dashboard's rendering of one stored supply (`src/components/SupplyBar.tsx`): the
 * binary-cartridge rule, the bar and text colours, the short label under the bar, the
 * text above it and the height of the liquid. Everything is a function of the supply's
 * name, its percentage and its type.
 */
module SupplyBar {
  import opened Js

  datatype SupplyKind = Toner | Waste | Other

  /** `colorName.toLowerCase().includes('cartridge for lbp')`. */
  predicate IsBinaryCartridge(colorName: string) {
    Contains(ToLower(colorName), "cartridge for lbp")
  }

  datatype BarColor = Slate | Cyan | Magenta | Yellow | Dark
  datatype TextColor = White | SlateDark

  /** The cyan test: 'cyan' or '青', or ' c' without 'black' or 'cartridge'. */
  predicate CyanName(lower: string) {
    Contains(lower, "cyan") || Contains(lower, "青")
    || (Contains(lower, " c") && !Contains(lower, "black") && !Contains(lower, "cartridge"))
  }

  /** The magenta test: 'magenta' or '品', or ' m' without 'black'. */
  predicate MagentaName(lower: string) {
    Contains(lower, "magenta") || Contains(lower, "品") || (Contains(lower, " m") && !Contains(lower, "black"))
  }

  /** The yellow test: 'yellow' or '黄', or ' y' without 'black'. */
  predicate YellowName(lower: string) {
    Contains(lower, "yellow") || Contains(lower, "黄") || (Contains(lower, " y") && !Contains(lower, "black"))
  }

  /**
   * The bar and text colours: waste is slate on white text; otherwise the first of cyan,
   * magenta and yellow whose test holds, and dark for everything else.
   */
  function Colors(colorName: string, kind: SupplyKind): (c: (BarColor, TextColor))
    ensures kind == Waste <==> c.0 == Slate
    ensures c.1 == SlateDark <==> c.0 == Cyan || c.0 == Yellow
  {
    var lower := ToLower(colorName);
    if kind == Waste then (Slate, White)
    else if CyanName(lower) then (Cyan, SlateDark)
    else if MagentaName(lower) then (Magenta, White)
    else if YellowName(lower) then (Yellow, SlateDark)
    else (Dark, White)
  }

  /** Cyan wins over magenta, magenta over yellow, and yellow over the dark default. */
  lemma ColorPrecedence(colorName: string, kind: SupplyKind)
    requires kind != Waste
    ensures var lower := ToLower(colorName);
      && (CyanName(lower) ==> Colors(colorName, kind).0 == Cyan)
      && (!CyanName(lower) && MagentaName(lower) ==> Colors(colorName, kind).0 == Magenta)
      && (!CyanName(lower) && !MagentaName(lower) && YellowName(lower) ==> Colors(colorName, kind).0 == Yellow)
      && (Colors(colorName, kind).0 == Dark <==> !CyanName(lower) && !MagentaName(lower) && !YellowName(lower))
  {
  }

  /** ' c' alone does not make a cartridge cyan: 'Toner Cartridge C' stays dark. */
  lemma CartridgeIsNotCyan()
    ensures Colors("Toner Cartridge C", Toner).0 == Dark
  {
    assert ToLower("Toner Cartridge C") == "toner cartridge c";
    CartridgeNameTests(ToLower("Toner Cartridge C"));
  }

  lemma CartridgeNameTests(a: string)
    requires a == "toner cartridge c"
    ensures !CyanName(a) && !MagentaName(a) && !YellowName(a)
  {
    assert forall k :: 0 <= k < |a| ==> a[k] != 'y' && a[k] != 'm' && a[k] != '青' && a[k] != '品' && a[k] != '黄';
    assert OccursAt(a, "cartridge", 6);
    MissingChar(a, "cyan", 'y');
    MissingChar(a, "青", '青');
    MissingChar(a, "magenta", 'm');
    MissingChar(a, "品", '品');
    MissingChar(a, " m", 'm');
    MissingChar(a, "yellow", 'y');
    MissingChar(a, "黄", '黄');
    MissingChar(a, " y", 'y');
  }

  /** Without 'black' or 'cartridge', ' c' makes a toner cyan. */
  lemma SpaceCIsCyan()
    ensures Colors("Toner C", Toner).0 == Cyan
  {
    assert ToLower("Toner C") == "toner c";
    SpaceCNameTests(ToLower("Toner C"));
  }

  lemma SpaceCNameTests(b: string)
    requires b == "toner c"
    ensures CyanName(b)
  {
    assert forall k :: 0 <= k < |b| ==> b[k] != 'b' && b[k] != 'a';
    assert OccursAt(b, " c", 5);
    MissingChar(b, "black", 'b');
    MissingChar(b, "cartridge", 'a');
  }

  /** A name with a character that `s` lacks does not occur in `s`. */
  lemma MissingChar(s: string, sub: string, c: char)
    requires c in sub && c !in s
    ensures !Contains(s, sub)
  {
  }

  /** The five labels `getShortName` can produce. */
  const ShortNames: set<string> := {"废料", "青色", "品红", "黄色", "黑色"}

  /**
   * `getShortName(lowerName, type)`. The closing `substring(0, 2)` is kept as written;
   * it is unreachable, because the test before it always holds when the earlier ones fail.
   */
  function ShortName(lower: string, kind: SupplyKind): (r: string)
    ensures r in ShortNames
    ensures kind == Waste <==> r == "废料"
    ensures kind != Waste && !Contains(lower, "cyan") && !Contains(lower, "青") && !Contains(lower, "magenta")
            && !Contains(lower, "品") && !Contains(lower, "yellow") && !Contains(lower, "黄")
            ==> r == "黑色"
  {
    if kind == Waste then "废料"
    else if Contains(lower, "cyan") || Contains(lower, "青") then "青色"
    else if Contains(lower, "magenta") || Contains(lower, "品") then "品红"
    else if Contains(lower, "yellow") || Contains(lower, "黄") then "黄色"
    else if Contains(lower, "black") || Contains(lower, "黑色") || Contains(lower, "k") then "黑色"
    else if !Contains(lower, "cyan") && !Contains(lower, "magenta") && !Contains(lower, "yellow") then "黑色"
    else FirstTwo(lower)
  }

  /** `name.substring(0, 2)`. */
  function FirstTwo(s: string): string {
    if |s| <= 2 then s else s[..2]
  }

  /** `getDisplayText`: a no-break space for a binary cartridge, else the percentage and '%'. */
  function DisplayText(percent: int, colorName: string): (r: string)
    ensures IsBinaryCartridge(colorName) ==> r == "\U{00A0}"
    ensures !IsBinaryCartridge(colorName) ==> |r| >= 2 && r[|r| - 1] == '%'
  {
    if IsBinaryCartridge(colorName) then "\U{00A0}" else IntToString(percent) + "%"
  }

  /** The text above a non-binary bar reads back, with `parseInt`, as its percentage. */
  lemma DisplayTextReadsBack(percent: int, colorName: string)
    requires !IsBinaryCartridge(colorName)
    ensures ParseInt(DisplayText(percent, colorName)) == Finite(percent)
  {
    ParseIntOfIntToStringThen(percent, "%");
  }

  /** The word inside a binary cartridge's block: 'normal' while any level is left, else 'empty'. */
  function BinaryLabel(percent: int): (r: string)
    ensures r == "正常" <==> percent > 0
    ensures r == "耗尽" <==> percent <= 0
  {
    if percent > 0 then "正常" else "耗尽"
  }

  /** `Math.max(percent, 0)`: the liquid's height in percent. */
  function LiquidHeight(percent: int): (h: nat)
    ensures h >= percent
    ensures h == percent || h == 0
  {
    if percent > 0 then percent else 0
  }

  /** What the bar body shows: the word for a binary cartridge, or the coloured liquid. */
  datatype Body = Word(text: string) | Liquid(height: nat, color: BarColor)

  /**
   * The values the component computes for one bar: the text above it, its body and short
   * name are rendered; the text colour is computed but the markup never uses it.
   */
  datatype View = View(above: string, body: Body, shortName: string, textColor: TextColor)

  function Render(colorName: string, percent: int, kind: SupplyKind): (v: View)
    ensures v.body.Word? <==> IsBinaryCartridge(colorName)
    ensures v.shortName in ShortNames
  {
    var colors := Colors(colorName, kind);
    View(DisplayText(percent, colorName),
         if IsBinaryCartridge(colorName) then Word(BinaryLabel(percent)) else Liquid(LiquidHeight(percent), colors.0),
         ShortName(ToLower(colorName), kind),
         colors.1)
  }

  /** 'Canon Cartridge for LBP' is binary: no number above it, and a word in the bar. */
  lemma BinaryCartridgeExample()
    ensures var v := Render("Canon Cartridge for LBP", 0, Toner);
      v.above == "\U{00A0}" && v.body == Word("耗尽") && v.shortName == "黑色"
  {
    var name := "Canon Cartridge for LBP";
    var lower := ToLower(name);
    CanonLower(name);
    CanonIsBinary(lower);
    CanonNameTests(lower);
    assert IsBinaryCartridge(name);
    assert DisplayText(0, name) == "\U{00A0}";
    assert ShortName(lower, Toner) == "黑色";
  }

  lemma CanonLower(name: string)
    requires name == "Canon Cartridge for LBP"
    ensures ToLower(name) == "canon cartridge for lbp"
  {
  }

  lemma CanonIsBinary(lower: string)
    requires lower == "canon cartridge for lbp"
    ensures Contains(lower, "cartridge for lbp")
  {
    assert OccursAt(lower, "cartridge for lbp", 6);
  }

  lemma CanonNameTests(lower: string)
    requires lower == "canon cartridge for lbp"
    ensures && !Contains(lower, "cyan") && !Contains(lower, "青") && !Contains(lower, "magenta")
      && !Contains(lower, "品") && !Contains(lower, "yellow") && !Contains(lower, "黄")
  {
    assert forall k :: 0 <= k < |lower| ==> lower[k] != 'y' && lower[k] != 'm' && lower[k] != '青' && lower[k] != '品' && lower[k] != '黄';
    MissingChar(lower, "cyan", 'y');
    MissingChar(lower, "青", '青');
    MissingChar(lower, "magenta", 'm');
    MissingChar(lower, "品", '品');
    MissingChar(lower, "yellow", 'y');
    MissingChar(lower, "黄", '黄');
  }
}
