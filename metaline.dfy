/**
 * `draw_item_size_block` (Run.py): the "size · condition · brand" line, laid out left
 * to right by a running x position.
 */
module MetaLine {
  import opened Layout

  /** The separator glyph, U+00B7. */
  const Dot := "·"
  /** Pixels added after every run. */
  const Spacing := 6

  /** Colour of size, condition and both dots. */
  function TextColor(theme: Theme): Color {
    if theme == Light then "#606b6c" else "#99a2a1"
  }

  /** Colour of the brand and its underline, the same in both themes. */
  const BrandColor: Color := "#648a93"

  /** A run to draw: its text and colour. */
  datatype Segment = Segment(s: string, color: Color)

  /** The run for a field, or none when the field is empty (`if size:` and so on). */
  function Field(s: string, color: Color): seq<Segment> {
    if s != "" then [Segment(s, color)] else []
  }

  /** The runs in drawing order: an empty field is skipped, both dots never are. */
  function Segments(size: string, condition: string, brand: string, theme: Theme): seq<Segment> {
    var tc := TextColor(theme);
    Field(size, tc) + [Segment(Dot, tc)] + Field(condition, tc) + [Segment(Dot, tc)] + Field(brand, BrandColor)
  }

  /** Where the run after `segs` starts when the first one starts at `x`. */
  function Advance(segs: seq<Segment>, x: real, size: int, font: Font): real {
    if segs == [] then x
    else Advance(segs[1..], x + font.width(segs[0].s, size) + Spacing as real, size, font)
  }

  /** The runs drawn one after another from `x`, each `Spacing` pixels after the previous advance. */
  function Place(segs: seq<Segment>, x: real, yOff: int, size: int, font: Font): (ops: seq<Op>)
    ensures |ops| == |segs|
    ensures |segs| > 0 ==> ops[0].x == x
  {
    if segs == [] then []
    else
      [Text(x, yOff, segs[0].s, size, segs[0].color)]
      + Place(segs[1..], x + font.width(segs[0].s, size) + Spacing as real, yOff, size, font)
  }

  /**
   * The line as drawn: the runs at the first fitting size, vertically centred on `y`,
   * and an underline below the brand when there is one.
   */
  function ItemSizeOps(size: string, condition: string, brand: string, x: int, y: int, h: int,
                       theme: Theme, font: Font, ghost bound: int): (ops: seq<Op>)
    requires Reaches(font, h, bound)
  {
    var fs := FirstFit(font.metric, h, MinSize, bound);
    var yOff := y - font.metric(fs) / 2;
    var runs := Place(Segments(size, condition, brand, theme), x as real, yOff, fs, font);
    runs + (if brand != "" then [Rule(runs[|runs| - 1].x, yOff, brand, fs, BrandColor)] else [])
  }

  /** `ItemSizeOps` taken apart into its runs and its optional underline. */
  lemma ItemSizeOpsParts(size: string, condition: string, brand: string, x: int, y: int, h: int,
                         theme: Theme, font: Font, bound: int)
    requires Reaches(font, h, bound)
    ensures var fs := FirstFit(font.metric, h, MinSize, bound);
            var yOff := y - font.metric(fs) / 2;
            var runs := Place(Segments(size, condition, brand, theme), x as real, yOff, fs, font);
            ItemSizeOps(size, condition, brand, x, y, h, theme, font, bound)
              == runs + (if brand != "" then [Rule(runs[|runs| - 1].x, yOff, brand, fs, BrandColor)] else [])
  {
  }

  lemma {:induction false} AdvanceSnoc(segs: seq<Segment>, g: Segment, x: real, size: int, font: Font)
    ensures Advance(segs + [g], x, size, font) == Advance(segs, x, size, font) + font.width(g.s, size) + Spacing as real
  {
    if segs != [] {
      assert (segs + [g])[1..] == segs[1..] + [g];
      AdvanceSnoc(segs[1..], g, x + font.width(segs[0].s, size) + Spacing as real, size, font);
    }
  }

  lemma {:induction false} PlaceSnoc(segs: seq<Segment>, g: Segment, x: real, yOff: int, size: int, font: Font)
    ensures Place(segs + [g], x, yOff, size, font)
         == Place(segs, x, yOff, size, font) + [Text(Advance(segs, x, size, font), yOff, g.s, size, g.color)]
  {
    if segs != [] {
      assert (segs + [g])[1..] == segs[1..] + [g];
      PlaceSnoc(segs[1..], g, x + font.width(segs[0].s, size) + Spacing as real, yOff, size, font);
    }
  }

  /** Every later run starts strictly to the right of every earlier one. */
  lemma {:induction false} PlaceIncreasing(segs: seq<Segment>, x: real, yOff: int, size: int, font: Font)
    ensures var ops := Place(segs, x, yOff, size, font);
            (forall i :: 0 <= i < |ops| ==> x <= ops[i].x) &&
            forall i, j :: 0 <= i < j < |ops| ==> ops[i].x < ops[j].x
  {
    if segs != [] {
      var x' := x + font.width(segs[0].s, size) + Spacing as real;
      PlaceIncreasing(segs[1..], x', yOff, size, font);
      var ops := Place(segs, x, yOff, size, font);
      assert forall i :: 1 <= i < |ops| ==> ops[i] == Place(segs[1..], x', yOff, size, font)[i - 1];
    }
  }

  /** Placing the runs lower moves every run down by the same amount and nowhere else. */
  lemma {:induction false} PlaceLowered(segs: seq<Segment>, x: real, yOff: int, size: int, font: Font, d: int)
    ensures Place(segs, x, yOff + d, size, font) == Lowered(Place(segs, x, yOff, size, font), d)
  {
    if segs != [] {
      var x' := x + font.width(segs[0].s, size) + Spacing as real;
      PlaceLowered(segs[1..], x', yOff, size, font, d);
      LoweredAppend([Text(x, yOff, segs[0].s, size, segs[0].color)], Place(segs[1..], x', yOff, size, font), d);
    }
  }

  /** Anchoring the line `d` pixels lower moves every call of it `d` pixels down. */
  lemma ItemSizeOpsLowered(size: string, condition: string, brand: string, x: int, y: int, h: int,
                           theme: Theme, font: Font, bound: int, d: int)
    requires Reaches(font, h, bound)
    ensures ItemSizeOps(size, condition, brand, x, y + d, h, theme, font, bound)
         == Lowered(ItemSizeOps(size, condition, brand, x, y, h, theme, font, bound), d)
  {
    ItemSizeOpsParts(size, condition, brand, x, y, h, theme, font, bound);
    ItemSizeOpsParts(size, condition, brand, x, y + d, h, theme, font, bound);
    var fs := FirstFit(font.metric, h, MinSize, bound);
    var yOff := y - font.metric(fs) / 2;
    assert (y + d) - font.metric(fs) / 2 == yOff + d;
    var segs := Segments(size, condition, brand, theme);
    var runs := Place(segs, x as real, yOff, fs, font);
    PlaceLowered(segs, x as real, yOff, fs, font, d);
    var runs' := Place(segs, x as real, yOff + d, fs, font);
    var rule := if brand != "" then [Rule(runs[|runs| - 1].x, yOff, brand, fs, BrandColor)] else [];
    var rule' := if brand != "" then [Rule(runs'[|runs'| - 1].x, yOff + d, brand, fs, BrandColor)] else [];
    assert rule' == Lowered(rule, d) by {
      if brand != "" {
        assert runs'[|runs'| - 1].x == runs[|runs| - 1].x;
      }
    }
    LoweredAppend(runs, rule, d);
    assert ItemSizeOps(size, condition, brand, x, y, h, theme, font, bound) == runs + rule;
    assert ItemSizeOps(size, condition, brand, x, y + d, h, theme, font, bound) == runs' + rule';
  }

  /** `ops` are the runs of `done` placed from `x`, and the next run starts at `curX`. */
  ghost predicate Placed(ops: seq<Op>, curX: real, done: seq<Segment>, x: real, yOff: int, size: int, font: Font) {
    ops == Place(done, x, yOff, size, font) && curX == Advance(done, x, size, font)
  }

  /** Drawing one more run and advancing `cur_x` keeps `Placed`. */
  lemma Step(ops: seq<Op>, curX: real, done: seq<Segment>, g: Segment, x: real, yOff: int, size: int, font: Font)
    requires Placed(ops, curX, done, x, yOff, size, font)
    ensures Placed(ops + [Text(curX, yOff, g.s, size, g.color)], curX + font.width(g.s, size) + Spacing as real,
                   done + [g], x, yOff, size, font)
  {
    PlaceSnoc(done, g, x, yOff, size, font);
    AdvanceSnoc(done, g, x, size, font);
  }

  /** The source's straight-line code with its running `cur_x`. */
  method DrawItemSizeBlock(size: string, condition: string, brand: string, x: int, y: int, h: int,
                           theme: Theme, font: Font, ghost bound: int) returns (ops: seq<Op>)
    requires Reaches(font, h, bound)
    ensures ops == ItemSizeOps(size, condition, brand, x, y, h, theme, font, bound)
  {
    var fs := SearchFontSize(font, h, bound);
    var yOff := y - font.metric(fs) / 2;
    var textColor, brandColor := TextColor(theme), BrandColor;
    var curX := x as real;
    ghost var done: seq<Segment> := [];
    ops := [];

    if size != "" {
      Step(ops, curX, done, Segment(size, textColor), x as real, yOff, fs, font);
      ops := ops + [Text(curX, yOff, size, fs, textColor)];
      curX := curX + font.width(size, fs) + Spacing as real;
      done := done + [Segment(size, textColor)];
    }
    assert done == Field(size, textColor);
    Step(ops, curX, done, Segment(Dot, textColor), x as real, yOff, fs, font);
    ops := ops + [Text(curX, yOff, Dot, fs, textColor)];
    curX := curX + font.width(Dot, fs) + Spacing as real;
    done := done + [Segment(Dot, textColor)];

    if condition != "" {
      Step(ops, curX, done, Segment(condition, textColor), x as real, yOff, fs, font);
      ops := ops + [Text(curX, yOff, condition, fs, textColor)];
      curX := curX + font.width(condition, fs) + Spacing as real;
      done := done + [Segment(condition, textColor)];
    }
    assert done == Field(size, textColor) + [Segment(Dot, textColor)] + Field(condition, textColor);
    Step(ops, curX, done, Segment(Dot, textColor), x as real, yOff, fs, font);
    ops := ops + [Text(curX, yOff, Dot, fs, textColor)];
    curX := curX + font.width(Dot, fs) + Spacing as real;
    done := done + [Segment(Dot, textColor)];

    if brand != "" {
      Step(ops, curX, done, Segment(brand, brandColor), x as real, yOff, fs, font);
      ops := ops + [Text(curX, yOff, brand, fs, brandColor)];
      done := done + [Segment(brand, brandColor)];
    }
    ghost var runs := ops;
    if brand != "" {
      ops := ops + [Rule(curX, yOff, brand, fs, brandColor)];
    }
    assert done == Field(size, textColor) + [Segment(Dot, textColor)] + Field(condition, textColor)
                   + [Segment(Dot, textColor)] + Field(brand, brandColor);
    assert runs == Place(Segments(size, condition, brand, theme), x as real, yOff, fs, font);
    assert brand != "" ==> runs[|runs| - 1].x == curX;
    ItemSizeOpsFrom(size, condition, brand, x, y, h, theme, font, bound, yOff, fs, runs, ops);
  }

  lemma ItemSizeOpsFrom(size: string, condition: string, brand: string, x: int, y: int, h: int,
                        theme: Theme, font: Font, bound: int, yOff: int, fs: int, runs: seq<Op>, ops: seq<Op>)
    requires Reaches(font, h, bound)
    requires fs == FirstFit(font.metric, h, MinSize, bound) && yOff == y - font.metric(fs) / 2
    requires runs == Place(Segments(size, condition, brand, theme), x as real, yOff, fs, font)
    requires ops == runs + (if brand != "" then [Rule(runs[|runs| - 1].x, yOff, brand, fs, BrandColor)] else [])
    ensures ops == ItemSizeOps(size, condition, brand, x, y, h, theme, font, bound)
  {
    ItemSizeOpsParts(size, condition, brand, x, y, h, theme, font, bound);
  }

  // ---------------------------------------------------------------- properties

  /** Number of runs drawing exactly `s`. */
  function CountText(ops: seq<Op>, s: string): nat {
    if ops == [] then 0 else (if ops[0].Text? && ops[0].s == s then 1 else 0) + CountText(ops[1..], s)
  }

  lemma {:induction false} CountTextAppend(a: seq<Op>, b: seq<Op>, s: string)
    ensures CountText(a + b, s) == CountText(a, s) + CountText(b, s)
  {
    if a == [] {
      assert a + b == b;
    } else {
      assert (a + b)[0] == a[0] && (a + b)[1..] == a[1..] + b;
      CountTextAppend(a[1..], b, s);
    }
  }

  /** The concatenated texts of `segs`. */
  function SegText(segs: seq<Segment>): string {
    if segs == [] then "" else segs[0].s + SegText(segs[1..])
  }

  /** How many of `segs` have text `s`. */
  function SegCount(segs: seq<Segment>, s: string): nat {
    if segs == [] then 0 else (if segs[0].s == s then 1 else 0) + SegCount(segs[1..], s)
  }

  lemma {:induction false} SegAppend(a: seq<Segment>, b: seq<Segment>, s: string)
    ensures SegText(a + b) == SegText(a) + SegText(b)
    ensures SegCount(a + b, s) == SegCount(a, s) + SegCount(b, s)
  {
    if a == [] {
      assert a + b == b;
    } else {
      assert (a + b)[0] == a[0] && (a + b)[1..] == a[1..] + b;
      SegAppend(a[1..], b, s);
    }
  }

  lemma {:induction false} PlaceDrawn(segs: seq<Segment>, x: real, yOff: int, size: int, font: Font, s: string)
    ensures Drawn(Place(segs, x, yOff, size, font)) == SegText(segs)
    ensures CountText(Place(segs, x, yOff, size, font), s) == SegCount(segs, s)
  {
    if segs != [] {
      var x' := x + font.width(segs[0].s, size) + Spacing as real;
      PlaceDrawn(segs[1..], x', yOff, size, font, s);
      var ops := Place(segs, x, yOff, size, font);
      assert ops[1..] == Place(segs[1..], x', yOff, size, font);
    }
  }

  lemma SegSingle(g: Segment, s: string)
    ensures SegText([g]) == g.s
    ensures SegCount([g], s) == if g.s == s then 1 else 0
  {
    assert [g][1..] == [];
  }

  /** The texts and the dot count of the runs, before any underline is added. */
  lemma SegmentsText(size: string, condition: string, brand: string, theme: Theme)
    ensures SegText(Segments(size, condition, brand, theme)) == size + Dot + condition + Dot + brand
    ensures size != Dot && condition != Dot && brand != Dot ==>
              SegCount(Segments(size, condition, brand, theme), Dot) == 2
  {
    var tc := TextColor(theme);
    var a, b, c := Field(size, tc), Field(condition, tc), Field(brand, BrandColor);
    var d := [Segment(Dot, tc)];
    SegAppend(a, d, Dot);
    SegAppend(a + d, b, Dot);
    SegAppend(a + d + b, d, Dot);
    SegAppend(a + d + b + d, c, Dot);
    SegSingle(Segment(Dot, tc), Dot);
    if size != "" { SegSingle(Segment(size, tc), Dot); }
    if condition != "" { SegSingle(Segment(condition, tc), Dot); }
    if brand != "" { SegSingle(Segment(brand, BrandColor), Dot); }
  }

  /** Underline calls draw no text. */
  lemma {:induction false} RulesDrawNothing(rule: seq<Op>, s: string)
    requires forall i :: 0 <= i < |rule| ==> rule[i].Rule?
    ensures Drawn(rule) == "" && CountText(rule, s) == 0
  {
    if rule != [] {
      RulesDrawNothing(rule[1..], s);
    }
  }

  /**
   * What the line draws reads "size·condition·brand": the fields in that order with a
   * dot after size and after condition, whether or not the fields are empty. With no
   * field equal to the dot itself, exactly two runs draw a dot.
   */
  lemma ItemLineText(size: string, condition: string, brand: string, x: int, y: int, h: int,
                     theme: Theme, font: Font, bound: int)
    requires Reaches(font, h, bound)
    ensures var ops := ItemSizeOps(size, condition, brand, x, y, h, theme, font, bound);
            Drawn(ops) == size + Dot + condition + Dot + brand &&
            (size != Dot && condition != Dot && brand != Dot ==> CountText(ops, Dot) == 2)
  {
    ItemSizeOpsParts(size, condition, brand, x, y, h, theme, font, bound);
    var fs := FirstFit(font.metric, h, MinSize, bound);
    var yOff := y - font.metric(fs) / 2;
    var segs := Segments(size, condition, brand, theme);
    var runs := Place(segs, x as real, yOff, fs, font);
    var rule := if brand != "" then [Rule(runs[|runs| - 1].x, yOff, brand, fs, BrandColor)] else [];
    PlaceDrawn(segs, x as real, yOff, fs, font, Dot);
    SegmentsText(size, condition, brand, theme);
    RulesDrawNothing(rule, Dot);
    DrawnAppend(runs, rule);
    CountTextAppend(runs, rule, Dot);
  }

  /** Run `i` draws segment `i` at the common height and size. */
  lemma {:induction false} PlaceRuns(segs: seq<Segment>, x: real, yOff: int, size: int, font: Font)
    ensures var ops := Place(segs, x, yOff, size, font);
            forall i :: 0 <= i < |segs| ==>
              ops[i].Text? && ops[i].s == segs[i].s && ops[i].color == segs[i].color &&
              ops[i].y == yOff && ops[i].size == size
  {
    if segs != [] {
      var x' := x + font.width(segs[0].s, size) + Spacing as real;
      PlaceRuns(segs[1..], x', yOff, size, font);
      var ops := Place(segs, x, yOff, size, font);
      assert ops[1..] == Place(segs[1..], x', yOff, size, font);
      forall i | 1 <= i < |segs| ensures ops[i] == ops[1..][i - 1] && segs[i] == segs[1..][i - 1] { }
    }
  }

  /** Only the brand, the last run when present, has the brand colour. */
  lemma SegmentsColors(size: string, condition: string, brand: string, theme: Theme)
    ensures var segs := Segments(size, condition, brand, theme);
            forall i :: 0 <= i < |segs| ==> (segs[i].color == BrandColor <==> brand != "" && i == |segs| - 1)
  {
    var tc := TextColor(theme);
    assert tc != BrandColor by {
      assert tc[2] != BrandColor[2];
    }
    var pre := Field(size, tc) + [Segment(Dot, tc)] + Field(condition, tc) + [Segment(Dot, tc)];
    assert forall i :: 0 <= i < |pre| ==> pre[i].color == tc;
    assert Segments(size, condition, brand, theme) == pre + Field(brand, BrandColor);
  }

  /**
   * Placement of the line: the first run at `x`, every run at the same height and size,
   * x strictly increasing from run to run, only the brand in the brand colour, and an
   * underline, at the brand's position, exactly when there is a brand.
   */
  lemma ItemLineLayout(size: string, condition: string, brand: string, x: int, y: int, h: int,
                       theme: Theme, font: Font, bound: int)
    requires Reaches(font, h, bound)
    ensures var ops := ItemSizeOps(size, condition, brand, x, y, h, theme, font, bound);
            var n := |Segments(size, condition, brand, theme)|;
            var fs := FirstFit(font.metric, h, MinSize, bound);
            var yOff := y - font.metric(fs) / 2;
            ops[0].x == x as real &&
            (forall i :: 0 <= i < n ==>
               ops[i].Text? && ops[i].y == yOff && ops[i].size == fs &&
               (ops[i].color == BrandColor <==> brand != "" && i == n - 1)) &&
            (forall i, j :: 0 <= i < j < n ==> ops[i].x < ops[j].x) &&
            (brand != "" ==> ops[n - 1].s == brand && ops[n] == Rule(ops[n - 1].x, yOff, brand, fs, BrandColor)) &&
            |ops| == n + (if brand != "" then 1 else 0)
  {
    ItemSizeOpsParts(size, condition, brand, x, y, h, theme, font, bound);
    var fs := FirstFit(font.metric, h, MinSize, bound);
    var yOff := y - font.metric(fs) / 2;
    var segs := Segments(size, condition, brand, theme);
    PlaceIncreasing(segs, x as real, yOff, fs, font);
    PlaceRuns(segs, x as real, yOff, fs, font);
    SegmentsColors(size, condition, brand, theme);
    assert brand != "" ==> segs[|segs| - 1].s == brand;
  }
}
