/**
 * `draw_text_block` (Run.py): choose a font size for a target pixel height, wrap the
 * text into one or two lines, and emit the positioned draw calls.
 *
 * Font files are not modelled: a `Font` carries the two measurements the script asks
 * of PIL, as functions of the point size.
 */
module Layout {

  type Color = string

  /** The two colour themes of the card ("Dark Mode", "Light Mode"). */
  datatype Theme = Dark | Light

  /** A text advance as PIL's `textlength` reports it; never negative. */
  type Length = r: real | 0.0 <= r

  /**
   * `metric(n)` is `ascent + descent` of the font loaded at size `n` (`getmetrics()`),
   * `width(s, n)` is `draw.textlength(s)` with that font.
   */
  datatype Font = Font(metric: int -> int, width: (string, int) -> Length)

  /** One draw call on the canvas. */
  datatype Op =
    /** `draw.text((x, y), s, fill=color)` at point size `size`. */
    | Text(x: real, y: int, s: string, size: int, color: Color)
    /** `draw.line` 2px wide along the bottom of the bounding box of `s` drawn at `(x, y)`. */
    | Rule(x: real, y: int, s: string, size: int, color: Color)

  /** The arguments of one `draw_text_block` call besides the text. */
  datatype Style = Style(x: int, y: int, h: int, color: Color, underline: bool, isCurrency: bool)

  /** What `draw_text_block` produces: the returned extra offset and what it drew. */
  datatype Block = Block(offset: int, ops: seq<Op>)

  /** The longest single line, in characters. */
  const MaxLine := 50
  /** Point size the growth search starts from. */
  const MinSize := 10

  /** `bound` is a size from 10 upwards whose metric reaches `h`, so the search stops. */
  predicate Reaches(font: Font, h: int, bound: int) {
    MinSize <= bound && font.metric(bound) >= h
  }

  // ---------------------------------------------------------------- font size

  /**
   * The first size from `s` upwards whose metric reaches `h`: every size in
   * `[s, r)` falls short of `h`.
   */
  function FirstFit(metric: int -> int, h: int, s: int, ghost bound: int): (r: int)
    requires s <= bound && metric(bound) >= h
    ensures s <= r <= bound && metric(r) >= h
    ensures forall k :: s <= k < r ==> metric(k) < h
    decreases bound - s
  {
    if metric(s) >= h then s else FirstFit(metric, h, s + 1, bound)
  }

  /** The first fitting size is determined by the metric alone, whatever bound proves termination. */
  lemma FirstFitUnique(metric: int -> int, h: int, s: int, bound: int, r: int)
    requires s <= bound && metric(bound) >= h
    requires s <= r && metric(r) >= h && forall k :: s <= k < r ==> metric(k) < h
    ensures r == FirstFit(metric, h, s, bound)
  {
  }

  /** The size 10 already fits exactly when the search returns 10. */
  lemma FirstFitAtFloor(metric: int -> int, h: int, bound: int)
    requires MinSize <= bound && metric(bound) >= h
    ensures FirstFit(metric, h, MinSize, bound) == MinSize <==> metric(MinSize) >= h
  {
  }

  /** The growth loop of `draw_text_block` and `draw_item_size_block`. */
  method SearchFontSize(font: Font, h: int, ghost bound: int) returns (size: int)
    requires Reaches(font, h, bound)
    ensures size == FirstFit(font.metric, h, MinSize, bound)
  {
    size := MinSize;
    while font.metric(size) < h
      invariant MinSize <= size <= bound
      invariant FirstFit(font.metric, h, size, bound) == FirstFit(font.metric, h, MinSize, bound)
      decreases bound - size
    {
      size := size + 1;
    }
  }

  // ---------------------------------------------------------------- wrapping

  /** `s.rfind(" ")`: the index of the last space, or -1 when there is none. */
  function LastSpace(s: string): (r: int)
    ensures -1 <= r < |s|
    ensures r == -1 <==> ' ' !in s
    ensures r >= 0 ==> s[r] == ' '
    ensures forall j :: r < j < |s| ==> s[j] != ' '
  {
    if s == [] then -1
    else if s[|s| - 1] == ' ' then |s| - 1
    else
      var r := LastSpace(s[..|s| - 1]);
      assert ' ' in s ==> ' ' in s[..|s| - 1] by {
        if ' ' in s {
          var i :| 0 <= i < |s| && s[i] == ' ';
          assert s[..|s| - 1][i] == ' ';
        }
      }
      r
  }

  /**
   * The line split: one line up to 50 characters; otherwise two lines, broken at the
   * last space among the first 50 characters (the space is dropped) or cut hard at 50.
   * Only U+0020 counts as a break. The second line is not limited in length.
   */
  function WrapLines(text: string): (lines: seq<string>)
    ensures |text| <= MaxLine ==> lines == [text]
    ensures |text| > MaxLine ==> |lines| == 2
    ensures |text| > MaxLine && ' ' in text[..MaxLine] ==>
              |lines[0]| < MaxLine && text[|lines[0]|] == ' ' &&
              lines[0] + " " + lines[1] == text &&
              forall j :: |lines[0]| < j < MaxLine ==> text[j] != ' '
    ensures |text| > MaxLine && ' ' !in text[..MaxLine] ==>
              lines[0] == text[..MaxLine] && lines[0] + lines[1] == text
  {
    if |text| <= MaxLine then [text]
    else
      var k := LastSpace(text[..MaxLine]);
      if k == -1 then [text[..MaxLine], text[MaxLine..]]
      else
        assert text[..k] + " " + text[k + 1..] == text by {
          assert text == text[..k] + [text[k]] + text[k + 1..];
        }
        [text[..k], text[k + 1..]]
  }

  /** A long text with no space among its first 50 characters: 120 letters give lines of 50 and 70. */
  lemma SecondLineMayExceedLimit()
    ensures var t := seq(120, _ => 'a'); |WrapLines(t)| == 2 && |WrapLines(t)[1]| == 70
  {
    var t := seq(120, _ => 'a');
    assert ' ' !in t[..MaxLine] by {
      forall i | 0 <= i < MaxLine ensures t[..MaxLine][i] != ' ' { }
    }
  }

  // ---------------------------------------------------------------- drawing

  /**
   * The `y` of line `i` of `count` lines: centred on `y` by the font metric `m`, each
   * earlier line `h` pixels higher, all lowered by `extra`.
   */
  function LineY(y: int, h: int, m: int, count: int, i: int, extra: int): int {
    y - m / 2 - (count - 1 - i) * h + extra
  }

  /**
   * The calls for one line at height `yOff`: a currency line that starts with `£` is
   * drawn as the symbol and the remainder, the remainder starting where the symbol ends;
   * an underline spans the whole line.
   */
  function LineOps(line: string, st: Style, yOff: int, size: int, font: Font): (ops: seq<Op>)
    ensures |ops| >= 1
  {
    var x := st.x as real;
    (if st.isCurrency && |line| > 0 && line[0] == '£' then
       [Text(x, yOff, "£", size, st.color),
        Text(x + font.width("£", size), yOff, line[1..], size, st.color)]
     else [Text(x, yOff, line, size, st.color)])
    + (if st.underline then [Rule(x, yOff, line, size, st.color)] else [])
  }

  /** The calls for the first `n` of `lines`, drawn in order. */
  function LinesOps(lines: seq<string>, n: nat, st: Style, size: int, extra: int, font: Font): seq<Op>
    requires n <= |lines|
  {
    if n == 0 then []
    else
      LinesOps(lines, n - 1, st, size, extra, font)
      + LineOps(lines[n - 1], st, LineY(st.y, st.h, font.metric(size), |lines|, n - 1, extra), size, font)
  }

  /**
   * `draw_text_block` as a function: nothing for an empty text; otherwise the first
   * fitting size (3 points smaller and 20 pixels lower when the text wraps) and the
   * calls for each line.
   */
  function TextBlock(text: string, st: Style, font: Font, ghost bound: int): (b: Block)
    requires Reaches(font, st.h, bound)
    ensures b.offset == (if |text| > MaxLine then 20 else 0)
    ensures b.ops == [] <==> text == ""
  {
    if text == "" then Block(0, [])
    else
      var lines := WrapLines(text);
      var base := FirstFit(font.metric, st.h, MinSize, bound);
      var size := if |lines| > 1 then base - 3 else base;
      var extra := if |lines| > 1 then 20 else 0;
      assert |LinesOps(lines, |lines|, st, size, extra, font)| > 0 by {
        assert |LinesOps(lines, 1, st, size, extra, font)| > 0;
      }
      Block(extra, LinesOps(lines, |lines|, st, size, extra, font))
  }

  /** The source's loop: search the size, wrap, then draw line by line. */
  method DrawTextBlock(text: string, st: Style, font: Font, ghost bound: int) returns (b: Block)
    requires Reaches(font, st.h, bound)
    ensures b == TextBlock(text, st, font, bound)
  {
    if text == "" {
      return Block(0, []);
    }
    var size := SearchFontSize(font, st.h, bound);
    var lines := WrapLines(text);
    var extra := if |lines| > 1 then 20 else 0;
    if |lines| > 1 {
      size := size - 3;
    }
    var ops: seq<Op> := [];
    for i := 0 to |lines|
      invariant ops == LinesOps(lines, i, st, size, extra, font)
    {
      var yOff := st.y - font.metric(size) / 2 - (|lines| - 1 - i) * st.h + extra;
      ops := ops + LineOps(lines[i], st, yOff, size, font);
    }
    return Block(extra, ops);
  }

  // ---------------------------------------------------------------- properties

  /** The calls `ops` moved `d` pixels down. */
  function Lowered(ops: seq<Op>, d: int): (r: seq<Op>)
    ensures |r| == |ops|
  {
    seq(|ops|, i requires 0 <= i < |ops| => ops[i].(y := ops[i].y + d))
  }

  lemma LoweredAppend(a: seq<Op>, b: seq<Op>, d: int)
    ensures Lowered(a + b, d) == Lowered(a, d) + Lowered(b, d)
  {
    var l, r := Lowered(a + b, d), Lowered(a, d) + Lowered(b, d);
    forall i | 0 <= i < |l| ensures l[i] == r[i] {
      if i < |a| { assert (a + b)[i] == a[i]; } else { assert (a + b)[i] == b[i - |a|]; }
    }
  }

  /** The text of every `Text` call, in drawing order. */
  function Drawn(ops: seq<Op>): string {
    if ops == [] then ""
    else (if ops[0].Text? then ops[0].s else "") + Drawn(ops[1..])
  }

  lemma {:induction false} DrawnAppend(a: seq<Op>, b: seq<Op>)
    ensures Drawn(a + b) == Drawn(a) + Drawn(b)
  {
    if a == [] {
      assert a + b == b;
    } else {
      assert (a + b)[0] == a[0] && (a + b)[1..] == a[1..] + b;
      DrawnAppend(a[1..], b);
    }
  }

  /** Whatever the style, a line's calls draw exactly that line's characters. */
  lemma LineDrawsLine(line: string, st: Style, yOff: int, size: int, font: Font)
    ensures Drawn(LineOps(line, st, yOff, size, font)) == line
  {
    var x := st.x as real;
    var runs := if st.isCurrency && |line| > 0 && line[0] == '£' then
                  [Text(x, yOff, "£", size, st.color),
                   Text(x + font.width("£", size), yOff, line[1..], size, st.color)]
                else [Text(x, yOff, line, size, st.color)];
    var rule := if st.underline then [Rule(x, yOff, line, size, st.color)] else [];
    assert Drawn(rule) == "" by {
      if st.underline { assert Drawn(rule) == "" + Drawn([]); }
    }
    if |runs| == 2 {
      assert Drawn(runs) == "£" + (line[1..] + Drawn([])) by {
        assert runs[1..] == [runs[1]];
        assert Drawn(runs[1..]) == line[1..] + Drawn([]);
      }
      assert line == "£" + line[1..];
    } else {
      assert Drawn(runs) == line + Drawn([]);
    }
    DrawnAppend(runs, rule);
  }

  lemma {:induction false} LinesDrawLines(lines: seq<string>, n: nat, st: Style, size: int, extra: int, font: Font)
    requires n <= |lines|
    ensures Drawn(LinesOps(lines, n, st, size, extra, font)) == Concat(lines[..n])
  {
    if n > 0 {
      LinesDrawLines(lines, n - 1, st, size, extra, font);
      var yOff := LineY(st.y, st.h, font.metric(size), |lines|, n - 1, extra);
      DrawnAppend(LinesOps(lines, n - 1, st, size, extra, font), LineOps(lines[n - 1], st, yOff, size, font));
      LineDrawsLine(lines[n - 1], st, yOff, size, font);
      assert lines[..n] == lines[..n - 1] + [lines[n - 1]];
      ConcatSnoc(lines[..n - 1], lines[n - 1]);
    }
  }

  function Concat(lines: seq<string>): string {
    if lines == [] then "" else lines[0] + Concat(lines[1..])
  }

  lemma {:induction false} ConcatSnoc(lines: seq<string>, s: string)
    ensures Concat(lines + [s]) == Concat(lines) + s
  {
    if lines != [] {
      assert (lines + [s])[1..] == lines[1..] + [s];
      ConcatSnoc(lines[1..], s);
    }
  }

  /** The characters of `text` a block shows: all but the space a wrapped text breaks at. */
  function Shown(text: string): string {
    if |text| <= MaxLine || ' ' !in text[..MaxLine] then text
    else
      var k := LastSpace(text[..MaxLine]);
      text[..k] + text[k + 1..]
  }

  /**
   * A block draws the whole text: all of it when it fits on one line or is cut hard,
   * and all but the one space it breaks at otherwise.
   */
  lemma BlockDrawsText(text: string, st: Style, font: Font, bound: int)
    requires Reaches(font, st.h, bound)
    ensures Drawn(TextBlock(text, st, font, bound).ops) == Shown(text)
    ensures var drawn := Drawn(TextBlock(text, st, font, bound).ops);
            if |text| <= MaxLine || ' ' !in text[..MaxLine] then drawn == text
            else
              var k := LastSpace(text[..MaxLine]);
              text[k] == ' ' && drawn == text[..k] + text[k + 1..]
  {
    if text != "" {
      var lines := WrapLines(text);
      var base := FirstFit(font.metric, st.h, MinSize, bound);
      var size := if |lines| > 1 then base - 3 else base;
      var extra := if |lines| > 1 then 20 else 0;
      LinesDrawLines(lines, |lines|, st, size, extra, font);
      assert lines[..|lines|] == lines;
      if |lines| == 2 {
        assert Concat(lines) == lines[0] + lines[1] by {
          assert lines[1..][1..] == [];
          assert Concat(lines[1..]) == lines[1] + Concat([]);
        }
      }
    }
  }

  /**
   * The layout of a plain block (no underline, no currency split): one call per line at
   * the chosen size; the last line centred on `y` plus the offset, the one before it
   * `h` pixels higher; a wrapped block uses the first fitting size less 3.
   */
  lemma PlainBlockLayout(text: string, st: Style, font: Font, bound: int)
    requires Reaches(font, st.h, bound)
    requires text != "" && !st.underline && !st.isCurrency
    ensures var b := TextBlock(text, st, font, bound);
            var lines := WrapLines(text);
            var base := FirstFit(font.metric, st.h, MinSize, bound);
            var size := if |text| > MaxLine then base - 3 else base;
            var bottom := st.y - font.metric(size) / 2 + b.offset;
            |b.ops| == |lines| &&
            forall i :: 0 <= i < |lines| ==>
              b.ops[i] == Text(st.x as real, bottom - (|lines| - 1 - i) * st.h, lines[i], size, st.color)
  {
    var lines := WrapLines(text);
    var base := FirstFit(font.metric, st.h, MinSize, bound);
    var size := if |lines| > 1 then base - 3 else base;
    var extra := if |lines| > 1 then 20 else 0;
    assert LinesOps(lines, 1, st, size, extra, font) == [Text(st.x as real, LineY(st.y, st.h, font.metric(size), |lines|, 0, extra), lines[0], size, st.color)];
  }

  /**
   * A one-line price such as "£45.00" is drawn as "£" at `x` and the digits starting
   * where the symbol's advance ends, both at the same height and size.
   */
  lemma CurrencySplit(text: string, st: Style, font: Font, bound: int)
    requires Reaches(font, st.h, bound)
    requires 0 < |text| <= MaxLine && text[0] == '£' && st.isCurrency && !st.underline
    ensures var ops := TextBlock(text, st, font, bound).ops;
            var size := FirstFit(font.metric, st.h, MinSize, bound);
            |ops| == 2 && ops[0].Text? && ops[1].Text? &&
            ops[0].s == "£" && ops[0].s + ops[1].s == text &&
            ops[0].x == st.x as real && ops[1].x == st.x as real + font.width("£", size) &&
            ops[0].y == ops[1].y == st.y - font.metric(size) / 2
  {
    assert WrapLines(text) == [text];
    var size := FirstFit(font.metric, st.h, MinSize, bound);
    assert LinesOps([text], 1, st, size, 0, font)
        == LineOps(text, st, LineY(st.y, st.h, font.metric(size), 1, 0, 0), size, font);
    assert text == "£" + text[1..];
  }
}
