/**
 * The loader's boot progress display: rectangle and text drawing into an RGB565 framebuffer, the
 * incremental progress redraw, and the partial cache flush that makes it visible.
 */
module Splash {
  import opened Bytes

  type Color = c: nat | c < 0x1_0000

  const BACKGROUND: Color := 0x0842
  const FOREGROUND: Color := 0xFFFF
  const ACCENT: Color := 0x05FF
  const BAR_HEIGHT := 28
  const PROGRESS_GAP := 36
  const PERCENT_GAP := 18
  const BORDER := 3

  // ---------------------------------------------------------------------------------------------
  // Pixels and rectangles
  // ---------------------------------------------------------------------------------------------

  function Row(i: nat, width: nat): nat
    requires width > 0
  {
    i / width
  }

  function Column(i: nat, width: nat): nat
    requires width > 0
  {
    i % width
  }

  datatype Rect = Rect(x: nat, y: nat, width: nat, height: nat)

  /** Whether pixel `i` of a framebuffer `width` pixels wide lies in a rectangle. */
  predicate Inside(i: nat, width: nat, r: Rect)
    requires width > 0
  {
    r.y <= Row(i, width) < r.y + r.height && r.x <= Column(i, width) < r.x + r.width
  }

  /** A run of pixels within one row, by index and by coordinates. */
  lemma RowSegment(i: nat, width: nat, row: nat, x: nat, n: nat)
    requires width > 0 && x + n <= width
    ensures row * width + x <= i < row * width + x + n
            <==> Row(i, width) == row && x <= Column(i, width) < x + n
  {
    var q, m := i / width, i % width;
    assert i == width * q + m;
    if row * width + x <= i < row * width + x + n {
      DivMod(i - row * width, row, width);
      assert i == (i - row * width) + width * row;
    }
  }

  lemma RowBound(i: nat, width: nat, height: nat)
    requires width > 0 && i < width * height
    ensures Row(i, width) < height
  {
  }

  /** One row of a rectangle. */
  method FillSegment(fb: array<Color>, start: nat, n: nat, color: Color)
    requires start + n <= fb.Length
    modifies fb
    ensures forall i :: 0 <= i < fb.Length ==> fb[i] == if start <= i < start + n then color else old(fb[i])
  {
    for column := 0 to n
      invariant forall i :: 0 <= i < fb.Length ==> fb[i] == if start <= i < start + column then color else old(fb[i])
    {
      fb[start + column] := color;
    }
  }

  /** `splash_fill_rect`: the rectangle is clipped to the framebuffer. */
  method FillRect(fb: array<Color>, width: nat, height: nat, r: Rect, color: Color)
    requires width > 0 && fb.Length == width * height
    modifies fb
    ensures forall i :: 0 <= i < fb.Length ==> fb[i] == if Inside(i, width, r) then color else old(fb[i])
  {
    if r.x >= width || r.y >= height {
      forall i | 0 <= i < fb.Length
        ensures !Inside(i, width, r)
      {
        RowBound(i, width, height);
      }
      return;
    }
    var w := if r.width > width - r.x then width - r.x else r.width;
    var h := if r.height > height - r.y then height - r.y else r.height;
    for row := 0 to h
      invariant forall i :: 0 <= i < fb.Length ==>
                  fb[i] == if Inside(i, width, Rect(r.x, r.y, w, row)) then color else old(fb[i])
    {
      SegmentFits(width, height, r.y + row, r.x, w);
      var start := (r.y + row) * width + r.x;
      FillSegment(fb, start, w, color);
      forall i | 0 <= i < fb.Length
        ensures Inside(i, width, Rect(r.x, r.y, w, row + 1))
                <==> Inside(i, width, Rect(r.x, r.y, w, row)) || start <= i < start + w
      {
        RowSegment(i, width, r.y + row, r.x, w);
      }
    }
    forall i | 0 <= i < fb.Length
      ensures Inside(i, width, r) <==> Inside(i, width, Rect(r.x, r.y, w, h))
    {
      RowBound(i, width, height);
    }
  }

  lemma SegmentFits(width: nat, height: nat, row: nat, x: nat, n: nat)
    requires row < height && x + n <= width
    ensures row * width + x + n <= width * height
  {
    MulMono(width, row + 1, height);
  }

  // ---------------------------------------------------------------------------------------------
  // Text
  // ---------------------------------------------------------------------------------------------

  /** The seven rows of a glyph, or none for a character the font lacks. */
  function Glyph(c: char): (rows: seq<byte>)
    ensures rows == [] || |rows| == 7
  {
    match c
    case '%' => [0x11, 0x02, 0x04, 0x08, 0x11, 0x00, 0x00]
    case '0' => [0x0E, 0x11, 0x13, 0x15, 0x19, 0x11, 0x0E]
    case '1' => [0x04, 0x0C, 0x04, 0x04, 0x04, 0x04, 0x0E]
    case '2' => [0x0E, 0x11, 0x01, 0x02, 0x04, 0x08, 0x1F]
    case '3' => [0x1E, 0x01, 0x01, 0x0E, 0x01, 0x01, 0x1E]
    case '4' => [0x02, 0x06, 0x0A, 0x12, 0x1F, 0x02, 0x02]
    case '5' => [0x1F, 0x10, 0x10, 0x1E, 0x01, 0x01, 0x1E]
    case '6' => [0x0E, 0x10, 0x10, 0x1E, 0x11, 0x11, 0x0E]
    case '7' => [0x1F, 0x01, 0x02, 0x04, 0x08, 0x08, 0x08]
    case '8' => [0x0E, 0x11, 0x11, 0x0E, 0x11, 0x11, 0x0E]
    case '9' => [0x0E, 0x11, 0x11, 0x0F, 0x01, 0x01, 0x0E]
    case 'B' => [0x1E, 0x11, 0x11, 0x1E, 0x11, 0x11, 0x1E]
    case 'C' => [0x0E, 0x11, 0x10, 0x10, 0x10, 0x11, 0x0E]
    case 'G' => [0x0E, 0x11, 0x10, 0x17, 0x11, 0x11, 0x0F]
    case 'I' => [0x1F, 0x04, 0x04, 0x04, 0x04, 0x04, 0x1F]
    case 'L' => [0x10, 0x10, 0x10, 0x10, 0x10, 0x10, 0x1F]
    case 'M' => [0x11, 0x1B, 0x15, 0x15, 0x11, 0x11, 0x11]
    case 'N' => [0x11, 0x19, 0x19, 0x15, 0x13, 0x13, 0x11]
    case 'O' => [0x0E, 0x11, 0x11, 0x11, 0x11, 0x11, 0x0E]
    case 'R' => [0x1E, 0x11, 0x11, 0x1E, 0x14, 0x12, 0x11]
    case 'T' => [0x1F, 0x04, 0x04, 0x04, 0x04, 0x04, 0x04]
    case 'U' => [0x11, 0x11, 0x11, 0x11, 0x11, 0x11, 0x0E]
    case 'X' => [0x11, 0x11, 0x0A, 0x04, 0x0A, 0x11, 0x11]
    case _ => []
  }

  /** Bit `4 - column` of a glyph row. */
  predicate Lit(bits: byte, column: nat)
    requires column < 5
  {
    bits / [16, 8, 4, 2, 1][column] % 2 == 1
  }

  datatype Pen = Pen(x: nat, y: nat, scale: nat)

  function Cell(pen: Pen, row: nat, column: nat): Rect {
    Rect(pen.x + column * pen.scale, pen.y + row * pen.scale, pen.scale, pen.scale)
  }

  /** Whether the first `columns` cells of a glyph row put ink on pixel `i`. */
  predicate RowInk(i: nat, width: nat, rows: seq<byte>, pen: Pen, row: nat, columns: nat)
    requires width > 0 && |rows| == 7 && row < 7 && columns <= 5
  {
    columns > 0
    && (RowInk(i, width, rows, pen, row, columns - 1)
        || (Lit(rows[row], columns - 1) && Inside(i, width, Cell(pen, row, columns - 1))))
  }

  /** Whether the first `count` rows of a glyph put ink on pixel `i`. */
  predicate GlyphInk(i: nat, width: nat, rows: seq<byte>, pen: Pen, count: nat)
    requires width > 0 && |rows| == 7 && count <= 7
  {
    count > 0
    && (GlyphInk(i, width, rows, pen, count - 1) || RowInk(i, width, rows, pen, count - 1, 5))
  }

  function Advance(pen: Pen): Pen {
    pen.(x := pen.x + 6 * pen.scale)
  }

  predicate CharInk(i: nat, width: nat, c: char, pen: Pen)
    requires width > 0
  {
    Glyph(c) != [] && GlyphInk(i, width, Glyph(c), pen, 7)
  }

  /** Whether a text puts ink on pixel `i`. */
  predicate TextInk(i: nat, width: nat, text: string, pen: Pen)
    requires width > 0
  {
    text != [] && (CharInk(i, width, text[0], pen) || TextInk(i, width, text[1..], Advance(pen)))
  }

  method DrawGlyph(fb: array<Color>, width: nat, height: nat, rows: seq<byte>, pen: Pen, color: Color)
    requires width > 0 && fb.Length == width * height && |rows| == 7
    modifies fb
    ensures forall i :: 0 <= i < fb.Length ==> fb[i] == if GlyphInk(i, width, rows, pen, 7) then color else old(fb[i])
  {
    for row := 0 to 7
      invariant forall i :: 0 <= i < fb.Length ==>
                  fb[i] == if GlyphInk(i, width, rows, pen, row) then color else old(fb[i])
    {
      for column := 0 to 5
        invariant forall i :: 0 <= i < fb.Length ==>
                    fb[i] == if GlyphInk(i, width, rows, pen, row) || RowInk(i, width, rows, pen, row, column)
                             then color else old(fb[i])
      {
        if Lit(rows[row], column) {
          FillRect(fb, width, height, Cell(pen, row, column), color);
        }
      }
    }
  }

  /** `splash_draw_text`. */
  method DrawText(fb: array<Color>, width: nat, height: nat, text: string, pen: Pen, color: Color)
    requires width > 0 && fb.Length == width * height
    modifies fb
    ensures forall i :: 0 <= i < fb.Length ==> fb[i] == if TextInk(i, width, text, pen) then color else old(fb[i])
  {
    var at := pen;
    for k := 0 to |text|
      invariant forall i :: 0 <= i < fb.Length ==>
                  && (fb[i] == color || fb[i] == old(fb[i]))
                  && (TextInk(i, width, text, pen) && fb[i] != color ==> TextInk(i, width, text[k..], at))
                  && (TextInk(i, width, text[k..], at) ==> TextInk(i, width, text, pen))
                  && (!TextInk(i, width, text, pen) ==> fb[i] == old(fb[i]))
    {
      assert text[k..][1..] == text[k + 1..];
      if Glyph(text[k]) != [] {
        DrawGlyph(fb, width, height, Glyph(text[k]), at, color);
      }
      at := Advance(at);
    }
    assert text[|text|..] == [];
  }

  lemma {:induction false} RowInkRows(i: nat, width: nat, rows: seq<byte>, pen: Pen, row: nat, columns: nat)
    requires width > 0 && |rows| == 7 && row < 7 && columns <= 5 && RowInk(i, width, rows, pen, row, columns)
    ensures pen.y + row * pen.scale <= Row(i, width) < pen.y + (row + 1) * pen.scale
    decreases columns
  {
    if RowInk(i, width, rows, pen, row, columns - 1) {
      RowInkRows(i, width, rows, pen, row, columns - 1);
    }
  }

  lemma {:induction false} GlyphInkRows(i: nat, width: nat, rows: seq<byte>, pen: Pen, count: nat)
    requires width > 0 && |rows| == 7 && count <= 7 && GlyphInk(i, width, rows, pen, count)
    ensures pen.y <= Row(i, width) < pen.y + count * pen.scale
    decreases count
  {
    if GlyphInk(i, width, rows, pen, count - 1) {
      GlyphInkRows(i, width, rows, pen, count - 1);
    } else {
      RowInkRows(i, width, rows, pen, count - 1, 5);
    }
  }

  /** Text never leaves its seven rows of cells. */
  lemma {:induction false} TextInkRows(i: nat, width: nat, text: string, pen: Pen)
    requires width > 0 && TextInk(i, width, text, pen)
    ensures pen.y <= Row(i, width) < pen.y + 7 * pen.scale
    decreases |text|
  {
    if CharInk(i, width, text[0], pen) {
      GlyphInkRows(i, width, Glyph(text[0]), pen, 7);
    } else {
      TextInkRows(i, width, text[1..], Advance(pen));
    }
  }

  /** Whether column `column`, from the left, of the five in a glyph row is lit: bit 4 is leftmost. */
  lemma LitMeaning(bits: byte, column: nat)
    requires column < 5
    ensures Lit(bits, column) <==> bits / Pow2(4 - column) % 2 == 1
  {
    assert Pow2(0) == 1 && Pow2(1) == 2 && Pow2(2) == 4 && Pow2(3) == 8 && Pow2(4) == 16;
  }

  /** Pixel `i` lies in a lit cell of a glyph. */
  predicate GlyphCell(i: nat, width: nat, rows: seq<byte>, pen: Pen, row: nat, column: nat)
    requires width > 0 && |rows| == 7 && row < 7 && column < 5
  {
    rows[row] / Pow2(4 - column) % 2 == 1 && Inside(i, width, Cell(pen, row, column))
  }

  lemma {:induction false} RowInkMeaning(i: nat, width: nat, rows: seq<byte>, pen: Pen, row: nat, columns: nat)
    requires width > 0 && |rows| == 7 && row < 7 && columns <= 5
    ensures RowInk(i, width, rows, pen, row, columns)
            <==> exists c :: 0 <= c < columns && GlyphCell(i, width, rows, pen, row, c)
    decreases columns
  {
    if columns > 0 {
      RowInkMeaning(i, width, rows, pen, row, columns - 1);
      LitMeaning(rows[row], columns - 1);
      assert GlyphCell(i, width, rows, pen, row, columns - 1)
             <==> Lit(rows[row], columns - 1) && Inside(i, width, Cell(pen, row, columns - 1));
    }
  }

  lemma {:induction false} GlyphInkMeaning(i: nat, width: nat, rows: seq<byte>, pen: Pen, count: nat)
    requires width > 0 && |rows| == 7 && count <= 7
    ensures GlyphInk(i, width, rows, pen, count)
            <==> exists r, c :: 0 <= r < count && 0 <= c < 5 && GlyphCell(i, width, rows, pen, r, c)
    decreases count
  {
    if count > 0 {
      GlyphInkMeaning(i, width, rows, pen, count - 1);
      RowInkMeaning(i, width, rows, pen, count - 1, 5);
    }
  }

  /** The pen that draws character `k` of a text. */
  function PenAt(pen: Pen, k: nat): Pen {
    pen.(x := pen.x + k * (6 * pen.scale))
  }

  /** Pixel `i` lies in a lit cell of character `k`. */
  predicate TextCell(i: nat, width: nat, text: string, pen: Pen, k: nat, row: nat, column: nat)
    requires width > 0 && k < |text| && row < 7 && column < 5
  {
    Glyph(text[k]) != [] && GlyphCell(i, width, Glyph(text[k]), PenAt(pen, k), row, column)
  }

  lemma PenNext(pen: Pen, k: nat)
    ensures PenAt(Advance(pen), k) == PenAt(pen, k + 1) && PenAt(pen, 0) == pen
  {
  }

  /**
   * A text puts ink on exactly the pixels in a lit cell of one of its characters, which stand six
   * cells apart, five of them wide.
   */
  lemma {:induction false} TextInkMeaning(i: nat, width: nat, text: string, pen: Pen)
    requires width > 0
    ensures TextInk(i, width, text, pen)
            <==> exists k, r, c :: 0 <= k < |text| && 0 <= r < 7 && 0 <= c < 5 && TextCell(i, width, text, pen, k, r, c)
    decreases |text|
  {
    if text != [] {
      var rest, next := text[1..], Advance(pen);
      TextInkMeaning(i, width, rest, next);
      CharInkMeaning(i, width, text, pen);
      forall k, r, c | 0 <= k < |rest| && 0 <= r < 7 && 0 <= c < 5
        ensures TextCell(i, width, rest, next, k, r, c) <==> TextCell(i, width, text, pen, k + 1, r, c)
      {
        PenNext(pen, k);
      }
      TextInkJoin(i, width, text, pen);
    }
  }

  lemma CharInkMeaning(i: nat, width: nat, text: string, pen: Pen)
    requires width > 0 && text != []
    ensures CharInk(i, width, text[0], pen)
            <==> exists r, c :: 0 <= r < 7 && 0 <= c < 5 && TextCell(i, width, text, pen, 0, r, c)
  {
    PenNext(pen, 0);
    var rows := Glyph(text[0]);
    if rows != [] {
      GlyphInkMeaning(i, width, rows, pen, 7);
      assert forall r, c :: 0 <= r < 7 && 0 <= c < 5 ==>
          (TextCell(i, width, text, pen, 0, r, c) <==> GlyphCell(i, width, rows, pen, r, c));
    }
  }

  lemma TextInkJoin(i: nat, width: nat, text: string, pen: Pen)
    requires width > 0 && text != []
    requires forall k, r, c :: 0 <= k < |text| - 1 && 0 <= r < 7 && 0 <= c < 5 ==>
               (TextCell(i, width, text[1..], Advance(pen), k, r, c) <==> TextCell(i, width, text, pen, k + 1, r, c))
    ensures (exists k, r, c :: 0 <= k < |text| && 0 <= r < 7 && 0 <= c < 5 && TextCell(i, width, text, pen, k, r, c))
            <==> || (exists r, c :: 0 <= r < 7 && 0 <= c < 5 && TextCell(i, width, text, pen, 0, r, c))
                 || exists k, r, c :: 0 <= k < |text| - 1 && 0 <= r < 7 && 0 <= c < 5
                                      && TextCell(i, width, text[1..], Advance(pen), k, r, c)
  {
    if exists k, r, c :: 0 <= k < |text| && 0 <= r < 7 && 0 <= c < 5 && TextCell(i, width, text, pen, k, r, c) {
      var k, r, c :| 0 <= k < |text| && 0 <= r < 7 && 0 <= c < 5 && TextCell(i, width, text, pen, k, r, c);
      if k > 0 {
        assert TextCell(i, width, text[1..], Advance(pen), k - 1, r, c);
      }
    }
  }

  /** Characters the font has look different. */
  lemma GlyphsDiffer(c: char, d: char)
    requires Glyph(c) != [] && c != d
    ensures Glyph(c) != Glyph(d)
  {
  }

  // ---------------------------------------------------------------------------------------------
  // Layout
  // ---------------------------------------------------------------------------------------------

  function TextWidth(text: string, scale: nat): nat {
    if text == [] then 0 else (|text| * 6 - 1) * scale
  }

  function TitleScale(width: nat): nat {
    if width / 56 < 4 then 4 else width / 56
  }

  function SubtitleScale(width: nat): nat {
    TitleScale(width) / 3
  }

  function GroupHeight(width: nat): nat {
    7 * TitleScale(width) + 34 + 7 * SubtitleScale(width) + PROGRESS_GAP + BAR_HEIGHT + PERCENT_GAP
    + 7 * SubtitleScale(width)
  }

  /** The panels the splash is laid out for: the title and the whole group fit. */
  predicate Fits(width: nat, height: nat) {
    188 <= width && GroupHeight(width) <= height
  }

  function TitleY(width: nat, height: nat): nat
    requires Fits(width, height)
  {
    (height - GroupHeight(width)) / 2
  }

  function BarY(width: nat, height: nat): nat
    requires Fits(width, height)
  {
    TitleY(width, height) + 7 * TitleScale(width) + 34 + 7 * SubtitleScale(width) + PROGRESS_GAP
  }

  function Bar(width: nat, height: nat): Rect
    requires Fits(width, height)
  {
    var barWidth := width * 3 / 4;
    Rect((width - barWidth) / 2, BarY(width, height), barWidth, BAR_HEIGHT)
  }

  /** The part of the bar inside its border that `percent` fills. */
  function Filling(width: nat, height: nat, percent: nat): Rect
    requires Fits(width, height)
  {
    var bar := Bar(width, height);
    Rect(bar.x + BORDER, bar.y + BORDER, (bar.width - 2 * BORDER) * percent / 100, BAR_HEIGHT - 2 * BORDER)
  }

  function Inner(width: nat, height: nat): Rect
    requires Fits(width, height)
  {
    var bar := Bar(width, height);
    Rect(bar.x + BORDER, bar.y + BORDER, bar.width - 2 * BORDER, BAR_HEIGHT - 2 * BORDER)
  }

  /** The rows the percentage is written in. */
  function Strip(width: nat, height: nat): Rect
    requires Fits(width, height)
  {
    Rect(0, BarY(width, height) + BAR_HEIGHT + PERCENT_GAP, width, 7 * SubtitleScale(width))
  }

  function Digit(n: nat): char
    requires n < 10
  {
    "0123456789"[n]
  }

  function PercentText(percent: nat): (text: string)
    requires percent <= 100
    ensures 2 <= |text| <= 4
  {
    if percent == 100 then "100%"
    else if percent >= 10 then [Digit(percent / 10), Digit(percent % 10), '%']
    else [Digit(percent), '%']
  }

  lemma TextFits(text: string, width: nat, scale: nat)
    requires |text| <= 13 && 188 <= width && scale <= TitleScale(width) / (if |text| <= 8 then 1 else 3)
    ensures TextWidth(text, scale) <= width
  {
    var widest := if |text| <= 8 then 47 else 77;
    if text != [] {
      MulMono(scale, |text| * 6 - 1, widest);
      assert (|text| * 6 - 1) * scale == scale * (|text| * 6 - 1);
    }
  }

  /** Where a text starts when it is centred. */
  function Centred(text: string, width: nat, y: nat, scale: nat): Pen
    requires |text| <= 13 && 188 <= width && scale <= TitleScale(width) / (if |text| <= 8 then 1 else 3)
  {
    TextFits(text, width, scale);
    Pen((width - TextWidth(text, scale)) / 2, y, scale)
  }

  function PercentPen(width: nat, height: nat, percent: nat): Pen
    requires Fits(width, height) && percent <= 100
  {
    Centred(PercentText(percent), width, Strip(width, height).y, SubtitleScale(width))
  }

  // ---------------------------------------------------------------------------------------------
  // Progress
  // ---------------------------------------------------------------------------------------------

  predicate PercentInk(i: nat, width: nat, height: nat, percent: nat)
    requires Fits(width, height) && percent <= 100
  {
    TextInk(i, width, PercentText(percent), PercentPen(width, height, percent))
  }

  /** The colour of pixel `i` once `percent` has been drawn over `below`. */
  function Shown(i: nat, width: nat, height: nat, percent: nat, below: Color): Color
    requires Fits(width, height) && percent <= 100
  {
    if PercentInk(i, width, height, percent) then FOREGROUND
    else if Inside(i, width, Strip(width, height)) then BACKGROUND
    else if Inside(i, width, Filling(width, height, percent)) then ACCENT
    else if Inside(i, width, Inner(width, height)) then BACKGROUND
    else if Inside(i, width, Bar(width, height)) then FOREGROUND
    else below
  }

  /** `render_boot_progress`. */
  method RenderProgress(fb: array<Color>, width: nat, height: nat, percent: nat) returns (firstRow: nat)
    requires Fits(width, height) && fb.Length == width * height && percent <= 100
    modifies fb
    ensures firstRow == BarY(width, height)
    ensures forall i :: 0 <= i < fb.Length ==> fb[i] == Shown(i, width, height, percent, old(fb[i]))
  {
    FillRect(fb, width, height, Bar(width, height), FOREGROUND);
    FillRect(fb, width, height, Inner(width, height), BACKGROUND);
    FillRect(fb, width, height, Filling(width, height, percent), ACCENT);
    FillRect(fb, width, height, Strip(width, height), BACKGROUND);
    DrawText(fb, width, height, PercentText(percent), PercentPen(width, height, percent), FOREGROUND);
    firstRow := BarY(width, height);
  }

  /** The rows `micronux_mipi_dsi_progress` writes back. */
  predicate Flushed(i: nat, width: nat, height: nat)
    requires Fits(width, height)
  {
    BarY(width, height) <= Row(i, width) < BarY(width, height) + BAR_HEIGHT + PERCENT_GAP + 7 * SubtitleScale(width)
  }

  /** The same rows as the byte range the flush is given, two octets a pixel. */
  lemma FlushedBytes(i: nat, width: nat, height: nat)
    requires Fits(width, height)
    ensures Flushed(i, width, height)
            <==> BarY(width, height) * width * 2 <= 2 * i < BarY(width, height) * width * 2
                 + (BAR_HEIGHT + PERCENT_GAP + 7 * SubtitleScale(width)) * width * 2
    ensures BarY(width, height) + BAR_HEIGHT + PERCENT_GAP + 7 * SubtitleScale(width) <= height
  {
    RowRange(i, width, BarY(width, height), BAR_HEIGHT + PERCENT_GAP + 7 * SubtitleScale(width));
  }

  lemma RowRange(i: nat, width: nat, first: nat, rows: nat)
    requires width > 0
    ensures first <= Row(i, width) < first + rows <==> first * width <= i < first * width + rows * width
  {
    var q := i / width;
    assert i == width * q + i % width;
    if q < first {
      MulMono(width, q + 1, first);
    } else {
      MulMono(width, first, q);
    }
    if q < first + rows {
      MulMono(width, q + 1, first + rows);
    } else {
      MulMono(width, first + rows, q);
    }
    assert width * (first + rows) == first * width + rows * width;
  }

  /** Filling part of the bar stays within its border. */
  lemma FillingInside(width: nat, height: nat, percent: nat)
    requires Fits(width, height) && percent <= 100
    ensures Filling(width, height, percent).width <= Inner(width, height).width
  {
    MulMono(Inner(width, height).width, percent, 100);
  }

  /** Everything outside the flushed rows keeps its colour. */
  lemma OnlyFlushedChange(i: nat, width: nat, height: nat, percent: nat, below: Color)
    requires Fits(width, height) && percent <= 100 && !Flushed(i, width, height)
    ensures Shown(i, width, height, percent, below) == below
  {
    if PercentInk(i, width, height, percent) {
      TextInkRows(i, width, PercentText(percent), PercentPen(width, height, percent));
    }
  }

  /** What was drawn for an earlier percentage leaves no trace. */
  lemma RedrawForgets(i: nat, width: nat, height: nat, before: nat, after: nat, below: Color)
    requires Fits(width, height) && before <= 100 && after <= 100
    ensures Shown(i, width, height, after, Shown(i, width, height, before, below))
            == Shown(i, width, height, after, below)
  {
    if PercentInk(i, width, height, before) {
      TextInkRows(i, width, PercentText(before), PercentPen(width, height, before));
      assert Inside(i, width, Strip(width, height));
    }
    FillingInside(width, height, before);
  }

  /** The bar fills from the left in proportion, never back, and is full exactly at 100. */
  lemma BarMeaning(i: nat, width: nat, height: nat, lower: nat, upper: nat)
    requires Fits(width, height) && lower <= upper <= 100
    ensures Inside(i, width, Filling(width, height, lower)) ==> Inside(i, width, Filling(width, height, upper))
    ensures !Inside(i, width, Filling(width, height, 0))
    ensures Inside(i, width, Filling(width, height, 100)) <==> Inside(i, width, Inner(width, height))
    ensures upper < 100 ==> Filling(width, height, upper).width < Inner(width, height).width
    ensures var filled := Filling(width, height, upper).width;
            100 * filled <= Inner(width, height).width * upper < 100 * (filled + 1)
  {
    MulMono(Inner(width, height).width, lower, upper);
    if upper < 100 {
      MulMono(Inner(width, height).width, upper, 99);
    }
  }

  /** The number a row of digits stands for. */
  function Reading(digits: string): int {
    if digits == [] then 0
    else 10 * Reading(digits[..|digits| - 1]) + (digits[|digits| - 1] as int - '0' as int)
  }

  lemma DigitValue(n: nat)
    requires n < 10
    ensures Reading([Digit(n)]) == n && Glyph(Digit(n)) != []
  {
  }

  lemma TwoDigits(tens: nat, units: nat)
    requires tens < 10 && units < 10
    ensures Reading([Digit(tens), Digit(units)]) == 10 * tens + units
  {
    DigitValue(tens);
    DigitValue(units);
    assert [Digit(tens), Digit(units)][..1] == [Digit(tens)];
    assert [Digit(units)][..0] == [];
  }

  /** The text written under the bar reads as the percentage, and the font has all of it. */
  lemma PercentReads(percent: nat)
    requires percent <= 100
    ensures var text := PercentText(percent);
            && text == text[..|text| - 1] + "%"
            && Reading(text[..|text| - 1]) == percent
            && forall k :: 0 <= k < |text| ==> Glyph(text[k]) != []
  {
    var text := PercentText(percent);
    var digits := text[..|text| - 1];
    if percent == 100 {
      TwoDigits(1, 0);
      assert digits == "100" && digits[..2] == [Digit(1), Digit(0)];
    } else if percent >= 10 {
      DigitValue(percent / 10);
      DigitValue(percent % 10);
      TwoDigits(percent / 10, percent % 10);
      assert digits == [Digit(percent / 10), Digit(percent % 10)];
    } else {
      DigitValue(percent);
      assert digits == [Digit(percent)];
    }
  }

  // ---------------------------------------------------------------------------------------------
  // The heading
  // ---------------------------------------------------------------------------------------------

  const TITLE := "MICRONUX"
  const SUBTITLE := "BOOTING LINUX"

  function TitlePen(width: nat, height: nat): Pen
    requires Fits(width, height)
  {
    Centred(TITLE, width, TitleY(width, height), TitleScale(width))
  }

  function SubtitlePen(width: nat, height: nat): Pen
    requires Fits(width, height)
  {
    Centred(SUBTITLE, width, TitleY(width, height) + 7 * TitleScale(width) + 34, SubtitleScale(width))
  }

  function Underline(width: nat, height: nat): Rect
    requires Fits(width, height)
  {
    Rect(TitlePen(width, height).x, TitleY(width, height) + 7 * TitleScale(width) + 14,
         TextWidth(TITLE, TitleScale(width)), 4)
  }

  // ---------------------------------------------------------------------------------------------
  // 32-bit arithmetic
  // ---------------------------------------------------------------------------------------------

  /** Every cell corner a text is drawn at is a 32-bit number. */
  predicate PenBounded(pen: Pen, text: string) {
    && pen.x + 6 * (pen.scale * |text|) + 5 * pen.scale < 0x1_0000_0000
    && pen.y + 8 * pen.scale < 0x1_0000_0000
  }

  lemma PenNoWrap(text: string, width: nat, y: nat, scale: nat)
    requires |text| <= 13 && 188 <= width < 0x100_0000 && y < 0x100_0000
    requires scale <= TitleScale(width) / (if |text| <= 8 then 1 else 3)
    ensures PenBounded(Centred(text, width, y, scale), text)
  {
    MulMono(scale, |text|, 13);
  }

  /**
   * For a framebuffer whose size in octets is a 32-bit number no 32-bit expression wraps: sizes,
   * bar arithmetic, pixel indices, the flushed range, and the corners of all three texts.
   */
  lemma NoWrap(width: nat, height: nat, percent: nat, row: nat, column: nat)
    requires Fits(width, height) && percent <= 100 && width * height * 2 < 0x1_0000_0000
    requires row < height && column < width
    ensures GroupHeight(width) <= height < 0x1_0000_0000 && width * 3 < 0x1_0000_0000
    ensures Inner(width, height).width * percent < 0x1_0000_0000
    ensures row * width + column < width * height < 0x8000_0000
    ensures (BarY(width, height) + BAR_HEIGHT + PERCENT_GAP + 7 * SubtitleScale(width)) * width * 2 < 0x1_0000_0000
    ensures PenBounded(PercentPen(width, height, percent), PercentText(percent))
    ensures PenBounded(TitlePen(width, height), TITLE) && PenBounded(SubtitlePen(width, height), SUBTITLE)
  {
    SidesBounded(width, height);
    MulMono(Inner(width, height).width, percent, 100);
    IndexBounded(width, height, row, column);
    RowsBounded(width, height, BarY(width, height) + BAR_HEIGHT + PERCENT_GAP + 7 * SubtitleScale(width));
    PenNoWrap(PercentText(percent), width, Strip(width, height).y, SubtitleScale(width));
    PenNoWrap(TITLE, width, TitleY(width, height), TitleScale(width));
    PenNoWrap(SUBTITLE, width, TitleY(width, height) + 7 * TitleScale(width) + 34, SubtitleScale(width));
  }

  lemma IndexBounded(width: nat, height: nat, row: nat, column: nat)
    requires row < height && column < width
    ensures row * width + column < width * height
  {
    MulMono(width, row + 1, height);
    assert width * (row + 1) == row * width + width;
  }

  lemma RowsBounded(width: nat, height: nat, rows: nat)
    requires rows <= height
    ensures rows * width * 2 <= width * height * 2
  {
    MulMono(width, rows, height);
  }

  lemma SidesBounded(width: nat, height: nat)
    requires Fits(width, height) && width * height * 2 < 0x1_0000_0000
    ensures height < 0x100_0000 && width < 0x100_0000
  {
    assert height >= 158;
    MulMono(width, 158, height);
    MulMono(height, 188, width);
  }

  // ---------------------------------------------------------------------------------------------
  // The splash and its progress
  // ---------------------------------------------------------------------------------------------

  /** The splash without its progress group. */
  function Heading(i: nat, width: nat, height: nat): Color
    requires Fits(width, height)
  {
    if TextInk(i, width, SUBTITLE, SubtitlePen(width, height)) then ACCENT
    else if Inside(i, width, Underline(width, height)) then ACCENT
    else if TextInk(i, width, TITLE, TitlePen(width, height)) then FOREGROUND
    else BACKGROUND
  }

  /** The whole splash drawn at once for one percentage. */
  function Splash(i: nat, width: nat, height: nat, percent: nat): Color
    requires Fits(width, height) && percent <= 100
  {
    Shown(i, width, height, percent, Heading(i, width, height))
  }

  /** `render_boot_splash`. */
  method RenderSplash(fb: array<Color>, width: nat, height: nat)
    requires Fits(width, height) && fb.Length == width * height
    modifies fb
    ensures forall i :: 0 <= i < fb.Length ==> fb[i] == Splash(i, width, height, 0)
  {
    FillRect(fb, width, height, Rect(0, 0, width, height), BACKGROUND);
    forall i | 0 <= i < fb.Length
      ensures Inside(i, width, Rect(0, 0, width, height))
    {
      RowBound(i, width, height);
    }
    DrawText(fb, width, height, TITLE, TitlePen(width, height), FOREGROUND);
    FillRect(fb, width, height, Underline(width, height), ACCENT);
    DrawText(fb, width, height, SUBTITLE, SubtitlePen(width, height), ACCENT);
    var _ := RenderProgress(fb, width, height, 0);
  }

  /** The splash differs between percentages only in the flushed rows. */
  lemma SplashOutside(i: nat, width: nat, height: nat, p: nat, q: nat)
    requires Fits(width, height) && p <= 100 && q <= 100 && !Flushed(i, width, height)
    ensures Splash(i, width, height, p) == Splash(i, width, height, q)
  {
    OnlyFlushedChange(i, width, height, p, Heading(i, width, height));
    OnlyFlushedChange(i, width, height, q, Heading(i, width, height));
  }

  /**
   * The loader's display state. `panel` is the memory the controller scans; the processor writes
   * `framebuffer` through a cache, so the two differ until written back or evicted.
   */
  class BootDisplay {
    const width: nat
    const height: nat
    var framebuffer: array?<Color>
    var panel: seq<Color>
    var progress: nat
    /** The last percentage drawn, and whether the panel may still lack it. */
    ghost var drawn: nat
    ghost var stale: bool

    ghost predicate Valid()
      reads this, framebuffer
    {
      && Fits(width, height)
      && progress <= 100 && drawn <= 100
      && (framebuffer != null ==> framebuffer.Length == width * height && Agrees(framebuffer[..]))
    }

    /** The panel shows the splash outside the progress rows always, and inside them unless stale. */
    ghost predicate Agrees(pixels: seq<Color>)
      requires Fits(width, height) && drawn <= 100 && progress <= 100
      reads this
    {
      && |panel| == |pixels|
      && (!stale ==> drawn == progress)
      && (forall i :: 0 <= i < |pixels| ==> pixels[i] == Splash(i, width, height, drawn))
      && (forall i :: 0 <= i < |panel| && (!stale || !Flushed(i, width, height)) ==>
            panel[i] == Splash(i, width, height, progress))
    }

    constructor (width: nat, height: nat)
      requires Fits(width, height)
      ensures Valid() && framebuffer == null && progress == 0
      ensures this.width == width && this.height == height
    {
      this.width, this.height := width, height;
      framebuffer, panel, progress, drawn, stale := null, [], 0, 0, false;
    }

    /** The first splash: flushed whole, if the flush works, before the loader considers the display ready. */
    method Show(fb: array<Color>, works: bool) returns (ok: bool)
      requires Valid() && framebuffer == null && progress == 0 && fb.Length == width * height
      modifies this, fb
      ensures Valid() && progress == 0 && ok == works
      ensures ok ==> framebuffer == fb && !stale
      ensures ok ==> |panel| == fb.Length
                     && forall i :: 0 <= i < |panel| ==> panel[i] == Splash(i, width, height, 0)
      ensures !ok ==> framebuffer == null
    {
      RenderSplash(fb, width, height);
      ok := works;
      if ok {
        framebuffer, panel, progress, drawn, stale := fb, fb[..], 0, 0, false;
      }
    }

    /** The cache may write any dirty pixels back at any time. */
    method Evict()
      requires Valid() && framebuffer != null
      modifies this`panel
      ensures Valid() && |panel| == |old(panel)|
      ensures forall i :: 0 <= i < |panel| ==> panel[i] == old(panel)[i] || panel[i] == framebuffer[i]
    {
      var which: seq<bool> := *;
      var now, was := framebuffer[..], panel;
      if |which| == |now| {
        panel := seq(|now|, i requires 0 <= i < |now| => if which[i] then now[i] else was[i]);
        forall i | 0 <= i < |panel| && (!stale || !Flushed(i, width, height))
          ensures now[i] == Splash(i, width, height, progress)
        {
          if !Flushed(i, width, height) {
            SplashOutside(i, width, height, drawn, progress);
          }
        }
      }
    }

    /** The partial write-back: if it works every pixel of the given rows reaches the panel. */
    method Flush(first: nat, rows: nat, works: bool) returns (ok: bool)
      requires framebuffer != null && |panel| == framebuffer.Length && width > 0
      modifies this`panel
      ensures |panel| == framebuffer.Length && ok == works
      ensures !ok ==> panel == old(panel)
      ensures ok ==> forall i :: 0 <= i < |panel| ==>
                panel[i] == if first * width <= i < first * width + rows * width
                            then framebuffer[i] else old(panel)[i]
    {
      var now, was := framebuffer[..], panel;
      ok := works;
      if ok {
        panel := seq(|now|, i requires 0 <= i < |now| =>
          if first * width <= i < first * width + rows * width then now[i] else was[i]);
      }
    }

    /** `micronux_mipi_dsi_progress`; `works` is whether a write-back goes through. */
    method Progress(percent: nat, works: bool) returns (ghost visible: bool)
      requires Valid()
      modifies this, framebuffer
      ensures Valid() && framebuffer == old(framebuffer)
      ensures progress == old(progress) || progress == if percent > 100 then 100 else percent
      ensures old(progress) <= progress
      ensures visible == (works && framebuffer != null && percent > old(progress))
      ensures framebuffer == null || percent <= old(progress) ==>
                progress == old(progress) && panel == old(panel) && stale == old(stale)
      ensures framebuffer != null && percent > old(progress) ==>
                var clamped := if percent > 100 then 100 else percent;
                drawn == clamped && (if visible then progress == clamped && !stale else progress == old(progress))
      ensures framebuffer != null && !stale ==>
                |panel| == width * height
                && forall i :: 0 <= i < |panel| ==> panel[i] == Splash(i, width, height, progress)
    {
      visible := false;
      if framebuffer == null || percent <= progress {
        return;
      }
      var clamped := if percent > 100 then 100 else percent;
      Draw(clamped);
      Evict();
      var rows := BAR_HEIGHT + PERCENT_GAP + 7 * SubtitleScale(width);
      ghost var was := panel;
      var ok := Flush(BarY(width, height), rows, works);
      visible := ok;
      if !ok {
        return;
      }
      forall i | 0 <= i < |panel|
        ensures panel[i] == Splash(i, width, height, clamped)
      {
        RowRange(i, width, BarY(width, height), rows);
        if !Flushed(i, width, height) {
          SplashOutside(i, width, height, progress, clamped);
        }
      }
      progress, stale := clamped, false;
    }

    /** Drawing a percentage makes the panel stale until it is flushed. */
    method Draw(percent: nat)
      requires Valid() && framebuffer != null && percent <= 100
      modifies framebuffer, this`drawn, this`stale
      ensures Valid() && drawn == percent && stale
    {
      var _ := RenderProgress(framebuffer, width, height, percent);
      forall i | 0 <= i < framebuffer.Length
        ensures framebuffer[i] == Splash(i, width, height, percent)
      {
        assert old(framebuffer[..])[i] == Splash(i, width, height, drawn);
        RedrawForgets(i, width, height, drawn, percent, Heading(i, width, height));
      }
      drawn, stale := percent, true;
    }
  }
}
