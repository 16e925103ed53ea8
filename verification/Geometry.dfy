/** The size of a pane's terminal. */
module Geometry {
  import opened Bytes

  const DEFAULT_COLS := 120
  const DEFAULT_ROWS := 32
  const MAX_COLS := 500
  const MAX_ROWS := 300
  const MAX_PIXELS := 65535

  datatype Size = Size(cols: int, rows: int, pixelWidth: int, pixelHeight: int)

  function NormalizeCols(cols: int): int
  {
    if cols <= 0 then DEFAULT_COLS else Min(cols, MAX_COLS)
  }

  function NormalizeRows(rows: int): int
  {
    if rows <= 0 then DEFAULT_ROWS else Min(rows, MAX_ROWS)
  }

  function NormalizePixels(value: int): int
  {
    if value <= 0 then 0 else Min(value, MAX_PIXELS)
  }

  /** A size that a pane can have. */
  predicate Normal(s: Size)
  {
    0 < s.cols <= MAX_COLS && 0 < s.rows <= MAX_ROWS && 0 <= s.pixelWidth <= MAX_PIXELS && 0 <= s.pixelHeight <= MAX_PIXELS
  }

  /** What a resize request asks for: normalised, unknown pixel sizes kept. */
  function Requested(current: Size, cols: int, rows: int, pixelWidth: int, pixelHeight: int): Size
  {
    var width, height := NormalizePixels(pixelWidth), NormalizePixels(pixelHeight);
    Size(NormalizeCols(cols), NormalizeRows(rows),
         if width == 0 then current.pixelWidth else width,
         if height == 0 then current.pixelHeight else height)
  }

  /** A request is always for a size that a pane can have, and normalising such a size
      again, as resizeWithPixelsUnlocked does, asks for the same. */
  lemma RequestedTwice(current: Size, cols: int, rows: int, pixelWidth: int, pixelHeight: int)
    requires Normal(current)
    ensures var wanted := Requested(current, cols, rows, pixelWidth, pixelHeight);
            Normal(wanted) && Requested(current, wanted.cols, wanted.rows, wanted.pixelWidth, wanted.pixelHeight) == wanted
  {}

  /** The bounds, and what stands for a value that is not given. */
  lemma RequestedExactly(current: Size, cols: int, rows: int, pixelWidth: int, pixelHeight: int)
    ensures var z := Requested(current, cols, rows, pixelWidth, pixelHeight);
            && z.cols == (if cols <= 0 then 120 else if cols > 500 then 500 else cols)
            && z.rows == (if rows <= 0 then 32 else if rows > 300 then 300 else rows)
            && z.pixelWidth == (if pixelWidth <= 0 then current.pixelWidth else if pixelWidth > 65535 then 65535 else pixelWidth)
            && z.pixelHeight == (if pixelHeight <= 0 then current.pixelHeight else if pixelHeight > 65535 then 65535 else pixelHeight)
  {}
}
