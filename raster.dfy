/** Single-channel images as the OpenCV code sees them: rows of 8-bit grey levels. */
module Raster {

  type byte = x: int | 0 <= x < 256

  /** A single-channel image: `rows[y][x]` is the grey level of a pixel. */
  datatype Gray = Gray(rows: seq<seq<byte>>)

  /** `gray.shape[:2]` */
  function Height(g: Gray): nat { |g.rows| }
  function Width(g: Gray): nat { if |g.rows| == 0 then 0 else |g.rows[0]| }
}
