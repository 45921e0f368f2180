/** Dense rasters: the part of `cv::Mat` the core relies on. */
module Raster {

  /** An 8-bit unsigned channel value (`uchar`) used in arithmetic. */
  type Byte = b: int | 0 <= b <= 255

  /** A three-channel 8-bit pixel (`cv::Vec3b`, BGR order). */
  datatype Pixel = Pixel(b: Byte, g: Byte, r: Byte)

  /** A rows x cols raster stored row by row. */
  datatype Mat<T> = Mat(rows: nat, cols: nat, at: seq<seq<T>>) {

    /** The stored rows agree with `rows` and `cols` (every `cv::Mat` is rectangular). */
    predicate Shaped() {
      |at| == rows && forall y | 0 <= y < |at| :: |at[y]| == cols
    }

    /** `cv::Mat::empty()`: no element at all. */
    predicate Empty() {
      rows == 0 || cols == 0
    }

    /** Same number of rows and columns as `other`. */
    predicate SameSize<U>(other: Mat<U>) {
      rows == other.rows && cols == other.cols
    }
  }

  /** A colour image (`ImageData`). */
  type Image = Mat<Pixel>

  /** A single-channel map of class labels (`MaskImage` holding parser output). */
  type LabelMap = Mat<Byte>

  /** A single-channel binary mask (`MaskImage` holding 0/255 values). */
  type Mask = Mat<bv8>

  /** The default-constructed `cv::Mat()`: zero rows and zero columns. */
  function NoMat<T>(): (m: Mat<T>)
    ensures m.Shaped() && m.Empty() && m.rows == 0 && m.cols == 0
  {
    Mat(0, 0, [])
  }

  /** A rows x cols raster with every element equal to `v` (`cv::Mat::zeros`, or a fill). */
  function Fill<T>(rows: nat, cols: nat, v: T): (m: Mat<T>)
    ensures m.Shaped() && m.rows == rows && m.cols == cols
    ensures forall y, x | 0 <= y < rows && 0 <= x < cols :: m.at[y][x] == v
  {
    Mat(rows, cols, seq(rows, _ => seq(cols, _ => v)))
  }

  /** Two shaped rasters of the same size with the same elements are equal. */
  lemma Extensional<T>(a: Mat<T>, b: Mat<T>)
    requires a.Shaped() && b.Shaped() && a.SameSize(b)
    requires forall y, x | 0 <= y < a.rows && 0 <= x < a.cols :: a.at[y][x] == b.at[y][x]
    ensures a == b
  {
    assert a.at == b.at by {
      forall y | 0 <= y < a.rows
        ensures a.at[y] == b.at[y]
      {
        assert forall x | 0 <= x < a.cols :: a.at[y][x] == b.at[y][x];
      }
    }
  }

  /** The w x h block of `m` whose top-left element is (x0, y0): `m(cv::Rect(x0, y0, w, h)).clone()`. */
  function Region<T>(m: Mat<T>, x0: nat, y0: nat, w: nat, h: nat): (r: Mat<T>)
    requires m.Shaped() && x0 + w <= m.cols && y0 + h <= m.rows
    ensures r.Shaped() && r.rows == h && r.cols == w
    ensures forall y, x | 0 <= y < h && 0 <= x < w :: r.at[y][x] == m.at[y0 + y][x0 + x]
  {
    Mat(h, w, seq(h, y requires 0 <= y < h => m.at[y0 + y][x0 .. x0 + w]))
  }
}
