/** Shared data model of the MNIST softmax classifier: the fixed dimensions and
    hyperparameters, raw bytes, examples and datasets. */
module Mnist {

  /** Number of digit classes, one weight row each. */
  const NumClasses: nat := 10

  /** Pixels per image: 28 rows of 28 columns, row-major. */
  const ImageSize: nat := 784

  /** Length of the flat weight vector: row `j` occupies `[j*ImageSize, (j+1)*ImageSize)`. */
  const WeightCount: nat := NumClasses * ImageSize

  /** Bytes skipped at the start of the image file and of the label file. */
  const ImageHeaderSize: nat := 16
  const LabelHeaderSize: nat := 8

  /** Fixed SGD hyperparameters of the trainer. */
  const LearningRate: real := 0.01
  const Epochs: nat := 5

  /** An unsigned char read from a file. */
  type byte = b: int | 0 <= b < 256

  /** A file that could (`Some`) or could not (`None`) be opened for reading. */
  datatype Option<+T> = None | Some(value: T)

  /** One training or test example: normalised pixels and the raw label byte as `digit`. */
  datatype Example = Example(pixels: seq<real>, digit: int)

  type Dataset = seq<Example>

  /** Every example has exactly one value per pixel. */
  predicate WellFormed(ds: Dataset) {
    forall i :: 0 <= i < |ds| ==> |ds[i].pixels| == ImageSize
  }

  /** The flat weight vector has one entry per (class, pixel) pair. */
  predicate ValidWeights(w: seq<real>) {
    |w| == WeightCount
  }

  /** Weight of class `j` for pixel `k`, stored at `w[j*ImageSize + k]`. */
  function Weight(w: seq<real>, j: int, k: int): real
    requires ValidWeights(w)
    requires 0 <= j < NumClasses && 0 <= k < ImageSize
  {
    w[j * ImageSize + k]
  }

  /** Class of flat weight index `i`: the row it lies in. */
  function ClassOf(i: nat): (j: nat)
    requires i < WeightCount
    ensures j < NumClasses
    ensures j * ImageSize <= i < j * ImageSize + ImageSize
  {
    i / ImageSize
  }

  /** Pixel of flat weight index `i`: its column within the row. */
  function PixelOf(i: nat): (k: nat)
    requires i < WeightCount
    ensures k < ImageSize
    ensures i == ClassOf(i) * ImageSize + k
  {
    i % ImageSize
  }

  /** Flat index `j*784 + k` splits back into class `j` and pixel `k`. */
  lemma FlatIndex(j: int, k: int)
    requires 0 <= j < NumClasses && 0 <= k < ImageSize
    ensures 0 <= j * ImageSize + k < WeightCount
    ensures ClassOf(j * ImageSize + k) == j
    ensures PixelOf(j * ImageSize + k) == k
  {
  }

  /** The all-zero weight vector the program starts training from. */
  function ZeroWeights(): (w: seq<real>)
    ensures ValidWeights(w)
    ensures forall i :: 0 <= i < |w| ==> w[i] == 0.0
  {
    seq(WeightCount, _ => 0.0)
  }
}
