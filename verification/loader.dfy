/** The binary dataset loader: an image file and a label file, each with a
    fixed header that is skipped unread, parsed into `n` examples or an error.
    The reads interleave: image record `i` (784 bytes), then label `i` (1 byte). */
module Loader {
  import opened Mnist

  datatype LoadError =
    | OpenError                              // either file could not be opened
    | ImageReadError(index: nat, got: nat)   // image record `index` read only `got` bytes
    | LabelReadError(index: nat)             // no label byte for record `index`

  datatype Result<+T> = Success(value: T) | Failure(error: LoadError)

  /** A pixel byte scaled into [0, 1]; exact, since it is the real quotient. */
  function Normalize(b: byte): (r: real)
    ensures 0.0 <= r <= 1.0
    ensures r * 255.0 == b as real
  {
    b as real / 255.0
  }

  /** File offset of image record `i`, after the header and `i` full records. */
  function ImageOffset(i: nat): nat {
    ImageHeaderSize + ImageSize * i
  }

  /** File offset of label `i`. */
  function LabelOffset(i: nat): nat {
    LabelHeaderSize + i
  }

  /** Bytes a read starting at `pos` can obtain; a seek past the end leaves none. */
  function Available(data: seq<byte>, pos: nat): nat {
    if pos <= |data| then |data| - pos else 0
  }

  /** A full 784-byte read of image record `i` is possible. */
  predicate ImageFits(img: seq<byte>, i: nat) {
    ImageOffset(i) + ImageSize <= |img|
  }

  /** A one-byte read of label `i` is possible. */
  predicate LabelFits(lbl: seq<byte>, i: nat) {
    LabelOffset(i) < |lbl|
  }

  predicate RecordFits(img: seq<byte>, lbl: seq<byte>, i: nat) {
    ImageFits(img, i) && LabelFits(lbl, i)
  }

  /** The error reported when record `i` is the first that cannot be read:
      the image read comes first, so a short image wins over a missing label. */
  function RecordError(img: seq<byte>, lbl: seq<byte>, i: nat): LoadError {
    if !ImageFits(img, i) then ImageReadError(i, Available(img, ImageOffset(i)))
    else LabelReadError(i)
  }

  /** Record `i` decoded from a fully readable position. */
  function DecodeRecord(img: seq<byte>, lbl: seq<byte>, i: nat): Example
    requires RecordFits(img, lbl, i)
  {
    var base := ImageOffset(i);
    Example(seq(ImageSize, j requires 0 <= j < ImageSize => Normalize(img[base + j])),
            lbl[LabelOffset(i)] as int)
  }

  /** Reads records `i .. n-1` in order, stopping at the first that is short. */
  function ReadRecords(img: seq<byte>, lbl: seq<byte>, i: nat, n: nat): (r: Result<Dataset>)
    requires i <= n
    ensures r.Success? <==> forall k :: i <= k < n ==> RecordFits(img, lbl, k)
    ensures r.Success? ==> |r.value| == n - i
    ensures r.Success? ==> forall k :: 0 <= k < n - i ==> r.value[k] == DecodeRecord(img, lbl, i + k)
    ensures r.Failure? ==> !r.error.OpenError? && i <= r.error.index < n
    ensures r.Failure? ==> !RecordFits(img, lbl, r.error.index)
    ensures r.Failure? ==> forall k :: i <= k < r.error.index ==> RecordFits(img, lbl, k)
    ensures r.Failure? ==> r.error == RecordError(img, lbl, r.error.index)
    decreases n - i
  {
    if i == n then Success([])
    else if !RecordFits(img, lbl, i) then Failure(RecordError(img, lbl, i))
    else
      match ReadRecords(img, lbl, i + 1, n)
      case Failure(e) => Failure(e)
      case Success(rest) => Success([DecodeRecord(img, lbl, i)] + rest)
  }

  /** Number of records the loop reads for a requested count `n` (none when `n <= 0`). */
  function Count(n: int): nat {
    if n < 0 then 0 else n
  }

  /** `load_mnist`: both files must open, then `n` records are read. */
  function LoadMnist(imageFile: Option<seq<byte>>, labelFile: Option<seq<byte>>, n: int): (r: Result<Dataset>)
    ensures imageFile.None? || labelFile.None? ==> r == Failure(OpenError)
    ensures r.Success? <==>
              && imageFile.Some? && labelFile.Some?
              && (n <= 0 || (ImageOffset(n) <= |imageFile.value| && LabelOffset(n) <= |labelFile.value|))
    ensures r.Success? ==> |r.value| == Count(n) && WellFormed(r.value)
    ensures r.Success? ==>
              forall i, j :: 0 <= i < |r.value| && 0 <= j < ImageSize ==>
                r.value[i].pixels[j] == imageFile.value[ImageHeaderSize + ImageSize * i + j] as real / 255.0
    ensures r.Success? ==>
              forall i :: 0 <= i < |r.value| ==>
                r.value[i].digit == labelFile.value[LabelHeaderSize + i] as int && 0 <= r.value[i].digit < 256
    ensures r.Success? ==>
              forall i, j :: 0 <= i < |r.value| && 0 <= j < ImageSize ==> 0.0 <= r.value[i].pixels[j] <= 1.0
  {
    if imageFile.None? || labelFile.None? then Failure(OpenError)
    else
      var img, lbl := imageFile.value, labelFile.value;
      var r := ReadRecords(img, lbl, 0, Count(n));
      assert r.Success? <== n <= 0 || (ImageOffset(n) <= |img| && LabelOffset(n) <= |lbl|) by {
        if n > 0 && ImageOffset(n) <= |img| && LabelOffset(n) <= |lbl| {
          assert forall k :: 0 <= k < n ==> RecordFits(img, lbl, k) by {
            forall k | 0 <= k < n ensures RecordFits(img, lbl, k) {
              assert ImageOffset(k) + ImageSize <= ImageOffset(n);
            }
          }
        }
      }
      assert r.Success? ==> n <= 0 || (ImageOffset(n) <= |img| && LabelOffset(n) <= |lbl|) by {
        if r.Success? && n > 0 {
          assert RecordFits(img, lbl, n - 1);
        }
      }
      assert r.Success? ==>
               forall i, j :: 0 <= i < |r.value| && 0 <= j < ImageSize ==>
                 r.value[i].pixels[j] == Normalize(img[ImageHeaderSize + ImageSize * i + j]) by {
        if r.Success? {
          forall i, j | 0 <= i < |r.value| && 0 <= j < ImageSize
            ensures r.value[i].pixels[j] == Normalize(img[ImageHeaderSize + ImageSize * i + j])
          {
            assert r.value[i] == DecodeRecord(img, lbl, i);
          }
        }
      }
      r
  }
}
