/** Properties of the loader that relate several loads: the headers and any
    trailing bytes do not matter, which record fails first, and a round trip
    through an encoder of the same file layout. */
module LoaderProps {
  import opened Mnist
  import opened Loader

  /** `ReadRecords` depends on the files only through which records fit,
      what the readable ones decode to, and the error the first short one gives. */
  lemma {:induction false} ReadRecordsCongruent(img: seq<byte>, lbl: seq<byte>,
                                                img2: seq<byte>, lbl2: seq<byte>, i: nat, n: nat)
    requires i <= n
    requires forall k :: i <= k < n ==> RecordFits(img, lbl, k) == RecordFits(img2, lbl2, k)
    requires forall k :: i <= k < n && RecordFits(img, lbl, k) ==>
               DecodeRecord(img, lbl, k) == DecodeRecord(img2, lbl2, k)
    requires forall k :: i <= k < n && !RecordFits(img, lbl, k) ==>
               RecordError(img, lbl, k) == RecordError(img2, lbl2, k)
    ensures ReadRecords(img, lbl, i, n) == ReadRecords(img2, lbl2, i, n)
    decreases n - i
  {
    if i < n && RecordFits(img, lbl, i) {
      ReadRecordsCongruent(img, lbl, img2, lbl2, i + 1, n);
    }
  }

  /** The 16-byte image header and the 8-byte label header are never read:
      files that differ only there load identically. */
  lemma HeaderIrrelevant(img: seq<byte>, lbl: seq<byte>, img2: seq<byte>, lbl2: seq<byte>, n: int)
    requires |img2| == |img| && |lbl2| == |lbl|
    requires forall p :: ImageHeaderSize <= p < |img| ==> img2[p] == img[p]
    requires forall p :: LabelHeaderSize <= p < |lbl| ==> lbl2[p] == lbl[p]
    ensures LoadMnist(Some(img2), Some(lbl2), n) == LoadMnist(Some(img), Some(lbl), n)
  {
    var m := Count(n);
    forall k | 0 <= k < m && RecordFits(img, lbl, k)
      ensures DecodeRecord(img, lbl, k) == DecodeRecord(img2, lbl2, k)
    {
      var a, b := DecodeRecord(img, lbl, k), DecodeRecord(img2, lbl2, k);
      assert a.pixels == b.pixels;
    }
    ReadRecordsCongruent(img, lbl, img2, lbl2, 0, m);
  }

  /** Once `n` records load, bytes appended after them in either file change nothing. */
  lemma TrailingBytesIgnored(img: seq<byte>, lbl: seq<byte>, n: int, moreImg: seq<byte>, moreLbl: seq<byte>)
    requires LoadMnist(Some(img), Some(lbl), n).Success?
    ensures LoadMnist(Some(img + moreImg), Some(lbl + moreLbl), n) == LoadMnist(Some(img), Some(lbl), n)
  {
    var m := Count(n);
    var img2, lbl2 := img + moreImg, lbl + moreLbl;
    assert forall k :: 0 <= k < m ==> RecordFits(img, lbl, k);
    forall k | 0 <= k < m
      ensures RecordFits(img2, lbl2, k)
      ensures DecodeRecord(img, lbl, k) == DecodeRecord(img2, lbl2, k)
    {
      assert RecordFits(img, lbl, k);
      var a, b := DecodeRecord(img, lbl, k), DecodeRecord(img2, lbl2, k);
      assert a.pixels == b.pixels;
    }
    ReadRecordsCongruent(img, lbl, img2, lbl2, 0, m);
  }

  /** Number of complete image records after the header. */
  function CompleteImages(img: seq<byte>): nat {
    if |img| < ImageHeaderSize then 0 else (|img| - ImageHeaderSize) / ImageSize
  }

  /** Number of label bytes after the header. */
  function CompleteLabels(lbl: seq<byte>): nat {
    if |lbl| < LabelHeaderSize then 0 else |lbl| - LabelHeaderSize
  }

  lemma ImageFitsBelowComplete(img: seq<byte>, k: nat)
    ensures ImageFits(img, k) <==> k < CompleteImages(img)
  {
    if |img| >= ImageHeaderSize {
      var q := (|img| - ImageHeaderSize) / ImageSize;
      assert |img| - ImageHeaderSize < ImageSize * (q + 1);
      if k < q {
        assert ImageSize * (k + 1) <= ImageSize * q;
      } else {
        assert ImageSize * q <= ImageSize * k;
      }
    }
  }

  /** Which error a failing load reports: the first record that cannot be read
      in full, at the smaller of the two complete-record counts; at a tie the
      image read, which comes first, is the one that fails. */
  lemma {:induction false} FirstShortRecordDecides(img: seq<byte>, lbl: seq<byte>, n: int)
    requires LoadMnist(Some(img), Some(lbl), n).Failure?
    ensures var e := if CompleteImages(img) <= CompleteLabels(lbl) then CompleteImages(img) else CompleteLabels(lbl);
            && e < n
            && LoadMnist(Some(img), Some(lbl), n) ==
                 Failure(if CompleteImages(img) <= CompleteLabels(lbl)
                         then ImageReadError(e, Available(img, ImageOffset(e)))
                         else LabelReadError(e))
  {
    var r := ReadRecords(img, lbl, 0, Count(n));
    var f := r.error.index;
    var ci, cl := CompleteImages(img), CompleteLabels(lbl);
    var e := if ci <= cl then ci else cl;
    ImageFitsBelowComplete(img, f);
    if f > 0 {
      assert RecordFits(img, lbl, f - 1);
      ImageFitsBelowComplete(img, f - 1);
    }
    ImageFitsBelowComplete(img, e);
    assert f == e;
  }

  /** A header followed by only 500 image bytes fails on the first record,
      which reads 500 of the 784 bytes it needs; nothing is padded. */
  lemma TruncatedImageFails(img: seq<byte>, lbl: seq<byte>, n: int)
    requires |img| == ImageHeaderSize + 500
    requires n >= 1
    ensures LoadMnist(Some(img), Some(lbl), n) == Failure(ImageReadError(0, 500))
  {
    assert !ImageFits(img, 0);
    assert !RecordFits(img, lbl, 0);
    assert ReadRecords(img, lbl, 0, Count(n)) == Failure(RecordError(img, lbl, 0));
  }

  /** Image records laid end to end, as they appear after the header. */
  function Flatten(images: seq<seq<byte>>): (r: seq<byte>)
    requires forall i :: 0 <= i < |images| ==> |images[i]| == ImageSize
    ensures |r| == ImageSize * |images|
    decreases |images|
  {
    if |images| == 0 then [] else Flatten(images[..|images| - 1]) + images[|images| - 1]
  }

  lemma {:induction false} FlattenIndex(images: seq<seq<byte>>, i: nat, j: nat)
    requires forall t :: 0 <= t < |images| ==> |images[t]| == ImageSize
    requires i < |images| && j < ImageSize
    ensures ImageSize * i + j < |Flatten(images)|
    ensures Flatten(images)[ImageSize * i + j] == images[i][j]
    decreases |images|
  {
    var last := |images| - 1;
    var init := images[..last];
    assert Flatten(images) == Flatten(init) + images[last];
    if i < last {
      FlattenIndex(init, i, j);
    }
  }

  /** The two files `load_mnist` expects, built from raw records. */
  function EncodeImages(header: seq<byte>, images: seq<seq<byte>>): seq<byte>
    requires forall i :: 0 <= i < |images| ==> |images[i]| == ImageSize
  {
    header + Flatten(images)
  }

  function EncodeLabels(header: seq<byte>, labels: seq<byte>): seq<byte> {
    header + labels
  }

  /** Example `i` as the loader should produce it from raw record `i`. */
  function Expected(images: seq<seq<byte>>, labels: seq<byte>, i: nat): Example
    requires i < |images| && |labels| == |images|
    requires |images[i]| == ImageSize
  {
    Example(seq(ImageSize, j requires 0 <= j < ImageSize => Normalize(images[i][j])), labels[i] as int)
  }

  /** Round trip: encoding records behind any headers and loading them back
      yields one example per record, pixels normalised and labels unchanged. */
  lemma LoadEncoded(imgHeader: seq<byte>, lblHeader: seq<byte>, images: seq<seq<byte>>, labels: seq<byte>)
    requires |imgHeader| == ImageHeaderSize && |lblHeader| == LabelHeaderSize
    requires forall i :: 0 <= i < |images| ==> |images[i]| == ImageSize
    requires |labels| == |images|
    ensures var r := LoadMnist(Some(EncodeImages(imgHeader, images)), Some(EncodeLabels(lblHeader, labels)), |images|);
            && r.Success?
            && |r.value| == |images|
            && forall i :: 0 <= i < |images| ==> r.value[i] == Expected(images, labels, i)
  {
    var img, lbl := EncodeImages(imgHeader, images), EncodeLabels(lblHeader, labels);
    var n := |images|;
    var r := LoadMnist(Some(img), Some(lbl), n);
    assert ImageOffset(n) <= |img|;
    forall i | 0 <= i < n
      ensures r.value[i] == Expected(images, labels, i)
    {
      var got, want := r.value[i], Expected(images, labels, i);
      forall j | 0 <= j < ImageSize
        ensures got.pixels[j] == want.pixels[j]
      {
        FlattenIndex(images, i, j);
        assert img[ImageHeaderSize + ImageSize * i + j] == images[i][j];
      }
      assert got.pixels == want.pixels;
    }
  }
}
