/**
 * The arithmetic of the client-side image compression: which files are
 * compressed, the resized dimensions (at most 1200 pixels on the longest
 * side) and the renaming of the output file to `.jpg`.
 */
module CompressImage {
  import opened Text

  /** Files below this many bytes are returned as they are. */
  const SkipBelowBytes: nat := 500 * 1024

  /** The longest side of a compressed image, in pixels. */
  const MaxSide: nat := 1200

  const JpegMimeType: string := "image/jpeg"

  /**
   * `Math.round(a / b)` for a >= 0 and b > 0: the nearest whole number, halves
   * rounded up.
   */
  function RoundDiv(a: nat, b: nat): (r: nat)
    requires b > 0
    ensures 2 * r * b <= 2 * a + b < 2 * r * b + 2 * b
  {
    (2 * a + b) / (2 * b)
  }

  /** Cancelling a positive factor: x * c < (y + 1) * c gives x <= y. */
  lemma CancelFactor(x: int, y: int, c: int)
    requires c > 0 && x * c < (y + 1) * c
    ensures x <= y
  {
    assert (x - y - 1) * c == x * c - (y + 1) * c;
  }

  /** The nearest whole number is unique: any r with that bracket is RoundDiv(a, b). */
  lemma RoundDivUnique(a: nat, b: nat, r: nat)
    requires b > 0
    requires 2 * r * b <= 2 * a + b < 2 * r * b + 2 * b
    ensures RoundDiv(a, b) == r
  {
    var q := RoundDiv(a, b);
    assert 2 * q * b == q * (2 * b) && 2 * r * b == r * (2 * b);
    assert 2 * q * b + 2 * b == (q + 1) * (2 * b) && 2 * r * b + 2 * b == (r + 1) * (2 * b);
    CancelFactor(q, r, 2 * b);
    CancelFactor(r, q, 2 * b);
  }

  /**
   * The new (width, height): unchanged when both fit, otherwise the longer side
   * scaled to 1200. The divisor is always a side above 1200, so a zero-pixel
   * side needs no special case.
   */
  function ResizeDimensions(width: nat, height: nat): (r: (nat, nat))
    ensures width <= MaxSide && height <= MaxSide ==> r == (width, height)
    ensures width > height && width > MaxSide ==> r.0 == MaxSide
    ensures width <= height && height > MaxSide ==> r.1 == MaxSide
  {
    if width > MaxSide || height > MaxSide then
      if width > height then (MaxSide, RoundDiv(height * MaxSide, width))
      else (RoundDiv(width * MaxSide, height), MaxSide)
    else (width, height)
  }

  /**
   * Both output sides are at most 1200; an image that fits is untouched; one
   * that does not has its longer side (height on a tie) at exactly 1200.
   */
  lemma ResizeBounds(width: nat, height: nat)
    ensures var (w, h) := ResizeDimensions(width, height);
      && w <= MaxSide && h <= MaxSide
      && (width <= MaxSide && height <= MaxSide ==> (w, h) == (width, height))
      && (width > MaxSide || height > MaxSide ==>
            if width > height then w == MaxSide else h == MaxSide)
  {
    if width > MaxSide || height > MaxSide {
      if width > height {
        RoundDivAtMost(height * MaxSide, width, MaxSide);
      } else {
        RoundDivAtMost(width * MaxSide, height, MaxSide);
      }
    }
  }

  /** Scaling the shorter side by 1200 / longer never exceeds 1200. */
  lemma RoundDivAtMost(a: nat, b: nat, m: nat)
    requires b > 0 && a <= m * b
    ensures RoundDiv(a, b) <= m
  {
    var r := RoundDiv(a, b);
    assert 2 * r * b == r * (2 * b);
    assert 2 * m * b + 2 * b == (m + 1) * (2 * b);
    CancelFactor(r, m, 2 * b);
  }

  /**
   * The aspect ratio is kept up to rounding: the computed side differs from the
   * exact proportion by at most half a pixel.
   */
  lemma ResizeKeepsAspect(width: nat, height: nat)
    requires width > MaxSide || height > MaxSide
    ensures var (w, h) := ResizeDimensions(width, height);
      if width > height then
        2 * (h * width) <= 2 * (height * MaxSide) + width && 2 * (height * MaxSide) <= 2 * (h * width) + width
      else
        2 * (w * height) <= 2 * (width * MaxSide) + height && 2 * (width * MaxSide) <= 2 * (w * height) + height
  {
  }

  /**
   * Rounding can collapse a side: a 5000 x 1 strip becomes 1200 x 0, a canvas
   * with no rows.
   */
  lemma ResizeCanCollapse()
    ensures ResizeDimensions(5000, 1) == (1200, 0)
  {
  }

  /** `name.replace(/\.[^.]+$/, ".jpg")`: a final dot and the non-empty, dot-free text after it become ".jpg". */
  function JpegName(name: string): (r: string)
    ensures var keep := |name| - |AfterLastDot(name)|;
      keep <= |r| && r[..keep] == name[..keep]
    ensures AfterLastDot(name) != [] && |AfterLastDot(name)| < |name| ==> |r| >= 3 && r[|r| - 3..] == "jpg"
  {
    var ext := AfterLastDot(name);
    if ext != [] && |ext| < |name| then name[..|name| - |ext|] + "jpg" else name
  }

  /**
   * The rename of a name with an extension: everything up to and including
   * its last dot is kept, "jpg" follows, and "jpg" is then its extension.
   */
  lemma JpegNameReplaced(name: string, pre: string)
    requires AfterLastDot(name) != [] && |AfterLastDot(name)| < |name|
    requires pre == name[..|name| - |AfterLastDot(name)|]
    ensures JpegName(name) == pre + "jpg" && pre != [] && pre[|pre| - 1] == '.'
    ensures AfterLastDot(JpegName(name)) == "jpg"
  {
    JpegExtension(pre);
  }

  /** A name with no dot, or ending in a dot, is kept as it is. */
  lemma JpegNameKept(name: string)
    requires AfterLastDot(name) == [] || |AfterLastDot(name)| == |name|
    ensures JpegName(name) == name
    ensures '.' !in name || name[|name| - 1] == '.'
  {
    var ext := AfterLastDot(name);
    if ext != [] {
      assert name == name[..0] + ext;
    }
  }

  lemma JpegExtension(pre: string)
    requires pre != [] && pre[|pre| - 1] == '.'
    ensures AfterLastDot(pre + "jpg") == "jpg"
  {
    AfterLastDotUnique(pre, "jpg");
  }

  /** Renaming twice is renaming once. */
  lemma JpegNameIdempotent(name: string)
    ensures JpegName(JpegName(name)) == JpegName(name)
  {
    var ext := AfterLastDot(name);
    if ext != [] && |ext| < |name| {
      var pre := name[..|name| - |ext|];
      JpegNameReplaced(name, pre);
      var n := JpegName(name);
      JpegNameReplaced(n, n[..|n| - 3]);
      assert n[..|n| - 3] == pre;
    } else {
      JpegNameKept(name);
    }
  }

  /** What `compressImage` resolves or rejects with. */
  datatype Compressed =
    | Unchanged
    | Jpeg(name: string, width: nat, height: nat, mimeType: string)
    | Rejected(message: string)

  /** The resized canvas has a zero-pixel side. */
  predicate Collapsed(width: nat, height: nat)
  {
    ResizeDimensions(width, height).0 == 0 || ResizeDimensions(width, height).1 == 0
  }

  /** The rejection of `toBlob` yielding no blob, as it does for a canvas with no pixels. */
  const CompressFailedMessage: string := "Failed to compress image"

  /**
   * The decision and the output file's metadata; the pixels and the output size
   * are not modelled. A canvas with a zero-pixel side encodes to no blob, and
   * the promise is rejected.
   */
  function CompressPlan(size: nat, name: string, width: nat, height: nat): (r: Compressed)
    ensures r.Unchanged? <==> size < SkipBelowBytes
    ensures r.Rejected? <==> size >= SkipBelowBytes && Collapsed(width, height)
    ensures r.Rejected? ==> r.message == CompressFailedMessage
    ensures r.Jpeg? ==> r.mimeType == JpegMimeType && r.name == JpegName(name)
    ensures r.Jpeg? ==> (r.width, r.height) == ResizeDimensions(width, height)
    ensures r.Jpeg? ==> 0 < r.width <= MaxSide && 0 < r.height <= MaxSide
  {
    if size < SkipBelowBytes then Unchanged
    else
      ResizeBounds(width, height);
      var (w, h) := ResizeDimensions(width, height);
      if w == 0 || h == 0 then Rejected(CompressFailedMessage)
      else Jpeg(JpegName(name), w, h, JpegMimeType)
  }

  /** A large image whose shorter side rounds to nothing is rejected: 5000 x 1 at 600 KiB. */
  lemma CollapsedImageRejected()
    ensures CompressPlan(600 * 1024, "strip.png", 5000, 1) == Rejected(CompressFailedMessage)
  {
    ResizeCanCollapse();
  }
}
