/**
 * The geometry and control flow of ImageUtils.compressAndUpload with every
 * image reduced to its size: the target box, the proportional resize that keeps
 * one requested dimension, the centre crop and saveSubImage's bounds guard and
 * output format name. Pixel work, codecs and the rotation routine are not modelled;
 * what they yield is given as parameters.
 */
module ImageUtils {
  import opened Wrappers
  import opened JavaString
  import opened Exif

  /** The size of an image in pixels. */
  datatype Dimensions = Dimensions(width: nat, height: nat)

  predicate Positive(d: Dimensions)
  {
    d.width >= 1 && d.height >= 1
  }

  /** `java.awt.Rectangle`: an origin and a size. */
  datatype Rect = Rect(x: int, y: int, width: int, height: int)

  /** The rectangle lies inside an image of the given size. */
  predicate Within(bounds: Rect, image: Dimensions)
  {
    0 <= bounds.x && 0 <= bounds.y &&
    bounds.x + bounds.width <= image.width && bounds.y + bounds.height <= image.height
  }

  // ---------------------------------------------------------------------------
  // Target box
  // ---------------------------------------------------------------------------

  /**
   * The compressed width and height: each dimension of the (possibly rotated)
   * image divided by `proportion`, rounded down. Java's `/` truncates towards
   * zero, which on these non-negative operands is Dafny's `/`.
   */
  function TargetBox(oriented: Dimensions, proportion: int): (box: Dimensions)
    requires proportion >= 1
    ensures box.width * proportion <= oriented.width < (box.width + 1) * proportion
    ensures box.height * proportion <= oriented.height < (box.height + 1) * proportion
  {
    Dimensions(oriented.width / proportion, oriented.height / proportion)
  }

  // ---------------------------------------------------------------------------
  // resize
  // ---------------------------------------------------------------------------

  /**
   * resize's test `sx < sy`, with sx = targetW / width and sy = targetH / height,
   * compared exactly by cross-multiplication: the height's scale factor is the larger.
   */
  predicate HeightGoverns(source: Dimensions, targetW: nat, targetH: nat)
  {
    targetW * source.height < targetH * source.width
  }

  /**
   * The size resize produces when its floating-point recomputation of the other
   * dimension yields `rescaled`; it names Resize's result in compressAndUpload's contract.
   */
  function Resized(source: Dimensions, targetW: nat, targetH: nat, rescaled: nat): Dimensions
  {
    if HeightGoverns(source, targetW, targetH) then Dimensions(rescaled, targetH)
    else Dimensions(targetW, rescaled)
  }

  /**
   * resize: scale by the larger factor. The dimension whose factor is larger is
   * kept exactly as requested; the other is recomputed (`rescaled`, the result of
   * the floating-point product). The new image must have a positive size.
   */
  method Resize(source: Dimensions, targetW: nat, targetH: nat, rescaled: nat) returns (r: Dimensions)
    requires Positive(source)
    requires targetW >= 1 && targetH >= 1 && rescaled >= 1
    ensures HeightGoverns(source, targetW, targetH) ==> r == Dimensions(rescaled, targetH)
    ensures !HeightGoverns(source, targetW, targetH) ==> r == Dimensions(targetW, rescaled)
    ensures Positive(r)
  {
    var width, height := targetW, targetH;
    if targetW * source.height < targetH * source.width {
      // sx < sy: take sy for both axes and recompute the width
      width := rescaled;
    } else {
      // take sx for both axes and recompute the height
      height := rescaled;
    }
    r := Dimensions(width, height);
  }

  /** The recomputed dimension in exact arithmetic: the other side scaled by the larger factor, rounded down. */
  function ExactRescaled(source: Dimensions, targetW: nat, targetH: nat): nat
    requires Positive(source)
  {
    if HeightGoverns(source, targetW, targetH) then targetH * source.width / source.height
    else targetW * source.height / source.width
  }

  lemma MulLeImpliesLeDiv(a: nat, b: int, c: nat)
    requires b > 0 && a * b <= c
    ensures a <= c / b
  {
    var q, r := c / b, c % b;
    assert c == q * b + r && 0 <= r < b;
    var k := a - q;
    assert k * b == a * b - q * b;
    assert (k - 1) * b == k * b - b;
    assert (k - 1) * b < 0;
  }

  /**
   * In exact arithmetic the recomputed dimension meets or exceeds its requested
   * value, so the resized image always covers the target box.
   */
  lemma ExactRescaledCovers(source: Dimensions, targetW: nat, targetH: nat)
    requires Positive(source)
    ensures HeightGoverns(source, targetW, targetH) ==> targetW <= ExactRescaled(source, targetW, targetH)
    ensures !HeightGoverns(source, targetW, targetH) ==> targetH <= ExactRescaled(source, targetW, targetH)
  {
    if HeightGoverns(source, targetW, targetH) {
      MulLeImpliesLeDiv(targetW, source.height, targetH * source.width);
    } else {
      MulLeImpliesLeDiv(targetH, source.width, targetW * source.height);
    }
  }

  // ---------------------------------------------------------------------------
  // Centre crop
  // ---------------------------------------------------------------------------

  /**
   * The crop origin along one axis, `outer / 2 - inner / 2`. When the crop fits
   * it lies inside and the two margins differ by at most one pixel; when it does
   * not fit the origin is not positive.
   */
  function CenterOffset(outer: nat, inner: nat): (offset: int)
    ensures inner <= outer ==> 0 <= offset && offset + inner <= outer
    ensures inner <= outer ==> -1 <= (outer - inner - offset) - offset <= 1
    ensures inner > outer ==> offset <= 0
  {
    outer / 2 - inner / 2
  }

  // ---------------------------------------------------------------------------
  // saveSubImage
  // ---------------------------------------------------------------------------

  /** saveSubImage's guard as written: it compares `width - x`, not `x + width`, with the image width. */
  predicate GuardRejects(bounds: Rect, image: Dimensions)
  {
    bounds.x < 0 || bounds.y < 0 ||
    bounds.width - bounds.x > image.width || bounds.height - bounds.y > image.height
  }

  /** The guard evidently intended: reject a rectangle whose far edge passes the image's edge. */
  predicate BoundsRejects(bounds: Rect, image: Dimensions)
  {
    bounds.x < 0 || bounds.y < 0 ||
    bounds.x + bounds.width > image.width || bounds.y + bounds.height > image.height
  }

  /** The intended guard rejects exactly the rectangles that do not lie inside the image. */
  lemma CorrectedGuardExact(bounds: Rect, image: Dimensions)
    requires bounds.width >= 1 && bounds.height >= 1
    ensures !BoundsRejects(bounds, image) <==> Within(bounds, image)
    ensures GuardRejects(bounds, image) ==> BoundsRejects(bounds, image)
  {
  }

  /**
   * On the centred crops compressAndUpload builds, where the kept axis has origin 0
   * and the other axis origin `outer/2 - inner/2`, the guard as written rejects
   * exactly what the intended guard rejects.
   */
  lemma CentreCropGuardsAgree(resized: Dimensions, box: Dimensions)
    requires box.width >= 1 && box.height >= 1
    ensures resized.width == box.width ==>
              var bounds := Rect(0, CenterOffset(resized.height, box.height), box.width, box.height);
              GuardRejects(bounds, resized) <==> BoundsRejects(bounds, resized)
    ensures resized.height == box.height ==>
              var bounds := Rect(CenterOffset(resized.width, box.width), 0, box.width, box.height);
              GuardRejects(bounds, resized) <==> BoundsRejects(bounds, resized)
  {
  }

  /** The output format name: the file name after its last '.', or the whole name. */
  function FormatName(fileName: string): (format: string)
    ensures |format| <= |fileName| && fileName[|fileName| - |format|..] == format
    ensures '.' !in format
    ensures '.' !in fileName ==> format == fileName
    ensures '.' in fileName ==> fileName[|fileName| - |format| - 1] == '.'
  {
    fileName[LastIndexOf(fileName, '.') + 1..]
  }

  /** What saveSubImage hands to the image writer: the crop and the format name. */
  datatype Write = Write(bounds: Rect, format: string)

  /**
   * saveSubImage returns without writing when its guard rejects; otherwise it
   * takes the sub-image, which raises a RasterFormatException when the
   * rectangle leaves the image, and writes it.
   */
  datatype SaveOutcome = Skipped | Written(write: Write) | OutOfRaster

  /** saveSubImage on an image of the given size; the crop has a positive size, as getSubimage demands. */
  function SaveSubImage(image: Dimensions, bounds: Rect, fileName: string): (s: SaveOutcome)
    requires bounds.width >= 1 && bounds.height >= 1
    ensures s.Skipped? <==> GuardRejects(bounds, image)
    ensures s.Written? <==> Within(bounds, image)
    ensures s.Written? ==> s.write == Write(bounds, FormatName(fileName))
  {
    if GuardRejects(bounds, image) then Skipped
    else if !Within(bounds, image) then OutOfRaster
    else Written(Write(bounds, FormatName(fileName)))
  }

  /** The guard as written lets a rectangle through that leaves the image, and getSubimage then throws. */
  lemma GuardAdmitsOutOfBounds()
    ensures !GuardRejects(Rect(2, 0, 10, 10), Dimensions(10, 10))
    ensures BoundsRejects(Rect(2, 0, 10, 10), Dimensions(10, 10))
    ensures SaveSubImage(Dimensions(10, 10), Rect(2, 0, 10, 10), "out.jpg") == OutOfRaster
  {
  }

  // ---------------------------------------------------------------------------
  // compressAndUpload
  // ---------------------------------------------------------------------------

  /**
   * What the input stream yields: the decoded image's size (None when the
   * decoder throws an IOException) and the Orientation entries of the metadata
   * directories (None when the metadata reader throws).
   */
  datatype ImageStream = ImageStream(image: Option<Dimensions>, metadata: Option<seq<OrientationEntry>>)

  /** The image the target box is taken from: the rotated one whenever the angle is positive. */
  function Oriented(source: Dimensions, metadata: Option<seq<OrientationEntry>>, rotated: Dimensions): Dimensions
  {
    if RotateAngle(metadata) > 0 then rotated else source
  }

  /** The arguments pass the check and the image decodes. */
  predicate Proceeds(input: Option<ImageStream>, saveFile: Option<string>, proportion: int)
  {
    input.Some? && saveFile.Some? && proportion >= 1 && input.value.image.Some?
  }

  /**
   * compressAndUpload. `input` and `saveFile` are None for null references;
   * `saveFile` is the destination's file name. `rotated` is the size the rotation
   * routine returns, `rescaled` the dimension resize recomputes, and `writeFails`
   * says whether the image writer throws. Returns the boolean result and the
   * write handed to the image writer, if any.
   */
  method CompressAndUpload(input: Option<ImageStream>, saveFile: Option<string>, proportion: int,
                           rotated: Dimensions, rescaled: nat, writeFails: bool)
    returns (ok: bool, written: Option<Write>)
    requires Proceeds(input, saveFile, proportion) ==>
               var oriented := Oriented(input.value.image.value, input.value.metadata, rotated);
               oriented.width >= proportion && oriented.height >= proportion
    requires rescaled >= 1
    ensures input.None? || saveFile.None? || proportion < 1 ==> !ok && written.None?
    ensures input.Some? && input.value.image.None? ==> !ok && written.None?
    ensures Proceeds(input, saveFile, proportion) ==>
              var oriented := Oriented(input.value.image.value, input.value.metadata, rotated);
              var box := TargetBox(oriented, proportion);
              var resized := Resized(oriented, box.width, box.height, rescaled);
              && (written.None? ==> ok)
              && (written.Some? ==> ok == !writeFails)
              && (written.Some? <==>
                    if HeightGoverns(oriented, box.width, box.height) then box.width <= rescaled
                    else box.height <= rescaled)
              && (written.Some? ==>
                    && written.value.bounds ==
                         Rect(CenterOffset(resized.width, box.width), CenterOffset(resized.height, box.height),
                              box.width, box.height)
                    && Within(written.value.bounds, resized)
                    && written.value.format == FormatName(saveFile.value))
              && (rescaled == ExactRescaled(oriented, box.width, box.height) ==> written.Some?)
  {
    ok, written := false, None;
    if input.None? || saveFile.None? || proportion < 1 {
      return;
    }
    if input.value.image.None? {
      return;  // the decoder threw
    }
    var source := input.value.image.value;
    var ro := GetRotateAngleForPhoto(input.value.metadata);
    // the rotation routine turns `source` into an image of size `rotated`
    var oriented := if ro > 0 then rotated else source;
    var compressWidth := oriented.width / proportion;
    var compressHeight := oriented.height / proportion;
    var resized := Resize(oriented, compressWidth, compressHeight, rescaled);
    var w, h := resized.width, resized.height;
    ghost var box := TargetBox(oriented, proportion);
    ExactRescaledCovers(oriented, box.width, box.height);
    CentreCropGuardsAgree(resized, box);

    ok := true;
    if w == compressWidth {
      var y := h / 2 - compressHeight / 2;
      var saved := SaveSubImage(resized, Rect(0, y, compressWidth, compressHeight), saveFile.value);
      assert !saved.OutOfRaster?;
      if saved.Written? {
        written := Some(saved.write);
        ok := !writeFails;
      }
    } else if h == compressHeight {
      var x := w / 2 - compressWidth / 2;
      var saved := SaveSubImage(resized, Rect(x, 0, compressWidth, compressHeight), saveFile.value);
      assert !saved.OutOfRaster?;
      if saved.Written? {
        written := Some(saved.write);
        ok := !writeFails;
      }
    }
  }
}
