# ImageUtils: orientation, target box and centre crop

A Dafny model of the decision logic inside `ImageUtils` (dilantaya/ImageUtil), the utility
that takes an uploaded image, corrects its orientation from Exif metadata, shrinks it by an
integer `proportion` and centre-crops it to an exact target box before writing it out.
Every image is reduced to its size (`Dimensions(width, height)`). What the image libraries
compute (decoding, the rotation routine, the floating-point resize, writing) enters the
model as parameters.

- `Wrappers` (`wrappers.dfy`): `Option`, standing in for Java references that may be null.
- `JavaString` (`java_string.dfy`): `String.indexOf(String)` and `String.lastIndexOf(char)`.
- `Exif` (`exif.dfy`): `getRotateAngleForPhoto` (a loop over metadata directories, then the
  Orientation-to-degrees chain), `getExifMap` (a nested loop with a `break` that fills a map)
  and `getAngle` (substring search on the Orientation description). The meaning of the
  Orientation tag (0x0112) as TIFF 6.0 section 8 and Exif 2.3 section 4.6.4 A define it is
  `StandardCorrection`, the reference the degree mapping is checked against.
- `ImageUtils` (`image_utils.dfy`): the target box, `resize`'s choice of the kept dimension,
  the centre-crop origin, `saveSubImage`'s guard and format name, and `compressAndUpload`.

Where the behaviour is odd, the model follows the code:
- An upright image (Orientation 1), and an image with no Orientation value at all, gets 360
  degrees, not 0. So it takes the "rotate" branch of `compressAndUpload`, although the Exif
  Orientation standard asks for no rotation for value 1.
- When the crop guard rejects, `compressAndUpload` still returns `true`: a skipped crop
  writes nothing yet reports success.
- `getAngle` throws a NullPointerException when the map is non-empty but has no
  "Orientation" entry, or holds null there. The model returns `NullPointerThrown`.

## Model

| member | source | states |
|---|---|---|
| JavaString.IndexOfFrom | src/java/ImageUtils.java:270-274 | the result is -1 or an occurrence at or after `from`, and no occurrence lies between `from` and the result |
| JavaString.IndexOf | src/java/ImageUtils.java:270-274 | `indexOf` is non-negative exactly when the substring occurs, and then it is the first occurrence |
| JavaString.LastIndexOf | src/java/ImageUtils.java:165 | `lastIndexOf('.')` is -1 or an index holding '.', and no '.' follows it |
| Exif.DegreesForOrientation | src/java/ImageUtils.java:318-326 | 0 and 1 give 360; 3, 6 and 8 give 180, 90 and 270, agreeing modulo 360 with the standard's clockwise correction; mirrored and undefined values give 0 |
| Exif.LastOrientationSpec | src/java/ImageUtils.java:306-317 | the value the directory loop ends with comes from the last directory that stores one, or is 0 when none does |
| Exif.GetRotateAngleForPhoto | src/java/ImageUtils.java:299-331 | the angle is 0 when reading the metadata or converting a value throws, and otherwise the degree mapping of the last stored Orientation; it is always one of 0, 90, 180, 270, 360 |
| Exif.LastDirectoryWins | src/java/ImageUtils.java:306-326 | with several Orientation values the last directory's decides the angle, and an upright value 1 still gives a positive angle |
| Exif.NoOrientationStillRotates | src/java/ImageUtils.java:306-319 | metadata with no Orientation value anywhere gives 360, not 0 |
| Exif.FirstOrientationTagSpec | src/java/ImageUtils.java:250-257 | the inner loop finds nothing exactly when no tag is named Orientation, and otherwise finds the first such tag |
| Exif.OrientationTagOfSpec | src/java/ImageUtils.java:249-259 | the recorded tag is absent exactly when no directory has one, and otherwise comes from the last directory that has one |
| Exif.ExifMapShape | src/java/ImageUtils.java:245-261 | the map has no key but "Orientation" and is empty exactly when no tag in any directory is named Orientation |
| Exif.ExifMapStep | src/java/ImageUtils.java:249-259 | each further directory's first Orientation tag, if any, replaces the recorded description |
| Exif.FirstOrientationTagStep | src/java/ImageUtils.java:250-257 | the tag at the scan position decides when it is named Orientation; otherwise the scan moves on |
| Exif.GetExifMap | src/java/ImageUtils.java:245-261 | the nested loop with `break` builds exactly the map of the first Orientation tag in the last directory that has one |
| Exif.GetAngle | src/java/ImageUtils.java:264-278 | a null or empty map gives 0; a missing key or null description throws; otherwise "90", then "180", then "270" in the description give 1, 2, 3, else 0; the result is at most 3 |
| Exif.ExifMapAngle | src/java/ImageUtils.java:245-278 | `getAngle` of the map `getExifMap` builds is 0 when there is no Orientation tag, and throws exactly when the recorded tag's description is null |
| ImageUtils.TargetBox | src/java/ImageUtils.java:69-77 | each side of the box is the floor of the oriented side divided by `proportion` |
| ImageUtils.Resize | src/java/ImageUtils.java:119-136 | exactly one requested dimension is kept: when `sx < sy` the result is (`rescaled`, `targetH`), otherwise (`targetW`, `rescaled`); the result has a positive size |
| ImageUtils.ExactRescaledCovers | src/java/ImageUtils.java:124-134 | in exact arithmetic the recomputed dimension meets or exceeds its requested value |
| ImageUtils.CenterOffset | src/java/ImageUtils.java:86-99 | when the crop fits, the origin `outer/2 - inner/2` keeps it inside and the two margins differ by at most one; when it does not fit, the origin is not positive |
| ImageUtils.CorrectedGuardExact | src/java/ImageUtils.java:158-162 | the intended guard rejects exactly the rectangles not inside the image, and everything the written guard rejects it rejects too |
| ImageUtils.CentreCropGuardsAgree | src/java/ImageUtils.java:86-101 | on the centred crops built at lines 88-89 and 98-99, the guard as written at lines 158-160 rejects exactly what the intended guard rejects |
| ImageUtils.GuardAdmitsOutOfBounds | src/java/ImageUtils.java:158-163 | the written guard lets a 10x10 crop at x = 2 through on a 10x10 image, and the sub-image call then fails |
| ImageUtils.FormatName | src/java/ImageUtils.java:164-165 | the format name is a suffix of the file name without '.', preceded by '.' when the name has one, and the whole name otherwise |
| ImageUtils.SaveSubImage | src/java/ImageUtils.java:155-167 | nothing is written exactly when the guard rejects; a write happens exactly when the rectangle lies inside the image, with that rectangle and the format name |
| ImageUtils.CompressAndUpload | src/java/ImageUtils.java:42-108 | null arguments, `proportion < 1` or a decode failure give `false` and no write; otherwise the box comes from the rotated size whenever the angle is positive, a centred crop of exactly the box inside the resized image is written exactly when the recomputed side covers the box (always, in exact arithmetic), the result is `false` only when that write throws, and a skipped crop still returns `true` |

## Findings

| source | as written | input that shows it | evidently intended | confidence | as-written member | corrected member |
|---|---|---|---|---|---|---|
| src/java/ImageUtils.java:158-162 | rejects when `width - x > imageWidth` or `height - y > imageHeight` | a 10x10 image with the rectangle x = 2, y = 0, 10x10 passes the guard, and `getSubimage` then throws | reject when `x + width > imageWidth` or `y + height > imageHeight` | high; not executed | ImageUtils.GuardAdmitsOutOfBounds | ImageUtils.CorrectedGuardExact |

`SaveSubImage` keeps the guard as written, with the failing sub-image call as the
`OutOfRaster` outcome. `CompressAndUpload` never reaches that outcome. Its crop origins
are centred, so the written guard rejects there exactly what the intended guard
rejects (`CentreCropGuardsAgree`), and every write it makes lies inside the resized
image (`Within`).

## Left out

- Pixel work is not modelled: ImageIO decoding and encoding, `BufferedImage` allocation, Graphics2D drawing and bicubic interpolation. An image is only its size.
- The floating-point scale factors in `resize` are not modelled. The recomputed dimension is the parameter `rescaled`, and `ExactRescaled` gives its exact-arithmetic value.
- Resize: the test `sx < sy` is compared exactly, by cross-multiplication. Java compares two rounded doubles, which can disagree at near-ties.
- Resize: requires positive target sizes and `rescaled >= 1`, because the `BufferedImage` constructor throws on a zero size. Zero-size target boxes, which arise when a side is smaller than `proportion`, are excluded by `CompressAndUpload`'s precondition for the same reason.
- CompressAndUpload: the image `RotateImageUtils.Rotate` returns is the parameter `rotated`. RotateImageUtils is not part of this model.
- CompressAndUpload: does not model `ImageIO.read` returning null, or `cloneInputStream` returning null. Both lead to an uncaught NullPointerException.
- CompressAndUpload: does not model the boolean that `ImageIO.write` returns when it has no writer for the format. The source ignores it, so the model counts the write as made.
- GetAngle: models map values as a String or null only. Java's `getAngle` accepts any `Object` and searches its `toString()`, but `getExifMap` stores only descriptions, which are Strings or null.
- SaveSubImage: requires a crop of positive size, which `getSubimage` demands. `compressAndUpload` always passes one.
- `getAngelBufferedImg` and `calcRotatedSize` are not modelled. They are trigonometry in floating point, and their only call is commented out.
- `getExif` is not modelled. It only calls the metadata reader and `getExifMap`, and substitutes an empty map when the reader throws.
- `cloneInputStream`, `getBase64FromInputStream` and the Base64 encode/decode round trip are not modelled. They are stream plumbing that copies the input bytes unchanged.
- The metadata reader is not modelled. Its output is given as data: the Orientation entries of each directory, or each directory's list of (name, description) tags.
- Logging, `printStackTrace` and `main` with its fixed file paths are not modelled.
- 32-bit `int` wrap-around is not modelled. With non-negative sizes, the source's divisions and subtractions cannot overflow.
