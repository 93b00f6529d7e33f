/**
 * Orientation detection in ImageUtils: the fold over metadata directories that
 * picks the Exif Orientation value (getRotateAngleForPhoto), the map of tag
 * descriptions (getExifMap) and the description-based quarter-turn count (getAngle).
 * The metadata library's parsing is not modelled: its output is given as data.
 */
module Exif {
  import opened Wrappers
  import opened JavaString

  // ---------------------------------------------------------------------------
  // The Exif Orientation tag (0x0112) as defined by TIFF 6.0 section 8 and
  // Exif 2.3 section 4.6.4 A: how a viewer must transform the stored image.
  // ---------------------------------------------------------------------------

  /** The correction a viewer applies: an optional horizontal mirror, then clockwise quarter turns. */
  datatype Correction = Correction(mirror: bool, quarterTurns: nat)

  /** The standard meaning of the eight defined Orientation values; any other value is undefined. */
  function StandardCorrection(orientation: int): Option<Correction>
  {
    match orientation
    case 1 => Some(Correction(false, 0))  // top-left: as stored
    case 2 => Some(Correction(true, 0))   // top-right: mirror horizontally
    case 3 => Some(Correction(false, 2))  // bottom-right: rotate 180
    case 4 => Some(Correction(true, 2))   // bottom-left: mirror vertically
    case 5 => Some(Correction(true, 3))   // left-top: mirror, rotate 270 clockwise
    case 6 => Some(Correction(false, 1))  // right-top: rotate 90 clockwise
    case 7 => Some(Correction(true, 1))   // right-bottom: mirror, rotate 90 clockwise
    case 8 => Some(Correction(false, 3))  // left-bottom: rotate 270 clockwise
    case _ => None
  }

  /**
   * The if-chain of getRotateAngleForPhoto that turns an Orientation value into
   * degrees. Pure rotations get their standard angle, except that "as stored"
   * (and the absent value 0) give 360 rather than 0; mirrored and undefined
   * values give 0, meaning no rotation.
   */
  function DegreesForOrientation(orientation: int): (degrees: int)
    ensures degrees in {0, 90, 180, 270, 360}
    ensures degrees == 360 <==> orientation == 0 || orientation == 1
    ensures degrees == 0 <==> orientation !in {0, 1, 3, 6, 8}
    ensures match StandardCorrection(orientation)
              case Some(c) =>
                if c.mirror then degrees == 0
                else degrees > 0 && degrees % 360 == 90 * c.quarterTurns
              case None => degrees == (if orientation == 0 then 360 else 0)
  {
    if orientation == 0 || orientation == 1 then 360
    else if orientation == 3 then 180
    else if orientation == 6 then 90
    else if orientation == 8 then 270
    else 0
  }

  // ---------------------------------------------------------------------------
  // getRotateAngleForPhoto
  // ---------------------------------------------------------------------------

  /**
   * What one metadata directory holds for the Orientation tag: nothing
   * (getString gives null), a value getInt can read, or a value getInt
   * cannot convert (it throws).
   */
  datatype OrientationEntry = Missing | Stored(value: int) | Unconvertible

  /** Directory `i` is the last one in `entries` with a readable Orientation value. */
  predicate LastStoredAt(entries: seq<OrientationEntry>, i: int)
  {
    0 <= i < |entries| && entries[i].Stored? &&
    forall j :: i < j < |entries| ==> !entries[j].Stored?
  }

  /** The Orientation value the directory loop ends with: the last one stored, or 0 when none is. */
  function LastOrientation(entries: seq<OrientationEntry>): int
  {
    if |entries| == 0 then 0
    else if entries[|entries| - 1].Stored? then entries[|entries| - 1].value
    else LastOrientation(entries[..|entries| - 1])
  }

  /** The last directory holding a value decides; with none, the result is 0. */
  lemma {:induction false} LastOrientationSpec(entries: seq<OrientationEntry>)
    ensures forall i :: LastStoredAt(entries, i) ==> LastOrientation(entries) == entries[i].value
    ensures (forall i :: 0 <= i < |entries| ==> !entries[i].Stored?) ==> LastOrientation(entries) == 0
  {
    if |entries| > 0 && !entries[|entries| - 1].Stored? {
      var prefix := entries[..|entries| - 1];
      LastOrientationSpec(prefix);
      forall i | LastStoredAt(entries, i)
        ensures LastOrientation(entries) == entries[i].value
      {
        assert LastStoredAt(prefix, i);
      }
    }
  }

  /** Some directory holds a value that getInt cannot convert. */
  predicate HasUnconvertible(entries: seq<OrientationEntry>)
  {
    exists i | 0 <= i < |entries| :: entries[i].Unconvertible?
  }

  /**
   * The angle getRotateAngleForPhoto returns for the directories the metadata
   * reader yields (None when reading throws): any exception gives 0.
   */
  function RotateAngle(metadata: Option<seq<OrientationEntry>>): int
  {
    if metadata.None? || HasUnconvertible(metadata.value) then 0
    else DegreesForOrientation(LastOrientation(metadata.value))
  }

  /** getRotateAngleForPhoto: the loop over directories, then the degree mapping. */
  method GetRotateAngleForPhoto(metadata: Option<seq<OrientationEntry>>) returns (angle: int)
    ensures angle == RotateAngle(metadata)
    ensures angle in {0, 90, 180, 270, 360}
  {
    angle := 0;
    if metadata.None? {
      return;  // readMetadata threw; the handler leaves the angle at 0
    }
    var directories := metadata.value;
    var orientation := 0;
    var i := 0;
    while i < |directories|
      invariant 0 <= i <= |directories|
      invariant orientation == LastOrientation(directories[..i])
      invariant forall k :: 0 <= k < i ==> !directories[k].Unconvertible?
    {
      var entry := directories[i];
      if entry.Unconvertible? {
        return;  // getInt threw; the handler leaves the angle at 0
      } else if entry.Stored? {
        orientation := entry.value;
      }
      assert directories[..i + 1][..i] == directories[..i];
      i := i + 1;
    }
    assert directories[..i] == directories;
    angle := DegreesForOrientation(orientation);
  }

  /**
   * When several directories carry an Orientation value the last one decides
   * the angle; an upright image (value 1) gets 360, so it still counts as rotated.
   */
  lemma LastDirectoryWins(entries: seq<OrientationEntry>, i: int)
    requires !HasUnconvertible(entries)
    requires LastStoredAt(entries, i)
    ensures RotateAngle(Some(entries)) == DegreesForOrientation(entries[i].value)
    ensures entries[i].value == 1 ==> RotateAngle(Some(entries)) > 0
  {
    LastOrientationSpec(entries);
  }

  /** With no Orientation value anywhere, the angle is 360 (rotated), not 0. */
  lemma NoOrientationStillRotates(entries: seq<OrientationEntry>)
    requires forall i :: 0 <= i < |entries| ==> entries[i].Missing?
    ensures RotateAngle(Some(entries)) == 360
  {
    LastOrientationSpec(entries);
  }

  // ---------------------------------------------------------------------------
  // getExifMap
  // ---------------------------------------------------------------------------

  /** A metadata tag: its name and its description, which may be null. */
  datatype Tag = Tag(name: string, description: Option<string>)

  const OrientationName: string := "Orientation"

  /** The first tag named Orientation in one directory, if any. */
  function FirstOrientationTag(tags: seq<Tag>): Option<Tag>
  {
    if |tags| == 0 then None
    else if tags[0].name == OrientationName then Some(tags[0])
    else FirstOrientationTag(tags[1..])
  }

  /** Tag `j` is named Orientation and no earlier tag is. */
  predicate FirstNamedAt(tags: seq<Tag>, j: int)
  {
    0 <= j < |tags| && tags[j].name == OrientationName &&
    forall k :: 0 <= k < j ==> tags[k].name != OrientationName
  }

  /** FirstOrientationTag finds nothing exactly when no tag is named Orientation, and otherwise the first such tag. */
  lemma {:induction false} FirstOrientationTagSpec(tags: seq<Tag>)
    ensures FirstOrientationTag(tags).None? <==> forall j :: 0 <= j < |tags| ==> tags[j].name != OrientationName
    ensures forall j :: FirstNamedAt(tags, j) ==> FirstOrientationTag(tags) == Some(tags[j])
  {
    if |tags| > 0 && tags[0].name != OrientationName {
      FirstOrientationTagSpec(tags[1..]);
      forall j | FirstNamedAt(tags, j)
        ensures FirstOrientationTag(tags) == Some(tags[j])
      {
        assert FirstNamedAt(tags[1..], j - 1);
      }
      forall j | 0 <= j < |tags| && tags[j].name == OrientationName
        ensures FirstOrientationTag(tags).Some?
      {
        assert tags[1..][j - 1].name == OrientationName;
      }
    }
  }

  /** The Orientation tag getExifMap ends up recording: the first one in the last directory that has one. */
  function OrientationTagOf(directories: seq<seq<Tag>>): Option<Tag>
  {
    if |directories| == 0 then None
    else
      var last := FirstOrientationTag(directories[|directories| - 1]);
      if last.Some? then last else OrientationTagOf(directories[..|directories| - 1])
  }

  /** Directory `i` has an Orientation tag and no later directory does. */
  predicate LastWithOrientation(directories: seq<seq<Tag>>, i: int)
  {
    0 <= i < |directories| && FirstOrientationTag(directories[i]).Some? &&
    forall k :: i < k < |directories| ==> FirstOrientationTag(directories[k]).None?
  }

  /** The recorded tag is absent exactly when no directory has one, and otherwise comes from the last directory that has one. */
  lemma {:induction false} OrientationTagOfSpec(directories: seq<seq<Tag>>)
    ensures OrientationTagOf(directories).None? <==>
              forall i :: 0 <= i < |directories| ==> FirstOrientationTag(directories[i]).None?
    ensures forall i :: LastWithOrientation(directories, i) ==>
              OrientationTagOf(directories) == FirstOrientationTag(directories[i])
  {
    if |directories| > 0 {
      var n := |directories| - 1;
      var prefix := directories[..n];
      if FirstOrientationTag(directories[n]).None? {
        OrientationTagOfSpec(prefix);
        forall i | LastWithOrientation(directories, i)
          ensures OrientationTagOf(directories) == FirstOrientationTag(directories[i])
        {
          assert LastWithOrientation(prefix, i);
        }
        forall i | 0 <= i < n && FirstOrientationTag(directories[i]).Some?
          ensures OrientationTagOf(directories).Some?
        {
          assert FirstOrientationTag(prefix[i]).Some?;
        }
      }
    }
  }

  /** The map getExifMap builds: at most the key "Orientation", holding that tag's description. */
  function ExifMap(directories: seq<seq<Tag>>): map<string, Option<string>>
  {
    match OrientationTagOf(directories)
    case None => map[]
    case Some(t) => map[OrientationName := t.description]
  }

  /** The map has no key but "Orientation", and is empty exactly when no directory has an Orientation tag. */
  lemma ExifMapShape(directories: seq<seq<Tag>>)
    ensures ExifMap(directories).Keys <= {OrientationName}
    ensures |ExifMap(directories)| == 0 <==>
              forall i, j :: 0 <= i < |directories| && 0 <= j < |directories[i]| ==>
                               directories[i][j].name != OrientationName
  {
    OrientationTagOfSpec(directories);
    forall i | 0 <= i < |directories|
      ensures FirstOrientationTag(directories[i]).None? <==>
                forall j :: 0 <= j < |directories[i]| ==> directories[i][j].name != OrientationName
    {
      FirstOrientationTagSpec(directories[i]);
    }
    match OrientationTagOf(directories)
    case None =>
    case Some(t) =>
      assert |map[OrientationName := t.description]| == 1;
  }

  /** One more directory: its first Orientation tag, if any, replaces what the earlier ones recorded. */
  lemma ExifMapStep(directories: seq<seq<Tag>>, i: nat)
    requires i < |directories|
    ensures ExifMap(directories[..i + 1]) ==
              match FirstOrientationTag(directories[i])
              case Some(t) => map[OrientationName := t.description]
              case None => ExifMap(directories[..i])
  {
    assert directories[..i + 1][..i] == directories[..i];
  }

  /** Scanning a directory's tags from index `j`: the tag there decides, or the scan moves on. */
  lemma FirstOrientationTagStep(tags: seq<Tag>, j: nat)
    requires j < |tags|
    ensures FirstOrientationTag(tags[j..]) ==
              if tags[j].name == OrientationName then Some(tags[j]) else FirstOrientationTag(tags[j + 1..])
  {
    assert tags[j..][0] == tags[j];
    assert tags[j..][1..] == tags[j + 1..];
  }

  /**
   * getExifMap: for each directory, the first Orientation tag's description is
   * put into the map and the rest of that directory is skipped.
   */
  method GetExifMap(directories: seq<seq<Tag>>) returns (m: map<string, Option<string>>)
    ensures m == ExifMap(directories)
  {
    m := map[];
    var i := 0;
    while i < |directories|
      invariant 0 <= i <= |directories|
      invariant m == ExifMap(directories[..i])
    {
      var tags := directories[i];
      ExifMapStep(directories, i);
      var j := 0;
      while j < |tags|
        invariant 0 <= j <= |tags|
        invariant m == ExifMap(directories[..i])
        invariant FirstOrientationTag(tags) == FirstOrientationTag(tags[j..])
      {
        FirstOrientationTagStep(tags, j);
        if tags[j].name == OrientationName {
          ExifMapShape(directories[..i]);
          m := m[OrientationName := tags[j].description];
          assert m == map[OrientationName := tags[j].description];
          break;
        }
        j := j + 1;
      }
      i := i + 1;
    }
    assert directories[..i] == directories;
  }

  // ---------------------------------------------------------------------------
  // getAngle
  // ---------------------------------------------------------------------------

  /** The outcome of getAngle: a number of quarter turns, or the NullPointerException it can raise. */
  datatype AngleResult = QuarterTurns(turns: nat) | NullPointerThrown

  /**
   * getAngle: a null or empty map gives 0; otherwise the Orientation description
   * is searched for "90", then "180", then "270", giving 1, 2 or 3 (0 if none).
   * A non-empty map lacking the key, or holding null under it, throws.
   */
  function GetAngle(m: Option<map<string, Option<string>>>): (r: AngleResult)
    ensures r.QuarterTurns? ==> r.turns <= 3
    ensures m.None? || |m.value| == 0 ==> r == QuarterTurns(0)
    ensures r.NullPointerThrown? <==>
              m.Some? && |m.value| > 0 && (OrientationName !in m.value || m.value[OrientationName].None?)
    ensures m.Some? && OrientationName in m.value && m.value[OrientationName].Some? ==>
              var d := m.value[OrientationName].value;
              && (r == QuarterTurns(1) <==> Contains(d, "90"))
              && (r == QuarterTurns(2) <==> !Contains(d, "90") && Contains(d, "180"))
              && (r == QuarterTurns(3) <==> !Contains(d, "90") && !Contains(d, "180") && Contains(d, "270"))
              && (r == QuarterTurns(0) <==> !Contains(d, "90") && !Contains(d, "180") && !Contains(d, "270"))
  {
    if m.None? || |m.value| == 0 then QuarterTurns(0)
    else if OrientationName !in m.value || m.value[OrientationName].None? then NullPointerThrown
    else
      var ori := m.value[OrientationName].value;
      if IndexOf(ori, "90") >= 0 then QuarterTurns(1)
      else if IndexOf(ori, "180") >= 0 then QuarterTurns(2)
      else if IndexOf(ori, "270") >= 0 then QuarterTurns(3)
      else QuarterTurns(0)
  }

  /**
   * getAngle applied to what getExifMap builds: no Orientation tag gives 0 turns,
   * and the call throws exactly when the recorded tag has a null description.
   */
  lemma ExifMapAngle(directories: seq<seq<Tag>>)
    ensures OrientationTagOf(directories).None? ==> GetAngle(Some(ExifMap(directories))) == QuarterTurns(0)
    ensures GetAngle(Some(ExifMap(directories))).NullPointerThrown? <==>
              OrientationTagOf(directories).Some? && OrientationTagOf(directories).value.description.None?
  {
    if OrientationTagOf(directories).Some? {
      assert |ExifMap(directories)| == 1;
    }
  }
}
