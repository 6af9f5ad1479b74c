/**
  ApplyExifRotation: bakes the EXIF orientation of a decoded JPEG into its
  pixels and resets the tag to 1 ("normal"). The pixel work belongs to the
  imaging library; an image's pixels are modelled as the sequence of
  library transforms applied to the decoded data.
*/
module Exif {
  import opened Wrappers

  /** The ushort value of an EXIF tag. */
  type UShort = v: int | 0 <= v < 0x1_0000

  /** The library's pixel transforms: Flip(FlipMode.*) and Rotate(RotateMode.*), rotations clockwise. */
  datatype PixelOp = FlipHorizontal | FlipVertical | Rotate90 | Rotate180 | Rotate270

  /** The EXIF profile of an image, reduced to its Orientation tag. */
  datatype ExifProfile = ExifProfile(orientation: Option<UShort>)

  /** A decoded image whose pixels and metadata the library mutates in place. */
  class Image {
    var pixelOps: seq<PixelOp>
    var exifProfile: Option<ExifProfile>

    constructor (exifProfile: Option<ExifProfile>)
      ensures this.pixelOps == [] && this.exifProfile == exifProfile
    {
      this.pixelOps := [];
      this.exifProfile := exifProfile;
    }

    method Mutate(ops: seq<PixelOp>)
      modifies this
      ensures pixelOps == old(pixelOps) + ops && exifProfile == old(exifProfile)
    {
      pixelOps := pixelOps + ops;
    }
  }

  /** The transforms the switch applies for an orientation value; none outside 2..8. */
  function Correction(orientation: UShort): seq<PixelOp>
  {
    match orientation
    case 2 => [FlipHorizontal]
    case 3 => [Rotate180]
    case 4 => [FlipVertical]
    case 5 => [Rotate90, FlipHorizontal]
    case 6 => [Rotate90]
    case 7 => [Rotate270, FlipHorizontal]
    case 8 => [Rotate270]
    case _ => []
  }

  /**
    Without a profile or without an Orientation tag nothing changes. With a
    tag of value v the correction for v is applied to the pixels and the tag
    becomes 1. A second application therefore adds nothing.
  */
  method ApplyExifRotation(image: Image)
    modifies image
    ensures old(image.exifProfile).None? ==> unchanged(image)
    ensures old(image.exifProfile).Some? && old(image.exifProfile).value.orientation.None? ==> unchanged(image)
    ensures old(image.exifProfile).Some? && old(image.exifProfile).value.orientation.Some? ==>
      && image.pixelOps == old(image.pixelOps) + Correction(old(image.exifProfile).value.orientation.value)
      && image.exifProfile == Some(ExifProfile(Some(1)))
    ensures image.exifProfile.Some? && image.exifProfile.value.orientation.Some? ==>
      Correction(image.exifProfile.value.orientation.value) == []
  {
    if image.exifProfile.None? { return; }
    var orientation := image.exifProfile.value.orientation;
    if orientation.None? { return; }
    match orientation.value {
      case 2 => image.Mutate([FlipHorizontal]);
      case 3 => image.Mutate([Rotate180]);
      case 4 => image.Mutate([FlipVertical]);
      case 5 => image.Mutate([Rotate90, FlipHorizontal]);
      case 6 => image.Mutate([Rotate90]);
      case 7 => image.Mutate([Rotate270, FlipHorizontal]);
      case 8 => image.Mutate([Rotate270]);
      case _ =>
    }
    image.exifProfile := Some(image.exifProfile.value.(orientation := Some(1)));
  }

  // ---------------------------------------------------------------------
  // The meaning of the tag (TIFF 6.0, section 8, tag 274 "Orientation"):
  // the visual side of the image that the stored 0th row and the stored
  // 0th column represent.
  // ---------------------------------------------------------------------

  datatype Side = Top | Right | Bottom | Left

  /** Where a side of the picture ends up after one transform. */
  function MoveSide(op: PixelOp, s: Side): Side
  {
    match op
    case FlipHorizontal => (match s case Left => Right case Right => Left case _ => s)
    case FlipVertical => (match s case Top => Bottom case Bottom => Top case _ => s)
    case Rotate90 => (match s case Top => Right case Right => Bottom case Bottom => Left case Left => Top)
    case Rotate180 => (match s case Top => Bottom case Right => Left case Bottom => Top case Left => Right)
    case Rotate270 => (match s case Top => Left case Right => Top case Bottom => Right case Left => Bottom)
  }

  /** Where a side ends up after the transforms, applied left to right. */
  function MoveSideBy(ops: seq<PixelOp>, s: Side): Side
  {
    if |ops| == 0 then s else MoveSideBy(ops[1..], MoveSide(ops[0], s))
  }

  /** The visual side the stored 0th row represents, for the defined values 1..8. */
  function RowZeroSide(orientation: int): Side
    requires 1 <= orientation <= 8
  {
    match orientation
    case 1 => Top case 2 => Top case 3 => Bottom case 4 => Bottom
    case 5 => Left case 6 => Right case 7 => Right case 8 => Left
  }

  /** The visual side the stored 0th column represents, for the defined values 1..8. */
  function ColumnZeroSide(orientation: int): Side
    requires 1 <= orientation <= 8
  {
    match orientation
    case 1 => Left case 2 => Right case 3 => Right case 4 => Left
    case 5 => Top case 6 => Top case 7 => Bottom case 8 => Bottom
  }

  /**
    For every defined orientation, the correction puts the stored top row on
    the side the tag says it represents, and the stored left column likewise:
    after it the image displays upright with orientation 1.
  */
  lemma CorrectionMatchesTagMeaning(orientation: UShort)
    requires 1 <= orientation <= 8
    ensures MoveSideBy(Correction(orientation), Top) == RowZeroSide(orientation)
    ensures MoveSideBy(Correction(orientation), Left) == ColumnZeroSide(orientation)
  {
    var ops := Correction(orientation);
    if |ops| == 2 {
      MoveSideByTwo(ops[0], ops[1], Top);
      MoveSideByTwo(ops[0], ops[1], Left);
    }
  }

  lemma MoveSideByTwo(first: PixelOp, second: PixelOp, s: Side)
    ensures MoveSideBy([first, second], s) == MoveSide(second, MoveSide(first, s))
  {
    var ops := [first, second];
    assert ops[1..] == [second];
    assert ops[1..][1..] == [];
    assert MoveSideBy(ops[1..], MoveSide(first, s)) == MoveSideBy([], MoveSide(second, MoveSide(first, s)));
  }

  /** The eight defined orientations receive eight different corrections. */
  lemma CorrectionsDistinct(v: UShort, w: UShort)
    requires 1 <= v <= 8 && 1 <= w <= 8 && v != w
    ensures MoveSideBy(Correction(v), Top) != MoveSideBy(Correction(w), Top)
         || MoveSideBy(Correction(v), Left) != MoveSideBy(Correction(w), Left)
  {
    CorrectionMatchesTagMeaning(v);
    CorrectionMatchesTagMeaning(w);
  }
}
