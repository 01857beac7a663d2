/**
 * The records the application passes around (src/types/index.ts) and the
 * fixed presets it chooses from (src/constants/image.ts), together with the
 * Option and Result wrappers used for `null` and for thrown errors.
 */
module Types {

  datatype Option<+T> = None | Some(value: T)

  datatype Result<+R, +E> = Success(value: R) | Failure(error: E)

  /** A quote's identifier: an opaque token that is never handed out twice. */
  type QuoteId = nat

  /** A quote candidate shown to the user. */
  datatype Quote = Quote(id: QuoteId, text: string)

  /** True when no two quotes share an identifier. */
  predicate DistinctIds(qs: seq<Quote>) {
    forall i, j :: 0 <= i < j < |qs| ==> qs[i].id != qs[j].id
  }

  /** A point: the text layer's position in percent of the container, or a
      pointer position in pixels. */
  datatype Point = Point(x: real, y: real)

  /** The `type` discriminator of a background. */
  datatype BackgroundKind = ColorKind | ImageKind

  /** `{ type, value }`: a colour string or an image URL / data URI. */
  datatype BackgroundOption = BackgroundOption(kind: BackgroundKind, value: string)

  /** One output format of the composed image. */
  datatype ImageFormat = ImageFormat(id: string, name: string, width: nat, height: nat)

  /** The three output formats, square first. */
  const ImageFormats: seq<ImageFormat> := [
    ImageFormat("square", "1:1", 1080, 1080),
    ImageFormat("landscape", "16:9", 1920, 1080),
    ImageFormat("portrait", "9:16", 1080, 1920)
  ]

  /** The keys of the preset image library, in declaration order. */
  datatype Category = Naturaleza | Ciudad | Abstracto | Minimalista | Motivacional

  /** The preset image URLs, per category. */
  const NaturalezaImages: seq<string> := [
    "https://images.unsplash.com/photo-1464822759023-fed622ff2c3b",
    "https://images.unsplash.com/photo-1507525428034-b723cf961d3e",
    "https://images.unsplash.com/photo-1441974231531-c6227db76b6e",
    "https://images.unsplash.com/photo-1472214103451-9374bd1c798e"]

  const CiudadImages: seq<string> := [
    "https://images.unsplash.com/photo-1449824913935-59a10b8d2000",
    "https://images.unsplash.com/photo-1460472178825-e5240623afd5",
    "https://images.unsplash.com/photo-1487958449943-2429e8be8625",
    "https://images.unsplash.com/photo-1480714378408-67cf0d13bc1b"]

  const AbstractoImages: seq<string> := [
    "https://images.unsplash.com/photo-1541701494587-cb58502866ab",
    "https://images.unsplash.com/photo-1550537687-c91072c4792d",
    "https://images.unsplash.com/photo-1553356084-58ef4a67b2a7",
    "https://images.unsplash.com/photo-1558470598-a5dda9640f68"]

  const MinimalistaImages: seq<string> := [
    "https://images.unsplash.com/photo-1557683316-973673baf926",
    "https://images.unsplash.com/photo-1557683311-eac922347aa1",
    "https://images.unsplash.com/photo-1557682260-96773eb01377",
    "https://images.unsplash.com/photo-1557682250-33bd709cbe85"]

  const MotivacionalImages: seq<string> := [
    "https://images.unsplash.com/photo-1497032628192-86f99bcd76bc",
    "https://images.unsplash.com/photo-1526506118085-60ce8714f8c5",
    "https://images.unsplash.com/photo-1488085061387-422e29b40080",
    "https://images.unsplash.com/photo-1497032205916-ac775f0649ae"]

  /** The preset image URLs of a category; every category has four. */
  function PresetImages(c: Category): (urls: seq<string>)
    ensures |urls| == 4
  {
    match c
    case Naturaleza => NaturalezaImages
    case Ciudad => CiudadImages
    case Abstracto => AbstractoImages
    case Minimalista => MinimalistaImages
    case Motivacional => MotivacionalImages
  }
}
