/**
 The image helpers of `App\ImageDataInfo`: the content sniff, the MIME
 allow-list check and the `ImageDataBase64` wrapper around a base64 image.
 */
module ImageData {
  import opened Foreign

  /** The four MIME types the allow-list accepts. */
  const AllowedMimes: set<string> := {"image/gif", "image/jpeg", "image/bmp", "image/png"}

  /** What `checkMimeType` answers for a type outside the allow-list. */
  const Other := "Other"

  /** The stream prefix the wrapper puts before the base64 text. */
  const Scheme := "data:application/octet-stream;base64,"

  /** The data URI that `getimagesize` and the GD decoders read. */
  function DataUri(rawData: string): (uri: string)
    ensures |uri| == |Scheme| + |rawData| && uri[|Scheme|..] == rawData
  {
    Scheme + rawData
  }

  /**
   `checkMimeType`: a switch over the four allowed types whose cases all
   `break` and so return nothing (`None`); every other value, including the
   sniffer's `false`, returns 'Other'.
   */
  function CheckMimeType(mime: Option<string>): (r: Option<string>)
    ensures r.None? <==> mime.Some? && mime.value in AllowedMimes
    ensures r.Some? ==> r.value == Other
  {
    if mime == Some("image/gif") then None
    else if mime == Some("image/jpeg") then None
    else if mime == Some("image/bmp") then None
    else if mime == Some("image/png") then None
    else Some(Other)
  }

  /** The MIME type each GD decoder is chosen for. */
  function DecoderMime(d: Decoder): string
  {
    match d
    case FromGif => "image/gif"
    case FromJpeg => "image/jpeg"
    case FromBmp => "image/bmp"
    case FromPng => "image/png"
  }

  /** The decoders cover the allow-list exactly, one decoder per type. */
  lemma DecodersCoverAllowList(m: string)
    ensures m in AllowedMimes <==> exists d :: DecoderMime(d) == m
    ensures forall d, e :: DecoderMime(d) == DecoderMime(e) ==> d == e
  {
    if m == "image/gif" {
      assert DecoderMime(FromGif) == m;
    } else if m == "image/jpeg" {
      assert DecoderMime(FromJpeg) == m;
    } else if m == "image/bmp" {
      assert DecoderMime(FromBmp) == m;
    } else if m == "image/png" {
      assert DecoderMime(FromPng) == m;
    }
  }

  /** What `makeOriginal` ends with: the decoder's result, or a raised error. */
  datatype Original = Returned(image: Option<GdImage>) | Raised

  /**
   The `getimagesize` answer the constructor can read in full: an array with
   a "bits" entry. Reading index 0 of `false` (ImageData.php:71) or the absent
   "bits" key (ImageData.php:74) raises a PHP 8 warning, which Laravel's error
   handler turns into an exception.
   */
  predicate ImageSizeReadable(info: Option<ImageSize>)
  {
    info.Some? && info.value.bits.Some?
  }

  /**
   Information on a base64-encoded image. Every field is written once, by the
   constructor, from `getimagesize` on the image's data URI; the fields are
   `const`, so no method can reassign them.
   */
  class ImageDataBase64 {
    const env: Env
    /** The base64 text, kept unchanged. */
    const rawData: string
    const width: int
    const height: int
    /** Index 2 of the `getimagesize` array: the IMAGETYPE_* constant. */
    const ch: int
    const bits: int
    const mime: string

    /** The array `getimagesize` gives for this image (`None` for its `false`). */
    function Probe(): Option<ImageSize>
    {
      env.getImageSize(DataUri(rawData))
    }

    /** Each field holds the matching entry of `Probe()`. */
    ghost predicate Valid()
    {
      && ImageSizeReadable(Probe())
      && width == Probe().value.width
      && height == Probe().value.height
      && ch == Probe().value.imageType
      && bits == Probe().value.bits.value
      && mime == Probe().value.mime
    }

    /**
     `new ImageDataBase64($raw_data)`: `null` stands for the exception the
     constructor raises when `getimagesize` cannot be read in full; otherwise
     a new object built by the constructor.
     */
    static method New(env: Env, rawData: string) returns (r: ImageDataBase64?)
      ensures r == null <==> !ImageSizeReadable(env.getImageSize(DataUri(rawData)))
      ensures r != null ==> fresh(r) && r.env == env && r.rawData == rawData && r.Valid()
    {
      if !ImageSizeReadable(env.getImageSize(DataUri(rawData))) {
        return null;
      }
      r := new ImageDataBase64(env, rawData);
    }

    /**
     The constructor on the path where it completes: the reads at
     ImageData.php:71-75 raise unless `getimagesize` answered an array with a
     "bits" entry, and `New` models that raise.
     */
    constructor (env: Env, rawData: string)
      requires ImageSizeReadable(env.getImageSize(DataUri(rawData)))
      ensures this.env == env && this.rawData == rawData
      ensures Valid()
    {
      this.env := env;
      this.rawData := rawData;
      var imageSize := env.getImageSize(DataUri(rawData)).value;
      width := imageSize.width;
      height := imageSize.height;
      ch := imageSize.imageType;
      bits := imageSize.bits.value;
      mime := imageSize.mime;
    }

    function GetWidth(): (w: int)
      requires Valid()
      ensures w == Probe().value.width
    {
      width
    }

    function GetHeight(): (h: int)
      requires Valid()
      ensures h == Probe().value.height
    {
      height
    }

    function GetCh(): (c: int)
      requires Valid()
      ensures c == Probe().value.imageType
    {
      ch
    }

    function GetBits(): (b: int)
      requires Valid()
      ensures Some(b) == Probe().value.bits
    {
      bits
    }

    function GetMime(): (m: string)
      requires Valid()
      ensures m == Probe().value.mime
    {
      mime
    }

    /**
     The method form of `checkMimeType`: it calls the free function and drops
     its answer, so it returns nothing and changes nothing, whatever `mime` is.
     The method shares the free function's name, so the call names the
     module's default class `_default` to reach the free function.
     */
    method CheckMimeType()
      ensures unchanged(this)
    {
      var _ := _default.CheckMimeType(Some(mime));
    }

    /**
     `makeOriginal`: dispatch on `mime` to the GD decoder for that type, fed
     the data URI; any other value raises. It accepts exactly the types that
     the free function `checkMimeType` (reached through `_default`, as above)
     accepts.
     */
    function MakeOriginal(): (r: Original)
      ensures r.Raised? <==> _default.CheckMimeType(Some(mime)) == Some(Other)
      ensures forall d :: mime == DecoderMime(d) ==> r == Returned(env.imageCreateFrom(d, DataUri(rawData)))
    {
      if mime == "image/gif" then Returned(env.imageCreateFrom(FromGif, DataUri(rawData)))
      else if mime == "image/jpeg" then Returned(env.imageCreateFrom(FromJpeg, DataUri(rawData)))
      else if mime == "image/bmp" then Returned(env.imageCreateFrom(FromBmp, DataUri(rawData)))
      else if mime == "image/png" then Returned(env.imageCreateFrom(FromPng, DataUri(rawData)))
      else Raised
    }
  }
}
