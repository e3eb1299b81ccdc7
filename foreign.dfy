/**
 The PHP built-ins and extensions the controller and the image wrapper call.
 None of them is repository code, so each is a field of `Env`, a record of
 function values that every operation receives as a parameter: the model
 assumes nothing about them beyond their types.
 */
module Foreign {

  /** One octet of a binary string. */
  newtype byte = x: int | 0 <= x < 256

  datatype Option<T> = None | Some(value: T)

  /**
   The array `getimagesize` returns: index 0 (width), index 1 (height),
   index 2 (the IMAGETYPE_* constant), the optional "bits" entry and "mime".
   */
  datatype ImageSize = ImageSize(width: int, height: int, imageType: int, bits: Option<int>, mime: string)

  /** A GD image resource, opaque to the model. */
  datatype GdImage = GdImage(handle: nat)

  /** The four GD decoders `imagecreatefromgif/jpeg/bmp/png`. */
  datatype Decoder = FromGif | FromJpeg | FromBmp | FromPng

  datatype Env = Env(
    /** `base64_decode` in its default, non-strict mode (never fails). */
    base64Decode: string -> seq<byte>,
    /** `base64_encode`. */
    base64Encode: seq<byte> -> string,
    /** `finfo_buffer` with FILEINFO_MIME_TYPE; `None` stands for its `false`. */
    finfoBuffer: seq<byte> -> Option<string>,
    /** `getimagesize` on a stream URI; `None` stands for its `false`. */
    getImageSize: string -> Option<ImageSize>,
    /** `imagecreatefrom*` on a stream URI; `None` stands for its `false`. */
    imageCreateFrom: (Decoder, string) -> Option<GdImage>,
    /** `filter_var($s, FILTER_VALIDATE_INT)`, which Laravel's `integer` rule uses on strings. */
    filterInt: string -> Option<int>
  )
}
