/**
  `UCreateTexture`: a decoded image is flipped so its rows run bottom-up and
  then uploaded with the internal format its channel count calls for. The
  image decoder and the upload are outside the model: the decoder's result
  is a parameter (a buffer, or null when decoding failed) and the upload is
  recorded as the chosen format.
 */
module Texture {
  import opened ImageFlip

  datatype Option<T> = None | Some(value: T)

  /** The internal formats the upload can use. */
  datatype TextureFormat = RGB8 | RGBA8

  /** Bytes per pixel of each format. */
  function Channels(f: TextureFormat): (n: int)
    ensures n == 3 || n == 4
  {
    match f
    case RGB8 => 3
    case RGBA8 => 4
  }

  /** The internal format for an image with `channels` bytes per pixel; other counts are refused. */
  function FormatFor(channels: int): (f: Option<TextureFormat>)
    ensures f == Some(RGB8) <==> channels == 3
    ensures f == Some(RGBA8) <==> channels == 4
    ensures f == None <==> channels != 3 && channels != 4
  {
    if channels == 3 then Some(RGB8)
    else if channels == 4 then Some(RGBA8)
    else None
  }

  /** The chosen format always stores as many bytes per pixel as the image has, and each format is chosen for its own count. */
  lemma FormatRoundTrip(channels: int, f: TextureFormat)
    ensures FormatFor(channels) == Some(f) ==> Channels(f) == channels
    ensures FormatFor(Channels(f)) == Some(f)
  {
  }

  /**
    One call of `UCreateTexture` on decoder output `image` of `width` by
    `height` pixels with `channels` bytes each. Returns the format uploaded,
    or `None` when the function returns false. A decoded image is flipped
    whether or not its channel count is supported.
   */
  method CreateTexture(image: array?<byte>, width: int, height: int, channels: int)
    returns (uploaded: Option<TextureFormat>)
    requires image != null ==> Fits(image.Length, height, width * channels)
    modifies image
    ensures image == null ==> uploaded == None
    ensures image != null ==> image[..] == Flipped(old(image[..]), height, width * channels)
    ensures image != null ==> uploaded == FormatFor(channels)
  {
    if image != null {
      FlipImageVertically(image, width, height, channels);
      if channels == 3 {
        uploaded := Some(RGB8);
      } else if channels == 4 {
        uploaded := Some(RGBA8);
      } else {
        return None;
      }
      return uploaded;
    }
    return None;
  }
}
