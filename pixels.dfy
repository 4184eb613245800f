/** Pixel values as the scripts read them from PIL images: grey levels and
    RGB triples of bytes. An image is an `array2` indexed `[y, x]`, so
    `Length0` is its height and `Length1` its width. */
module Pixels {

  type Byte = x: int | 0 <= x < 256

  datatype Rgb = Rgb(r: Byte, g: Byte, b: Byte)

  const Black: Rgb := Rgb(0, 0, 0)
}
