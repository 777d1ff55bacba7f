/** Bytes, as the desktop process sees them in a Buffer. */
module Binary {
  type Byte = x: int | 0 <= x < 256

  type Bytes = seq<Byte>
}
