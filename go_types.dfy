/** The Go machine types that the package's records use. */
module GoTypes {

  /** Go's `int64`; the package only compares these values, it never does arithmetic on them. */
  newtype int64 = x: int | -0x8000_0000_0000_0000 <= x < 0x8000_0000_0000_0000

  /** Go's `byte`. */
  newtype byte = x: int | 0 <= x < 0x100

  /** A Go `[]byte`; nil and empty are not told apart. */
  type Bytes = seq<byte>
}
