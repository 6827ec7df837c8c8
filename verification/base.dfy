/** Small value types shared by the modules of the ps3vram model. */
module Base {

  /** One byte of memory (a C `uint8_t`). */
  newtype byte = x: int | 0 <= x < 256

  datatype Option<T> = None | Some(value: T)
}
