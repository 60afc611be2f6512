/** The stock optional value, and the address type shared by every component. */
module Wrappers {

  datatype Option<+T> = None | Some(value: T)

  /** 2 to the power 64: the number of values of `bfd_vma`. */
  const TWO_TO_THE_64: nat := 0x1_0000_0000_0000_0000

  /** A virtual memory address (`bfd_vma`, an unsigned 64-bit integer). */
  type Address = a: nat | a < TWO_TO_THE_64

  /** Conversion of an integer to `bfd_vma`: arithmetic modulo 2 to the power 64. */
  function Wrap(x: int): (a: Address) {
    x % TWO_TO_THE_64
  }
}
