/** What several components share: optional values and C ints. */
module Basics {

  datatype Option<T> = None | Some(value: T)

  /** A number kept in a 32-bit int with sign. */
  function Int32(v: int): (r: int)
    ensures -0x8000_0000 <= r <= 0x7FFF_FFFF && (r - v) % 0x1_0000_0000 == 0
  {
    var m := v % 0x1_0000_0000;
    if m < 0x8000_0000 then m else m - 0x1_0000_0000
  }
}
