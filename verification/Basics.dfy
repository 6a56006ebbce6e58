module Basics {
  /** A value, or its absence. */
  datatype Option<T> = None | Some(value: T)

  /** `int` on the targets. */
  type Int32 = x: int | -0x8000_0000 <= x < 0x8000_0000

  lemma Assoc<T>(a: seq<T>, b: seq<T>, c: seq<T>)
    ensures (a + b) + c == a + (b + c)
  {}
}
