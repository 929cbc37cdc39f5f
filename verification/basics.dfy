/** Small shared vocabulary: an optional value and a sequence of repeated elements. */
module Basics {

  /** The conventional Some/None datatype, used for decoding that may fail. */
  datatype Option<+T> = None | Some(value: T)

  /** An unsigned byte (`uint8_t`). */
  newtype u8 = x: int | 0 <= x < 0x100

  /** An unsigned 16-bit quantity (`uint16_t`). */
  newtype u16 = x: int | 0 <= x < 0x1_0000

  /** `n` copies of `x`, in order. */
  function Repeat<T>(x: T, n: nat): (s: seq<T>)
    ensures |s| == n
    ensures forall i :: 0 <= i < n ==> s[i] == x
  {
    if n == 0 then [] else [x] + Repeat(x, n - 1)
  }

  /** Repeating `a` then `b` more times is repeating `a + b` times. */
  lemma {:induction false} RepeatAdd<T>(x: T, a: nat, b: nat)
    ensures Repeat(x, a) + Repeat(x, b) == Repeat(x, a + b)
    decreases a
  {
    if a > 0 {
      RepeatAdd(x, a - 1, b);
      assert Repeat(x, a) + Repeat(x, b) == [x] + (Repeat(x, a - 1) + Repeat(x, b));
    }
  }

}
