/** Unsigned 32-bit arithmetic, as the message counters use it. */
module Words {
  type Word = x: int | 0 <= x < 0x1_0000_0000

  function U32(x: int): Word {
    x % 0x1_0000_0000
  }

  lemma {:induction false} U32Add(x: int, y: int)
    ensures U32(U32(x) + y) == U32(x + y)
  {
  }

  lemma {:induction false} U32Small(x: Word)
    ensures U32(x) == x
  {
  }
}
