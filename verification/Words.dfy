/** 16-bit words, unsigned and signed. */
module Words {

  type Word = n: nat | n < 65536
  type Int16 = x: int | -32768 <= x < 32768

  /** What a signed word keeps of a number. */
  function Wrap16(x: int): Int16 {
    (x + 32768) % 65536 - 32768
  }

  /** Wrapping early or late makes no difference. */
  lemma Wrap16Adds(x: int, a: int)
    ensures Wrap16(Wrap16(x) + a) == Wrap16(x + a)
    ensures Wrap16(Wrap16(x)) == Wrap16(x)
  {
    var turns := (x + 32768) / 65536;
    assert Wrap16(x) == x - 65536 * turns;
    assert (x + a + 32768 - 65536 * turns) % 65536 == (x + a + 32768) % 65536;
  }
}
