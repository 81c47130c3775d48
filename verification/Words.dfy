/** The target's 16-bit machine words.  `unsigned` arithmetic wraps modulo 2^16;
    the kernel's addu macro saturates instead. */
module Words {
  const MAXU: int := 0xFFFF

  type word = x: int | 0 <= x <= MAXU witness 0

  /** Wrapping addition of two unsigned words. */
  function Add16(a: int, b: int): (r: int)
    ensures 0 <= a <= MAXU && 0 <= b <= MAXU ==> 0 <= r <= MAXU
  {
    if a + b > MAXU then a + b - MAXU - 1 else a + b
  }

  /** Wrapping subtraction of two unsigned words. */
  function Sub16(a: int, b: int): (r: int)
    ensures 0 <= a <= MAXU && 0 <= b <= MAXU ==> 0 <= r <= MAXU
  {
    if a < b then a - b + MAXU + 1 else a - b
  }

  /** The addu macro: wrap, notice that the sum went down, and clamp. */
  function AddU(v: word, n: word): (r: word)
    ensures r == if v + n <= MAXU then v + n else MAXU
  {
    var x := Add16(v, n);
    if x >= v then x else MAXU
  }

  type int16 = x: int | -0x8000 <= x <= 0x7FFF

  /** Truncation to a signed 16-bit word. */
  function Int16(x: int): (r: int16)
    ensures -0x8000 <= x <= 0x7FFF ==> r == x
  {
    if -0x8000 <= x <= 0x7FFF then x else (x + 0x8000) % (MAXU + 1) - 0x8000
  }

  lemma {:induction false} Int16Fits(x: int)
    requires -0x8000 <= x <= 0x7FFF
    ensures Int16(x) == x
  {
  }

  lemma {:induction false} Int16Wraps(x: int)
    requires 0x8000 <= x <= 0x17FFF
    ensures Int16(x) == x - (MAXU + 1) && (x <= 0xFFFF ==> Int16(x) < 0)
  {
  }
}
