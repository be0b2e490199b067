/** The integer types of C that the sources count with, on a machine with 64-bit `long`. */
module Words {

  const UINT := 0x1_0000_0000
  const ULONG := 0x1_0000_0000_0000_0000
  const LONG_HALF := 0x8000_0000_0000_0000
  const INT_HALF := 0x8000_0000

  /** `unsigned int`, `int`, `unsigned long` (and `unsigned long long`), and `long`. */
  type Uint = x: int | 0 <= x < UINT
  type Int = x: int | -INT_HALF <= x < INT_HALF
  type Ulong = x: int | 0 <= x < ULONG
  type Long = x: int | -LONG_HALF <= x < LONG_HALF

  /** Unsigned addition wraps around. */
  function AddUint(a: Uint, b: Uint): (r: Uint)
    ensures r == (a + b) % UINT
  {
    if a + b < UINT then a + b else a + b - UINT
  }

  function AddUlong(a: Ulong, b: Ulong): (r: Ulong)
    ensures a + b < ULONG ==> r == a + b
  {
    if a + b < ULONG then a + b else a + b - ULONG
  }

  function SubUlong(a: Ulong, b: Ulong): (r: Ulong)
    ensures a >= b ==> r == a - b
  {
    if a >= b then a - b else a - b + ULONG
  }

  /** Both wrap around: they are the sum and the difference modulo 2^64. */
  lemma UlongWraps(a: Ulong, b: Ulong)
    ensures AddUlong(a, b) == (a + b) % ULONG && SubUlong(a, b) == (a - b) % ULONG
  {}

  /** The cast from `unsigned long` to `int` keeps the low 32 bits. */
  function ToInt(x: Ulong): (r: Int)
    ensures x < INT_HALF ==> r == x
    ensures x >= ULONG - INT_HALF ==> r == x - ULONG
  {
    var low := x % UINT;
    if low < INT_HALF then low else low - UINT
  }

  /** The conversion of an `int` to `unsigned long`. */
  function FromInt(i: Int): (r: Ulong)
    ensures ToInt(r) == i
  {
    if i >= 0 then i else i + ULONG
  }

  /** A sum of `int`s, in two's complement. */
  function AddInt(a: Int, b: Int): (r: Int)
    ensures -INT_HALF <= a + b < INT_HALF ==> r == a + b
  {
    if a + b < -INT_HALF then a + b + UINT
    else if a + b >= INT_HALF then a + b - UINT
    else a + b
  }

  /** An `unsigned long` added to a `long`: the sum, unless it is out of range. */
  function AddLong(a: Long, b: Ulong): (r: Long)
    ensures a + b < LONG_HALF ==> r == a + b
  {
    if a + b < LONG_HALF then a + b else a + b - ULONG
  }

  /** The values of `k` whole turns of a 64-bit word. */
  function Turns(k: int): int {
    k * ULONG
  }

  /** `w` is what is left of `n` in a `long`: they differ by whole turns. */
  ghost predicate Wraps(n: int, w: Long) {
    exists k :: n == w + Turns(k)
  }

  lemma WrapsAdd(n: int, w: Long, inc: Ulong)
    requires Wraps(n, w)
    ensures Wraps(n + inc, AddLong(w, inc))
  {
    var k :| n == w + Turns(k);
    assert n + inc == AddLong(w, inc) + Turns(if w + inc < LONG_HALF then k else k + 1);
  }

  /** One term of a sum may wrap on its own. */
  lemma WrapsTerm(n: int, w: Long, a: Long, inc: Ulong)
    requires Wraps(n + a + inc, w)
    ensures Wraps(n + AddLong(a, inc), w)
  {
    var k :| n + a + inc == w + Turns(k);
    assert n + AddLong(a, inc) == w + Turns(if a + inc < LONG_HALF then k else k - 1);
  }

  /** A number in range has not wrapped. */
  lemma WrapsExact(n: Long, w: Long)
    requires Wraps(n, w)
    ensures n == w
  {
    var k :| n == w + Turns(k);
    assert k == 0;
  }

  lemma WrapsZero()
    ensures Wraps(0, 0)
  {
    assert 0 == 0 + Turns(0);
  }
}
