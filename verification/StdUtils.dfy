/** `_bound`: wrapping a fuzzed value into a range, for unsigned and for signed words. */
module StdUtils {
  import opened Evm

  const UINT256_MAX: uint256 := TWO_256 - 1
  const INT256_MIN_ABS: int := 0x8000000000000000_0000000000000000_0000000000000000_0000000000000000

  type int256 = x: int | -INT256_MIN_ABS <= x < INT256_MIN_ABS

  /** One of the four smallest or four largest words, and the range has room for it at the same end. */
  predicate Edge(x: nat, min: int, max: int) {
    (x <= 3 && x <= max - min) || (UINT256_MAX - 3 <= x && UINT256_MAX - x <= max - min)
  }

  /** `_bound(uint256, uint256, uint256)`. Every intermediate value is a word, so nothing overflows; the function
      fails only on an empty range. Outside the range, the four smallest words go to the bottom of the range and the
      four largest to its top, at the same distance from the end. */
  function Bound(x: uint256, min: uint256, max: uint256): (r: Result<uint256>)
    ensures r.Ok? <==> min <= max
    ensures r.Ok? ==> min <= r.value <= max
    ensures min <= x <= max ==> r == Ok(x)
    ensures !(min <= x <= max) && x <= 3 && x <= max - min ==> r == Ok(min + x)
    ensures !(min <= x <= max) && UINT256_MAX - 3 <= x && UINT256_MAX - x <= max - min ==>
              r == Ok(max - (UINT256_MAX - x))
  {
    if min > max then Revert(MaxLessThanMin) else
    if min <= x <= max then Ok(x) else
    var size: uint256 := max - min + 1;
    if x <= 3 && size > x then Ok(min + x) else
    if x >= UINT256_MAX - 3 && size > UINT256_MAX - x then Ok(max - (UINT256_MAX - x)) else
    if x > max then
      var diff: uint256 := x - max;
      var rem: uint256 := diff % size;
      if rem == 0 then Ok(max) else Ok(min + rem - 1)
    else
      var diff: uint256 := min - x;
      var rem: uint256 := diff % size;
      if rem == 0 then Ok(min) else Ok(max - rem + 1)
  }

  /** `a` and `b` differ by a whole number of ranges. */
  ghost predicate Congruent(a: int, b: int, size: int) {
    exists k: int :: a == b + k * size
  }

  /** Outside the range and the edge cases, wrapping keeps the value modulo the size of the range. */
  lemma BoundIsCongruent(x: uint256, min: uint256, max: uint256)
    requires min <= max && !(min <= x <= max)
    requires !Edge(x, min, max)
    ensures Congruent(x, Bound(x, min, max).value, max - min + 1)
  {
    var size := max - min + 1;
    var r := Bound(x, min, max).value;
    if x > max {
      var q, rem := Divide(x - max, size);
      Multiples(q, size);
      assert x == r + (if rem == 0 then q else q + 1) * size;
    } else {
      var q, rem := Divide(min - x, size);
      Multiples(q, size);
      assert x == r + (if rem == 0 then -q else -(q + 1)) * size;
    }
  }

  lemma Divide(x: nat, d: nat) returns (q: nat, rem: nat)
    requires d > 0
    ensures q == x / d && rem == x % d && x == q * d + rem && rem < d
  {
    q, rem := x / d, x % d;
  }

  lemma Multiples(q: int, d: int)
    ensures (q + 1) * d == q * d + d
    ensures (-q) * d == -(q * d)
    ensures (-(q + 1)) * d == -(q * d) - d
  {
  }

  /** There is only one value of the range it can be. */
  lemma CongruentIsUnique(a: int, b: int, x: int, min: int, max: int)
    requires min <= a <= max && min <= b <= max
    requires Congruent(x, a, max - min + 1) && Congruent(x, b, max - min + 1)
    ensures a == b
  {
    var size := max - min + 1;
    var k :| x == a + k * size;
    var m :| x == b + m * size;
    assert a - b == (m - k) * size;
    if m > k {
      Grow(m - k, size);
    } else if k > m {
      Grow(k - m, size);
    }
  }

  lemma Grow(k: int, size: int)
    requires k >= 1 && size >= 1
    ensures k * size >= size && (-k) * size <= -size
  {
  }

  /** So `_bound` is the wrap into the range: a value of the range is its result exactly when it is congruent. */
  lemma BoundIsWrap(x: uint256, min: uint256, max: uint256, r: uint256)
    requires min <= r <= max && !(min <= x <= max)
    requires !(x <= 3 && x <= max - min) && !(UINT256_MAX - 3 <= x && UINT256_MAX - x <= max - min)
    ensures Bound(x, min, max) == Ok(r) <==> Congruent(x, r, max - min + 1)
  {
    BoundIsCongruent(x, min, max);
    if Congruent(x, r, max - min + 1) {
      CongruentIsUnique(Bound(x, min, max).value, r, x, min, max);
    }
  }

  /** The word that represents a signed value, and bitwise complement. */
  function ToWord(x: int256): uint256 {
    if x < 0 then x + TWO_256 else x
  }

  function FromWord(x: uint256): int256 {
    if x >= INT256_MIN_ABS then x - TWO_256 else x
  }

  function Complement(x: uint256): uint256 {
    UINT256_MAX - x
  }

  /** The unsigned word at the same place in the order of signed values. */
  function Shift(x: int256): (r: uint256)
    ensures r == x + INT256_MIN_ABS
  {
    if x < 0 then INT256_MIN_ABS - Complement(ToWord(x)) - 1 else ToWord(x) + INT256_MIN_ABS
  }

  function Unshift(y: uint256): (r: int256)
    ensures r == y - INT256_MIN_ABS
  {
    if y < INT256_MIN_ABS then FromWord(Complement(INT256_MIN_ABS - y) + 1) else FromWord(y - INT256_MIN_ABS)
  }

  /** `_bound(int256, int256, int256)`. */
  function BoundSigned(x: int256, min: int256, max: int256): Result<int256> {
    if min > max then Revert(MaxLessThanMin) else
    var y :- Bound(Shift(x), Shift(min), Shift(max));
    Ok(Unshift(y))
  }

  /** The signed form is the unsigned form conjugated by the shift by 2^255: it lands in the range, keeps values
      that are in it, and is the same wrap outside. */
  lemma BoundSignedIsConjugate(x: int256, min: int256, max: int256, r: int256)
    ensures BoundSigned(x, min, max).Ok? <==> min <= max
    ensures BoundSigned(x, min, max) == Ok(r) <==> Bound(Shift(x), Shift(min), Shift(max)) == Ok(Shift(r))
    ensures min <= x <= max ==> BoundSigned(x, min, max) == Ok(x)
    ensures BoundSigned(x, min, max).Ok? ==> min <= BoundSigned(x, min, max).value <= max
    ensures !(min <= x <= max) && x <= -INT256_MIN_ABS + 3 && x + INT256_MIN_ABS <= max - min ==>
              BoundSigned(x, min, max) == Ok(min + (x + INT256_MIN_ABS))
    ensures !(min <= x <= max) && INT256_MIN_ABS - 4 <= x && INT256_MIN_ABS - 1 - x <= max - min ==>
              BoundSigned(x, min, max) == Ok(max - (INT256_MIN_ABS - 1 - x))
    ensures
      && min <= r <= max && !(min <= x <= max) && !Edge(x + INT256_MIN_ABS, min, max)
      ==> (BoundSigned(x, min, max) == Ok(r) <==> Congruent(x, r, max - min + 1))
  {
    if min <= r <= max && !(min <= x <= max) && !Edge(x + INT256_MIN_ABS, min, max) {
      BoundIsWrap(Shift(x), Shift(min), Shift(max), Shift(r));
      var size := max - min + 1;
      assert forall k: int :: x == r + k * size <==> Shift(x) == Shift(r) + k * size;
    }
  }
}
