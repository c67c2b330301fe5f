/** Words of the EVM, checked Solidity 0.8 arithmetic and the ways a call of this model can revert. */
module Evm {

  const TWO_256: int := 0x1_0000000000000000_0000000000000000_0000000000000000_0000000000000000
  const TWO_160: int := 0x1_00000000_0000000000000000_0000000000000000
  const TWO_128: int := 0x1_0000000000000000_0000000000000000

  type uint256 = x: int | 0 <= x < TWO_256
  type uint128 = x: int | 0 <= x < TWO_128
  type Address = x: int | 0 <= x < TWO_160
  type Byte = x: int | 0 <= x < 256

  /** Why a call reverted. Payloads of the custom errors are not modelled. */
  datatype Error =
    | Panic                      // checked arithmetic overflowed
    | NotFromEntryPoint
    | NotFromPaymaster
    | NotVaultOwner
    | InvalidTargetOrSelector
    | InvalidSelector
    | InvalidEncoding            // abi.decode rejected its argument
    | InvalidSignature           // ECDSA.recover rejected its argument
    | DailyLimitExceeded
    | MonthlyLimitExceeded
    | LargeSpendCooldownActive
    | NoWithdrawRequested
    | WithdrawTimelockNotMet
    | InsufficientGasForUsdcTransfer
    | CallFailed
    | PostOpGasTooLow
    | CostCapExceeded
    | InsufficientUsdcBalance
    | MaxLessThanMin
    | ValueDoesNotFit
    | FailedToWrite

  /** What a call returns: a value, or a revert that the EVM undoes. */
  datatype Result<+T> = Ok(value: T) | Revert(error: Error) {
    predicate IsFailure() {
      Revert?
    }

    function PropagateFailure<U>(): Result<U>
      requires Revert?
    {
      Revert(error)
    }

    function Extract(): T
      requires Ok?
    {
      value
    }
  }

  datatype Option<+T> = None | Some(value: T)

  /** Checked addition: exact, or a panic when the sum does not fit a word. */
  function Add(a: uint256, b: uint256): Result<uint256> {
    if a + b < TWO_256 then Ok(a + b) else Revert(Panic)
  }

  /** Unchecked addition: the sum, less one word if it does not fit. */
  function WrappingAdd(a: uint256, b: uint256): (r: uint256)
    ensures r == a + b || r == a + b - TWO_256
  {
    if a + b < TWO_256 then a + b else a + b - TWO_256
  }

  /** The product, by repeated addition. Written so, it stays a symbol in the many proofs about account state that
      do not need its value; TimesIsProduct gives the value where one does. */
  function Times(a: nat, b: nat): nat {
    if b == 0 then 0 else a + Times(a, b - 1)
  }

  lemma {:induction false} TimesIsProduct(a: nat, b: nat)
    ensures Times(a, b) == a * b
  {
    if b > 0 {
      TimesIsProduct(a, b - 1);
      assert a * b == a + a * (b - 1);
    }
  }

  /** Checked multiplication. */
  function Mul(a: uint256, b: uint256): Result<uint256> {
    var product := Times(a, b);
    if product < TWO_256 then Ok(product) else Revert(Panic)
  }

  function Pow(base: nat, exponent: nat): nat {
    if exponent == 0 then 1 else base * Pow(base, exponent - 1)
  }

  lemma {:induction false} PowAdd(base: nat, m: nat, n: nat)
    ensures Pow(base, m + n) == Pow(base, m) * Pow(base, n)
  {
    if m > 0 {
      PowAdd(base, m - 1, n);
      TimesAssociates(base, Pow(base, m - 1), Pow(base, n));
    }
  }

  lemma TimesAssociates(a: nat, b: nat, c: nat)
    ensures a * (b * c) == a * b * c
  {
  }

  /** A quotient and a remainder are determined by their equation. */
  lemma DivModUnique(q: nat, r: nat, d: nat)
    requires r < d
    ensures (q * d + r) / d == q && (q * d + r) % d == r
  {
    var x := q * d + r;
    var q' := x / d;
    assert q' * d <= x < q' * d + d;
    TimesCancel(q, q' + 1, d);
    TimesCancel(q', q + 1, d);
  }

  /** Checked multiplication is exact, or panics when the product does not fit a word. */
  lemma MulIsChecked(a: uint256, b: uint256)
    ensures Mul(a, b) == if a * b < TWO_256 then Ok(a * b) else Revert(Panic)
  {
    TimesIsProduct(a, b);
  }

  lemma TimesMono(a: nat, b: nat, k: nat)
    requires a <= b
    ensures a * k <= b * k
  {
  }

  lemma TimesCancel(a: nat, b: nat, k: nat)
    requires a * k < b * k
    ensures a < b
  {
    if a >= b {
      TimesMono(b, a, k);
    }
  }

  /** Sixteen bytes make a half word and thirty-two a word. */
  lemma BytesOfWord()
    ensures Pow(256, 6) == 0x1_0000_0000_0000
    ensures Pow(256, 16) == TWO_128
    ensures Pow(256, 20) == TWO_160
    ensures Pow(256, 32) == TWO_256
  {
    assert Pow(256, 4) == 0x1_0000_0000;
    PowAdd(256, 4, 4);
    assert Pow(256, 8) == 0x1_0000000000000000;
    PowAdd(256, 8, 8);
    assert Pow(256, 16) == TWO_128;
    PowAdd(256, 4, 16);
    PowAdd(256, 16, 16);
  }

  /** The unsigned value of big-endian bytes. */
  function BytesToNat(bytes: seq<Byte>): (value: nat)
    ensures value < Pow(256, |bytes|)
  {
    if bytes == [] then 0 else BytesToNat(bytes[..|bytes| - 1]) * 256 + bytes[|bytes| - 1]
  }

  lemma {:induction false} ZeroBytes(n: nat)
    ensures BytesToNat(seq(n, _ => 0)) == 0
  {
    if n > 0 {
      assert seq(n, _ => 0)[..n - 1] == seq(n - 1, _ => 0);
      ZeroBytes(n - 1);
    }
  }

  /** The big-endian word at `offset`. */
  function Word(bytes: seq<Byte>, offset: nat): uint256
    requires offset + 32 <= |bytes|
  {
    BytesOfWord();
    BytesToNat(bytes[offset..offset + 32])
  }
}
