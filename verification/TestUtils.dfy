/** Helpers of the account-abstraction test suite: the bisection for the smallest passing value, and the packers of
    paymaster data and of validation data. */
module TestUtils {
  import opened Evm
  import opened AccountSpec

  // ---------------------------------------------------------------- bisection

  datatype Search = AlreadyTrue | NeverTrue | Found(value: int)

  function Distance(a: int, b: int): nat {
    if a < b then b - a else a - b
  }

  /** `m` fails, lies on the side of `start`, and is closer to the passing `value` than `delta`. */
  predicate FailsNearby(testFunc: int -> bool, m: int, value: int, start: int, delta: int) {
    && !testFunc(m)
    && 0 < Distance(m, value) < delta
    && (if m < value then start <= m else m <= start)
  }

  /** `findMin`: the two ends are tested first; then the interval is halved, at least once, until its ends are closer
      than `delta`, keeping a failing `min` and a passing `max`. A `delta` below 2 is harmless only if an end fails
      its test, so that nothing is halved. */
  method FindMin(testFunc: int -> bool, start: int, end: int, delta: int) returns (r: Search)
    requires delta >= 2 || testFunc(start) || !testFunc(end)
    ensures r == AlreadyTrue <==> testFunc(start)
    ensures r == NeverTrue <==> !testFunc(start) && !testFunc(end)
    ensures r.Found? ==>
              && testFunc(r.value)
              && (if start < end then start < r.value <= end else end <= r.value < start)
              && exists m :: FailsNearby(testFunc, m, r.value, start, delta) && (m < r.value <==> start < end)
  {
    if testFunc(start) {
      return AlreadyTrue;
    }
    if !testFunc(end) {
      return NeverTrue;
    }
    var min, max := start, end;
    while true
      invariant !testFunc(min) && testFunc(max)
      invariant if start < end then start <= min < max <= end else end <= max < min <= start
      decreases Distance(min, max)
    {
      ghost var before, round := Distance(min, max), Halved(testFunc, min, max);
      var avg := (max + min) / 2;
      if testFunc(avg) {
        max := avg;
      } else {
        min := avg;
      }
      assert (min, max) == round;
      if Distance(max, min) < delta {
        assert FailsNearby(testFunc, min, max, start, delta);
        return Found(max);
      }
      assert Distance(min, max) < before;
    }
  }

  /** The ends after one round of the loop. */
  function Halved(testFunc: int -> bool, min: int, max: int): (int, int) {
    var avg := (max + min) / 2;
    if testFunc(avg) then (min, avg) else (avg, max)
  }

  /** For a monotone test the result is less than `delta - 1` above the least passing value, so it is that value when
      `delta` is 2. */
  lemma FoundNearLeast(testFunc: int -> bool, start: int, value: int, m: int, least: int, delta: int)
    requires forall a, b :: a <= b && testFunc(a) ==> testFunc(b)
    requires testFunc(least) && forall a :: a < least ==> !testFunc(a)
    requires testFunc(value) && FailsNearby(testFunc, m, value, start, delta) && m < value
    ensures least <= value <= least + delta - 2
    ensures delta == 2 ==> value == least
  {
    assert least <= m ==> testFunc(m);
  }

  /** The ends after `n` rounds. */
  function Rounds(testFunc: int -> bool, min: int, max: int, n: nat): (int, int) {
    if n == 0 then (min, max) else
    var (min', max') := Rounds(testFunc, min, max, n - 1);
    Halved(testFunc, min', max')
  }

  /** Why `delta` has to be at least 2: below that no number of rounds ever brings the ends close enough. */
  lemma {:induction false} SmallDeltaNeverEnds(testFunc: int -> bool, min: int, max: int, delta: int, n: nat)
    requires delta < 2 && !testFunc(min) && testFunc(max)
    ensures var (min', max') := Rounds(testFunc, min, max, n);
            !testFunc(min') && testFunc(max') && !(Distance(max', min') < delta)
  {
    if n > 0 {
      SmallDeltaNeverEnds(testFunc, min, max, delta, n - 1);
    }
  }

  // ---------------------------------------------------------------- bytes

  /** `n` big-endian bytes of a number that fits them. */
  function ToBytes(x: nat, n: nat): (bytes: seq<Byte>)
    requires x < Pow(256, n)
    ensures |bytes| == n && BytesToNat(bytes) == x
  {
    if n == 0 then [] else
    var front := ToBytes(x / 256, n - 1);
    assert (front + [x % 256])[..n - 1] == front;
    front + [x % 256]
  }

  lemma {:induction false} BytesAreUnique(bytes: seq<Byte>)
    ensures ToBytes(BytesToNat(bytes), |bytes|) == bytes
  {
    if bytes != [] {
      BytesAreUnique(bytes[..|bytes| - 1]);
    }
  }

  lemma {:induction false} BytesConcat(a: seq<Byte>, b: seq<Byte>)
    ensures BytesToNat(a + b) == BytesToNat(a) * Pow(256, |b|) + BytesToNat(b)
  {
    if b == [] {
      assert a + b == a;
    } else {
      var front := b[..|b| - 1];
      BytesConcat(a, front);
      assert (a + b)[..|a + b| - 1] == a + front;
      ShiftByte(BytesToNat(a), Pow(256, |front|));
    }
  }

  lemma ShiftByte(x: nat, p: nat)
    ensures x * (256 * p) == 256 * (x * p)
  {
  }

  // ---------------------------------------------------------------- paymaster data

  /** Left-padding to sixteen bytes fails for a number that needs more. */
  function Pad16(x: nat): Result<seq<Byte>> {
    BytesOfWord();
    if x < TWO_128 then Ok(ToBytes(x, 16)) else Revert(ValueDoesNotFit)
  }

  function PackPaymasterData(paymaster: seq<Byte>, verificationGasLimit: nat, postOpGasLimit: nat, data: seq<Byte>)
    : Result<seq<Byte>>
  {
    var verification :- Pad16(verificationGasLimit);
    var postOp :- Pad16(postOpGasLimit);
    Ok(paymaster + verification + postOp + data)
  }

  /** Whatever is packed for a 20-byte paymaster, the slices the account reads are what was packed. */
  lemma PackedPaymasterDataReadsBack(
    paymaster: seq<Byte>, verificationGasLimit: nat, postOpGasLimit: nat, data: seq<Byte>)
    requires |paymaster| == 20
    ensures var packed := PackPaymasterData(paymaster, verificationGasLimit, postOpGasLimit, data);
            && (packed.Ok? <==> verificationGasLimit < TWO_128 && postOpGasLimit < TWO_128)
            && (packed.Ok? ==>
                && |packed.value| == PAYMASTER_DATA_OFFSET + |data|
                && packed.value[..20] == paymaster
                && BytesToNat(packed.value[20..36]) == verificationGasLimit
                && BytesToNat(packed.value[36..52]) == postOpGasLimit
                && packed.value[52..] == data)
  {
    var packed := PackPaymasterData(paymaster, verificationGasLimit, postOpGasLimit, data);
    if packed.Ok? {
      BytesOfWord();
      assert packed.value[20..36] == ToBytes(verificationGasLimit, 16);
      assert packed.value[36..52] == ToBytes(postOpGasLimit, 16);
    }
  }

  /** And any paymaster data long enough for the account to read is the packing of what it reads. */
  lemma PaymasterDataIsPacked(bytes: seq<Byte>)
    requires |bytes| >= PAYMASTER_DATA_OFFSET
    ensures PackPaymasterData(bytes[..20], BytesToNat(bytes[20..36]), BytesToNat(bytes[36..52]), bytes[52..])
         == Ok(bytes)
  {
    BytesOfWord();
    BytesAreUnique(bytes[20..36]);
    BytesAreUnique(bytes[36..52]);
    assert bytes == bytes[..20] + bytes[20..36] + bytes[36..52] + bytes[52..];
  }

  /** So an operation packed for the account's paymaster is charged for exactly the gas limits that were packed. */
  lemma PackedOperationIsProjected(cfg: Config, userOp: UserOp, paymaster: Address,
                                   verificationGasLimit: uint128, postOpGasLimit: uint128, data: seq<Byte>)
    ensures Pow(256, 20) == TWO_160
    ensures var packed := PackPaymasterData(ToBytes(paymaster, 20), verificationGasLimit, postOpGasLimit, data);
            && packed.Ok? && |packed.value| >= PAYMASTER_DATA_OFFSET
            && var sent := userOp.(paymasterAndData := packed.value);
               && (UsesPaymaster(cfg, sent) <==> paymaster == cfg.paymaster)
               && RequiredGas(sent) == userOp.preVerificationGas + userOp.verificationGasLimit + userOp.callGasLimit
                                       + verificationGasLimit + postOpGasLimit
  {
    BytesOfWord();
    PackedPaymasterDataReadsBack(ToBytes(paymaster, 20), verificationGasLimit, postOpGasLimit, data);
  }

  // ---------------------------------------------------------------- validation data

  const TWO_48: nat := 0x1_0000_0000_0000
  const MAX_UINT48: nat := TWO_48 - 1

  datatype ValidationData = ValidationData(aggregator: nat, validAfter: nat, validUntil: nat)

  predicate InRange(data: ValidationData) {
    data.aggregator < TWO_160 && data.validAfter < TWO_48 && data.validUntil < TWO_48
  }

  function PackValidationData(data: ValidationData): nat {
    (data.validAfter * TWO_48 + data.validUntil) * TWO_160 + data.aggregator
  }

  /** Zero means that there is no last moment. */
  function OpenEnded(validUntil: nat): nat {
    if validUntil == 0 then MAX_UINT48 else validUntil
  }

  /** `parseValidationData`, by slices of the 32-byte form; a larger number has no such form. */
  function ParseValidationData(packed: nat): Result<ValidationData> {
    if packed >= TWO_256 then Revert(ValueDoesNotFit) else
    BytesOfWord();
    var bytes := ToBytes(packed, 32);
    Ok(ValidationData(BytesToNat(bytes[12..32]), BytesToNat(bytes[0..6]), OpenEnded(BytesToNat(bytes[6..12]))))
  }

  /** The slices are the digits of the packed number. */
  lemma ParsedDigits(packed: uint256)
    ensures ParseValidationData(packed) == Ok(ValidationData(
              packed % TWO_160, packed / TWO_160 / TWO_48, OpenEnded(packed / TWO_160 % TWO_48)))
  {
    BytesOfWord();
    var bytes := ToBytes(packed, 32);
    var a, u, g := bytes[0..6], bytes[6..12], bytes[12..32];
    assert bytes == (a + u) + g;
    BytesConcat(a + u, g);
    BytesConcat(a, u);
    var high := BytesToNat(a) * TWO_48 + BytesToNat(u);
    assert packed == high * TWO_160 + BytesToNat(g);
    DivModUnique(high, BytesToNat(g), TWO_160);
    DivModUnique(BytesToNat(a), BytesToNat(u), TWO_48);
  }

  /** In range, parsing undoes packing, with zero read as the largest 48-bit moment. */
  lemma ParsePackedInRange(data: ValidationData)
    requires InRange(data)
    ensures ParseValidationData(PackValidationData(data)) == Ok(data.(validUntil := OpenEnded(data.validUntil)))
  {
    PackedDigits(data);
    ParsedDigits(PackValidationData(data));
  }

  lemma PackedDigits(data: ValidationData)
    requires InRange(data)
    ensures var packed := PackValidationData(data);
            && packed < TWO_256
            && packed % TWO_160 == data.aggregator
            && packed / TWO_160 / TWO_48 == data.validAfter
            && packed / TWO_160 % TWO_48 == data.validUntil
  {
    DivModUnique(data.validAfter * TWO_48 + data.validUntil, data.aggregator, TWO_160);
    DivModUnique(data.validAfter, data.validUntil, TWO_48);
  }

  lemma ParsedIsInRange(packed: uint256)
    ensures ParseValidationData(packed).Ok? && InRange(ParseValidationData(packed).value)
    ensures ParseValidationData(packed).value.validUntil != 0
  {
    ParsedDigits(packed);
  }

  /** Parsing undoes packing exactly for fields in range with a last moment. */
  lemma ParseUndoesPack(data: ValidationData)
    ensures ParseValidationData(PackValidationData(data)) == Ok(data) <==> InRange(data) && data.validUntil != 0
  {
    if InRange(data) {
      ParsePackedInRange(data);
    } else if PackValidationData(data) < TWO_256 {
      ParsedIsInRange(PackValidationData(data));
    }
  }

  /** And packing undoes parsing exactly for numbers that hold a last moment. */
  lemma PackUndoesParse(packed: uint256)
    ensures PackValidationData(ParseValidationData(packed).value) == packed <==> packed / TWO_160 % TWO_48 != 0
  {
    ParsedDigits(packed);
    var high := packed / TWO_160;
    assert high == high / TWO_48 * TWO_48 + high % TWO_48;
    assert packed == high * TWO_160 + packed % TWO_160;
  }
}
