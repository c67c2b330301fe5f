/** Finding and updating a field packed into a storage word. */
module StdStorage {
  import opened Evm

  // ---------------------------------------------------------------- words as bits

  predicate Bit(x: nat, i: nat) {
    if i == 0 then x % 2 == 1 else Bit(x / 2, i - 1)
  }

  function And(x: nat, y: nat): nat {
    if x == 0 || y == 0 then 0 else (if x % 2 == 1 && y % 2 == 1 then 1 else 0) + 2 * And(x / 2, y / 2)
  }

  function Or(x: nat, y: nat): nat
    decreases x + y
  {
    if x == 0 then y else if y == 0 then x else
    (if x % 2 == 1 || y % 2 == 1 then 1 else 0) + 2 * Or(x / 2, y / 2)
  }

  /** Complement in a word of `n` bits. */
  function Not(x: nat, n: nat): nat {
    if n == 0 then 0 else (if x % 2 == 1 then 0 else 1) + 2 * Not(x / 2, n - 1)
  }

  /** The lowest `n` bits. */
  function Low(x: nat, n: nat): nat {
    if n == 0 then 0 else x % 2 + 2 * Low(x / 2, n - 1)
  }

  function Shl(x: nat, n: nat): nat {
    if n == 0 then x else 2 * Shl(x, n - 1)
  }

  function Shr(x: nat, n: nat): nat {
    if n == 0 then x else Shr(x / 2, n - 1)
  }

  lemma {:induction false} AndBits(x: nat, y: nat, i: nat)
    ensures Bit(And(x, y), i) <==> Bit(x, i) && Bit(y, i)
  {
    if x == 0 || y == 0 {
      ZeroBits(i);
    } else if i > 0 {
      AndBits(x / 2, y / 2, i - 1);
    }
  }

  lemma {:induction false} OrBits(x: nat, y: nat, i: nat)
    ensures Bit(Or(x, y), i) <==> Bit(x, i) || Bit(y, i)
    decreases i
  {
    if x == 0 || y == 0 {
      ZeroBits(i);
    } else if i > 0 {
      OrBits(x / 2, y / 2, i - 1);
    }
  }

  lemma {:induction false} ZeroBits(i: nat)
    ensures !Bit(0, i)
  {
    if i > 0 {
      ZeroBits(i - 1);
    }
  }

  lemma {:induction false} NotBits(x: nat, n: nat, i: nat)
    ensures Bit(Not(x, n), i) <==> i < n && !Bit(x, i)
  {
    if n == 0 {
      ZeroBits(i);
    } else if i > 0 {
      NotBits(x / 2, n - 1, i - 1);
    }
  }

  lemma {:induction false} LowBits(x: nat, n: nat, i: nat)
    ensures Bit(Low(x, n), i) <==> i < n && Bit(x, i)
  {
    if n == 0 {
      ZeroBits(i);
    } else if i > 0 {
      LowBits(x / 2, n - 1, i - 1);
    }
  }

  lemma {:induction false} ShlBits(x: nat, n: nat, i: nat)
    ensures Bit(Shl(x, n), i) <==> i >= n && Bit(x, i - n)
  {
    if n > 0 && i > 0 {
      ShlBits(x, n - 1, i - 1);
    }
  }

  lemma {:induction false} ShrBits(x: nat, n: nat, i: nat)
    ensures Bit(Shr(x, n), i) <==> Bit(x, i + n)
  {
    if n > 0 {
      ShrBits(x / 2, n - 1, i);
    }
  }

  /** Numbers with the same bits are the same. */
  lemma {:induction false} SameBits(x: nat, y: nat)
    requires forall i: nat :: Bit(x, i) <==> Bit(y, i)
    ensures x == y
  {
    assert Bit(x, 0) <==> Bit(y, 0);
    if x > 0 || y > 0 {
      forall i: nat
        ensures Bit(x / 2, i) <==> Bit(y / 2, i)
      {
        assert Bit(x, i + 1) <==> Bit(y, i + 1);
      }
      SameBits(x / 2, y / 2);
    }
  }

  /** Below 2^n there are no bits from `n` on, and the other way round. */
  lemma {:induction false} BelowHasNoBits(x: nat, n: nat, i: nat)
    requires x < Pow(2, n) && i >= n
    ensures !Bit(x, i)
  {
    if n == 0 {
      ZeroBits(i);
    } else {
      BelowHasNoBits(x / 2, n - 1, i - 1);
    }
  }

  lemma {:induction false} NoBitsIsBelow(x: nat, n: nat)
    requires forall i: nat :: i >= n ==> !Bit(x, i)
    ensures x < Pow(2, n)
  {
    if n == 0 {
      forall i: nat ensures Bit(x, i) <==> Bit(0, i) { ZeroBits(i); }
      SameBits(x, 0);
    } else {
      forall i: nat | i >= n - 1 ensures !Bit(x / 2, i) { assert !Bit(x, i + 1); }
      NoBitsIsBelow(x / 2, n - 1);
    }
  }

  /** A power of two has one bit, and one less has all the bits below. */
  lemma {:induction false} PowerBits(n: nat, i: nat)
    ensures Pow(2, n) > 0
    ensures Bit(Pow(2, n), i) <==> i == n
    ensures Bit(Pow(2, n) - 1, i) <==> i < n
  {
    if n == 0 {
      ZeroBits(i);
      if i > 0 {
        ZeroBits(i - 1);
      }
    } else {
      PowerBits(n - 1, if i > 0 then i - 1 else 0);
      assert Pow(2, n) / 2 == Pow(2, n - 1) && (Pow(2, n) - 1) / 2 == Pow(2, n - 1) - 1;
    }
  }

  lemma {:induction false} ShlOne(n: nat)
    ensures Shl(1, n) == Pow(2, n)
  {
    if n > 0 {
      ShlOne(n - 1);
    }
  }

  lemma WordPower()
    ensures Pow(2, 256) == TWO_256
  {
    assert Pow(2, 8) == 256;
    PowAdd(2, 8, 8);
    assert Pow(2, 16) == 0x1_0000;
    PowAdd(2, 16, 16);
    assert Pow(2, 32) == 0x1_0000_0000;
    PowAdd(2, 32, 32);
    assert Pow(2, 64) == 0x1_0000000000000000;
    PowAdd(2, 64, 64);
    assert Pow(2, 128) == TWO_128;
    PowAdd(2, 128, 128);
  }

  // ---------------------------------------------------------------- masks and fields

  /** Shifting left within a word. */
  function ShiftLeft(x: nat, n: nat): (r: uint256)
    ensures forall i: nat :: Bit(r, i) <==> n <= i < 256 && Bit(x, i - n)
  {
    var r := Low(Shl(x, n), 256);
    WordOf(r, x, n);
    r
  }

  lemma WordOf(r: nat, x: nat, n: nat)
    requires r == Low(Shl(x, n), 256)
    ensures r < TWO_256
    ensures forall i: nat :: Bit(r, i) <==> n <= i < 256 && Bit(x, i - n)
  {
    forall i: nat
      ensures Bit(r, i) <==> n <= i < 256 && Bit(x, i - n)
    {
      LowBits(Shl(x, n), 256, i);
      ShlBits(x, n, i);
    }
    WordPower();
    NoBitsIsBelow(r, 256);
  }

  /** Word subtraction, which wraps. */
  function Sub(x: uint256, y: uint256): uint256 {
    (x - y) % TWO_256
  }

  /** The mask of the bits from `right` up to `256 - left`, computed as the assembly does; the inner shift by 256
      gives zero, from which the subtraction wraps to all ones. */
  function MaskByOffsets(left: nat, right: nat): uint256
    requires left + right <= 256
  {
    ShiftLeft(Sub(ShiftLeft(1, 256 - (right + left)), 1), right)
  }

  function UpdatedSlotValue(cur: uint256, value: uint256, left: nat, right: nat): nat
    requires left + right <= 256
  {
    Or(And(cur, Not(MaskByOffsets(left, right), 256)), ShiftLeft(value, right))
  }

  /** The value of the field that occupies the bits from `right` up to `256 - left`. */
  function Field(word: nat, left: nat, right: nat): nat
    requires left + right <= 256
  {
    Low(Shr(word, right), 256 - left - right)
  }

  lemma FieldBits(word: nat, left: nat, right: nat, i: nat)
    requires left + right <= 256
    ensures Bit(Field(word, left, right), i) <==> i < 256 - left - right && Bit(word, i + right)
  {
    LowBits(Shr(word, right), 256 - left - right, i);
    ShrBits(word, right, i);
  }

  /** Shifting one: a power of two, until it leaves the word. */
  lemma ShiftedOne(k: nat)
    requires k <= 256
    ensures ShiftLeft(1, k) == if k < 256 then Pow(2, k) else 0
  {
    var expected := if k < 256 then Pow(2, k) else 0;
    forall i: nat
      ensures Bit(ShiftLeft(1, k), i) <==> Bit(expected, i)
    {
      PowerBits(k, i);
      PowerBits(0, if i >= k then i - k else 0);
      ZeroBits(i);
    }
    SameBits(ShiftLeft(1, k), expected);
  }

  lemma SubOne(x: uint256)
    ensures Sub(x, 1) == if x > 0 then x - 1 else TWO_256 - 1
  {
  }

  lemma InnerMask(k: nat)
    requires k <= 256
    ensures Pow(2, k) > 0 && Sub(ShiftLeft(1, k), 1) == Pow(2, k) - 1
  {
    PowerBits(k, 0);
    WordPower();
    ShiftedOne(k);
    SubOne(ShiftLeft(1, k));
  }

  /** The mask has exactly the bits of the field. */
  lemma MaskBits(left: nat, right: nat, i: nat)
    requires left + right <= 256
    ensures Bit(MaskByOffsets(left, right), i) <==> right <= i < 256 - left
  {
    var k := 256 - (right + left);
    InnerMask(k);
    if i >= right {
      PowerBits(k, i - right);
    }
  }

  /** Masking and shifting reads the field. */
  lemma MaskedRead(word: nat, left: nat, right: nat)
    requires left + right <= 256
    ensures Shr(And(word, MaskByOffsets(left, right)), right) == Field(word, left, right)
  {
    var masked := And(word, MaskByOffsets(left, right));
    forall i: nat
      ensures Bit(Shr(masked, right), i) <==> Bit(Field(word, left, right), i)
    {
      ShrBits(masked, right, i);
      AndBits(word, MaskByOffsets(left, right), i + right);
      MaskBits(left, right, i + right);
      FieldBits(word, left, right, i);
    }
    SameBits(Shr(masked, right), Field(word, left, right));
  }

  /** Every bit of an updated word: the value inside the field, the old word outside it. */
  lemma UpdatedBits(cur: uint256, value: uint256, left: nat, right: nat, i: nat)
    requires left + right <= 256 && value < Pow(2, 256 - left - right)
    ensures Bit(UpdatedSlotValue(cur, value, left, right), i) <==>
              if right <= i < 256 - left then Bit(value, i - right) else Bit(cur, i)
  {
    var mask := MaskByOffsets(left, right);
    OrBits(And(cur, Not(mask, 256)), ShiftLeft(value, right), i);
    AndBits(cur, Not(mask, 256), i);
    NotBits(mask, 256, i);
    MaskBits(left, right, i);
    WordPower();
    if i >= 256 - left {
      BelowHasNoBits(value, 256 - left - right, i - right);
    }
    if i >= 256 {
      BelowHasNoBits(cur, 256, i);
    }
  }

  /** For every value that fits, the updated word is a word, masking it reads the value back, and all bits outside the
      field are unchanged. */
  lemma UpdateReadsBack(cur: uint256, value: uint256, left: nat, right: nat)
    requires left + right <= 256 && value < Pow(2, 256 - left - right)
    ensures var updated := UpdatedSlotValue(cur, value, left, right);
            && updated < TWO_256
            && Shr(And(updated, MaskByOffsets(left, right)), right) == value
            && forall i: nat :: i < right || i >= 256 - left ==> (Bit(updated, i) <==> Bit(cur, i))
  {
    var updated := UpdatedSlotValue(cur, value, left, right);
    forall i: nat
      ensures Bit(updated, i) <==> if right <= i < 256 - left then Bit(value, i - right) else Bit(cur, i)
    {
      UpdatedBits(cur, value, left, right, i);
    }
    WordPower();
    forall i: nat | i >= 256
      ensures !Bit(updated, i)
    {
      BelowHasNoBits(cur, 256, i);
    }
    NoBitsIsBelow(updated, 256);
    MaskedRead(updated, left, right);
    forall i: nat
      ensures Bit(Field(updated, left, right), i) <==> Bit(value, i)
    {
      FieldBits(updated, left, right, i);
      if i >= 256 - left - right {
        BelowHasNoBits(value, 256 - left - right, i);
      }
    }
    SameBits(Field(updated, left, right), value);
  }

  // ---------------------------------------------------------------- search

  /** What a static call of the getter gives. */
  datatype Reading = Reading(success: bool, data: uint256)

  predicate Hits(getter: uint256 -> Reading, word: uint256) {
    getter(word).success && getter(word).data > 0
  }

  /** The single bit tried at `offset` from the left or from the right. */
  function Probe(left: bool, offset: nat): uint256
    requires offset < 256
  {
    ShiftLeft(1, if left then 255 - offset else offset)
  }

  /** `offset` is the first one whose probe the getter sees, if there is any. */
  ghost predicate IsOffset(getter: uint256 -> Reading, left: bool, found: bool, offset: nat) {
    if found then
      offset < 256 && Hits(getter, Probe(left, offset)) && forall k: nat :: k < offset ==> !Hits(getter, Probe(left, k))
    else
      offset == 0 && forall k: nat :: k < 256 ==> !Hits(getter, Probe(left, k))
  }

  /** The getter succeeds and returns the field at the given offsets. */
  ghost predicate ReadsField(getter: uint256 -> Reading, left: nat, right: nat)
    requires left + right <= 256
  {
    forall word: uint256 :: getter(word).success && getter(word).data == Field(word, left, right)
  }

  /** A single bit shows in the field exactly when it lies inside it. */
  lemma BitInField(i: nat, left: nat, right: nat)
    requires i < 256 && left + right <= 256
    ensures Field(ShiftLeft(1, i), left, right) > 0 <==> right <= i < 256 - left
  {
    var field := Field(ShiftLeft(1, i), left, right);
    forall j: nat
      ensures Bit(field, j) <==> right <= i < 256 - left && j == i - right
    {
      FieldBits(ShiftLeft(1, i), left, right, j);
      PowerBits(0, if j + right >= i then j + right - i else 0);
    }
    if right <= i < 256 - left {
      ZeroBits(i - right);
      assert Bit(field, i - right);
    } else {
      forall j: nat
        ensures Bit(field, j) <==> Bit(0, j)
      {
        ZeroBits(j);
      }
      SameBits(field, 0);
    }
  }

  lemma ProbeSeesField(getter: uint256 -> Reading, left: nat, right: nat, fromLeft: bool, offset: nat)
    requires left + right < 256 && offset < 256 && ReadsField(getter, left, right)
    ensures Hits(getter, Probe(fromLeft, offset)) <==>
              if fromLeft then left <= offset < 256 - right else right <= offset < 256 - left
  {
    BitInField(if fromLeft then 255 - offset else offset, left, right);
  }

  /** For a getter of a non-empty field the two searches return exactly its offsets. */
  lemma FieldIsFound(
    getter: uint256 -> Reading, left: nat, right: nat,
    foundLeft: bool, offsetLeft: nat, foundRight: bool, offsetRight: nat)
    requires left + right < 256 && ReadsField(getter, left, right)
    requires IsOffset(getter, true, foundLeft, offsetLeft) && IsOffset(getter, false, foundRight, offsetRight)
    ensures foundLeft && foundRight && offsetLeft == left && offsetRight == right
  {
    ProbeSeesField(getter, left, right, true, left);
    ProbeSeesField(getter, left, right, false, right);
    if foundLeft {
      ProbeSeesField(getter, left, right, true, offsetLeft);
    }
    if foundRight {
      ProbeSeesField(getter, left, right, false, offsetRight);
    }
  }

  /** Whatever the getter, offsets found from both sides leave room for at least one bit between them. */
  lemma OffsetsLeaveRoom(getter: uint256 -> Reading, offsetLeft: nat, offsetRight: nat)
    requires IsOffset(getter, true, true, offsetLeft) && IsOffset(getter, false, true, offsetRight)
    ensures offsetLeft + offsetRight < 256
  {
    assert Probe(true, offsetLeft) == Probe(false, 255 - offsetLeft);
  }

  /** A contract under test: one storage word and a getter whose answer depends on it. */
  class Target {
    var slot: uint256
    const getter: uint256 -> Reading

    constructor (slot: uint256, getter: uint256 -> Reading)
      ensures this.slot == slot && this.getter == getter
    {
      this.slot := slot;
      this.getter := getter;
    }

    method FindOffset(left: bool) returns (found: bool, offset: nat)
      modifies this
      ensures IsOffset(getter, left, found, offset)
    {
      for i := 0 to 256
        invariant forall k: nat :: k < i ==> !Hits(getter, Probe(left, k))
      {
        slot := Probe(left, i);
        var reading := getter(slot);
        if reading.success && reading.data > 0 {
          return true, i;
        }
      }
      return false, 0;
    }

    /** Both searches, with the word put back. For a getter of a field they return where it lies. */
    method FindOffsets() returns (found: bool, offsetLeft: nat, offsetRight: nat)
      modifies this
      ensures slot == old(slot)
      ensures exists l, r ::
                found == (l && r) && IsOffset(getter, true, l, offsetLeft) && IsOffset(getter, false, r, offsetRight)
      ensures found ==> offsetLeft + offsetRight < 256
      ensures forall left: nat, right: nat | left + right < 256 && ReadsField(getter, left, right) ::
                found && offsetLeft == left && offsetRight == right
    {
      var previous := slot;
      var foundLeft, foundRight;
      foundLeft, offsetLeft := FindOffset(true);
      foundRight, offsetRight := FindOffset(false);
      slot := previous;
      found := foundLeft && foundRight;
      if found {
        OffsetsLeaveRoom(getter, offsetLeft, offsetRight);
      }
      forall left: nat, right: nat | left + right < 256 && ReadsField(getter, left, right)
        ensures found && offsetLeft == left && offsetRight == right
      {
        FieldIsFound(getter, left, right, foundLeft, offsetLeft, foundRight, offsetRight);
      }
    }

    /** `checked_write` at offsets already found: the getter afterwards returns the value, or the word is put back.
        For a getter of that field it succeeds exactly when the value fits. */
    method CheckedWrite(value: uint256, offsetLeft: nat, offsetRight: nat) returns (r: Result<()>)
      requires offsetLeft + offsetRight < 256
      modifies this
      ensures r.Ok? ==> slot == UpdatedSlotValue(old(slot), value, offsetLeft, offsetRight)
      ensures r.Ok? ==> getter(slot) == Reading(true, value)
      ensures r.Revert? ==> slot == old(slot)
      ensures r == Revert(ValueDoesNotFit) <==> value >= Pow(2, 256 - (offsetLeft + offsetRight))
      ensures ReadsField(getter, offsetLeft, offsetRight) ==>
                (r.Ok? <==> value < Pow(2, 256 - (offsetLeft + offsetRight)))
    {
      WordPower();
      if offsetLeft + offsetRight > 0 {
        var maxVal := Pow(2, 256 - (offsetLeft + offsetRight));
        if value >= maxVal {
          return Revert(ValueDoesNotFit);
        }
      }
      var cur := slot;
      UpdateReadsBack(cur, value, offsetLeft, offsetRight);
      MaskedRead(UpdatedSlotValue(cur, value, offsetLeft, offsetRight), offsetLeft, offsetRight);
      slot := UpdatedSlotValue(cur, value, offsetLeft, offsetRight);
      var reading := getter(slot);
      if !reading.success || reading.data != value {
        slot := cur;
        return Revert(FailedToWrite);
      }
      return Ok(());
    }
  }
}
