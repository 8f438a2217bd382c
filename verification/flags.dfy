/** The `[Flags]` enumeration `AllowedMailType` and .NET's `Enum.HasFlag`.

    `HasFlag(value, flag)` is bitmask containment, `(value & flag) == flag`.
    The numeric values of the three named members are not part of this model,
    so they are a parameter (`FlagEncoding`), constrained only by what the
    validator's unit tests require of them. */
module Flags {

  /** Bitwise AND of two non-negative integers, one bit at a time from the
      least significant end. */
  function BitAnd(a: nat, b: nat): (r: nat)
    ensures r <= a && r <= b
    decreases a
  {
    if a == 0 || b == 0 then 0
    else 2 * BitAnd(a / 2, b / 2) + (if a % 2 == 1 && b % 2 == 1 then 1 else 0)
  }

  /** `Enum.HasFlag`: every bit of `flag` is also set in `value`. */
  predicate HasFlag(value: nat, flag: nat)
  {
    BitAnd(value, flag) == flag
  }

  /** Bit `i` of `x` (bit 0 is the least significant). */
  predicate TestBit(x: nat, i: nat)
    decreases i
  {
    if i == 0 then x % 2 == 1 else TestBit(x / 2, i - 1)
  }

  /** Reference reading of flag containment, bit by bit. */
  ghost predicate BitsContained(value: nat, flag: nat)
  {
    forall i: nat :: TestBit(flag, i) ==> TestBit(value, i)
  }

  lemma {:induction false} ZeroHasNoBits(i: nat)
    ensures !TestBit(0, i)
    decreases i
  {
    if i > 0 {
      ZeroHasNoBits(i - 1);
    }
  }

  /** Bit `i` of `a & b` is set exactly when it is set in both. */
  lemma {:induction false} BitAndBit(a: nat, b: nat, i: nat)
    ensures TestBit(BitAnd(a, b), i) == (TestBit(a, i) && TestBit(b, i))
    decreases i
  {
    if a == 0 || b == 0 {
      ZeroHasNoBits(i);
    } else if i > 0 {
      BitAndBit(a / 2, b / 2, i - 1);
    }
  }

  /** Two numbers with the same bits are equal. */
  lemma {:induction false} BitsDetermineValue(x: nat, y: nat)
    requires forall i: nat :: TestBit(x, i) == TestBit(y, i)
    ensures x == y
    decreases x + y
  {
    if x != 0 || y != 0 {
      assert TestBit(x, 0) == TestBit(y, 0);
      forall i: nat
        ensures TestBit(x / 2, i) == TestBit(y / 2, i)
      {
        assert TestBit(x, i + 1) == TestBit(y, i + 1);
      }
      BitsDetermineValue(x / 2, y / 2);
    }
  }

  /** `HasFlag` is exactly bitwise containment of `flag` in `value`. */
  lemma HasFlagIffBitsContained(value: nat, flag: nat)
    ensures HasFlag(value, flag) <==> BitsContained(value, flag)
  {
    if HasFlag(value, flag) {
      forall i: nat | TestBit(flag, i)
        ensures TestBit(value, i)
      {
        BitAndBit(value, flag, i);
      }
    }
    if BitsContained(value, flag) {
      forall i: nat
        ensures TestBit(BitAnd(value, flag), i) == TestBit(flag, i)
      {
        BitAndBit(value, flag, i);
      }
      BitsDetermineValue(BitAnd(value, flag), flag);
    }
  }

  /** Every value has its own flags. */
  lemma HasFlagReflexive(value: nat)
    ensures HasFlag(value, value)
  {
    HasFlagIffBitsContained(value, value);
  }

  /** Flag containment composes: if `a` holds all bits of `b` and `b` all
      bits of `c`, then `a` holds all bits of `c`. */
  lemma HasFlagTransitive(a: nat, b: nat, c: nat)
    requires HasFlag(a, b) && HasFlag(b, c)
    ensures HasFlag(a, c)
  {
    HasFlagIffBitsContained(a, b);
    HasFlagIffBitsContained(b, c);
    HasFlagIffBitsContained(a, c);
  }

  /** Containment both ways means the same value. */
  lemma HasFlagAntisymmetric(a: nat, b: nat)
    requires HasFlag(a, b) && HasFlag(b, a)
    ensures a == b
  {
  }

  /** A zero flag is contained in every value, so a member whose value is 0
      would pass every `HasFlag` test. */
  lemma EveryValueHasZeroFlag(value: nat)
    ensures HasFlag(value, 0)
  {
  }

  /** The numeric values of the named members of `AllowedMailType`. */
  datatype FlagEncoding = FlagEncoding(standardLetter: nat, largeLetter: nat, smallParcel: nat)

  /** What the validator's unit-test theories demand of the encoding: a
      container tagged `SmallParcel` passes the `StandardLetter` and the
      `LargeLetter` flag tests, while `StandardLetter` and `LargeLetter` do not
      contain each other. */
  predicate AgreesWithValidatorTests(enc: FlagEncoding)
  {
    && !HasFlag(enc.largeLetter, enc.standardLetter)
    && HasFlag(enc.smallParcel, enc.standardLetter)
    && !HasFlag(enc.standardLetter, enc.largeLetter)
    && HasFlag(enc.smallParcel, enc.largeLetter)
  }

  /** Under such an encoding neither letter value contains the parcel value,
      no member is zero, and the three values are distinct. */
  lemma SmallParcelStrictlyContainsLetters(enc: FlagEncoding)
    requires AgreesWithValidatorTests(enc)
    ensures !HasFlag(enc.standardLetter, enc.smallParcel)
    ensures !HasFlag(enc.largeLetter, enc.smallParcel)
    ensures enc.standardLetter != 0 && enc.largeLetter != 0
    ensures enc.standardLetter != enc.largeLetter
    ensures enc.smallParcel != enc.standardLetter && enc.smallParcel != enc.largeLetter
  {
    if HasFlag(enc.standardLetter, enc.smallParcel) {
      HasFlagTransitive(enc.standardLetter, enc.smallParcel, enc.largeLetter);
    }
    if HasFlag(enc.largeLetter, enc.smallParcel) {
      HasFlagTransitive(enc.largeLetter, enc.smallParcel, enc.standardLetter);
    }
    if enc.standardLetter == enc.largeLetter {
      HasFlagReflexive(enc.standardLetter);
    }
    if enc.smallParcel == enc.standardLetter {
      HasFlagReflexive(enc.smallParcel);
    }
    if enc.smallParcel == enc.largeLetter {
      HasFlagReflexive(enc.smallParcel);
    }
  }

  /** One encoding meeting the tests: StandardLetter = 1, LargeLetter = 2,
      SmallParcel = 3. */
  lemma WitnessEncodingAgrees()
    ensures AgreesWithValidatorTests(FlagEncoding(1, 2, 3))
  {
    assert BitAnd(2, 1) == 0;
    assert BitAnd(3, 1) == 1;
    assert BitAnd(1, 2) == 0;
    assert BitAnd(3, 2) == 2;
  }
}
