/**
 * The dirty-flag bits an update call carries down the item tree: which of
 * the parent's transform (Matrix) and opacity (Alpha) changed.  The enum is
 * backed by an unsigned char; All is the union of the two single bits.
 */
module DirtyFlags {
  import Wrappers

  /** The enum's underlying type. */
  type uchar = bv8

  datatype DirtyFlagBit = None | Matrix | Alpha | All

  /** The bit pattern of each enumerator. */
  function Value(b: DirtyFlagBit): (v: uchar)
    ensures v <= 0x03
    ensures (v == 0x00) == (b == None)
  {
    match b
    case None => 0x00
    case Matrix => 0x01
    case Alpha => 0x02
    case All => 0x01 | 0x02
  }

  /** The enumerator with bit pattern `v`, if there is one. */
  function FromValue(v: uchar): (r: Wrappers.Option<DirtyFlagBit>)
    ensures r.Some? <==> v <= 0x03
    ensures r.Some? ==> Value(r.value) == v
  {
    if v == 0x00 then Wrappers.Some(None)
    else if v == 0x01 then Wrappers.Some(Matrix)
    else if v == 0x02 then Wrappers.Some(Alpha)
    else if v == 0x03 then Wrappers.Some(All)
    else Wrappers.None
  }

  /** A flag value includes a bit when every bit of the enumerator is set in it. */
  predicate Includes(flag: uchar, b: DirtyFlagBit) {
    flag & Value(b) == Value(b)
  }

  lemma ValueRoundTrip(b: DirtyFlagBit)
    ensures FromValue(Value(b)) == Wrappers.Some(b)
  {
  }

  lemma ValueInjective(a: DirtyFlagBit, b: DirtyFlagBit)
    ensures Value(a) == Value(b) <==> a == b
  {
  }

  /** All is Matrix | Alpha, the two single bits are distinct, non-empty and disjoint. */
  lemma AllIsUnionOfDisjointBits()
    ensures Value(All) == Value(Matrix) | Value(Alpha)
    ensures Value(Matrix) & Value(Alpha) == 0x00
    ensures Value(Matrix) != 0x00 && Value(Alpha) != 0x00
  {
  }

  /** None is the empty set of bits: every flag includes it, and it includes nothing else. */
  lemma NoneIsEmpty(flag: uchar, b: DirtyFlagBit)
    ensures Includes(flag, None)
    ensures Includes(Value(None), b) <==> b == None
  {
  }

  /** All includes every bit, and a flag includes All exactly when it includes both single bits. */
  lemma AllIncludesEveryBit(flag: uchar, b: DirtyFlagBit)
    ensures Includes(Value(All), b)
    ensures Includes(flag, All) <==> Includes(flag, Matrix) && Includes(flag, Alpha)
  {
  }
}
