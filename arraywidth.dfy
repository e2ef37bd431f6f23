/** find_fitting_array_type: the NBT array tag a section's flattened block grid is stored as. */
module ArrayWidth {
  import opened Wrappers
  import opened PythonOps

  datatype ArrayType = ByteArray | IntArray | LongArray

  /** The largest maximum element stored as a byte array: 127, a signed byte, not 255. */
  const BYTE_ARRAY_MAX := 127
  /** The largest maximum element stored as an int array: a signed 32-bit int. */
  const INT_ARRAY_MAX := 2_147_483_647

  /** The NBT tag id written into blocks_array_type. */
  function TagId(t: ArrayType): int {
    match t
    case ByteArray => 7
    case IntArray => 11
    case LongArray => 12
  }

  /** The tag is chosen from the largest element; max() of an empty array raises. */
  function FindFittingArrayType(a: seq<int>): (r: Result<ArrayType>)
    ensures r.Err? <==> |a| == 0
    ensures r.Err? ==> r.error == EmptyArray
  {
    if |a| == 0 then Err(EmptyArray)
    else
      var m := Max(a);
      if m <= BYTE_ARRAY_MAX then Ok(ByteArray)
      else if m <= INT_ARRAY_MAX then Ok(IntArray)
      else Ok(LongArray)
  }

  /**
   * Which tag is chosen: a byte array when every element is at most 127, an int array
   * when some element is above 127 and none above 2^31 - 1, a long array otherwise.
   */
  lemma FittingArrayTypeChoice(a: seq<int>)
    ensures FindFittingArrayType(a) == Ok(ByteArray) <==> |a| > 0 && forall x :: x in a ==> x <= BYTE_ARRAY_MAX
    ensures FindFittingArrayType(a) == Ok(IntArray) <==>
              && (exists x :: x in a && x > BYTE_ARRAY_MAX)
              && (forall x :: x in a ==> x <= INT_ARRAY_MAX)
    ensures FindFittingArrayType(a) == Ok(LongArray) <==> exists x :: x in a && x > INT_ARRAY_MAX
  {
  }

  /** The byte/int boundary sits at 127/128, so 255 already needs an int array. */
  lemma ByteBoundary()
    ensures FindFittingArrayType([0, 127]) == Ok(ByteArray)
    ensures FindFittingArrayType([0, 128]) == Ok(IntArray)
    ensures FindFittingArrayType([255]) == Ok(IntArray)
    ensures FindFittingArrayType([INT_ARRAY_MAX]) == Ok(IntArray)
    ensures FindFittingArrayType([INT_ARRAY_MAX + 1]) == Ok(LongArray)
  {
    FittingArrayTypeChoice([0, 127]);
    FittingArrayTypeChoice([0, 128]);
    FittingArrayTypeChoice([255]);
    FittingArrayTypeChoice([INT_ARRAY_MAX]);
    FittingArrayTypeChoice([INT_ARRAY_MAX + 1]);
    assert 128 in [0, 128];
    assert INT_ARRAY_MAX + 1 in [INT_ARRAY_MAX + 1];
  }
}
