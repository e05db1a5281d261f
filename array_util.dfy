/**
 * ArrayUtil: splicing arrays (push, unshift) and a first-match search
 * (findIndex). Java arrays of references are arrays of Value, so an element
 * may be null and a freshly allocated array is all null.
 */
module ArrayUtil {
  import opened JavaLang

  /**
   * push: null for a null array; the array itself for a null element list;
   * otherwise a new array holding the array's elements followed by the new
   * elements. The arguments are not modified.
   */
  method Push(arr: array?<Value>, element: array?<Value>) returns (r: array?<Value>)
    ensures arr == null ==> r == null
    ensures arr != null && element == null ==> r == arr
    ensures arr != null && element != null ==> r != null && fresh(r) && r[..] == arr[..] + element[..]
  {
    if arr == null {
      return null;
    }
    if element == null {
      return arr;
    }
    var length, elemtLength := arr.Length, element.Length;
    var tmp := new Value[length + elemtLength](_ => Null);
    // bulk copy of the original elements to the front
    forall j | 0 <= j < length {
      tmp[j] := arr[j];
    }
    for i := 0 to elemtLength
      invariant tmp[..length] == arr[..]
      invariant forall j :: 0 <= j < i ==> tmp[length + j] == element[j]
    {
      tmp[length + i] := element[i];
    }
    assert tmp[..] == arr[..] + element[..];
    return tmp;
  }

  /**
   * The array unshift builds as written: allocated with |array| + |element|
   * null slots, `element` copied to the front, and then `array[i]` stored at
   * `|array| + i` rather than `|element| + i`.
   */
  function UnshiftAsWrittenLayout(arr: seq<Value>, element: seq<Value>): (r: seq<Value>)
    requires |arr| <= |element|
    ensures |r| == |arr| + |element|
  {
    seq(|arr| + |element|, k requires 0 <= k < |arr| + |element| =>
      if |arr| <= k < 2 * |arr| then arr[k - |arr|]
      else if k < |element| then element[k]
      else Null)
  }

  /**
   * unshift exactly as written: null for a null array, the array itself for
   * a null element list; otherwise the copy loop writes index |array| + i, so
   * when the array is longer than the element list the write at
   * i = |element| runs past the end and throws, and otherwise the result is
   * UnshiftAsWrittenLayout.
   */
  method UnshiftAsWritten(arr: array?<Value>, element: array?<Value>) returns (r: Result<array?<Value>>)
    ensures arr == null ==> r == Ok(null)
    ensures arr != null && element == null ==> r == Ok(arr)
    ensures arr != null && element != null && arr.Length > element.Length ==>
      r == Throws(ArrayIndexOutOfBoundsException(arr.Length + element.Length))
    ensures arr != null && element != null && arr.Length <= element.Length ==>
      r.Ok? && r.value != null && fresh(r.value) && r.value[..] == UnshiftAsWrittenLayout(arr[..], element[..])
  {
    if arr == null {
      return Ok(null);
    }
    if element == null {
      return Ok(arr);
    }
    var length, elemtLength := arr.Length, element.Length;
    var tmp := new Value[length + elemtLength](_ => Null);
    // bulk copy of the new elements to the front
    forall j | 0 <= j < elemtLength {
      tmp[j] := element[j];
    }
    for i := 0 to length
      invariant length <= elemtLength || i <= elemtLength
      invariant forall k :: 0 <= k < tmp.Length ==>
        tmp[k] == if length <= k < length + i then arr[k - length] else if k < elemtLength then element[k] else Null
    {
      if length + i >= tmp.Length {
        // the JVM's bounds check on tmp[length + i]
        return Throws(ArrayIndexOutOfBoundsException(length + i));
      }
      tmp[length + i] := arr[i];
    }
    assert tmp[..] == UnshiftAsWrittenLayout(arr[..], element[..]);
    return Ok(tmp);
  }

  /**
   * The written loop gives the documented result (elements first, then the
   * array) when the two lengths are equal or the array is empty.
   */
  lemma UnshiftAsWrittenAgreesWhen(arr: seq<Value>, element: seq<Value>)
    requires |arr| == |element| || |arr| == 0
    ensures UnshiftAsWrittenLayout(arr, element) == element + arr
  {
    var r := UnshiftAsWrittenLayout(arr, element);
    assert forall k :: 0 <= k < |r| ==> r[k] == (element + arr)[k];
  }

  /**
   * When the array is non-empty and shorter than the element list, the
   * written loop leaves the last slot null where the documented result holds
   * the array's last element.
   */
  lemma UnshiftAsWrittenLosesLast(arr: seq<Value>, element: seq<Value>)
    requires 0 < |arr| < |element|
    ensures UnshiftAsWrittenLayout(arr, element)[|arr| + |element| - 1] == Null
    ensures (element + arr)[|arr| + |element| - 1] == arr[|arr| - 1]
    ensures arr[|arr| - 1].Ref? ==> UnshiftAsWrittenLayout(arr, element) != element + arr
  {
    var r := UnshiftAsWrittenLayout(arr, element);
    assert r[|arr| + |element| - 1] == Null;
  }

  /** unshift(["x"], "y", "z") builds [y, x, null] instead of [y, z, x]. */
  lemma UnshiftAsWrittenCounterexample(x: Value, y: Value, z: Value)
    requires x.Ref?
    ensures UnshiftAsWrittenLayout([x], [y, z]) == [y, x, Null]
    ensures UnshiftAsWrittenLayout([x], [y, z]) != [y, z] + [x]
  {
    var r := UnshiftAsWrittenLayout([x], [y, z]);
    assert r[2] == Null;
    assert ([y, z] + [x])[2] == x;
  }

  /**
   * unshift as documented: null for a null array, the array itself for a
   * null element list; otherwise a new array holding the new elements
   * followed by the array's elements.
   */
  method Unshift(arr: array?<Value>, element: array?<Value>) returns (r: array?<Value>)
    ensures arr == null ==> r == null
    ensures arr != null && element == null ==> r == arr
    ensures arr != null && element != null ==> r != null && fresh(r) && r[..] == element[..] + arr[..]
  {
    if arr == null {
      return null;
    }
    if element == null {
      return arr;
    }
    var length, elemtLength := arr.Length, element.Length;
    var tmp := new Value[length + elemtLength](_ => Null);
    // bulk copy of the new elements to the front
    forall j | 0 <= j < elemtLength {
      tmp[j] := element[j];
    }
    for i := 0 to length
      invariant tmp[..elemtLength] == element[..]
      invariant forall j :: 0 <= j < i ==> tmp[elemtLength + j] == arr[j]
    {
      tmp[elemtLength + i] := arr[i];
    }
    assert tmp[..] == element[..] + arr[..];
    return tmp;
  }

  /**
   * findIndex: -1 for a null array or a null element; otherwise the first
   * index whose element is Objects.equals to `element`, or -1 if none is.
   */
  method FindIndex(arr: array?<Value>, element: Value) returns (index: int)
    ensures arr == null || element.Null? ==> index == -1
    ensures arr != null ==> -1 <= index < arr.Length
    ensures arr != null && 0 <= index ==>
      ObjectsEquals(arr[index], element) && forall j :: 0 <= j < index ==> !ObjectsEquals(arr[j], element)
    ensures arr != null && element.Ref? && index == -1 ==>
      forall j :: 0 <= j < arr.Length ==> !ObjectsEquals(arr[j], element)
  {
    if arr == null {
      return -1;
    }
    if element.Null? {
      return -1;
    }
    for i := 0 to arr.Length
      invariant forall j :: 0 <= j < i ==> !ObjectsEquals(arr[j], element)
    {
      if ObjectsEquals(arr[i], element) {
        return i;
      }
    }
    return -1;
  }
}
