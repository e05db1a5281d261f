/**
 * The comparison record returned by ObjectUtil.diff and ObjectUtil.same:
 * a field name and the values read from the two compared objects. The
 * repository declares it twice with identical members (as a top-level class
 * and nested in ObjectUtil); this one class stands for both.
 */
module Resource {
  import opened JavaLang

  class Difference {
    var fieldName: Option<string>
    var a: Value
    var b: Value

    /** The no-argument constructor: every field keeps Java's default, null. */
    constructor Empty()
      ensures GetFieldName() == None && GetA() == Null && GetB() == Null
    {
      fieldName, a, b := None, Null, Null;
    }

    /** The three-argument constructor stores its arguments as given. */
    constructor (fieldName: Option<string>, a: Value, b: Value)
      ensures GetFieldName() == fieldName && GetA() == a && GetB() == b
    {
      this.fieldName, this.a, this.b := fieldName, a, b;
    }

    method SetFieldName(fieldName: Option<string>)
      modifies this
      ensures GetFieldName() == fieldName
      ensures GetA() == old(GetA()) && GetB() == old(GetB())
    {
      this.fieldName := fieldName;
    }

    /** setLeft takes a String, so only null or a string can be stored through it. */
    method SetLeft(a: Value)
      requires IsStringOrNull(a)
      modifies this
      ensures GetA() == a
      ensures GetFieldName() == old(GetFieldName()) && GetB() == old(GetB())
    {
      this.a := a;
    }

    /** setRight takes a String, so only null or a string can be stored through it. */
    method SetRight(b: Value)
      requires IsStringOrNull(b)
      modifies this
      ensures GetB() == b
      ensures GetFieldName() == old(GetFieldName()) && GetA() == old(GetA())
    {
      this.b := b;
    }

    function GetFieldName(): Option<string>
      reads this
    {
      fieldName
    }

    function GetA(): Value
      reads this
    {
      a
    }

    function GetB(): Value
      reads this
    {
      b
    }
  }
}
