/**
 * The small part of the Java runtime that the utilities rely on: nullable
 * references, the exceptions they throw, and the two library operations on
 * arbitrary objects they call, Objects.equals and String.valueOf.
 */
module JavaLang {

  /** A nullable reference (None is Java's null) or an optional outcome. */
  datatype Option<+T> = None | Some(value: T)

  /** The exceptions the modelled code lets escape to its caller. */
  datatype JavaException =
    | NullPointerException(argument: Argument)
    | DateTimeParseException(text: string)
    | DateTimeException
    | ArrayIndexOutOfBoundsException(index: int)

  /** Which parameter was null: `a`, `b`, or the single `object` parameter. */
  datatype Argument = ArgumentA | ArgumentB | ArgumentObject

  /** The outcome of a Java call: a returned value or a thrown exception. */
  datatype Result<+T> = Ok(value: T) | Throws(exception: JavaException)

  /** The outcome of a call that returns nothing (void) or throws. */
  datatype Outcome = Pass | Fail(exception: JavaException)

  /**
   * How the equals method of an object's class decides. `Identity` is the
   * default Object.equals: the same object and no other. `ByState(key)`
   * compares a key the class derives from the object's state. Equal objects
   * of different classes share a key, as List, Set and Map implementations
   * allow (an ArrayList and a LinkedList holding the same elements are
   * equal). A class whose equals checks the other's class puts that class
   * in the key.
   */
  datatype Equality = Identity | ByState(key: string)

  /**
   * A Java reference as the utilities see it: null, or an object at some
   * address with a runtime class, the text its toString() produces, and the
   * way its class's equals decides.
   */
  datatype Value = Null | Ref(address: nat, className: string, text: string, equality: Equality)

  const StringClass: string := "java.lang.String"

  /** A value a parameter of static type String can hold. */
  predicate IsStringOrNull(v: Value) {
    v.Null? || v.className == StringClass
  }

  /** Java's `x == y` on references: both null, or the same object. */
  predicate SameReference(x: Value, y: Value) {
    (x.Null? && y.Null?) || (x.Ref? && y.Ref? && x.address == y.address)
  }

  /** `x.equals(y)` for a non-null receiver, as the receiver's class decides. */
  predicate EqualsMethod(x: Value, y: Value)
    requires x.Ref?
  {
    match x.equality
    case Identity => SameReference(x, y)
    case ByState(key) => y.Ref? && y.equality == ByState(key)
  }

  /** java.util.Objects.equals: `(x == y) || (x != null && x.equals(y))`. */
  predicate ObjectsEquals(x: Value, y: Value) {
    SameReference(x, y) || (x.Ref? && EqualsMethod(x, y))
  }

  /**
   * What Objects.equals decides: null equals only null; the same object
   * equals itself; an object of a class without its own equals equals no
   * other object, whatever its text; two distinct objects whose classes
   * compare state are equal exactly when their keys agree, whatever their
   * classes and texts.
   */
  lemma ObjectsEqualsMeaning(x: Value, y: Value)
    ensures x.Null? ==> (ObjectsEquals(x, y) <==> y.Null?)
    ensures SameReference(x, y) ==> ObjectsEquals(x, y)
    ensures x.Ref? && x.equality.Identity? ==> (ObjectsEquals(x, y) <==> SameReference(x, y))
    ensures x.Ref? && y.Ref? && !SameReference(x, y) && x.equality.ByState? ==>
      (ObjectsEquals(x, y) <==> y.equality == x.equality)
  {
  }

  /** Two distinct objects with the same class and text but the default equals are not equal. */
  lemma IdentityIgnoresText(x: Value, y: Value)
    requires x.Ref? && y.Ref? && x.address != y.address
    requires x.equality == Identity
    ensures !ObjectsEquals(x, y) && !ObjectsEquals(y, x)
  {
  }

  /**
   * Objects.equals is reflexive and symmetric for every pair of values the
   * model expresses: an equals method that breaks its own symmetry contract
   * has no counterpart here.
   */
  lemma ObjectsEqualsReflexiveSymmetric(x: Value, y: Value)
    ensures ObjectsEquals(x, x)
    ensures ObjectsEquals(x, y) == ObjectsEquals(y, x)
  {
  }

  /**
   * In a real heap an address names one object: two references with the
   * same address are the same value. The datatype does not enforce this;
   * values built to stand for one heap satisfy it pairwise.
   */
  predicate OneObjectPerAddress(x: Value, y: Value) {
    x.Ref? && y.Ref? && x.address == y.address ==> x == y
  }

  /** Among values that respect the heap, Objects.equals is also transitive. */
  lemma ObjectsEqualsTransitive(x: Value, y: Value, z: Value)
    requires OneObjectPerAddress(x, y) && OneObjectPerAddress(y, z)
    requires ObjectsEquals(x, y) && ObjectsEquals(y, z)
    ensures ObjectsEquals(x, z)
  {
  }

  /** String.valueOf(Object), the text string concatenation uses: "null" for null. */
  function ValueOf(v: Value): string {
    match v
    case Null => "null"
    case Ref(_, _, text, _) => text
  }
}
