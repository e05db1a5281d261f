/**
 * ObjectUtil: field-by-field comparison of two objects through reflection.
 *
 * Reflection is abstracted away: a non-null object is the simple name of its
 * runtime class and its declared fields in the order getDeclaredFields lists
 * them, each field with the outcome of reading it (None when the read throws
 * one of the exceptions the source catches). A null object is None.
 */
module ObjectUtil {
  import opened JavaLang
  import opened Resource

  datatype Field = Field(name: string, read: Option<Value>)

  datatype JObject = JObject(simpleName: string, fields: seq<Field>)

  /** What one Difference record holds: a field name and the two values read. */
  datatype FieldValues = FieldValues(name: string, left: Value, right: Value)

  // ---------------------------------------------------------------------------
  // Sequence helpers
  // ---------------------------------------------------------------------------

  /** `s` is obtained from `t` by deleting elements, keeping the order. */
  predicate IsSubsequence<T(==)>(s: seq<T>, t: seq<T>)
    decreases |t|
  {
    if t == [] then s == []
    else
      (s != [] && s[|s| - 1] == t[|t| - 1] && IsSubsequence(s[..|s| - 1], t[..|t| - 1]))
      || IsSubsequence(s, t[..|t| - 1])
  }

  /** The declared field names, in declaration order. */
  function DeclaredNames(fields: seq<Field>): (names: seq<string>)
    ensures |names| == |fields|
  {
    if fields == [] then [] else DeclaredNames(fields[..|fields| - 1]) + [fields[|fields| - 1].name]
  }

  /** The field names of a sequence of Difference records. */
  function EntryNames(entries: seq<FieldValues>): seq<string> {
    seq(|entries|, i requires 0 <= i < |entries| => entries[i].name)
  }

  // ---------------------------------------------------------------------------
  // Field listing (getFieldNames) and common fields (getSameFieldNames)
  // ---------------------------------------------------------------------------

  /** The names the regular expression `this\$0|serialVersionUID` matches as a whole. */
  predicate IsReserved(name: string) {
    name == "this$0" || name == "serialVersionUID"
  }

  /** A field name that survives the filter: not excluded by the caller and not reserved. */
  predicate Kept(name: string, excludes: seq<string>) {
    name !in excludes && !IsReserved(name)
  }

  /** getFieldNames on a non-null object: its declared names that are kept, in order. */
  function FieldNames(fields: seq<Field>, excludes: seq<string>): seq<string> {
    if fields == [] then []
    else
      var name := fields[|fields| - 1].name;
      FieldNames(fields[..|fields| - 1], excludes) + (if Kept(name, excludes) then [name] else [])
  }

  /** getFieldNames: throws NullPointerException (from getClass) on null. */
  function GetFieldNames(o: Option<JObject>, excludes: seq<string>): (r: Result<seq<string>>)
    ensures o.None? <==> r == Throws(NullPointerException(ArgumentObject))
    ensures o.Some? ==> r.Ok? && forall x :: x in r.value <==> x in DeclaredNames(o.value.fields) && Kept(x, excludes)
  {
    match o
    case None => Throws(NullPointerException(ArgumentObject))
    case Some(obj) =>
      assert forall x :: x in FieldNames(obj.fields, excludes) <==> x in DeclaredNames(obj.fields) && Kept(x, excludes) by {
        forall x ensures x in FieldNames(obj.fields, excludes) <==> x in DeclaredNames(obj.fields) && Kept(x, excludes) {
          FieldNamesCount(obj.fields, excludes, x);
        }
      }
      Ok(FieldNames(obj.fields, excludes))
  }

  /**
   * getFieldNames drops exactly the excluded and reserved names: every kept
   * name occurs as often as it is declared, every other name not at all.
   */
  lemma {:induction false} FieldNamesCount(fields: seq<Field>, excludes: seq<string>, x: string)
    ensures multiset(FieldNames(fields, excludes))[x] ==
              if Kept(x, excludes) then multiset(DeclaredNames(fields))[x] else 0
    ensures x in FieldNames(fields, excludes) <==> x in DeclaredNames(fields) && Kept(x, excludes)
  {
    if fields != [] {
      FieldNamesCount(fields[..|fields| - 1], excludes, x);
    }
  }

  /** Listing the fields of a concatenation lists each part in turn. */
  lemma {:induction false} FieldNamesAppend(f1: seq<Field>, f2: seq<Field>, excludes: seq<string>)
    ensures FieldNames(f1 + f2, excludes) == FieldNames(f1, excludes) + FieldNames(f2, excludes)
  {
    if f2 == [] {
      assert f1 + f2 == f1;
    } else {
      var init := f2[..|f2| - 1];
      FieldNamesAppend(f1, init, excludes);
      assert (f1 + f2)[..|f1 + f2| - 1] == f1 + init;
    }
  }

  /** getFieldNames keeps the declaration order. */
  lemma {:induction false} FieldNamesInOrder(fields: seq<Field>, excludes: seq<string>)
    ensures IsSubsequence(FieldNames(fields, excludes), DeclaredNames(fields))
  {
    if fields != [] {
      var init := fields[..|fields| - 1];
      FieldNamesInOrder(init, excludes);
      var s, t := FieldNames(fields, excludes), DeclaredNames(fields);
      assert t[..|t| - 1] == DeclaredNames(init);
      if Kept(fields[|fields| - 1].name, excludes) {
        assert s[..|s| - 1] == FieldNames(init, excludes);
      } else {
        assert s == FieldNames(init, excludes);
      }
    }
  }

  /** The list overload of getSameFieldNames: the names of `a` that occur in `b`, in `a`'s order. */
  function CommonNames(a: seq<string>, b: seq<string>): (names: seq<string>)
    ensures |names| <= |a|
    ensures forall x :: x in names <==> x in a && x in b
  {
    if a == [] then []
    else
      var name := a[|a| - 1];
      CommonNames(a[..|a| - 1], b) + (if name in b then [name] else [])
  }

  /** Every name of `a` that occurs in `b` is kept as often as in `a`; no other name appears. */
  lemma {:induction false} CommonNamesCount(a: seq<string>, b: seq<string>, x: string)
    ensures multiset(CommonNames(a, b))[x] == if x in b then multiset(a)[x] else 0
    ensures x in CommonNames(a, b) <==> x in a && x in b
  {
    if a != [] {
      CommonNamesCount(a[..|a| - 1], b, x);
      assert a == a[..|a| - 1] + [a[|a| - 1]];
    }
  }

  /** The common names of a concatenation are those of each part in turn. */
  lemma {:induction false} CommonNamesAppend(a1: seq<string>, a2: seq<string>, b: seq<string>)
    ensures CommonNames(a1 + a2, b) == CommonNames(a1, b) + CommonNames(a2, b)
  {
    if a2 == [] {
      assert a1 + a2 == a1;
    } else {
      var init := a2[..|a2| - 1];
      var last := a2[|a2| - 1];
      var kept := if last in b then [last] else [];
      var whole := a1 + a2;
      assert whole[..|whole| - 1] == a1 + init && whole[|whole| - 1] == last;
      assert CommonNames(whole, b) == CommonNames(a1 + init, b) + kept;
      assert CommonNames(a2, b) == CommonNames(init, b) + kept;
      CommonNamesAppend(a1, init, b);
    }
  }

  /** The common names follow `a`'s order. */
  lemma {:induction false} CommonNamesInOrder(a: seq<string>, b: seq<string>)
    ensures IsSubsequence(CommonNames(a, b), a)
  {
    if a != [] {
      var init := a[..|a| - 1];
      CommonNamesInOrder(init, b);
      var s := CommonNames(a, b);
      if a[|a| - 1] in b {
        assert s[..|s| - 1] == CommonNames(init, b);
      } else {
        assert s == CommonNames(init, b);
      }
    }
  }

  /** Swapping the arguments may change the order of the common names but not which they are. */
  lemma CommonNamesSymmetric(a: seq<string>, b: seq<string>, x: string)
    ensures x in CommonNames(a, b) <==> x in CommonNames(b, a)
  {
    CommonNamesCount(a, b, x);
    CommonNamesCount(b, a, x);
  }

  /** The comparison unit of two non-null objects: a's kept names that b also keeps. */
  function CommonFieldNames(a: JObject, b: JObject, excludes: seq<string>): seq<string> {
    CommonNames(FieldNames(a.fields, excludes), FieldNames(b.fields, excludes))
  }

  /** checkObjectNull: `a` is checked first, then `b`. */
  function CheckObjectNull(a: Option<JObject>, b: Option<JObject>): (r: Outcome)
    ensures r == Fail(NullPointerException(ArgumentA)) <==> a.None?
    ensures r == Fail(NullPointerException(ArgumentB)) <==> a.Some? && b.None?
    ensures r == Pass <==> a.Some? && b.Some?
  {
    if a.None? then Fail(NullPointerException(ArgumentA))
    else if b.None? then Fail(NullPointerException(ArgumentB))
    else Pass
  }

  /** The object overload of getSameFieldNames. */
  function GetSameFieldNames(a: Option<JObject>, b: Option<JObject>, excludes: seq<string>): (r: Result<seq<string>>)
    ensures CheckObjectNull(a, b).Fail? ==> r == Throws(CheckObjectNull(a, b).exception)
    ensures a.Some? && b.Some? ==> r.Ok? && forall x :: x in r.value <==>
      x in DeclaredNames(a.value.fields) && x in DeclaredNames(b.value.fields) && Kept(x, excludes)
  {
    match CheckObjectNull(a, b)
    case Fail(e) => Throws(e)
    case Pass =>
      var names := CommonFieldNames(a.value, b.value, excludes);
      assert forall x :: x in names <==>
          x in DeclaredNames(a.value.fields) && x in DeclaredNames(b.value.fields) && Kept(x, excludes) by {
        forall x ensures x in names <==>
            x in DeclaredNames(a.value.fields) && x in DeclaredNames(b.value.fields) && Kept(x, excludes) {
          FieldNamesCount(a.value.fields, excludes, x);
          FieldNamesCount(b.value.fields, excludes, x);
          CommonNamesCount(FieldNames(a.value.fields, excludes), FieldNames(b.value.fields, excludes), x);
        }
      }
      Ok(names)
  }

  // ---------------------------------------------------------------------------
  // Reading and classifying field values (diff, same, check)
  // ---------------------------------------------------------------------------

  /**
   * getDeclaredField(name) followed by get: the read outcome of the field of
   * that name, None when there is no such field (NoSuchFieldException) or the
   * read throws.
   */
  function ReadField(o: JObject, name: string): Option<Value> {
    ReadNamed(o.fields, name)
  }

  function ReadNamed(fields: seq<Field>, name: string): Option<Value> {
    if fields == [] then None
    else if fields[0].name == name then fields[0].read
    else ReadNamed(fields[1..], name)
  }

  /** Both reads of the field succeed, so the field takes part in the comparison. */
  predicate Readable(a: JObject, b: JObject, name: string) {
    ReadField(a, name).Some? && ReadField(b, name).Some?
  }

  /** A readable field whose two values are not Objects.equals. */
  predicate Differs(a: JObject, b: JObject, name: string) {
    Readable(a, b, name) && !ObjectsEquals(ReadField(a, name).value, ReadField(b, name).value)
  }

  /**
   * The records the comparison loop collects over `names`: diff collects the
   * readable fields whose values differ (wantEqual false), same those whose
   * values are equal (wantEqual true); unreadable fields are skipped.
   */
  function Collected(a: JObject, b: JObject, names: seq<string>, wantEqual: bool): seq<FieldValues>
    decreases |names|
  {
    if names == [] then []
    else Collected(a, b, names[..|names| - 1], wantEqual) + CollectedAt(a, b, names[|names| - 1], wantEqual)
  }

  /** A readable field whose values' Objects.equals is `wantEqual`: the loop records it. */
  predicate Wanted(a: JObject, b: JObject, name: string, wantEqual: bool) {
    Readable(a, b, name) && ObjectsEquals(ReadField(a, name).value, ReadField(b, name).value) == wantEqual
  }

  /** What one iteration of the loop appends for field `name`. */
  function CollectedAt(a: JObject, b: JObject, name: string, wantEqual: bool): seq<FieldValues> {
    if Wanted(a, b, name, wantEqual)
    then [FieldValues(name, ReadField(a, name).value, ReadField(b, name).value)]
    else []
  }

  /** The records diff(a, b, excludes) returns for non-null a and b. */
  function Differences(a: JObject, b: JObject, excludes: seq<string>): seq<FieldValues> {
    Collected(a, b, CommonFieldNames(a, b, excludes), false)
  }

  /** The records same(a, b, excludes) returns for non-null a and b. */
  function Matches(a: JObject, b: JObject, excludes: seq<string>): seq<FieldValues> {
    Collected(a, b, CommonFieldNames(a, b, excludes), true)
  }

  /** Comparing over a concatenation of names collects over each part in turn. */
  lemma {:induction false} CollectedAppend(a: JObject, b: JObject, n1: seq<string>, n2: seq<string>, wantEqual: bool)
    ensures Collected(a, b, n1 + n2, wantEqual) == Collected(a, b, n1, wantEqual) + Collected(a, b, n2, wantEqual)
  {
    if n2 == [] {
      assert n1 + n2 == n1;
    } else {
      var init := n2[..|n2| - 1];
      CollectedAppend(a, b, n1, init, wantEqual);
      assert (n1 + n2)[..|n1 + n2| - 1] == n1 + init;
    }
  }

  /**
   * A record is collected exactly when its field is among `names`, both reads
   * succeed with the recorded values, and the values' equality is the one
   * wanted.
   */
  lemma {:induction false} CollectedMember(a: JObject, b: JObject, names: seq<string>, wantEqual: bool, e: FieldValues)
    ensures e in Collected(a, b, names, wantEqual) <==>
      e.name in names && ReadField(a, e.name) == Some(e.left) && ReadField(b, e.name) == Some(e.right) &&
      ObjectsEquals(e.left, e.right) == wantEqual
  {
    if names != [] {
      var init := names[..|names| - 1];
      CollectedMember(a, b, init, wantEqual, e);
      assert names == init + [names[|names| - 1]];
    }
  }

  /** The records follow the order of `names`. */
  lemma {:induction false} CollectedInOrder(a: JObject, b: JObject, names: seq<string>, wantEqual: bool)
    ensures IsSubsequence(EntryNames(Collected(a, b, names, wantEqual)), names)
  {
    if names != [] {
      var init := names[..|names| - 1];
      CollectedInOrder(a, b, init, wantEqual);
      var s := EntryNames(Collected(a, b, names, wantEqual));
      var prev := Collected(a, b, init, wantEqual);
      if CollectedAt(a, b, names[|names| - 1], wantEqual) == [] {
        assert Collected(a, b, names, wantEqual) == prev;
      } else {
        var c := Collected(a, b, names, wantEqual);
        assert c[..|c| - 1] == prev;
        assert s[..|s| - 1] == EntryNames(prev);
      }
    }
  }

  /** The names of a record sequence followed by one more record. */
  lemma EntryNamesSnoc(entries: seq<FieldValues>, more: seq<FieldValues>)
    requires |more| <= 1
    ensures EntryNames(entries + more) == EntryNames(entries) + EntryNames(more)
  {
    if more != [] {
      assert (entries + more)[..|entries + more| - 1] == entries;
      assert more[..0] == [];
    } else {
      assert entries + more == entries;
    }
  }

  /**
   * A name is collected as often as it is listed when it is readable and its
   * values' equality is the one wanted, and otherwise not at all.
   */
  lemma {:induction false} CollectedCount(a: JObject, b: JObject, names: seq<string>, wantEqual: bool, x: string)
    ensures multiset(EntryNames(Collected(a, b, names, wantEqual)))[x] ==
      if Wanted(a, b, x, wantEqual) then multiset(names)[x] else 0
  {
    if names != [] {
      var init, n := names[..|names| - 1], names[|names| - 1];
      CollectedCount(a, b, init, wantEqual, x);
      var done := Collected(a, b, init, wantEqual);
      assert Collected(a, b, names, wantEqual) == done + CollectedAt(a, b, n, wantEqual);
      CollectedAtCount(a, b, done, n, wantEqual, x);
      assert names == init + [n];
      assert multiset(names) == multiset(init) + multiset{n};
    }
  }

  /** One loop iteration adds one occurrence of `n` when it records `n`, none otherwise. */
  lemma CollectedAtCount(a: JObject, b: JObject, done: seq<FieldValues>, n: string, wantEqual: bool, x: string)
    ensures multiset(EntryNames(done + CollectedAt(a, b, n, wantEqual)))[x] ==
      multiset(EntryNames(done))[x] + if Wanted(a, b, n, wantEqual) && n == x then 1 else 0
  {
    var at := CollectedAt(a, b, n, wantEqual);
    EntryNamesSnoc(done, at);
    if Wanted(a, b, n, wantEqual) {
      assert EntryNames(at) == [n];
    } else {
      assert EntryNames(at) == [];
    }
  }

  /**
   * diff and same partition the readable fields among `names`: each readable
   * field is reported by exactly one of them (as often as it is listed), an
   * unreadable one by neither.
   */
  lemma DiffSamePartition(a: JObject, b: JObject, names: seq<string>, x: string)
    ensures multiset(EntryNames(Collected(a, b, names, false)))[x] +
            multiset(EntryNames(Collected(a, b, names, true)))[x] ==
            if Readable(a, b, x) then multiset(names)[x] else 0
  {
    CollectedCount(a, b, names, false, x);
    CollectedCount(a, b, names, true, x);
  }

  /** Some record is collected by diff exactly when some listed field differs. */
  lemma {:induction false} DiffNonEmptyIff(a: JObject, b: JObject, names: seq<string>)
    ensures Collected(a, b, names, false) != [] <==> exists n :: n in names && Differs(a, b, n)
  {
    if names != [] {
      var init, last := names[..|names| - 1], names[|names| - 1];
      DiffNonEmptyIff(a, b, init);
      assert names == init + [last];
      if Differs(a, b, last) {
        assert last in names;
      } else {
        assert Collected(a, b, names, false) == Collected(a, b, init, false);
        if exists n :: n in names && Differs(a, b, n) {
          var n :| n in names && Differs(a, b, n);
          assert n in init;
        }
      }
    }
  }

  /** An object compared with itself has no differences. */
  lemma {:induction false} NoDifferencesWithItself(o: JObject, names: seq<string>)
    ensures Collected(o, o, names, false) == []
  {
    if names != [] {
      NoDifferencesWithItself(o, names[..|names| - 1]);
      var n := names[|names| - 1];
      if ReadField(o, n).Some? {
        ObjectsEqualsReflexiveSymmetric(ReadField(o, n).value, ReadField(o, n).value);
      }
    }
  }

  /**
   * Neither diff nor same ever reports an excluded or reserved name, and every
   * reported name is a declared field of both objects.
   */
  lemma ResultsRespectExclusions(a: JObject, b: JObject, excludes: seq<string>, wantEqual: bool, e: FieldValues)
    requires e in Collected(a, b, CommonFieldNames(a, b, excludes), wantEqual)
    ensures e.name !in excludes && !IsReserved(e.name)
    ensures e.name in DeclaredNames(a.fields) && e.name in DeclaredNames(b.fields)
  {
    var fa, fb := FieldNames(a.fields, excludes), FieldNames(b.fields, excludes);
    CollectedMember(a, b, CommonFieldNames(a, b, excludes), wantEqual, e);
    CommonNamesCount(fa, fb, e.name);
    FieldNamesCount(a.fields, excludes, e.name);
    FieldNamesCount(b.fields, excludes, e.name);
  }

  /**
   * check(a, b) and check(b, a) agree: the comparison unit is symmetric, and
   * so is Objects.equals for every equals method the model expresses
   * (ObjectsEqualsReflexiveSymmetric); an asymmetric user-written equals would
   * break this.
   */
  lemma CheckSymmetric(a: JObject, b: JObject, excludes: seq<string>)
    ensures (Differences(a, b, excludes) != []) == (Differences(b, a, excludes) != [])
  {
    var ab, ba := CommonFieldNames(a, b, excludes), CommonFieldNames(b, a, excludes);
    DiffNonEmptyIff(a, b, ab);
    DiffNonEmptyIff(b, a, ba);
    forall n | n in ab && Differs(a, b, n) ensures n in ba && Differs(b, a, n) {
      CommonNamesSymmetric(FieldNames(a.fields, excludes), FieldNames(b.fields, excludes), n);
      ObjectsEqualsReflexiveSymmetric(ReadField(a, n).value, ReadField(b, n).value);
    }
    forall n | n in ba && Differs(b, a, n) ensures n in ab && Differs(a, b, n) {
      CommonNamesSymmetric(FieldNames(a.fields, excludes), FieldNames(b.fields, excludes), n);
      ObjectsEqualsReflexiveSymmetric(ReadField(a, n).value, ReadField(b, n).value);
    }
  }

  /** The Difference objects `ds` hold exactly the records `es`, in order. */
  predicate Reports(ds: seq<Difference>, es: seq<FieldValues>)
    reads ds
  {
    |ds| == |es| &&
    forall i :: 0 <= i < |ds| ==>
      ds[i].fieldName == Some(es[i].name) && ds[i].a == es[i].left && ds[i].b == es[i].right
  }

  /**
   * diff: NullPointerException for a null `a` (checked first) or `b`;
   * otherwise one new Difference per readable common field whose values
   * differ, in the order of the common fields.
   */
  method Diff(a: Option<JObject>, b: Option<JObject>, excludes: seq<string>) returns (r: Result<seq<Difference>>)
    ensures a.None? ==> r == Throws(NullPointerException(ArgumentA))
    ensures a.Some? && b.None? ==> r == Throws(NullPointerException(ArgumentB))
    ensures a.Some? && b.Some? ==> r.Ok? && Reports(r.value, Differences(a.value, b.value, excludes))
    ensures r.Ok? ==> forall d | d in r.value :: fresh(d)
  {
    var diffList: seq<Difference> := [];
    var check := CheckObjectNull(a, b);
    if check.Fail? {
      return Throws(check.exception);
    }
    var sameField := GetSameFieldNames(a, b, excludes).value;
    for i := 0 to |sameField|
      invariant Reports(diffList, Collected(a.value, b.value, sameField[..i], false))
      invariant forall d | d in diffList :: fresh(d)
    {
      var name := sameField[i];
      var paramA, paramB := ReadField(a.value, name), ReadField(b.value, name);
      if paramA.Some? && paramB.Some? {
        if !ObjectsEquals(paramA.value, paramB.value) {
          var e := new Difference(Some(name), paramA.value, paramB.value);
          diffList := diffList + [e];
        }
      }
      assert sameField[..i + 1][..i] == sameField[..i];
    }
    assert sameField[..|sameField|] == sameField;
    return Ok(diffList);
  }

  /**
   * check: NullPointerException for a null `a` or `b`; otherwise true exactly
   * when diff would report something, returning at the first difference.
   */
  method Check(a: Option<JObject>, b: Option<JObject>, excludes: seq<string>) returns (r: Result<bool>)
    ensures a.None? ==> r == Throws(NullPointerException(ArgumentA))
    ensures a.Some? && b.None? ==> r == Throws(NullPointerException(ArgumentB))
    ensures a.Some? && b.Some? ==> r == Ok(Differences(a.value, b.value, excludes) != [])
  {
    var check := CheckObjectNull(a, b);
    if check.Fail? {
      return Throws(check.exception);
    }
    var sameField := GetSameFieldNames(a, b, excludes).value;
    for i := 0 to |sameField|
      invariant Collected(a.value, b.value, sameField[..i], false) == []
    {
      var name := sameField[i];
      var paramA, paramB := ReadField(a.value, name), ReadField(b.value, name);
      if paramA.Some? && paramB.Some? {
        if !ObjectsEquals(paramA.value, paramB.value) {
          CollectedMember(a.value, b.value, sameField, false, FieldValues(name, paramA.value, paramB.value));
          return Ok(true);
        }
      }
      assert sameField[..i + 1][..i] == sameField[..i];
    }
    assert sameField[..|sameField|] == sameField;
    return Ok(false);
  }

  /**
   * same: NullPointerException for a null `a` or `b`; otherwise one new
   * Difference per readable common field whose values are equal, in order.
   */
  method Same(a: Option<JObject>, b: Option<JObject>, excludes: seq<string>) returns (r: Result<seq<Difference>>)
    ensures a.None? ==> r == Throws(NullPointerException(ArgumentA))
    ensures a.Some? && b.None? ==> r == Throws(NullPointerException(ArgumentB))
    ensures a.Some? && b.Some? ==> r.Ok? && Reports(r.value, Matches(a.value, b.value, excludes))
    ensures r.Ok? ==> forall d | d in r.value :: fresh(d)
  {
    var check := CheckObjectNull(a, b);
    if check.Fail? {
      return Throws(check.exception);
    }
    var sameField: seq<Difference> := [];
    var fieldNames := GetSameFieldNames(a, b, excludes).value;
    for i := 0 to |fieldNames|
      invariant Reports(sameField, Collected(a.value, b.value, fieldNames[..i], true))
      invariant forall d | d in sameField :: fresh(d)
    {
      var name := fieldNames[i];
      var paramA, paramB := ReadField(a.value, name), ReadField(b.value, name);
      if paramA.Some? && paramB.Some? {
        if ObjectsEquals(paramA.value, paramB.value) {
          var e := new Difference(Some(name), paramA.value, paramB.value);
          sameField := sameField + [e];
        }
      }
      assert fieldNames[..i + 1][..i] == fieldNames[..i];
    }
    assert fieldNames[..|fieldNames|] == fieldNames;
    return Ok(sameField);
  }

  // ---------------------------------------------------------------------------
  // Single-object dump (toMap, toString)
  // ---------------------------------------------------------------------------

  /** The HashMap toMap fills: each readable, kept field's name mapped to its value. */
  function FieldMap(fields: seq<Field>, excludes: seq<string>): map<string, Value> {
    if fields == [] then map[]
    else
      var m := FieldMap(fields[..|fields| - 1], excludes);
      var f := fields[|fields| - 1];
      if f.read.Some? && Kept(f.name, excludes) then m[f.name := f.read.value] else m
  }

  /**
   * A name is a key of toMap's result exactly when it is kept and some field
   * of that name is readable, and it maps to a value read from such a field.
   */
  lemma {:induction false} FieldMapKeys(fields: seq<Field>, excludes: seq<string>, k: string)
    ensures k in FieldMap(fields, excludes) <==>
      Kept(k, excludes) && exists i :: 0 <= i < |fields| && fields[i].name == k && fields[i].read.Some?
    ensures k in FieldMap(fields, excludes) ==>
      exists i :: 0 <= i < |fields| && fields[i].name == k && fields[i].read == Some(FieldMap(fields, excludes)[k])
  {
    if fields != [] {
      var init := fields[..|fields| - 1];
      FieldMapKeys(init, excludes, k);
      var m := FieldMap(fields, excludes);
      var last := |fields| - 1;
      if k in FieldMap(init, excludes) && (k != fields[last].name || !(fields[last].read.Some? && Kept(k, excludes))) {
        var i :| 0 <= i < |init| && init[i].name == k && init[i].read == Some(FieldMap(init, excludes)[k]);
        assert fields[i] == init[i];
      }
      if Kept(k, excludes) && (exists i :: 0 <= i < |fields| && fields[i].name == k && fields[i].read.Some?) {
        var i :| 0 <= i < |fields| && fields[i].name == k && fields[i].read.Some?;
        if i < last {
          assert init[i] == fields[i];
        }
      }
    }
  }

  /** toMap: NullPointerException (from getClass) on null; otherwise the field map. */
  method ToMap(o: Option<JObject>, excludes: seq<string>) returns (r: Result<map<string, Value>>)
    ensures o.None? ==> r == Throws(NullPointerException(ArgumentObject))
    ensures o.Some? ==> r == Ok(FieldMap(o.value.fields, excludes))
  {
    if o.None? {
      return Throws(NullPointerException(ArgumentObject));
    }
    var fieldNames: map<string, Value> := map[];
    var fields := o.value.fields;
    for i := 0 to |fields|
      invariant fieldNames == FieldMap(fields[..i], excludes)
    {
      var field := fields[i];
      if field.read.Some? {
        var name, param := field.name, field.read.value;
        if Kept(name, excludes) {
          fieldNames := fieldNames[name := param];
        }
      }
      assert fields[..i + 1][..i] == fields[..i];
    }
    assert fields[..|fields|] == fields;
    return Ok(fieldNames);
  }

  /** toMap(object): the overload without exclusions filters only the reserved names. */
  method ToMapAll(o: Option<JObject>) returns (r: Result<map<string, Value>>)
    ensures o.None? ==> r == Throws(NullPointerException(ArgumentObject))
    ensures o.Some? ==> r == Ok(FieldMap(o.value.fields, []))
  {
    r := ToMap(o, []);
  }

  /** `order` lists every key of the map once: one possible HashMap iteration order. */
  ghost predicate Enumerates(order: seq<string>, keys: set<string>) {
    (forall k :: k in order <==> k in keys) &&
    forall i, j :: 0 <= i < j < |order| ==> order[i] != order[j]
  }

  /** One `key=value` entry, the value as String.valueOf renders it. */
  function Entry(k: string, m: map<string, Value>): string
    requires k in m
  {
    k + "=" + ValueOf(m[k])
  }

  /** The entries of `order` joined by ", ". */
  function Joined(order: seq<string>, m: map<string, Value>): string
    requires forall k :: k in order ==> k in m
  {
    if order == [] then ""
    else if |order| == 1 then Entry(order[0], m)
    else Joined(order[..|order| - 1], m) + ", " + Entry(order[|order| - 1], m)
  }

  /** What the loop appends to the buffer: every entry followed by ", ". */
  function Buffered(order: seq<string>, m: map<string, Value>): string
    requires forall k :: k in order ==> k in m
  {
    if order == [] then ""
    else Buffered(order[..|order| - 1], m) + Entry(order[|order| - 1], m) + ", "
  }

  /** Java's `\s`: space, tab, line feed, vertical tab, form feed, carriage return. */
  predicate IsRegexSpace(c: char) {
    c == ' ' || c == '\t' || c == '\n' || c == '\U{000B}' || c == '\U{000C}' || c == '\r'
  }

  /** `replaceAll(",\\s$", "")` on a string that ends with ", " or with "[". */
  function TrimTrailingSeparator(s: string): string {
    if |s| >= 2 && s[|s| - 2] == ',' && IsRegexSpace(s[|s| - 1]) then s[..|s| - 2] else s
  }

  /** Trimming the loop's buffer leaves the entries joined by ", ". */
  lemma {:induction false} TrimBuffered(prefix: string, order: seq<string>, m: map<string, Value>)
    requires forall k :: k in order ==> k in m
    requires |prefix| > 0 && prefix[|prefix| - 1] == '['
    ensures TrimTrailingSeparator(prefix + Buffered(order, m)) == prefix + Joined(order, m)
  {
    if order != [] {
      BufferedIsJoined(order, m);
      assert prefix + Buffered(order, m) == (prefix + Joined(order, m)) + ", ";
    }
  }

  lemma {:induction false} BufferedIsJoined(order: seq<string>, m: map<string, Value>)
    requires forall k :: k in order ==> k in m
    requires order != []
    ensures Buffered(order, m) == Joined(order, m) + ", "
  {
    if |order| > 1 {
      BufferedIsJoined(order[..|order| - 1], m);
    } else {
      assert order[..0] == [];
    }
  }

  /**
   * toString: NullPointerException on null; otherwise the simple class name,
   * "[", the `key=value` entries of toMap's result joined by ", " in the map's
   * iteration order (unspecified, so some enumeration of its keys), and "]".
   */
  method ToString(o: Option<JObject>, excludes: seq<string>) returns (r: Result<string>)
    ensures o.None? ==> r == Throws(NullPointerException(ArgumentObject))
    ensures o.Some? ==> (r.Ok? &&
      var m := FieldMap(o.value.fields, excludes);
      exists order :: Enumerates(order, m.Keys) && r.value == o.value.simpleName + "[" + Joined(order, m) + "]")
    ensures o.Some? && FieldMap(o.value.fields, excludes) == map[] ==> r == Ok(o.value.simpleName + "[]")
  {
    if o.None? {
      return Throws(NullPointerException(ArgumentObject));
    }
    var fieldMap := ToMap(o, excludes);
    var m := fieldMap.value;
    var buffer := o.value.simpleName + "[";
    var remaining := m.Keys;
    ghost var order: seq<string> := [];
    while remaining != {}
      invariant remaining <= m.Keys
      invariant Enumerates(order, m.Keys - remaining)
      invariant buffer == o.value.simpleName + "[" + Buffered(order, m)
      decreases remaining
    {
      var k :| k in remaining;
      var str := k + "=" + ValueOf(m[k]);
      buffer := buffer + str + ", ";
      remaining := remaining - {k};
      assert (order + [k])[..|order|] == order;
      order := order + [k];
    }
    var result := TrimTrailingSeparator(buffer);
    TrimBuffered(o.value.simpleName + "[", order, m);
    if m == map[] {
      assert order == [];
      assert result + "]" == o.value.simpleName + "[]";
    }
    return Ok(result + "]");
  }

  /** toString(object): the overload without exclusions. */
  method ToStringAll(o: Option<JObject>) returns (r: Result<string>)
    ensures o.None? ==> r == Throws(NullPointerException(ArgumentObject))
    ensures o.Some? ==> (r.Ok? &&
      var m := FieldMap(o.value.fields, []);
      exists order :: Enumerates(order, m.Keys) && r.value == o.value.simpleName + "[" + Joined(order, m) + "]")
  {
    r := ToString(o, []);
  }
}
