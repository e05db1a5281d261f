/**
 * The objects of the repository's ObjectUtil test, as reflection lists them:
 * the static serialVersionUID, the declared fields, and the synthetic this$0
 * that an inner class holds, and the results the comparison gives on them.
 */
module ObjectUtilExamples {
  import opened JavaLang
  import opened ObjectUtil

  const Outer: Value :=
    Ref(1, "com.gn5r.common.utils.ObjectUtilTest", "com.gn5r.common.utils.ObjectUtilTest@1b6d3586", Identity)
  const SerialVersion: Value := Ref(2, "java.lang.Long", "1", ByState("java.lang.Long 1"))
  const One: Value := Ref(3, "java.lang.Integer", "1", ByState("java.lang.Integer 1"))
  const Twenty: Value := Ref(4, "java.lang.Integer", "20", ByState("java.lang.Integer 20"))
  const TwentyFour: Value := Ref(5, "java.lang.Integer", "24", ByState("java.lang.Integer 24"))
  const Gn5r: Value := Ref(6, StringClass, "gn5r", ByState("java.lang.String gn5r"))
  const Gn5rCopy: Value := Ref(7, StringClass, "gn5r", ByState("java.lang.String gn5r"))
  const Shangyuan: Value := Ref(8, StringClass, "shangyuan", ByState("java.lang.String shangyuan"))
  const Male: Value := Ref(9, StringClass, "男", ByState("java.lang.String 男"))

  /** Lists of different classes holding the same element: List.equals makes them equal. */
  const ArrayListOfOne: Value := Ref(10, "java.util.ArrayList", "[1]", ByState("java.util.List [1]"))
  const LinkedListOfOne: Value := Ref(11, "java.util.LinkedList", "[1]", ByState("java.util.List [1]"))

  /** Two instances of a class that overrides toString but keeps Object.equals. */
  const Tag: Value := Ref(12, "com.example.Tag", "tag", Identity)
  const TagCopy: Value := Ref(13, "com.example.Tag", "tag", Identity)

  /** Three declared fields as javac lists them: the static field first, this$0 last. */
  function Declared(n0: string, v0: Value, n1: string, v1: Value, n2: string, v2: Value): seq<Field> {
    [Field("serialVersionUID", Some(SerialVersion)), Field(n0, Some(v0)), Field(n1, Some(v1)),
     Field(n2, Some(v2)), Field("this$0", Some(Outer))]
  }

  function User(id: Value, age: Value, name: Value): JObject {
    JObject("User", Declared("id", id, "age", age, "name", name))
  }

  function Account(id: Value, codeName: Value, sex: Value): JObject {
    JObject("Account", Declared("id", id, "codeName", codeName, "sex", sex))
  }

  /** The reserved names are filtered out; the three declared names remain in order. */
  lemma ThreeFieldNames(n0: string, v0: Value, n1: string, v1: Value, n2: string, v2: Value)
    requires !IsReserved(n0) && !IsReserved(n1) && !IsReserved(n2)
    ensures FieldNames(Declared(n0, v0, n1, v1, n2, v2), []) == [n0, n1, n2]
  {
    var f := Declared(n0, v0, n1, v1, n2, v2);
    assert f == [f[0]] + [f[1]] + [f[2]] + [f[3]] + [f[4]];
    FieldNamesAppend([f[0]] + [f[1]] + [f[2]] + [f[3]], [f[4]], []);
    FieldNamesAppend([f[0]] + [f[1]] + [f[2]], [f[3]], []);
    FieldNamesAppend([f[0]] + [f[1]], [f[2]], []);
    FieldNamesAppend([f[0]], [f[1]], []);
    forall k | 0 <= k < 5 ensures FieldNames([f[k]], []) == if Kept(f[k].name, []) then [f[k].name] else [] {
      assert [f[k]][..0] == [];
    }
  }

  /** Reading the three declared fields by name gives their values. */
  lemma ThreeReads(n0: string, v0: Value, n1: string, v1: Value, n2: string, v2: Value)
    requires !IsReserved(n0) && !IsReserved(n1) && !IsReserved(n2)
    requires n0 != n1 && n0 != n2 && n1 != n2
    ensures ReadNamed(Declared(n0, v0, n1, v1, n2, v2), n0) == Some(v0)
    ensures ReadNamed(Declared(n0, v0, n1, v1, n2, v2), n1) == Some(v1)
    ensures ReadNamed(Declared(n0, v0, n1, v1, n2, v2), n2) == Some(v2)
  {
    var f := Declared(n0, v0, n1, v1, n2, v2);
    assert f[1..] == [f[1], f[2], f[3], f[4]];
    assert f[1..][1..] == [f[2], f[3], f[4]];
    assert f[1..][1..][1..] == [f[3], f[4]];
    assert ReadNamed(f, n1) == ReadNamed(f[1..], n1) == ReadNamed(f[1..][1..], n1);
    assert ReadNamed(f, n2) == ReadNamed(f[1..], n2) == ReadNamed(f[1..][1..], n2);
    assert ReadNamed(f[1..][1..], n2) == ReadNamed(f[1..][1..][1..], n2);
  }

  /** The common names of a one-element list. */
  lemma CommonNamesOfOne(x: string, b: seq<string>)
    ensures CommonNames([x], b) == if x in b then [x] else []
  {
    assert [x][..0] == [];
  }

  /** The common names of two three-element lists. */
  lemma CommonNamesOfThree(a: seq<string>, b: seq<string>)
    requires |a| == 3
    ensures CommonNames(a, b) ==
      (if a[0] in b then [a[0]] else []) + (if a[1] in b then [a[1]] else []) + (if a[2] in b then [a[2]] else [])
  {
    assert a == [a[0]] + [a[1]] + [a[2]];
    CommonNamesAppend([a[0]] + [a[1]], [a[2]], b);
    CommonNamesAppend([a[0]], [a[1]], b);
    CommonNamesOfOne(a[0], b);
    CommonNamesOfOne(a[1], b);
    CommonNamesOfOne(a[2], b);
  }

  /** Collecting over three names collects over each in turn. */
  lemma CollectedOfThree(a: JObject, b: JObject, names: seq<string>, wantEqual: bool)
    requires |names| == 3
    ensures Collected(a, b, names, wantEqual) ==
      CollectedAt(a, b, names[0], wantEqual) + CollectedAt(a, b, names[1], wantEqual) +
      CollectedAt(a, b, names[2], wantEqual)
  {
    assert names == [names[0]] + [names[1]] + [names[2]];
    CollectedAppend(a, b, [names[0]] + [names[1]], [names[2]], wantEqual);
    CollectedAppend(a, b, [names[0]], [names[1]], wantEqual);
    forall k | 0 <= k < 3 ensures Collected(a, b, [names[k]], wantEqual) == CollectedAt(a, b, names[k], wantEqual) {
      assert [names[k]][..0] == [];
    }
  }

  /** The comparison unit of two users: their three declared names. */
  lemma UsersCommonFieldNames(id: Value, age: Value, name: Value, id': Value, age': Value, name': Value)
    ensures CommonFieldNames(User(id, age, name), User(id', age', name'), []) == ["id", "age", "name"]
  {
    var names := ["id", "age", "name"];
    ThreeFieldNames("id", id, "age", age, "name", name);
    ThreeFieldNames("id", id', "age", age', "name", name');
    CommonNamesOfThree(names, names);
  }

  /**
   * Two users differing only in age: diff reports age alone, and the
   * reserved names are not compared.
   */
  lemma UsersDiffer()
    ensures Differences(User(One, Twenty, Gn5r), User(One, TwentyFour, Gn5rCopy), []) ==
            [FieldValues("age", Twenty, TwentyFour)]
  {
    var a, b := User(One, Twenty, Gn5r), User(One, TwentyFour, Gn5rCopy);
    UsersCommonFieldNames(One, Twenty, Gn5r, One, TwentyFour, Gn5rCopy);
    ThreeReads("id", One, "age", Twenty, "name", Gn5r);
    ThreeReads("id", One, "age", TwentyFour, "name", Gn5rCopy);
    CollectedOfThree(a, b, ["id", "age", "name"], false);
  }

  /**
   * The same two users: same reports id and name, whose strings are equal
   * though they are distinct objects.
   */
  lemma UsersMatch()
    ensures Matches(User(One, Twenty, Gn5r), User(One, TwentyFour, Gn5rCopy), []) ==
            [FieldValues("id", One, One), FieldValues("name", Gn5r, Gn5rCopy)]
  {
    var a, b := User(One, Twenty, Gn5r), User(One, TwentyFour, Gn5rCopy);
    UsersCommonFieldNames(One, Twenty, Gn5r, One, TwentyFour, Gn5rCopy);
    ThreeReads("id", One, "age", Twenty, "name", Gn5r);
    ThreeReads("id", One, "age", TwentyFour, "name", Gn5rCopy);
    CollectedOfThree(a, b, ["id", "age", "name"], true);
  }

  /**
   * A user and an account share only the field name id (the reserved names
   * are filtered out of both), and their ids are equal: no difference.
   */
  lemma UserAndAccountCompared()
    ensures CommonFieldNames(User(One, Twenty, Gn5r), Account(One, Shangyuan, Male), []) == ["id"]
    ensures Differences(User(One, Twenty, Gn5r), Account(One, Shangyuan, Male), []) == []
  {
    var a, c := User(One, Twenty, Gn5r), Account(One, Shangyuan, Male);
    ThreeFieldNames("id", One, "age", Twenty, "name", Gn5r);
    ThreeFieldNames("id", One, "codeName", Shangyuan, "sex", Male);
    var names, names' := ["id", "age", "name"], ["id", "codeName", "sex"];
    CommonNamesOfThree(names, names');
    assert names[0] in names' && names[1] !in names' && names[2] !in names';
    assert CommonFieldNames(a, c, []) == ["id"];
    ThreeReads("id", One, "age", Twenty, "name", Gn5r);
    ThreeReads("id", One, "codeName", Shangyuan, "sex", Male);
    assert ["id"][..0] == [];
  }

  /** The account's toMap: the three declared fields, the reserved ones left out. */
  lemma AccountFieldMap()
    ensures FieldMap(Account(One, Shangyuan, Male).fields, []) == map["id" := One, "codeName" := Shangyuan, "sex" := Male]
  {
    var f := Account(One, Shangyuan, Male).fields;
    assert f[..1][..0] == [] && f[..2][..1] == f[..1] && f[..3][..2] == f[..2];
    assert f[..4][..3] == f[..3] && f[..4] == f[..|f| - 1];
    assert FieldMap(f[..1], []) == map[];
    assert FieldMap(f[..2], []) == map["id" := One];
    assert FieldMap(f[..3], []) == map["id" := One, "codeName" := Shangyuan];
    assert FieldMap(f[..4], []) == map["id" := One, "codeName" := Shangyuan, "sex" := Male];
  }

  /**
   * The account of the test prints through toString. With its keys listed in
   * declaration order, its map renders as "id=1, codeName=shangyuan, sex=男".
   * That order is illustrative only: toString may produce any enumeration of
   * the keys, and OpenJDK's HashMap happens to list them as sex, codeName, id.
   */
  lemma AccountJoined()
    ensures Joined(["id", "codeName", "sex"], map["id" := One, "codeName" := Shangyuan, "sex" := Male]) ==
            "id=1, codeName=shangyuan, sex=男"
  {
    var m := map["id" := One, "codeName" := Shangyuan, "sex" := Male];
    var order := ["id", "codeName", "sex"];
    assert order[..2] == ["id", "codeName"] && order[..2][..1] == ["id"];
    assert Joined(["id"], m) == "id=1";
    assert Joined(order[..2], m) == "id=1, codeName=shangyuan";
  }

  /** The declaration order enumerates the account's keys. */
  lemma AccountEnumerated()
    ensures Enumerates(["id", "codeName", "sex"], map["id" := One, "codeName" := Shangyuan, "sex" := Male].Keys)
  {
    var m := map["id" := One, "codeName" := Shangyuan, "sex" := Male];
    assert m.Keys == {"id", "codeName", "sex"};
  }

  /**
   * Two users whose second field holds an ArrayList and a LinkedList with
   * the same element: the lists are equal, so diff reports nothing.
   */
  lemma UsersWithEqualLists()
    ensures Differences(User(One, ArrayListOfOne, Gn5r), User(One, LinkedListOfOne, Gn5rCopy), []) == []
  {
    var a, b := User(One, ArrayListOfOne, Gn5r), User(One, LinkedListOfOne, Gn5rCopy);
    UsersCommonFieldNames(One, ArrayListOfOne, Gn5r, One, LinkedListOfOne, Gn5rCopy);
    ThreeReads("id", One, "age", ArrayListOfOne, "name", Gn5r);
    ThreeReads("id", One, "age", LinkedListOfOne, "name", Gn5rCopy);
    CollectedOfThree(a, b, ["id", "age", "name"], false);
  }

  /**
   * Two users whose second field holds distinct objects of a class without
   * its own equals: the objects differ though they print alike.
   */
  lemma UsersWithDistinctTags()
    ensures Differences(User(One, Tag, Gn5r), User(One, TagCopy, Gn5rCopy), []) == [FieldValues("age", Tag, TagCopy)]
  {
    var a, b := User(One, Tag, Gn5r), User(One, TagCopy, Gn5rCopy);
    UsersCommonFieldNames(One, Tag, Gn5r, One, TagCopy, Gn5rCopy);
    ThreeReads("id", One, "age", Tag, "name", Gn5r);
    ThreeReads("id", One, "age", TagCopy, "name", Gn5rCopy);
    CollectedOfThree(a, b, ["id", "age", "name"], false);
  }
}
