# common-utils4j in Dafny

This project is a Dafny model of the utility classes of common-utils4j. It
proves properties of each model.

- **ObjectUtil** compares two objects field by field through reflection. It offers:
  - `getFieldNames`: the comparable field names of one object;
  - `getSameFieldNames`: the names two objects share;
  - `diff` / `same`: the fields whose values differ, or are equal;
  - `check`: whether any field differs;
  - `toMap` / `toString`: a single-object dump.
- **Difference** is the record that `diff` and `same` return: a field name plus the two values.
- **ArrayUtil** builds new arrays with `push` and `unshift` and searches with `findIndex`.
- **StringUtil** measures strings in bytes (`getByteLength`), cuts a string to a byte budget (`substring`) and offers `nullToEmpty`.
- **DateUtil** computes the Japanese fiscal year (nendo, from April) and half (hanki) of a date given as text. Its `diff` subtracts two such values.

Modelling choices:

- A Java reference is `JavaLang.Value`: either `Null`, or an object with an address, a runtime class, its `toString` text and the way its class's `equals` decides. That is either identity (the default `Object.equals`) or a key derived from the object's state. Objects of different classes can share a key, as equal `List`s do. The model assumes that an address names one object (`JavaLang.OneObjectPerAddress`); the datatype does not enforce it. The examples give every object its own address.
- `Objects.equals` is modelled as the library defines it.
- Reflection becomes data:
  - an object is its simple class name plus its declared fields, in the order `getDeclaredFields` lists them;
  - each field carries the outcome of reading it.
- Code that updates state in loops is modelled as methods with loop invariants:
  - `diff`, `same`, `check`, `toMap`, `toString`;
  - `push`, `unshift`, `findIndex`;
  - the byte-bounded `substring`.

  Each method is proved against a specification function or a direct property of its result. Separate lemmas prove properties of those functions.
- Difference is a class whose setters change its fields.
- The pure code is modelled as functions: `getFieldNames`, both `getSameFieldNames`, `getByteLength`, `nullToEmpty` and all of DateUtil.
- Java exceptions become the `Throws` case of a `Result`.
- DateUtil counts in half years rather than `double`s: the source's 2019.5 is 4039 here.

Where the documentation and the code disagree, the model follows the code:

- **`getNendoHanki` on 2020/03/01.** The comment at `DateUtil.java:61` calls this date the second half of fiscal 2019 but prints 2020.5. The code gives 2019.5 (`DateUtilExamples.March2020`).
- **`toString` field order.** `toString` lists the fields in the iteration order of a `HashMap`, not in declaration order. `ToString` promises only that the keys are some enumeration of the map's keys.
- **No same-type check.** `diff`, `same` and `check` compare objects of any two types by the names of their fields. The code has no strict same-type variant.
- **Mutable records.** `Difference` exposes setters. The model includes them.

## Model

| member | source | states |
|---|---|---|
| JavaLang.ObjectsEqualsMeaning | src/main/java/com/gn5r/common/utils/ObjectUtil.java:69 | Null equals only null, and the same object always equals itself. An object whose class keeps Object.equals equals no other object, whatever its text. Two distinct objects whose classes compare state are equal exactly when their keys agree, whatever their classes. |
| JavaLang.IdentityIgnoresText | src/main/java/com/gn5r/common/utils/ObjectUtil.java:69 | Two distinct objects with the default equals are unequal in both directions, even with the same class and text. |
| JavaLang.ObjectsEqualsReflexiveSymmetric | src/main/java/com/gn5r/common/utils/ObjectUtil.java:69 | Objects.equals is reflexive, and symmetric for every equals the model expresses. |
| JavaLang.ObjectsEqualsTransitive | src/main/java/com/gn5r/common/utils/ObjectUtil.java:69 | Objects.equals is transitive among values in which one address names one object. |
| Resource.Difference.Empty | src/main/java/com/gn5r/common/resource/Difference.java:18-20 | The no-argument constructor leaves field name, a and b null. |
| Resource.Difference.constructor | src/main/java/com/gn5r/common/resource/Difference.java:29-33 | The getters return exactly the three constructor arguments. |
| Resource.Difference.SetFieldName | src/main/java/com/gn5r/common/resource/Difference.java:40-42 | The name becomes the argument; a and b are unchanged. |
| Resource.Difference.SetLeft | src/main/java/com/gn5r/common/resource/Difference.java:49-51 | a becomes the argument (a String or null); the name and b are unchanged. |
| Resource.Difference.SetRight | src/main/java/com/gn5r/common/resource/Difference.java:58-60 | b becomes the argument (a String or null); the name and a are unchanged. |
| ObjectUtil.GetFieldNames | src/main/java/com/gn5r/common/utils/ObjectUtil.java:281-286 | NullPointerException exactly for a null object. Otherwise a name is listed iff it is a declared field name, is not excluded, and is not this$0 or serialVersionUID. |
| ObjectUtil.FieldNamesCount | src/main/java/com/gn5r/common/utils/ObjectUtil.java:283-285 | Every kept name appears as often as it is declared; every other name appears not at all. |
| ObjectUtil.FieldNamesInOrder | src/main/java/com/gn5r/common/utils/ObjectUtil.java:283-285 | The listed names keep their declaration order (a subsequence of the declared names). |
| ObjectUtil.CommonNames | src/main/java/com/gn5r/common/utils/ObjectUtil.java:370-372 | The common names are no more than a's names, and a name is among them iff it occurs in both lists. |
| ObjectUtil.CommonNamesCount | src/main/java/com/gn5r/common/utils/ObjectUtil.java:370-372 | A name of a that occurs in b is kept with its multiplicity in a. Other names do not appear. Membership means occurring in both lists. |
| ObjectUtil.CommonNamesInOrder | src/main/java/com/gn5r/common/utils/ObjectUtil.java:370-372 | The common names follow the order of the first list. |
| ObjectUtil.CommonNamesSymmetric | src/main/java/com/gn5r/common/utils/ObjectUtil.java:370-372 | Swapping the lists does not change which names are common. |
| ObjectUtil.CheckObjectNull | src/main/java/com/gn5r/common/utils/ObjectUtil.java:263-271 | Fails on a iff a is null; fails on b iff a is non-null and b is null; passes iff both are non-null. |
| ObjectUtil.GetSameFieldNames | src/main/java/com/gn5r/common/utils/ObjectUtil.java:353-360 | Null arguments fail as checkObjectNull does. Otherwise a name is in the result iff both objects declare it and it is neither excluded nor reserved. |
| ObjectUtil.CollectedMember | src/main/java/com/gn5r/common/utils/ObjectUtil.java:59-77 | A record is reported iff: its field is in the comparison unit, both reads succeed and yield the recorded values, and Objects.equals of those values is false (diff) or true (same). |
| ObjectUtil.CollectedInOrder | src/main/java/com/gn5r/common/utils/ObjectUtil.java:59-77 | The records follow the order of the comparison unit. |
| ObjectUtil.CollectedCount | src/main/java/com/gn5r/common/utils/ObjectUtil.java:59-77 | A wanted field is reported once per occurrence in the unit; any other field is not reported. |
| ObjectUtil.DiffSamePartition | src/main/java/com/gn5r/common/utils/ObjectUtil.java:59-160 | Each readable field of the unit is reported by exactly one of diff and same. An unreadable field is reported by neither. |
| ObjectUtil.DiffNonEmptyIff | src/main/java/com/gn5r/common/utils/ObjectUtil.java:101-121 | Some difference is reported iff some field of the unit is readable on both sides with unequal values. |
| ObjectUtil.NoDifferencesWithItself | src/main/java/com/gn5r/common/utils/ObjectUtil.java:59-77 | An object compared with itself has no differences. |
| ObjectUtil.ResultsRespectExclusions | src/main/java/com/gn5r/common/utils/ObjectUtil.java:57-59 | No reported field is excluded or reserved, and both objects declare every reported field. |
| ObjectUtil.CheckSymmetric | src/main/java/com/gn5r/common/utils/ObjectUtil.java:94-122 | check(a, b) and check(b, a) agree. |
| ObjectUtil.Diff | src/main/java/com/gn5r/common/utils/ObjectUtil.java:50-80 | NullPointerException for a null a (checked first) or b. Otherwise new Difference objects holding exactly the differing fields' records, in order. |
| ObjectUtil.Check | src/main/java/com/gn5r/common/utils/ObjectUtil.java:94-122 | Null arguments fail as in diff. Otherwise the result is true exactly when diff would report something; the loop stops at the first difference. |
| ObjectUtil.Same | src/main/java/com/gn5r/common/utils/ObjectUtil.java:137-163 | Null arguments fail as in diff. Otherwise new Difference objects holding exactly the equal fields' records, in order. |
| ObjectUtil.FieldMapKeys | src/main/java/com/gn5r/common/utils/ObjectUtil.java:296-314 | A name is a key iff it is kept and some field of that name is readable. Its value is a value read from such a field. |
| ObjectUtil.ToMap | src/main/java/com/gn5r/common/utils/ObjectUtil.java:296-314 | NullPointerException on null; otherwise the map of kept, readable fields. |
| ObjectUtil.ToMapAll | src/main/java/com/gn5r/common/utils/ObjectUtil.java:323-341 | Without exclusions, only the reserved names are filtered out. |
| ObjectUtil.TrimBuffered | src/main/java/com/gn5r/common/utils/ObjectUtil.java:200-207 | Removing the trailing ", " from the buffer leaves the entries joined by ", " after the "[". |
| ObjectUtil.BufferedIsJoined | src/main/java/com/gn5r/common/utils/ObjectUtil.java:200-203 | The loop's buffer is the joined entries followed by one ", ". |
| ObjectUtil.ToString | src/main/java/com/gn5r/common/utils/ObjectUtil.java:190-208 | NullPointerException on null. Otherwise SimpleName[k=v, ...], with the entries of toMap's result in some enumeration of its keys, each value rendered as String.valueOf renders it. An empty map gives SimpleName[]. |
| ObjectUtil.ToStringAll | src/main/java/com/gn5r/common/utils/ObjectUtil.java:236-254 | The same rendering of the map without exclusions. |
| ObjectUtilExamples.ThreeFieldNames | src/main/java/com/gn5r/common/utils/ObjectUtil.java:282-284 | For a javac-style field list (serialVersionUID first, this$0 last), getFieldNames yields the three declared names in order. |
| ObjectUtilExamples.UsersDiffer | src/test/java/com/gn5r/common/utils/ObjectUtilTest.java:15-20 | Users {1, 20, "gn5r"} and {1, 24, "gn5r"}: diff reports age alone, with 20 and 24. |
| ObjectUtilExamples.UsersMatch | src/test/java/com/gn5r/common/utils/ObjectUtilTest.java:15-20 | Same for those users reports id and name; the two names are distinct but equal strings. |
| ObjectUtilExamples.UsersWithEqualLists | src/main/java/com/gn5r/common/utils/ObjectUtil.java:50-80 | A field holding an ArrayList on one side and a LinkedList with the same element on the other is not a difference. |
| ObjectUtilExamples.UsersWithDistinctTags | src/main/java/com/gn5r/common/utils/ObjectUtil.java:50-80 | Distinct objects of a class without its own equals are a difference, though they print alike. |
| ObjectUtilExamples.UserAndAccountCompared | src/test/java/com/gn5r/common/utils/ObjectUtilTest.java:15-29 | A User and an Account share only id, and their ids are equal, so diff reports nothing. |
| ObjectUtilExamples.AccountFieldMap | src/test/java/com/gn5r/common/utils/ObjectUtilTest.java:25-34 | The test's account maps id, codeName and sex to 1, shangyuan and 男. |
| ObjectUtilExamples.AccountEnumerated | src/test/java/com/gn5r/common/utils/ObjectUtilTest.java:25-29 | The declaration order id, codeName, sex lists each key of the account's map once: a possible HashMap iteration order. |
| ObjectUtilExamples.AccountJoined | src/test/java/com/gn5r/common/utils/ObjectUtilTest.java:31-40 | In that order the account's entries join to "id=1, codeName=shangyuan, sex=男", so toString may print "Account[id=1, codeName=shangyuan, sex=男]". The order is illustrative; OpenJDK's HashMap lists sex, codeName, id. |
| ArrayUtil.Push | src/main/java/com/gn5r/common/utils/ArrayUtil.java:37-61 | Null for a null array; the same array for null elements. Otherwise a fresh array: the array's contents followed by the elements. |
| ArrayUtil.UnshiftAsWrittenLayout | src/main/java/com/gn5r/common/utils/ArrayUtil.java:93-99 | The array unshift builds as written, of length array plus elements. |
| ArrayUtil.UnshiftAsWritten | src/main/java/com/gn5r/common/utils/ArrayUtil.java:80-102 | unshift as written. ArrayIndexOutOfBoundsException when the array is longer than the elements. Otherwise a fresh array laid out by the loop's index tmp[length + i]. |
| ArrayUtil.UnshiftAsWrittenAgreesWhen | src/main/java/com/gn5r/common/utils/ArrayUtil.java:97-99 | The written loop gives elements followed by array when the lengths are equal or the array is empty. |
| ArrayUtil.UnshiftAsWrittenLosesLast | src/main/java/com/gn5r/common/utils/ArrayUtil.java:97-99 | When 0 < length(array) < length(elements), the last slot is left null where the documented result holds the array's last element. So the written loop departs from the documented result whenever that element is non-null. |
| ArrayUtil.UnshiftAsWrittenCounterexample | src/main/java/com/gn5r/common/utils/ArrayUtil.java:97-99 | unshift([x], y, z) builds [y, x, null], not [y, z, x]. |
| ArrayUtil.Unshift | src/main/java/com/gn5r/common/utils/ArrayUtil.java:63-102 | unshift as documented: null for a null array; the same array for null elements. Otherwise a fresh array: the elements followed by the array's contents. |
| ArrayUtil.FindIndex | src/main/java/com/gn5r/common/utils/ArrayUtil.java:115-131 | -1 for a null array or element. Otherwise the least index whose slot is Objects.equals to the element, or -1 when there is none; always within [-1, length). |
| StringUtil.EncodingName | src/main/java/com/gn5r/common/utils/StringUtil.java:177 | A null or empty encoding name means MS932; any other name is used as given. |
| StringUtil.GetByteLength | src/main/java/com/gn5r/common/utils/StringUtil.java:167-181 | 0 for a null or empty string, and 0 for an encoding the runtime does not support (the caught UnsupportedEncodingException). Otherwise it is the number of bytes the string encodes to in the named encoding, with MS932 for a null or empty name. |
| StringUtil.GetByteLengthZero | src/main/java/com/gn5r/common/utils/StringUtil.java:167-181 | 0 for a null or empty string and for an unsupported encoding. An empty encoding measures as MS932. |
| StringUtil.GetByteLengthAppend | src/main/java/com/gn5r/common/utils/StringUtil.java:177 | The byte length of a concatenation is the sum of the byte lengths of its parts, the empty string included. |
| StringUtil.GetByteLengthDefault | src/main/java/com/gn5r/common/utils/StringUtil.java:196-210 | The one-argument form equals the two-argument form with a null encoding and with "MS932". |
| StringUtil.CountedBytesIsByteLength | src/main/java/com/gn5r/common/utils/StringUtil.java:80-89 | Measuring one character at a time gives the byte length of the whole string. |
| StringUtil.CountedBytesMonotone | src/main/java/com/gn5r/common/utils/StringUtil.java:84-89 | The running byte count never decreases as the prefix grows. |
| StringUtil.Substring | src/main/java/com/gn5r/common/utils/StringUtil.java:110-136 | "" for a null or empty string and for a negative budget. Otherwise a prefix of the string whose byte count fits the budget, and maximal: the whole string, or the next character would exceed the budget. |
| StringUtil.SubstringDefault | src/main/java/com/gn5r/common/utils/StringUtil.java:67-93 | The same guarantees, measured in MS932. |
| StringUtil.CutIsUnique | src/main/java/com/gn5r/common/utils/StringUtil.java:76-92 | Prefix, bound and maximality determine the cut: two strings that satisfy them are equal. |
| StringUtil.CutKeepsWhatFits | src/main/java/com/gn5r/common/utils/StringUtil.java:76-92 | A string whose byte length fits the budget is returned whole. |
| StringUtil.NullToEmpty | src/main/java/com/gn5r/common/utils/StringUtil.java:149-151 | "" for null; the object's toString text otherwise. |
| StringUtil.NullToEmptyVersusValueOf | src/main/java/com/gn5r/common/utils/StringUtil.java:149-151 | nullToEmpty agrees with String.valueOf exactly on non-null arguments. |
| StringUtilExamples.AiueoByteLengths | src/test/java/com/gn5r/common/utils/StringUtilTest.java:15-16 | "あいうえお" is 15 bytes in UTF8 and 10 in MS932, and 0 in an unsupported encoding. |
| StringUtilExamples.AiueoCutToFour | src/test/java/com/gn5r/common/utils/StringUtilTest.java:17 | Cutting "あいうえお" to 4 MS932 bytes can only give "あい". |
| DateUtil.ReplaceNonWordIdempotent | src/main/java/com/gn5r/common/utils/DateUtil.java:168 | Replacing non-word characters by '-' a second time changes nothing. |
| DateUtil.ParseDate | src/main/java/com/gn5r/common/utils/DateUtil.java:161-169 | Today for a null date. Otherwise a parsed date writes back as yyyy-MM-dd to exactly the separator-normalised text. A failure is the DateTimeParseException on that text, raised exactly when it is not a valid ISO date. |
| DateUtil.ParseFormatted | src/main/java/com/gn5r/common/utils/DateUtil.java:168 | Parsing the yyyy-MM-dd form of a date gives the date back. |
| DateUtil.FormatParsed | src/main/java/com/gn5r/common/utils/DateUtil.java:168 | Whatever parses is the yyyy-MM-dd form of the date it parses to. |
| DateUtil.ParseDateAnySeparators | src/main/java/com/gn5r/common/utils/DateUtil.java:161-169 | A date written with any two non-word separators (2020/01/11, 2020-01-11, 2020.01.11) parses to that date. |
| DateUtil.ParseDateNormalised | src/main/java/com/gn5r/common/utils/DateUtil.java:168 | Normalising separators before calling parseDate does not change its result. |
| DateUtil.FiscalYear | src/main/java/com/gn5r/common/utils/DateUtil.java:124-126 | The year three months earlier: year - 1 for January to March, the year itself otherwise. DateTimeException below the minimum year. |
| DateUtil.HalfOfMonth | src/main/java/com/gn5r/common/utils/DateUtil.java:141-151 | 0 (first half) exactly for months 4 to 9, 1 (0.5) for the other months, never outside 0..1. |
| DateUtil.GetNendo | src/main/java/com/gn5r/common/utils/DateUtil.java:122-127 | Parse failures propagate. A parsed date succeeds exactly when its fiscal year is in range (DateTimeException otherwise). The value is year - 1 for January to March and the year for April to December. |
| DateUtil.GetHanki | src/main/java/com/gn5r/common/utils/DateUtil.java:140-152 | Parse failures propagate. Otherwise 0 exactly for months April to September and 1 (0.5) otherwise. |
| DateUtil.FiscalHalfYear | src/main/java/com/gn5r/common/utils/DateUtil.java:69-78 | Twice the fiscal year plus the half is the number of half years from April of year 0: (12 year + month - 4) / 6. |
| DateUtil.GetNendoHanki | src/main/java/com/gn5r/common/utils/DateUtil.java:69-78 | Parse failures propagate, and it succeeds exactly when the fiscal year is in range. The value is the date's half-year index. |
| DateUtil.HalfYearIndexMonotone | src/main/java/com/gn5r/common/utils/DateUtil.java:69-78 | A later month never has a smaller fiscal half-year value. |
| DateUtil.Diff | src/main/java/com/gn5r/common/utils/DateUtil.java:91-96 | Succeeds exactly when both getNendoHanki calls succeed, and is then a's half-year index minus b's. |
| DateUtil.DiffCountsHalfYears | src/main/java/com/gn5r/common/utils/DateUtil.java:91-96 | diff fails with a's failure first, then b's. Otherwise it is the difference of the two half-year indices. |
| DateUtil.DiffSelf | src/main/java/com/gn5r/common/utils/DateUtil.java:91-96 | diff(a, a) is 0 unless a fails. |
| DateUtil.DiffAntisymmetric | src/main/java/com/gn5r/common/utils/DateUtil.java:91-96 | diff(b, a) = -diff(a, b). |
| DateUtil.DiffFromToday | src/main/java/com/gn5r/common/utils/DateUtil.java:108-113 | diff(a) is diff(null, a): today's value minus a's. |
| DateUtilExamples.ParseSeparated | src/main/java/com/gn5r/common/utils/DateUtil.java:161-169 | Ten characters, digits around two non-word separators, parse to the date their digits name. |
| DateUtilExamples.March2020 | src/main/java/com/gn5r/common/utils/DateUtil.java:61 | 2020/03/01 gives 2019.5 (4039), the second half of fiscal 2019. |
| DateUtilExamples.April2020 | src/main/java/com/gn5r/common/utils/DateUtil.java:62 | 2020/04/12 gives 2020 (4040). |
| DateUtilExamples.January2020 | src/test/java/com/gn5r/common/utils/DateUtilTest.java:7-12 | 2020/01/11 gives 2019.5 (4039). |
| DateUtilExamples.July2019 | src/test/java/com/gn5r/common/utils/DateUtilTest.java:14-19 | 2019/07/29 gives 2019 (4038). |
| DateUtilExamples.FromJanuary2012 | src/test/java/com/gn5r/common/utils/DateUtilTest.java:21-26 | diff(null, "2012/01/02") is today's value minus 2011.5 (4023). |
| DateUtilExamples.NoThirtiethOfFebruary | src/main/java/com/gn5r/common/utils/DateUtil.java:168 | 2021/02/30 fails with DateTimeParseException on "2021-02-30". |
| DateUtilExamples.SingleDigitMonth | src/main/java/com/gn5r/common/utils/DateUtil.java:168 | 2020/1/11 fails with DateTimeParseException: the month needs two digits. |

## Left out

- Reflection itself is left out: getDeclaredFields, getDeclaredField, setAccessible and Field.get. An object is modelled as its list of fields, each with the outcome of reading it. The caught exceptions (NoSuchFieldException, IllegalArgumentException, IllegalAccessException) become a failed read that is skipped. Their printStackTrace output is left out.
- Exceptions the source does not catch are left out: setAccessible's InaccessibleObjectException and SecurityException, and a null `excludes` array.
- The exception message texts are left out; only the exception kind and the null argument are kept.
- ObjectUtil.ToString: the HashMap iteration order is not modelled. The contract allows any enumeration of the keys, so it is weaker than the actual output for one JVM.
- ObjectUtil.ToString: `$` in the `,\s$` pattern also matches before a final line terminator. The buffer never ends in one, so only a trailing ", " is modelled.
- JavaLang.ObjectsEquals: every class's equals is either identity or a comparison of a state key. So an equals that is asymmetric, inconsistent or throws is not modelled, and ObjectUtil.CheckSymmetric rests on that symmetry.
- ArrayUtil.Push: the component type of the new array is not modelled (Array.newInstance and the unchecked casts). An element of the wrong type raises ArrayStoreException in Java; the model stores any Value.
- ArrayUtil.Unshift: the same simplification applies.
- ArrayUtil.Push: the `int` sum `length + elemtLength` that sizes the new array is not modelled. Past Integer.MAX_VALUE it wraps negative, and Java throws NegativeArraySizeException where the model returns an array of the full length.
- ArrayUtil.Unshift: the same `int` sum is not modelled, with the same NegativeArraySizeException left out.
- The regular-expression `substring(str, regex)` is left out. It delegates entirely to java.util.regex.
- StringUtil.GetByteLength: String.getBytes is replaced by a table from encoding name to a per-character byte count. A name outside the table is the UnsupportedEncodingException case.
- StringUtil.GetByteLength is consequently additive over characters. The model does not capture stateful encodings (ISO-2022-JP escape sequences), encodings that add a byte-order mark on every call, or the replacement of unmappable characters. With a byte-order mark, as in plain "UTF-16", Java gives 6 bytes for "ab" where the per-character sum is 8, and substring charges 4 bytes per character.
- StringUtil.Substring: Java splits the string into UTF-16 code units; the model splits into Unicode scalar values. A supplementary character is one step here and two lone surrogates in Java.
- StringUtil.Substring: the 32-bit `int` arithmetic of `cnt + byteLength` is not modelled. It could only wrap for a budget near Integer.MAX_VALUE and a string of more than 2 GB.
- DateUtil.ParseDate: LocalDate.now() is a parameter. The source reads the clock separately in getNendo and getHanki, and again in each getNendoHanki call. The model uses one `today` throughout, so it does not capture a clock tick between the reads (for example across midnight on 31 March).
- DateUtil.ParseDate: negative years are not modelled. The `\W` replacement turns any one leading non-word character into `-`: a sign, a space, a slash, a full-width digit and so on. ISO_LOCAL_DATE then reads it as the sign of a negative year of 4 to 9 digits. So " 2020/01/11", "/2020/01/11" and "+2020/01/11" all give the date -2020-01-11, and "-20200/01/01" gives year -20200. The model throws DateTimeParseException on such input. On input without a leading non-word character the two agree at any year length: only four digits parse, because ISO_LOCAL_DATE refuses an unsigned year longer than four digits.
- DateUtil.GetNendoHanki: the `double` result is counted in half years; the model's value is twice the source's. The doubles involved are exact.
- The DateTimeFormatter constants of DateUtil and DateFormat are left out. They are declarations with no logic.
- Methods inherited from the Apache Commons Lang base classes (ObjectUtils, StringUtils, ArrayUtils, DateUtils) are left out. Only StringUtils.isEmpty, which the modelled code calls, is modelled.

## Findings

| source | as written | input that shows it | evidently intended | confidence | as-written member | corrected member |
|---|---|---|---|---|---|---|
| src/main/java/com/gn5r/common/utils/ArrayUtil.java:98 | `unshift` stores `array[i]` at `tmp[length + i]` | `unshift([x], y, z)` gives `[y, x, null]`; an array longer than the elements throws ArrayIndexOutOfBoundsException | store at `tmp[elemtLength + i]`, giving `[y, z, x]` (elements first, then the array) | not executed | ArrayUtil.UnshiftAsWrittenCounterexample | ArrayUtil.Unshift |
