/**
 * StringUtil: byte lengths of strings in a named character encoding, the
 * byte-bounded prefix cut, and nullToEmpty.
 *
 * A character encoding is abstracted as a cost per character, the number of
 * bytes it encodes to; the encodings the runtime supports form a table from
 * encoding name to cost. A name missing from the table is an encoding whose
 * lookup fails with UnsupportedEncodingException.
 */
module StringUtil {
  import opened JavaLang

  /** Bytes each character encodes to in one character encoding. */
  type Charset = char -> nat

  /** The encodings the runtime supports, by name. */
  type Charsets = map<string, Charset>

  /** Windows code page 932, the default Japanese encoding. */
  const DefaultEncoding: string := "MS932"

  /** StringUtils.isEmpty: null or of length zero. */
  predicate IsEmpty(s: Option<string>) {
    s.None? || s.value == ""
  }

  /** The encoding name getByteLength looks up: the default one for a null or empty name. */
  function EncodingName(encoding: Option<string>): (name: string)
    ensures IsEmpty(encoding) ==> name == DefaultEncoding
    ensures !IsEmpty(encoding) ==> name == encoding.value
  {
    if IsEmpty(encoding) then DefaultEncoding else encoding.value
  }

  /** The number of bytes `s` encodes to, character by character. */
  function Encoded(charset: Charset, s: string): nat {
    if s == [] then 0 else Encoded(charset, s[..|s| - 1]) + charset(s[|s| - 1])
  }

  /**
   * getByteLength(str, encoding): 0 for a null or empty string; otherwise
   * the length of the string's encoding in the named encoding (the default
   * one when the name is null or empty), or 0 when that encoding is
   * unsupported.
   */
  function GetByteLength(str: Option<string>, encoding: Option<string>, charsets: Charsets): (r: nat)
    ensures IsEmpty(str) || EncodingName(encoding) !in charsets ==> r == 0
    ensures !IsEmpty(str) && EncodingName(encoding) in charsets ==>
      r == Encoded(charsets[EncodingName(encoding)], str.value)
  {
    if IsEmpty(str) then 0
    else if EncodingName(encoding) in charsets then Encoded(charsets[EncodingName(encoding)], str.value)
    else 0
  }

  /**
   * getByteLength(str): the same lookup made with the default encoding
   * named directly, which is what the two-argument form does for a null
   * encoding.
   */
  function GetByteLengthDefault(str: Option<string>, charsets: Charsets): (r: nat)
    ensures r == GetByteLength(str, None, charsets)
    ensures r == GetByteLength(str, Some(DefaultEncoding), charsets)
  {
    if str.None? then 0
    else if str.value == "" then 0
    else if DefaultEncoding in charsets then Encoded(charsets[DefaultEncoding], str.value)
    else 0
  }

  /** The byte length of one character, as the cutting loop measures it. */
  function CharBytes(c: char, encoding: Option<string>, charsets: Charsets): nat {
    GetByteLength(Some([c]), encoding, charsets)
  }

  /** The running byte count of the cutting loop: the sum of CharBytes over `s`. */
  function CountedBytes(s: string, encoding: Option<string>, charsets: Charsets): nat {
    if s == [] then 0
    else CountedBytes(s[..|s| - 1], encoding, charsets) + CharBytes(s[|s| - 1], encoding, charsets)
  }

  /** The three guards of getByteLength: null or empty string, unsupported encoding. */
  lemma GetByteLengthZero(str: Option<string>, encoding: Option<string>, charsets: Charsets)
    ensures IsEmpty(str) ==> GetByteLength(str, encoding, charsets) == 0
    ensures EncodingName(encoding) !in charsets ==> GetByteLength(str, encoding, charsets) == 0
    ensures IsEmpty(encoding) ==>
      GetByteLength(str, encoding, charsets) == GetByteLength(str, Some(DefaultEncoding), charsets)
  {
  }

  /** Encoding is additive: the bytes of a concatenation are the bytes of its parts. */
  lemma {:induction false} EncodedAppend(charset: Charset, s: string, t: string)
    ensures Encoded(charset, s + t) == Encoded(charset, s) + Encoded(charset, t)
    decreases |t|
  {
    if t == [] {
      assert s + t == s;
    } else {
      var t' := t[..|t| - 1];
      assert (s + t)[..|s + t| - 1] == s + t';
      EncodedAppend(charset, s, t');
    }
  }

  /** The byte length of a concatenation is the sum of the byte lengths of its parts. */
  lemma GetByteLengthAppend(s: string, t: string, encoding: Option<string>, charsets: Charsets)
    ensures GetByteLength(Some(s + t), encoding, charsets) ==
      GetByteLength(Some(s), encoding, charsets) + GetByteLength(Some(t), encoding, charsets)
  {
    if s == [] {
      assert s + t == t;
    } else if t == [] {
      assert s + t == s;
    } else if EncodingName(encoding) in charsets {
      EncodedAppend(charsets[EncodingName(encoding)], s, t);
    }
  }

  /**
   * Measuring character by character gives the byte length of the whole
   * string, so the loop's running count is the byte length of what it has
   * kept.
   */
  lemma {:induction false} CountedBytesIsByteLength(s: string, encoding: Option<string>, charsets: Charsets)
    ensures CountedBytes(s, encoding, charsets) == GetByteLength(Some(s), encoding, charsets)
    decreases |s|
  {
    if s != [] {
      var init := s[..|s| - 1];
      assert s == init + [s[|s| - 1]];
      CountedBytesIsByteLength(init, encoding, charsets);
      GetByteLengthAppend(init, [s[|s| - 1]], encoding, charsets);
    }
  }

  /** The running count never decreases as the prefix grows. */
  lemma {:induction false} CountedBytesMonotone(p: string, q: string, encoding: Option<string>, charsets: Charsets)
    requires p <= q
    ensures CountedBytes(p, encoding, charsets) <= CountedBytes(q, encoding, charsets)
    decreases |q|
  {
    if |p| < |q| {
      var init := q[..|q| - 1];
      assert p <= init;
      CountedBytesMonotone(p, init, encoding, charsets);
    } else {
      assert p == q;
    }
  }

  /**
   * substring(str, length, encoding): the longest prefix of `str` whose byte
   * count in the encoding fits in `length` bytes, found greedily one
   * character at a time; "" for a null or empty string and for a negative
   * length.
   */
  method Substring(str: Option<string>, length: int, encoding: Option<string>, charsets: Charsets)
    returns (r: string)
    ensures IsEmpty(str) ==> r == ""
    ensures str.Some? ==> r <= str.value
    ensures length < 0 ==> r == ""
    ensures 0 <= length ==> CountedBytes(r, encoding, charsets) <= length
    ensures str.Some? && r != str.value ==>
      CountedBytes(r, encoding, charsets) + CharBytes(str.value[|r|], encoding, charsets) > length
  {
    if str.None? {
      return "";
    }
    if str.value == "" {
      return "";
    }
    var s := str.value;
    var ret := "";
    var cnt := 0;
    for i := 0 to |s|
      invariant ret == s[..i]
      invariant cnt == CountedBytes(ret, encoding, charsets)
      invariant 0 < i ==> cnt <= length
    {
      var tmp := s[i..i + 1];
      var byteLength := GetByteLength(Some(tmp), encoding, charsets);
      if cnt + byteLength > length {
        return ret;
      }
      assert s[..i + 1] == ret + tmp;
      assert (ret + tmp)[..|ret + tmp| - 1] == ret;
      ret := ret + tmp;
      cnt := cnt + byteLength;
    }
    assert s[..|s|] == s;
    return ret;
  }

  /** substring(str, length): the cut measured in the default encoding. */
  method SubstringDefault(str: Option<string>, length: int, charsets: Charsets) returns (r: string)
    ensures IsEmpty(str) ==> r == ""
    ensures str.Some? ==> r <= str.value
    ensures length < 0 ==> r == ""
    ensures 0 <= length ==> CountedBytes(r, Some(DefaultEncoding), charsets) <= length
    ensures str.Some? && r != str.value ==>
      CountedBytes(r, Some(DefaultEncoding), charsets) + CharBytes(str.value[|r|], Some(DefaultEncoding), charsets) > length
  {
    r := Substring(str, length, Some(DefaultEncoding), charsets);
  }

  /**
   * The prefix, bound and maximality the cut guarantees determine its
   * result: two prefixes that both satisfy them are the same string.
   */
  lemma CutIsUnique(s: string, length: int, encoding: Option<string>, charsets: Charsets, r1: string, r2: string)
    requires r1 <= s && r2 <= s
    requires CountedBytes(r1, encoding, charsets) <= length && CountedBytes(r2, encoding, charsets) <= length
    requires r1 != s ==> CountedBytes(r1, encoding, charsets) + CharBytes(s[|r1|], encoding, charsets) > length
    requires r2 != s ==> CountedBytes(r2, encoding, charsets) + CharBytes(s[|r2|], encoding, charsets) > length
    ensures r1 == r2
  {
    if |r1| < |r2| {
      ShorterIsNotMaximal(s, encoding, charsets, r1, r2);
    } else if |r2| < |r1| {
      ShorterIsNotMaximal(s, encoding, charsets, r2, r1);
    }
  }

  /** A shorter prefix can always be extended by one character within a longer one's count. */
  lemma ShorterIsNotMaximal(s: string, encoding: Option<string>, charsets: Charsets, short: string, long: string)
    requires short <= s && long <= s && |short| < |long|
    ensures short != s
    ensures CountedBytes(short, encoding, charsets) + CharBytes(s[|short|], encoding, charsets) <=
      CountedBytes(long, encoding, charsets)
  {
    var next := s[..|short| + 1];
    assert next[..|next| - 1] == short;
    assert next <= long;
    CountedBytesMonotone(next, long, encoding, charsets);
  }

  /** A string whose whole byte length fits is returned whole. */
  lemma CutKeepsWhatFits(s: string, length: int, encoding: Option<string>, charsets: Charsets, r: string)
    requires r <= s
    requires r != s ==> CountedBytes(r, encoding, charsets) + CharBytes(s[|r|], encoding, charsets) > length
    requires GetByteLength(Some(s), encoding, charsets) <= length
    ensures r == s
  {
    if r != s {
      ShorterIsNotMaximal(s, encoding, charsets, r, s);
      CountedBytesIsByteLength(s, encoding, charsets);
    }
  }

  /**
   * nullToEmpty: "" for null, the object's own text otherwise (unlike
   * String.valueOf, which gives "null" for null).
   */
  function NullToEmpty(cs: Value): (r: string)
    ensures cs.Null? ==> r == ""
    ensures cs.Ref? ==> r == ValueOf(cs)
  {
    match cs
    case Null => ""
    case Ref(_, _, text, _) => text
  }

  /** nullToEmpty agrees with String.valueOf on every non-null argument and nowhere else. */
  lemma NullToEmptyVersusValueOf(cs: Value)
    ensures NullToEmpty(cs) == ValueOf(cs) <==> cs.Ref?
  {
  }
}
