/**
 * The strings of the repository's StringUtil test, measured in a runtime
 * that supports two encodings: MS932 and UTF8.
 */
module StringUtilExamples {
  import opened JavaLang
  import opened StringUtil

  /**
   * MS932 for the characters it maps: one byte for ASCII and half-width
   * katakana, two for every other character (kana, kanji, full-width forms).
   */
  function Ms932(c: char): nat {
    if c as int < 0x80 || 0xFF61 <= c as int <= 0xFF9F then 1 else 2
  }

  /** UTF-8: one to four bytes by code point. */
  function Utf8(c: char): nat {
    if c as int < 0x80 then 1 else if c as int < 0x800 then 2 else if c as int < 0x10000 then 3 else 4
  }

  const Runtime: Charsets := map["MS932" := Ms932, "UTF8" := Utf8]

  const Aiueo: string := "あいうえお"

  /** A string whose characters all encode to k bytes encodes to k bytes per character. */
  lemma {:induction false} EncodedUniform(charset: Charset, s: string, k: nat)
    requires forall i :: 0 <= i < |s| ==> charset(s[i]) == k
    ensures Encoded(charset, s) == k * |s|
  {
    if s != [] {
      EncodedUniform(charset, s[..|s| - 1], k);
    }
  }

  /** Hiragana (U+3041 to U+3096) take two bytes in MS932 and three in UTF-8. */
  lemma HiraganaBytes(s: string)
    requires forall i :: 0 <= i < |s| ==> '\U{3041}' <= s[i] <= '\U{3096}'
    ensures forall i :: 0 <= i < |s| ==> Ms932(s[i]) == 2 && Utf8(s[i]) == 3
  {
  }

  /** Hiragana take three bytes each in UTF-8 and two in MS932. */
  lemma AiueoByteLengths()
    ensures GetByteLength(Some(Aiueo), Some("UTF8"), Runtime) == 15
    ensures GetByteLengthDefault(Some(Aiueo), Runtime) == 10
    ensures GetByteLength(Some(Aiueo), Some("EBCDIC"), Runtime) == 0
  {
    HiraganaBytes(Aiueo);
    EncodedUniform(Utf8, Aiueo, 3);
    EncodedUniform(Ms932, Aiueo, 2);
    assert Runtime["UTF8"] == Utf8 && Runtime["MS932"] == Ms932;
  }

  /** "あい" fits in four MS932 bytes and the next character does not. */
  lemma AiFitsInFour()
    ensures CountedBytes("あい", Some(DefaultEncoding), Runtime) == 4
    ensures CharBytes(Aiueo[2], Some(DefaultEncoding), Runtime) == 2
  {
    var ai := "あい";
    assert Aiueo[2] == 'う';
    HiraganaBytes(ai);
    HiraganaBytes([Aiueo[2]]);
    assert Runtime["MS932"] == Ms932;
    EncodedUniform(Ms932, ai, 2);
    EncodedUniform(Ms932, [Aiueo[2]], 2);
    CountedBytesIsByteLength(ai, Some(DefaultEncoding), Runtime);
  }

  /** The only cut of "あいうえお" to four MS932 bytes is "あい". */
  lemma AiueoCutToFour(r: string)
    requires r <= Aiueo
    requires CountedBytes(r, Some(DefaultEncoding), Runtime) <= 4
    requires r != Aiueo ==>
      CountedBytes(r, Some(DefaultEncoding), Runtime) + CharBytes(Aiueo[|r|], Some(DefaultEncoding), Runtime) > 4
    ensures r == "あい"
  {
    AiFitsInFour();
    assert "あい" <= Aiueo && "あい" != Aiueo && Aiueo[|"あい"|] == Aiueo[2];
    CutIsUnique(Aiueo, 4, Some(DefaultEncoding), Runtime, r, "あい");
  }
}
