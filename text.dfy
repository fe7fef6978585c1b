/** Characters, character classes and small string helpers shared by the normalizer rules. */
module Text {

  type String = seq<char>

  const Space: char := ' '
  const Newline: char := '\n'
  const CarriageReturn: char := '\r'
  /** ZERO WIDTH NON-JOINER, the Persian "half-space". */
  const Zwnj: char := '\U{200C}'
  /** ARABIC TATWEEL (keshide), a purely decorative elongation mark. */
  const Keshide: char := '\U{0640}'

  const ArabicKaf: char := '\U{0643}'    // ك
  const ArabicYeh: char := '\U{064A}'    // ي
  const PersianKaf: char := '\U{06A9}'   // ک
  const PersianYeh: char := '\U{06CC}'   // ی
  const ArabicPercent: char := '\U{066A}' // ٪
  const Heh: char := '\U{0647}'          // ه
  const Meem: char := '\U{0645}'         // م
  const Noon: char := '\U{0646}'         // ن
  const Teh: char := '\U{062A}'          // ت
  const Reh: char := '\U{0631}'          // ر
  const Alef: char := '\U{0627}'         // ا
  const Dal: char := '\U{062F}'          // د
  const Beh: char := '\U{0628}'          // ب
  const Peh: char := '\U{067E}'          // پ

  /** Punctuation that takes no space before it and one space after it: ! : . ، ؛ ؟ » ] ) } */
  predicate IsPuncAfter(c: char)
  {
    || c == '!' || c == ':' || c == '.' || c == '\U{060C}' || c == '\U{061B}' || c == '\U{061F}'
    || c == '\U{00BB}' || c == ']' || c == ')' || c == '}'
  }

  /** Punctuation that takes one space before it and no space after it: « [ ( { */
  predicate IsPuncBefore(c: char)
  {
    c == '\U{00AB}' || c == '[' || c == '(' || c == '{'
  }

  predicate IsAsciiDigit(c: char)
  {
    '0' <= c <= '9'
  }

  /** Python's `\s` on text: the characters for which `str.isspace()` holds. */
  predicate IsWhitespace(c: char)
  {
    || '\U{0009}' <= c <= '\U{000D}'
    || '\U{001C}' <= c <= '\U{0020}'
    || c == '\U{0085}' || c == '\U{00A0}' || c == '\U{1680}'
    || '\U{2000}' <= c <= '\U{200A}'
    || c == '\U{2028}' || c == '\U{2029}' || c == '\U{202F}' || c == '\U{205F}' || c == '\U{3000}'
  }

  /** Python's `\d` on text: a Unicode decimal digit (general category Nd), one of the blocks of
      ten digits of the Basic Multilingual Plane; supplementary-plane blocks are not listed. */
  predicate IsDigit(c: char)
  {
    || '\U{0030}' <= c <= '\U{0039}' || '\U{0660}' <= c <= '\U{0669}' || '\U{06F0}' <= c <= '\U{06F9}'
    || '\U{07C0}' <= c <= '\U{07C9}' || '\U{0966}' <= c <= '\U{096F}' || '\U{09E6}' <= c <= '\U{09EF}'
    || '\U{0A66}' <= c <= '\U{0A6F}' || '\U{0AE6}' <= c <= '\U{0AEF}' || '\U{0B66}' <= c <= '\U{0B6F}'
    || '\U{0BE6}' <= c <= '\U{0BEF}' || '\U{0C66}' <= c <= '\U{0C6F}' || '\U{0CE6}' <= c <= '\U{0CEF}'
    || '\U{0D66}' <= c <= '\U{0D6F}' || '\U{0DE6}' <= c <= '\U{0DEF}' || '\U{0E50}' <= c <= '\U{0E59}'
    || '\U{0ED0}' <= c <= '\U{0ED9}' || '\U{0F20}' <= c <= '\U{0F29}' || '\U{1040}' <= c <= '\U{1049}'
    || '\U{1090}' <= c <= '\U{1099}' || '\U{17E0}' <= c <= '\U{17E9}' || '\U{1810}' <= c <= '\U{1819}'
    || '\U{1946}' <= c <= '\U{194F}' || '\U{19D0}' <= c <= '\U{19D9}' || '\U{1A80}' <= c <= '\U{1A89}'
    || '\U{1A90}' <= c <= '\U{1A99}' || '\U{1B50}' <= c <= '\U{1B59}' || '\U{1BB0}' <= c <= '\U{1BB9}'
    || '\U{1C40}' <= c <= '\U{1C49}' || '\U{1C50}' <= c <= '\U{1C59}' || '\U{A620}' <= c <= '\U{A629}'
    || '\U{A8D0}' <= c <= '\U{A8D9}' || '\U{A900}' <= c <= '\U{A909}' || '\U{A9D0}' <= c <= '\U{A9D9}'
    || '\U{A9F0}' <= c <= '\U{A9F9}' || '\U{AA50}' <= c <= '\U{AA59}' || '\U{ABF0}' <= c <= '\U{ABF9}'
    || '\U{FF10}' <= c <= '\U{FF19}'
  }

  lemma AsciiDigitIsDigit(c: char)
    requires IsAsciiDigit(c)
    ensures IsDigit(c)
  {
  }

  /** `s` with every occurrence of `c` deleted. */
  function Without(s: String, c: char): (r: String)
    ensures |r| <= |s|
  {
    if s == [] then []
    else if s[0] == c then Without(s[1..], c)
    else [s[0]] + Without(s[1..], c)
  }

  lemma {:induction false} WithoutConcat(a: String, b: String, c: char)
    ensures Without(a + b, c) == Without(a, c) + Without(b, c)
  {
    if a == [] {
      assert a + b == b;
    } else {
      assert (a + b)[0] == a[0];
      assert (a + b)[1..] == a[1..] + b;
      WithoutConcat(a[1..], b, c);
    }
  }

  lemma WithoutAbsent(s: String, c: char)
    requires c !in s
    ensures Without(s, c) == s
  {
    if s != [] {
      assert c !in s[1..];
      WithoutAbsent(s[1..], c);
    }
  }

  lemma {:induction false} WithoutRemoves(s: String, c: char)
    ensures c !in Without(s, c)
  {
    if s != [] {
      WithoutRemoves(s[1..], c);
    }
  }

  lemma {:induction false} WithoutOnly(s: String, c: char)
    requires forall k :: 0 <= k < |s| ==> s[k] == c
    ensures Without(s, c) == []
  {
    if s != [] {
      WithoutOnly(s[1..], c);
    }
  }

  /** Dropping a leading stretch made only of `c` does not change what `Without` keeps. */
  lemma WithoutSkip(s: String, i: nat, n: nat, c: char)
    requires i + n <= |s|
    requires forall k :: i <= k < i + n ==> s[k] == c
    ensures Without(s[i..], c) == Without(s[i + n..], c)
  {
    assert s[i..] == s[i..i + n] + s[i + n..];
    WithoutConcat(s[i..i + n], s[i + n..], c);
    WithoutOnly(s[i..i + n], c);
  }

  /** A leading character other than `c` is kept. */
  lemma WithoutKeeps(s: String, i: nat, c: char)
    requires i < |s| && s[i] != c
    ensures Without(s[i..], c) == [s[i]] + Without(s[i + 1..], c)
  {
    assert s[i..][0] == s[i] && s[i..][1..] == s[i + 1..];
  }
}
