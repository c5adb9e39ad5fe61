/**
  The short-code format shared by the server route and the dashboard:
  CODE_REGEX, `/^[A-Za-z0-9]{6,8}$/`, and the 62-character alphabet the
  generator draws from.
 */
module CodeFormat {
  import opened JsText

  const Uppercase: string := "ABCDEFGHIJKLMNOPQRSTUVWXYZ"
  const Lowercase: string := "abcdefghijklmnopqrstuvwxyz"
  const Digits: string := "0123456789"

  /** The `chars` string of generateCode: the upper-case letters, then the
      lower-case letters, then the digits. */
  const Alphabet: string := Uppercase + Lowercase + Digits

  const MinCodeLength: nat := 6
  const MaxCodeLength: nat := 8

  /** The character class `[A-Za-z0-9]`, case-sensitive, ASCII only. */
  predicate IsAlphanumeric(c: char) {
    ('A' <= c <= 'Z') || ('a' <= c <= 'z') || ('0' <= c <= '9')
  }

  /** `CODE_REGEX.test(s)`: the regex has no flags, so `^` and `$` anchor
      at the ends of the whole string. A match is a string of 6 to 8
      characters, each one of the generator's alphabet. */
  predicate MatchesCodeRegex(s: string)
    ensures MatchesCodeRegex(s) <==>
              MinCodeLength <= |s| <= MaxCodeLength && forall i :: 0 <= i < |s| ==> s[i] in Alphabet
  {
    AlphabetIsCharClass();
    MinCodeLength <= |s| <= MaxCodeLength
    && forall i :: 0 <= i < |s| ==> IsAlphanumeric(s[i])
  }

  /** The generator's alphabet is exactly the regex's character class, with
      no character listed twice, so every drawn character is one of 62
      equally likely ones. */
  lemma AlphabetIsCharClass()
    ensures |Alphabet| == 62
    ensures forall c :: c in Alphabet <==> IsAlphanumeric(c)
    ensures forall i, j :: 0 <= i < j < |Alphabet| ==> Alphabet[i] != Alphabet[j]
  {
    forall k | 0 <= k < |Alphabet| ensures Alphabet[k] as int == AlphabetCodePoint(k) {
      AlphabetAt(k);
    }
    forall c | IsAlphanumeric(c) ensures c in Alphabet {
      var k := if 'A' <= c <= 'Z' then c as int - 'A' as int
               else if 'a' <= c <= 'z' then 26 + c as int - 'a' as int
               else 52 + c as int - '0' as int;
      AlphabetAt(k);
      assert Alphabet[k] == c;
    }
  }

  /** The code point at position `k` of the alphabet: upper case, then
      lower case, then digits, each in ascending order. */
  function AlphabetCodePoint(k: int): int {
    if k < 26 then 'A' as int + k
    else if k < 52 then 'a' as int + (k - 26)
    else '0' as int + (k - 52)
  }

  lemma AlphabetAt(k: int)
    requires 0 <= k < |Alphabet|
    ensures Alphabet[k] as int == AlphabetCodePoint(k)
  {
    if k < 26 {
      UppercaseAt(k);
    } else if k < 52 {
      LowercaseAt(k - 26);
    } else {
      DigitsAt(k - 52);
    }
  }

  lemma UppercaseAt(k: int)
    requires 0 <= k < |Uppercase|
    ensures Uppercase[k] as int == 'A' as int + k
  {
  }

  lemma LowercaseAt(k: int)
    requires 0 <= k < |Lowercase|
    ensures Lowercase[k] as int == 'a' as int + k
  {
  }

  lemma DigitsAt(k: int)
    requires 0 <= k < |Digits|
    ensures Digits[k] as int == '0' as int + k
  {
  }

  /** No alphanumeric character is white space. */
  lemma AlphanumericIsNotWhiteSpace(c: char)
    requires IsAlphanumeric(c)
    ensures !IsWhiteSpace(c)
  {
  }

  /** A code that matches the regex is unchanged by `trim`. */
  lemma RegexMatchIsTrimmed(s: string)
    requires MatchesCodeRegex(s)
    ensures Trim(s) == s
  {
    AlphanumericIsNotWhiteSpace(s[0]);
    AlphanumericIsNotWhiteSpace(s[|s| - 1]);
    TrimFixesUnpadded(s);
  }
}
