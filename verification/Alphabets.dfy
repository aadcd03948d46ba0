/**
 The characters that the readers of names take, by their ASCII codes (collectors/secrets.py,
 collectors/validate.py).
 */
module Alphabets {
  import DotEnv
  import Text
  import VerdictNames

  predicate IsLetter(code: int) {
    65 <= code <= 90 || 97 <= code <= 122
  }

  predicate IsDecimal(code: int) {
    48 <= code <= 57
  }

  /** Names of variables and words of a rule begin with a letter or an underscore, and go on with these or digits. */
  lemma NameCharacters(c: char)
    ensures var code := c as int;
            && (DotEnv.NameStart(c) <==> IsLetter(code) || code == 95)
            && (DotEnv.NamePart(c) <==> IsLetter(code) || code == 95 || IsDecimal(code))
            && (VerdictNames.StartsWord(c) <==> IsLetter(code) || code == 95)
            && (VerdictNames.InWord(c) <==> IsLetter(code) || code == 95 || IsDecimal(code))
  {
  }

  /** White space is the blank, the controls from tab to carriage return, and the four separators. */
  lemma WhiteSpace(c: char)
    ensures Text.IsSpace(c) <==> c as int == 32 || 9 <= c as int <= 13 || 28 <= c as int <= 31
  {
  }
}
