/** The <cctype> classifications the source uses, in the "C" locale (ASCII only). */
module CharClass {

  /** std::isalpha: an ASCII letter. */
  predicate IsAlpha(c: char)
  {
    ('a' <= c <= 'z') || ('A' <= c <= 'Z')
  }

  /** std::isdigit: an ASCII decimal digit. */
  predicate IsDigit(c: char)
  {
    '0' <= c <= '9'
  }

  /** std::isalnum: a letter or a digit. */
  predicate IsAlnum(c: char)
  {
    IsAlpha(c) || IsDigit(c)
  }
}
