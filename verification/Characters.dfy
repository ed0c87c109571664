module Option {
  datatype Option<+T> = None | Some(value: T)
}

/** The character classes of the scanner's rules. */
module Characters {
  const NUL: char := '\0'
  const FORM_FEED: char := 12 as char

  predicate IsSpace(c: char) {
    c == '\t' || c == '\n' || c == FORM_FEED || c == '\r' || c == ' '
  }

  predicate IsDigit(c: char) {
    '0' <= c <= '9'
  }

  predicate IsNumeric(c: char) {
    c == '.' || IsDigit(c)
  }

  predicate IsName(c: char) {
    c != NUL && !IsSpace(c) && c != '"' && c != '(' && c != ')' && c != ',' && !IsDigit(c)
  }

  function DigitValue(c: char): (d: nat)
    requires IsDigit(c)
    ensures d < 10
  {
    c as int - '0' as int
  }

  function DigitChar(d: nat): (c: char)
    requires d < 10
    ensures IsDigit(c) && DigitValue(c) == d
  {
    ('0' as int + d) as char
  }
}
