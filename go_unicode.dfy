/** The rune classes of Go's `unicode` package that `Convert` consults:
    `unicode.IsLetter`, `unicode.IsDigit` and `unicode.IsSpace`. Their Unicode
    tables are not reproduced; a `Classes` value stands for them, and every
    property of the model holds for every such value. */
module GoUnicode {

  datatype Classes = Classes(
    isLetter: char -> bool,
    isDigit: char -> bool,
    isSpace: char -> bool)

  /** The few facts about Go's tables that the model's lemmas rely on: the Morse
      symbols '.', '-' and ' ' are neither letters nor digits, '.' and '-' are
      not white space, and ' ', '\t' and '\n' are. */
  predicate GoFacts(u: Classes)
  {
    && !u.isLetter('.') && !u.isDigit('.')
    && !u.isLetter('-') && !u.isDigit('-')
    && !u.isLetter(' ') && !u.isDigit(' ')
    && !u.isSpace('.') && !u.isSpace('-')
    && u.isSpace(' ') && u.isSpace('\t') && u.isSpace('\n')
  }
}
