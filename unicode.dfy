/**
 * The Unicode general categories the bot consults, left abstract: which
 * runes are "symbol, other" (So), "symbol, modifier" (Sk), letters (L) and
 * numbers (N) is whatever the tables of the Go release say. Every property
 * of the model holds for every choice of tables.
 */
module Unicode {

  datatype Tables = Tables(
    otherSymbol: char -> bool,     // \p{So}
    modifierSymbol: char -> bool,  // \p{Sk}
    letter: char -> bool,          // \p{L}, also `unicode.IsLetter`
    number: char -> bool)          // \p{N}

  /** The class `[\p{So}\p{Sk}]`. */
  predicate IsSymbol(u: Tables, c: char) {
    u.otherSymbol(c) || u.modifierSymbol(c)
  }

  /** The class `[\p{L}\p{N}]`. */
  predicate IsWordChar(u: Tables, c: char) {
    u.letter(c) || u.number(c)
  }

  predicate NoSymbols(u: Tables, s: string) {
    forall i :: 0 <= i < |s| ==> !IsSymbol(u, s[i])
  }
}
