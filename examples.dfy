/** The sample programs of the repository, each with the result it is
    documented to produce. `SetValue` is not an instruction of this language,
    so a program that starts by setting the value starts here with an
    `Extend` of the empty initial value instead, and the `If` conditions are
    written as the literal string the current value is compared with. */
module Examples {
  import opened Typelang

  lemma AddStrings()
    ensures Run([Extend("a"), Extend("b"), Extend("c"), Extend("d")]) == Str("abcd")
  {
  }

  lemma ThirdCharUppercase()
    ensures Run([Extend("abcd"), RemoveFirstChar, RemoveFirstChar, Uppercase, FirstChar]) == Str("C")
  {
  }

  /** The third `RemoveFirstChar` meets the empty string. */
  lemma RemoveFromExhaustedString()
    ensures Run([Extend("ab"), RemoveFirstChar, RemoveFirstChar, RemoveFirstChar])
         == Exc(Exception("Empty string, cannot remove first character", RemoveFirstChar))
  {
  }

  lemma IfElse()
    ensures Run([Extend("a"),
                 If("a", [Extend("b")], [Extend("x")]),
                 If("b", [Extend("x")], [Extend("c")])]) == Str("abc")
  {
  }

  /** An exception that reaches an `If` comes out unchanged, whatever the
      branches. (`After` runs the `ifFalse` branch here, since an exception
      never equals the compared string, not even the empty one.) */
  lemma ExceptionPassesThroughIf()
    ensures Run([FirstChar, If("", [], [Extend("x")]), Extend("y")])
         == Exc(Exception("Empty string, cannot get first character", FirstChar))
  {
  }
}
