/**
 * The character sets the templates are drawn for and the processing step
 * reads back, one per category, in the order both steps visit them.
 */
module Charsets {
  const Uppercase: string := "ABCDEFGHIJKLMNOPQRSTUVWXYZ"
  const Lowercase: string := "abcdefghijklmnopqrstuvwxyz"
  const Numbers: string := "0123456789"
  const Symbols: string := "!@#$%^&*()+-=[]{};:'\",./<>?\\"

  /** A category name and its characters. */
  datatype Category = Category(name: string, chars: string)

  /** The categories, in dictionary order. */
  const Categories: seq<Category> := [
    Category("uppercase", Uppercase),
    Category("lowercase", Lowercase),
    Category("numbers", Numbers),
    Category("symbols", Symbols)
  ]

  /** The four categories in visiting order, with 26, 26, 10 and 28 characters. */
  lemma CategorySizes()
    ensures |Categories| == 4
    ensures Categories[0].name == "uppercase" && |Categories[0].chars| == 26
    ensures Categories[1].name == "lowercase" && |Categories[1].chars| == 26
    ensures Categories[2].name == "numbers" && |Categories[2].chars| == 10
    ensures Categories[3].name == "symbols" && |Categories[3].chars| == 28
  {
  }

  /** Python's `ord(c)`. */
  function Ord(c: char): nat
  {
    c as nat
  }
}
