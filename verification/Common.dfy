/** What several of the models need. */
module Common {

  datatype Option<+T> = None | Some(value: T)

  /** The character that ends a string in C. */
  const NUL: char := '\0'

  /** The character at `i`, where the text is followed by a NUL. */
  function At(text: string, i: nat): char {
    if i < |text| then text[i] else NUL
  }

  function Abs(x: int): nat {
    if x < 0 then -x else x
  }
}
