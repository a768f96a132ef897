/** Document ids. MongoDB's `_id` values are ObjectIds; the model keeps them
    in their string form. */
module ObjectIds {
  import opened Text

  type PaperId = string
  type AdminId = string

  /** The string an ObjectId prints as: 24 lower-case hexadecimal digits.
      Every id the database hands out has this form. */
  predicate IsObjectId(s: string) {
    |s| == 24 && forall i :: 0 <= i < |s| ==> DigitValue(s[i]) < 16 && !('A' <= s[i] <= 'F')
  }

  /** A string Mongoose casts to an ObjectId: 24 hexadecimal digits in
      either case. The cast accepts more strings than ids print as. */
  predicate CastsToObjectId(s: string) {
    |s| == 24 && AllDigitsIn(s, 16)
  }

  /** Every printed id casts back. */
  lemma PrintedIdsCast(s: string)
    ensures IsObjectId(s) ==> CastsToObjectId(s)
  {
  }
}
