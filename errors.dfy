/** The ways building or combining a duration can fail. */
module Errors {

  datatype Failure =
      /** `Gamez\Duration\Exception\InvalidDuration::because($reason)` */
    | InvalidDuration(reason: string)
      /** the exception `new DateInterval($spec)` throws for a spec it cannot read */
    | UnknownOrBadFormat(spec: string)
      /** the free-form phrase parser did not recognise its input */
    | UnrecognisedPhrase(phrase: string)

  const NegativeResult := "A duration cannot be smaller than zero"
  const NegativeFactor := "A duration cannot be multiplied with a value smaller than zero"
}
