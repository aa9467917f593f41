/**
 * The URI parser the builder consults. Only its pass/fail outcome and its
 * diagnostic are used, so it enters the model as a function value: every
 * serializer that needs it takes a `Validator` parameter.
 */
module Uri {
  import opened Errors

  datatype Verdict = Accepted | Rejected(diag: UriDiagnostic)

  /** Stands for `http::Uri::try_from`, with the parsed URI itself discarded. */
  type Validator = string -> Verdict

  predicate ValidUri(validate: Validator, s: string)
  {
    validate(s).Accepted?
  }
}
