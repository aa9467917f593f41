/** The closed error taxonomy of the attribute builder (src/errors.rs). */
module Errors {

  /** The diagnostic the URI parser attaches to a rejected string; its contents belong to the parser. */
  datatype UriDiagnostic = UriDiagnostic(detail: string)

  datatype HtmxError =
    | EmptyAttrs                    // the collection held no attributes
    | InvalidUri(diag: UriDiagnostic) // the URI parser rejected a request's URI
}
