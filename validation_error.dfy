/** Why a validation failed. */
module ValidationErrors {

  datatype ValidationError =
    | NotPresent             // "is required"
    | NotAbsent              // "should be blank"
    | InvalidValue           // the form could not convert the input
    | Custom(message: string)
}
