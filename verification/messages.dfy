/**
 * Error messages. The validator looks its messages up in the app's localised
 * string resources; the model keeps the resource identifier instead of the
 * translated text. Messages built in code are kept as literal text.
 */
module Messages {

  /** The string resources the user validator reports (R.string.error_*). */
  datatype ErrorCode =
    | FirstNameEmpty
    | LastNameEmpty
    | EmailEmpty
    | EmailInvalid
    | PhoneEmpty
    | PhoneInvalid

  datatype Message =
    | Resource(code: ErrorCode)  // context.getString(R.string.<code>)
    | Text(text: string)         // a literal message written in the code
}
