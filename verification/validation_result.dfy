/**
 * The result of a validation (util/ValidationResult.java). The Java class has
 * a private constructor and two factories, so a value is either the valid
 * result (no message) or an invalid one carrying the message it was built
 * with; the sum type states that directly.
 */
module ValidationResults {
  import opened Options
  import opened Messages

  datatype ValidationResult =
    | Valid
    | Invalid(message: Message)
  {
    /** `isValid()`. */
    predicate IsValid() {
      Valid?
    }

    /** `getErrorMessage()`: null for the valid result. */
    function GetErrorMessage(): (m: Option<Message>)
      ensures m.None? <==> IsValid()
      ensures Invalid? ==> m == Some(message)
    {
      match this
      case Valid => None
      case Invalid(msg) => Some(msg)
    }
  }

  /** `ValidationResult.success()`. */
  function ValidationSuccess(): (r: ValidationResult)
    ensures r.IsValid() && r.GetErrorMessage() == None
  {
    Valid
  }

  /** `ValidationResult.error(message)`. */
  function ValidationError(message: Message): (r: ValidationResult)
    ensures !r.IsValid() && r.GetErrorMessage() == Some(message)
  {
    Invalid(message)
  }

  /**
   * Every result is built by one of the two factories, and it is valid
   * exactly when it is the one built by `success()`.
   */
  lemma BuiltByFactories(r: ValidationResult)
    ensures r == ValidationSuccess() || exists m :: r == ValidationError(m)
    ensures r.IsValid() <==> r == ValidationSuccess()
  {
    if r.Invalid? {
      assert r == ValidationError(r.message);
    }
  }
}
