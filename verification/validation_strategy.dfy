/**
 * The user validator (strategy/ValidationStrategy.kt): it reports the first
 * rule a user breaks, checking first name, last name, email and phone in
 * that order. It is a pure function of the user; `dob` and `address` are
 * never looked at.
 */
module ValidationStrategy {
  import opened Users
  import opened Messages
  import opened ValidationResults
  import opened ValidationUtils
  import opened Text

  /** `UserValidationStrategy.validate`: the `when` chain, first match wins. */
  function Validate(user: User, isValidEmail: string -> bool): ValidationResult {
    if IsFieldBlank(user.firstName) then ValidationError(Resource(FirstNameEmpty))
    else if IsFieldBlank(user.lastName) then ValidationError(Resource(LastNameEmpty))
    else if IsFieldBlank(user.email) then ValidationError(Resource(EmailEmpty))
    else if !isValidEmail(user.email) then ValidationError(Resource(EmailInvalid))
    else if IsFieldBlank(user.phone) then ValidationError(Resource(PhoneEmpty))
    else if !IsValidPhone(user.phone) then ValidationError(Resource(PhoneInvalid))
    else ValidationSuccess()
  }

  /** The rule behind each error code, stated on its own. */
  predicate Breaks(user: User, isValidEmail: string -> bool, code: ErrorCode) {
    match code
    case FirstNameEmpty => IsFieldBlank(user.firstName)
    case LastNameEmpty => IsFieldBlank(user.lastName)
    case EmailEmpty => IsFieldBlank(user.email)
    case EmailInvalid => !isValidEmail(user.email)
    case PhoneEmpty => IsFieldBlank(user.phone)
    case PhoneInvalid => !IsValidPhone(user.phone)
  }

  /** The position of each rule in the priority order. */
  function Priority(code: ErrorCode): nat {
    match code
    case FirstNameEmpty => 0
    case LastNameEmpty => 1
    case EmailEmpty => 2
    case EmailInvalid => 3
    case PhoneEmpty => 4
    case PhoneInvalid => 5
  }

  /**
   * The validator reports `code` exactly when the user breaks that rule and
   * no rule of higher priority: the first broken rule wins.
   */
  lemma ReportsFirstBrokenRule(user: User, isValidEmail: string -> bool, code: ErrorCode)
    ensures Validate(user, isValidEmail) == ValidationError(Resource(code)) <==>
      Breaks(user, isValidEmail, code) &&
      forall c :: Priority(c) < Priority(code) ==> !Breaks(user, isValidEmail, c)
  {
    var v := Validate(user, isValidEmail);
    if v == ValidationError(Resource(code)) {
      forall c | Priority(c) < Priority(code)
        ensures !Breaks(user, isValidEmail, c)
      {
      }
    }
    if Breaks(user, isValidEmail, code) && forall c :: Priority(c) < Priority(code) ==> !Breaks(user, isValidEmail, c) {
      if Priority(code) > 0 { assert !Breaks(user, isValidEmail, FirstNameEmpty); }
      if Priority(code) > 1 { assert !Breaks(user, isValidEmail, LastNameEmpty); }
      if Priority(code) > 2 { assert !Breaks(user, isValidEmail, EmailEmpty); }
      if Priority(code) > 3 { assert !Breaks(user, isValidEmail, EmailInvalid); }
      if Priority(code) > 4 { assert !Breaks(user, isValidEmail, PhoneEmpty); }
    }
  }

  /** The result is `success()` exactly when no rule is broken. */
  lemma ValidIffNoRuleBroken(user: User, isValidEmail: string -> bool)
    ensures Validate(user, isValidEmail).IsValid() <==> forall c :: !Breaks(user, isValidEmail, c)
  {
    if !Validate(user, isValidEmail).IsValid() {
      var c := Validate(user, isValidEmail).message.code;
      assert Breaks(user, isValidEmail, c);
    }
  }

  /** A valid user has a non-blank first and last name, a valid email and a valid phone. */
  lemma ValidUserFields(user: User, isValidEmail: string -> bool)
    requires Validate(user, isValidEmail).IsValid()
    ensures !IsFieldBlank(user.firstName) && !IsFieldBlank(user.lastName)
    ensures !IsFieldBlank(user.email) && isValidEmail(user.email)
    ensures IsValidPhone(user.phone)
  {
  }

  /** Neither the date of birth nor the address ever changes the outcome. */
  lemma IgnoresDobAndAddress(user: User, dob: string, address: string, isValidEmail: string -> bool)
    ensures Validate(user.(dob := dob, address := address), isValidEmail) == Validate(user, isValidEmail)
  {
  }

  /**
   * There is no date-of-birth rule: a user whose `dob` is not a calendar
   * date (February 29th of a common year) is accepted when the other fields
   * pass.
   */
  lemma AcceptsInvalidDob(isValidEmail: string -> bool)
    requires isValidEmail("test@example.com")
    ensures var user := User(0, "Test", "User", "test@example.com", "1234567890", "2023-02-29", "123 Test St");
      Validate(user, isValidEmail).IsValid() && !IsValidDate(user.dob)
  {
    var user := User(0, "Test", "User", "test@example.com", "1234567890", "2023-02-29", "123 Test St");
    TestUserPasses(user, isValidEmail);
    LeapDay2023Rejected();
  }

  /** The other fields of that user pass every rule. */
  lemma TestUserPasses(user: User, isValidEmail: string -> bool)
    requires user.firstName == "Test" && user.lastName == "User"
    requires user.email == "test@example.com" && user.phone == "1234567890"
    requires isValidEmail(user.email)
    ensures Validate(user, isValidEmail).IsValid()
  {
    assert !IsFieldBlank(user.firstName) by { assert !IsWhitespace(user.firstName[0]); }
    assert !IsFieldBlank(user.lastName) by { assert !IsWhitespace(user.lastName[0]); }
    assert !IsFieldBlank(user.email) by { assert !IsWhitespace(user.email[0]); }
    assert !IsFieldBlank(user.phone) by { assert !IsWhitespace(user.phone[0]); }
    PhoneExamples();
  }

  /** A user with every name, email and phone empty gets the first-name error. */
  lemma EmptyUserFailsOnFirstName(isValidEmail: string -> bool)
    ensures Validate(DefaultUser(), isValidEmail) == ValidationError(Resource(FirstNameEmpty))
  {
  }
}
